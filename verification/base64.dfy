/** Base 64 encoding with the standard alphabet and `=` padding, as in
    section 4 of RFC 4648 (what `btoa` produces), and the matching decoder. */
module Base64 {
  import opened Wrappers
  import opened Octets

  /** The character for a 6-bit value: `A`-`Z`, `a`-`z`, `0`-`9`, `+`, `/`. */
  function SextetChar(n: nat): (c: char)
    requires n < 64
    ensures c != '='
  {
    if n < 26 then (65 + n) as char
    else if n < 52 then (71 + n) as char
    else if n < 62 then (n - 4) as char
    else if n == 62 then '+'
    else '/'
  }

  /** The 6-bit value of an alphabet character, or `None` for any other character. */
  function SextetValue(c: char): (r: Option<nat>)
    ensures r.Some? ==> r.value < 64
  {
    if 'A' <= c <= 'Z' then Some(c as int - 65)
    else if 'a' <= c <= 'z' then Some(c as int - 71)
    else if '0' <= c <= '9' then Some(c as int + 4)
    else if c == '+' then Some(62)
    else if c == '/' then Some(63)
    else None
  }

  lemma SextetRoundTrip(n: nat)
    requires n < 64
    ensures SextetValue(SextetChar(n)) == Some(n)
  {
  }

  /** Three bytes as four characters. */
  function EncodeBlock(a: byte, b: byte, c: byte): (r: string)
    ensures |r| == 4
  {
    [SextetChar(a / 4), SextetChar((a % 4) * 16 + b / 16),
     SextetChar((b % 16) * 4 + c / 64), SextetChar(c % 64)]
  }

  /** `btoa` on the bytes: full blocks, then a one- or two-byte tail padded with `=`. */
  function Encode(bs: seq<byte>): (r: string)
    ensures |r| == 4 * ((|bs| + 2) / 3)
    ensures |r| % 4 == 0
  {
    if |bs| == 0 then []
    else if |bs| == 1 then [SextetChar(bs[0] / 4), SextetChar((bs[0] % 4) * 16), '=', '=']
    else if |bs| == 2 then
      [SextetChar(bs[0] / 4), SextetChar((bs[0] % 4) * 16 + bs[1] / 16), SextetChar((bs[1] % 16) * 4), '=']
    else EncodeBlock(bs[0], bs[1], bs[2]) + Encode(bs[3..])
  }

  /** Four 6-bit values back to the three bytes they carry. */
  function Join(w: nat, x: nat, y: nat, z: nat): (r: seq<byte>)
    requires w < 64 && x < 64 && y < 64 && z < 64
    ensures |r| == 3
  {
    [w * 4 + x / 16, (x % 16) * 16 + y / 4, (y % 4) * 64 + z]
  }

  /** Four characters back to up to three bytes; `=` is allowed only as the
      last one or two characters, and only when `last` says this is the final block. */
  function DecodeBlock(q: string, last: bool): (r: Option<seq<byte>>)
    requires |q| == 4
  {
    var w, x, y, z := SextetValue(q[0]), SextetValue(q[1]), SextetValue(q[2]), SextetValue(q[3]);
    if w.None? || x.None? then None
    else if y.Some? && z.Some? then Some(Join(w.value, x.value, y.value, z.value))
    else if !last || q[3] != '=' || z.Some? then None
    else if y.Some? then Some(Join(w.value, x.value, y.value, 0)[..2])
    else if q[2] == '=' then Some(Join(w.value, x.value, 0, 0)[..1])
    else None
  }

  /** `atob`: `None` for a string that is not well-formed base 64. */
  function Decode(s: string): (r: Option<seq<byte>>)
    decreases |s|
  {
    if s == [] then Some([])
    else if |s| < 4 then None
    else match DecodeBlock(s[..4], |s| == 4)
      case None => None
      case Some(head) =>
        match Decode(s[4..])
        case None => None
        case Some(tail) => Some(head + tail)
  }

  /** Splitting `k * 16 + r` with `r < 16` recovers `k` and `r`. */
  lemma Split16(k: nat, r: nat)
    requires r < 16
    ensures (k * 16 + r) / 16 == k && (k * 16 + r) % 16 == r
  {
  }

  /** Splitting `k * 4 + r` with `r < 4` recovers `k` and `r`. */
  lemma Split4(k: nat, r: nat)
    requires r < 4
    ensures (k * 4 + r) / 4 == k && (k * 4 + r) % 4 == r
  {
  }

  /** The bytes recovered from the sextets of a block are the bytes that made them. */
  lemma BlockArithmetic(a: byte, b: byte, c: byte)
    ensures a / 4 * 4 + ((a % 4) * 16 + b / 16) / 16 == a
    ensures (((a % 4) * 16 + b / 16) % 16) * 16 + ((b % 16) * 4 + c / 64) / 4 == b
    ensures (((b % 16) * 4 + c / 64) % 4) * 64 + c % 64 == c
  {
    Split16(a % 4, b / 16);
    Split4(b % 16, c / 64);
  }

  lemma BlockRoundTrip(a: byte, b: byte, c: byte)
    ensures DecodeBlock(EncodeBlock(a, b, c), false) == Some([a, b, c])
    ensures DecodeBlock(EncodeBlock(a, b, c), true) == Some([a, b, c])
  {
    var w, x, y, z := a / 4, (a % 4) * 16 + b / 16, (b % 16) * 4 + c / 64, c % 64;
    SextetRoundTrip(w);
    SextetRoundTrip(x);
    SextetRoundTrip(y);
    SextetRoundTrip(z);
    BlockArithmetic(a, b, c);
  }

  /** A one-byte tail: two characters and `==`. */
  lemma DecodeEncodeOne(bs: seq<byte>)
    requires |bs| == 1
    ensures Decode(Encode(bs)) == Some(bs)
  {
    SextetRoundTrip(bs[0] / 4);
    SextetRoundTrip((bs[0] % 4) * 16);
    BlockArithmetic(bs[0], 0, 0);
    var s := Encode(bs);
    assert s[..4] == s && s[4..] == [];
    assert SextetValue(s[0]) == Some(bs[0] / 4);
    assert SextetValue(s[1]) == Some((bs[0] % 4) * 16);
    assert s[2] == '=' && s[3] == '=';
    assert SextetValue('=') == None;
    var j := Join(bs[0] / 4, (bs[0] % 4) * 16, 0, 0);
    assert j[0] == bs[0];
    assert DecodeBlock(s, true) == Some(j[..1]);
    assert j[..1] == [bs[0]];
    assert Decode(s[4..]) == Some([]);
    assert j[..1] + [] == bs;
  }

  /** A two-byte tail: three characters and `=`. */
  lemma DecodeEncodeTwo(bs: seq<byte>)
    requires |bs| == 2
    ensures Decode(Encode(bs)) == Some(bs)
  {
    SextetRoundTrip(bs[0] / 4);
    SextetRoundTrip((bs[0] % 4) * 16 + bs[1] / 16);
    SextetRoundTrip((bs[1] % 16) * 4);
    BlockArithmetic(bs[0], bs[1], 0);
    var s := Encode(bs);
    assert s[..4] == s && s[4..] == [];
    assert SextetValue(s[0]) == Some(bs[0] / 4);
    assert SextetValue(s[1]) == Some((bs[0] % 4) * 16 + bs[1] / 16);
    assert SextetValue(s[2]) == Some((bs[1] % 16) * 4);
    assert s[3] == '=';
    assert SextetValue('=') == None;
    var j := Join(bs[0] / 4, (bs[0] % 4) * 16 + bs[1] / 16, (bs[1] % 16) * 4, 0);
    assert j[0] == bs[0] && j[1] == bs[1];
    assert DecodeBlock(s, true) == Some(j[..2]);
    assert j[..2] == [bs[0], bs[1]];
    assert Decode(s[4..]) == Some([]);
    assert j[..2] + [] == bs;
  }

  /** Decoding what `Encode` produced gives back the bytes. */
  lemma {:induction false} DecodeEncode(bs: seq<byte>)
    ensures Decode(Encode(bs)) == Some(bs)
    decreases |bs|
  {
    if |bs| == 1 {
      DecodeEncodeOne(bs);
    } else if |bs| == 2 {
      DecodeEncodeTwo(bs);
    } else if |bs| >= 3 {
      var s := Encode(bs);
      var rest := bs[3..];
      assert s[..4] == EncodeBlock(bs[0], bs[1], bs[2]);
      assert s[4..] == Encode(rest);
      BlockRoundTrip(bs[0], bs[1], bs[2]);
      DecodeEncode(rest);
      assert [bs[0], bs[1], bs[2]] + rest == bs;
    }
  }
}
