/** `encodeURIComponent`: the text is encoded as UTF-8, bytes of the
    unreserved set stay as characters and every other byte becomes `%` and two
    upper-case hexadecimal digits. The decoder undoes the byte level. */
module Uri {
  import opened Wrappers
  import opened Octets

  /** The bytes `encodeURIComponent` leaves alone: ASCII letters, digits and `-_.!~*'()`. */
  predicate Unreserved(b: byte) {
    || 0x41 <= b <= 0x5A || 0x61 <= b <= 0x7A || 0x30 <= b <= 0x39
    || b == 0x2D || b == 0x5F || b == 0x2E || b == 0x21 || b == 0x7E
    || b == 0x2A || b == 0x27 || b == 0x28 || b == 0x29
  }

  function EncodeByte(b: byte): (r: string)
    ensures Unreserved(b) ==> r == [b as char]
    ensures !Unreserved(b) ==> |r| == 3 && r[0] == '%'
  {
    if Unreserved(b) then [b as char] else ['%', HexDigit(b / 16), HexDigit(b % 16)]
  }

  function EncodeBytes(bs: seq<byte>): (r: string)
    ensures |r| >= |bs|
    ensures forall i :: 0 <= i < |r| ==> r[i] as int < 0x80
  {
    if bs == [] then [] else EncodeByte(bs[0]) + EncodeBytes(bs[1..])
  }

  /** The encoding is never shorter than the text and is plain ASCII. */
  function EncodeURIComponent(s: string): (r: string)
    ensures |r| >= |s|
    ensures forall i :: 0 <= i < |r| ==> r[i] as int < 0x80
  {
    EncodeBytes(Utf8(s))
  }

  /** Percent-decoding to bytes: `None` for a stray `%` or a bad hex digit. */
  function PercentDecode(t: string): (r: Option<seq<byte>>)
    decreases |t|
  {
    if t == [] then Some([])
    else if t[0] != '%' then
      if t[0] as int < 0x80 then
        match PercentDecode(t[1..])
        case None => None
        case Some(rest) => Some([t[0] as int as byte] + rest)
      else None
    else if |t| < 3 then None
    else match (HexValue(t[1]), HexValue(t[2]))
      case (Some(h), Some(l)) =>
        (match PercentDecode(t[3..])
         case None => None
         case Some(rest) => Some([h * 16 + l] + rest))
      case _ => None
  }

  lemma EncodeByteRoundTrip(b: byte, rest: string, tail: seq<byte>)
    requires PercentDecode(rest) == Some(tail)
    ensures PercentDecode(EncodeByte(b) + rest) == Some([b] + tail)
  {
    var e := EncodeByte(b);
    var t := e + rest;
    if Unreserved(b) {
      assert t[0] == b as char && t[1..] == rest;
    } else {
      HexRoundTrip(b / 16);
      HexRoundTrip(b % 16);
      assert t[1] == HexDigit(b / 16) && t[2] == HexDigit(b % 16);
      assert t[3..] == rest;
    }
  }

  /** Percent-decoding what `encodeURIComponent` wrote gives back the UTF-8 bytes. */
  lemma {:induction false} DecodeEncodeBytes(bs: seq<byte>)
    ensures PercentDecode(EncodeBytes(bs)) == Some(bs)
  {
    if bs != [] {
      DecodeEncodeBytes(bs[1..]);
      EncodeByteRoundTrip(bs[0], EncodeBytes(bs[1..]), bs[1..]);
      assert [bs[0]] + bs[1..] == bs;
    }
  }

  lemma {:induction false} Utf8Append(a: string, b: string)
    ensures Utf8(a + b) == Utf8(a) + Utf8(b)
  {
    if a == [] {
      assert a + b == b;
    } else {
      assert (a + b)[1..] == a[1..] + b;
      Utf8Append(a[1..], b);
    }
  }

  lemma {:induction false} EncodeBytesAppend(x: seq<byte>, y: seq<byte>)
    ensures EncodeBytes(x + y) == EncodeBytes(x) + EncodeBytes(y)
  {
    if x == [] {
      assert x + y == y;
    } else {
      assert (x + y)[1..] == x[1..] + y;
      EncodeBytesAppend(x[1..], y);
    }
  }

  /** Encoding distributes over concatenation. */
  lemma EncodeAppend(a: string, b: string)
    ensures EncodeURIComponent(a + b) == EncodeURIComponent(a) + EncodeURIComponent(b)
  {
    Utf8Append(a, b);
    EncodeBytesAppend(Utf8(a), Utf8(b));
  }

  /** Text made only of unreserved ASCII characters is left as it is. */
  lemma {:induction false} EncodeUnreserved(s: string)
    requires forall i :: 0 <= i < |s| ==> s[i] as int < 0x80 && Unreserved(s[i] as int)
    ensures EncodeURIComponent(s) == s
  {
    if s != [] {
      EncodeUnreserved(s[1..]);
      assert Utf8(s) == [s[0] as int] + Utf8(s[1..]);
      assert EncodeBytes(Utf8(s)) == [s[0]] + EncodeBytes(Utf8(s[1..]));
    }
  }

  lemma SpaceEncoded()
    ensures EncodeURIComponent(" ") == "%20"
  {
    assert Utf8(" ") == [0x20];
  }

  /** Joining two encoded words with an encoded space. */
  lemma EncodeSpaced(a: string, b: string)
    ensures EncodeURIComponent(a + " " + b)
         == EncodeURIComponent(a) + "%20" + EncodeURIComponent(b)
  {
    SpaceEncoded();
    EncodeAppend(a, " ");
    EncodeAppend(a + " ", b);
  }
}
