/** `encodeURIComponent` (section 19.2.6 of ECMA-262): every character outside
    the unreserved set is written as the `%XX` escapes of its UTF-8 bytes
    (section 2.1 of RFC 3986, upper-case hexadecimal). The unreserved set is
    that of section 2.3 of RFC 3986 together with the marks `! * ' ( )`.
    `Decode` reverses the escaping; the round trip is proved below. */
module UriComponent {
  import opened Outcomes

  /** The characters `encodeURIComponent` leaves as they are. */
  predicate Unreserved(c: char)
  {
    || ('A' <= c <= 'Z') || ('a' <= c <= 'z') || ('0' <= c <= '9')
    || c == '-' || c == '_' || c == '.' || c == '~'
    || c == '!' || c == '*' || c == '\'' || c == '(' || c == ')'
  }

  type Byte = b: int | 0 <= b < 256

  /** The code points a Dafny `char` can hold: the Unicode scalar values. */
  predicate IsScalar(cp: int)
  {
    (0 <= cp < 0xD800) || (0xE000 <= cp < 0x11_0000)
  }

  /** The UTF-8 encoding of a scalar value, one to four bytes. */
  function Utf8(cp: int): (bytes: seq<Byte>)
    requires IsScalar(cp)
    ensures 1 <= |bytes| <= 4
  {
    var q1 := cp / 64;
    var q2 := q1 / 64;
    var q3 := q2 / 64;
    if cp < 0x80 then [cp]
    else if cp < 0x800 then [0xC0 + q1, 0x80 + cp % 64]
    else if cp < 0x1_0000 then [0xE0 + q2, 0x80 + q1 % 64, 0x80 + cp % 64]
    else [0xF0 + q3, 0x80 + q2 % 64, 0x80 + q1 % 64, 0x80 + cp % 64]
  }

  /** An upper-case hexadecimal digit. */
  function HexDigit(d: int): (c: char)
    requires 0 <= d < 16
    ensures ('0' <= c <= '9') || ('A' <= c <= 'F')
  {
    if d < 10 then ('0' as int + d) as char else ('A' as int + d - 10) as char
  }

  /** The value of a hexadecimal digit of either case. */
  function HexValue(c: char): (r: Option<int>)
    ensures r.Some? ==> 0 <= r.value < 16
  {
    if '0' <= c <= '9' then Some(c as int - '0' as int)
    else if 'A' <= c <= 'F' then Some(c as int - 'A' as int + 10)
    else if 'a' <= c <= 'f' then Some(c as int - 'a' as int + 10)
    else None
  }

  /** `%XX` for one byte. */
  function PercentByte(b: Byte): (s: string)
    ensures |s| == 3
  {
    ['%', HexDigit(b / 16), HexDigit(b % 16)]
  }

  function PercentBytes(bytes: seq<Byte>): (s: string)
    ensures |s| == 3 * |bytes|
  {
    if bytes == [] then [] else PercentByte(bytes[0]) + PercentBytes(bytes[1..])
  }

  /** What `encodeURIComponent` writes for one character. */
  function EncodeChar(c: char): (s: string)
    ensures forall i :: 0 <= i < |s| ==> Unreserved(s[i]) || s[i] == '%'
    ensures Unreserved(c) ==> s == [c]
    ensures !Unreserved(c) ==> |s| >= 3 && s[0] == '%'
  {
    if Unreserved(c) then [c]
    else
      var s := PercentBytes(Utf8(c as int));
      PercentBytesAlphabet(Utf8(c as int));
      s
  }

  lemma {:induction false} PercentBytesAlphabet(bytes: seq<Byte>)
    ensures forall i :: 0 <= i < |PercentBytes(bytes)| ==>
      Unreserved(PercentBytes(bytes)[i]) || PercentBytes(bytes)[i] == '%'
  {
    if bytes != [] {
      PercentBytesAlphabet(bytes[1..]);
    }
  }

  /** Escapes are written with upper-case hexadecimal digits. */
  lemma {:induction false} PercentBytesUpperHex(bytes: seq<Byte>)
    ensures forall i :: 0 <= i < |PercentBytes(bytes)| ==>
      var c := PercentBytes(bytes)[i];
      c == '%' || ('0' <= c <= '9') || ('A' <= c <= 'F')
  {
    if bytes != [] {
      var s := PercentBytes(bytes);
      var rest := PercentBytes(bytes[1..]);
      PercentBytesUpperHex(bytes[1..]);
      assert s == PercentByte(bytes[0]) + rest;
      forall i | 3 <= i < |s| ensures s[i] == rest[i - 3] {
      }
    }
  }

  /** An escaped character is written as `%` and upper-case hexadecimal digits
      only, never with `a`-`f`. */
  lemma EscapeUpperHex(c: char)
    requires !Unreserved(c)
    ensures forall i :: 0 <= i < |EncodeChar(c)| ==>
      var d := EncodeChar(c)[i];
      d == '%' || ('0' <= d <= '9') || ('A' <= d <= 'F')
  {
    PercentBytesUpperHex(Utf8(c as int));
  }

  /** `encodeURIComponent(s)`: its output holds only unreserved characters and
      `%`, so no space, `&`, `=`, `?`, `#` or `/`. */
  function EncodeURIComponent(s: string): (r: string)
    ensures forall i :: 0 <= i < |r| ==> Unreserved(r[i]) || r[i] == '%'
    ensures |r| >= |s|
  {
    if s == [] then [] else EncodeChar(s[0]) + EncodeURIComponent(s[1..])
  }

  // ----------------------------------------------------------------------
  // Decoding

  /** The byte written as `%XX` at position `i`, if there is one. */
  function ByteAt(s: string, i: nat): (r: Option<int>)
    ensures r.Some? ==> i + 3 <= |s| && 0 <= r.value < 256
  {
    if i + 3 <= |s| && s[i] == '%' then
      match (HexValue(s[i + 1]), HexValue(s[i + 2]))
      case (Some(hi), Some(lo)) => Some(hi * 16 + lo)
      case _ => None
    else None
  }

  /** The six payload bits of a UTF-8 continuation byte escaped at position `i`. */
  function ContAt(s: string, i: nat): (r: Option<int>)
    ensures r.Some? ==> i + 3 <= |s| && 0 <= r.value < 64
  {
    var b :- ByteAt(s, i);
    if 0x80 <= b < 0xC0 then Some(b - 0x80) else None
  }

  /** The character a run of escapes starting at the front of `s` encodes, and
      how many characters of `s` the run takes. */
  function DecodeEscape(s: string): (r: Option<(char, nat)>)
    ensures r.Some? ==> 3 <= r.value.1 <= |s|
  {
    var b0 :- ByteAt(s, 0);
    if b0 < 0x80 then Some((b0 as char, 3))
    else if 0xC0 <= b0 < 0xE0 then
      var c1 :- ContAt(s, 3);
      var cp := (b0 - 0xC0) * 64 + c1;
      if 0x80 <= cp then Some((cp as char, 6)) else None
    else if 0xE0 <= b0 < 0xF0 then
      var c1 :- ContAt(s, 3);
      var c2 :- ContAt(s, 6);
      var cp := ((b0 - 0xE0) * 64 + c1) * 64 + c2;
      if 0x800 <= cp && IsScalar(cp) then Some((cp as char, 9)) else None
    else if 0xF0 <= b0 < 0xF8 then
      var c1 :- ContAt(s, 3);
      var c2 :- ContAt(s, 6);
      var c3 :- ContAt(s, 9);
      var cp := (((b0 - 0xF0) * 64 + c1) * 64 + c2) * 64 + c3;
      if 0x1_0000 <= cp < 0x11_0000 then Some((cp as char, 12)) else None
    else None
  }

  /** `decodeURIComponent(s)`, or None where it would throw a URIError. */
  function Decode(s: string): Option<string>
    decreases |s|
  {
    if s == [] then Some([])
    else if s[0] != '%' then
      var rest :- Decode(s[1..]);
      Some([s[0]] + rest)
    else
      match DecodeEscape(s)
      case None => None
      case Some(cn) =>
        var rest :- Decode(s[cn.1..]);
        Some([cn.0] + rest)
  }

  /** `Some(p + r)` when `o` is `Some(r)`. */
  function Prepend(p: string, o: Option<string>): Option<string>
  {
    match o
    case Some(r) => Some(p + r)
    case None => None
  }

  lemma HexRoundTrip(d: int)
    requires 0 <= d < 16
    ensures HexValue(HexDigit(d)) == Some(d)
  {
  }

  /** The `k`-th escape of a run of escaped bytes reads back as the `k`-th byte. */
  lemma {:induction false} ByteAtPercentBytes(bytes: seq<Byte>, t: string, k: nat)
    requires k < |bytes|
    ensures ByteAt(PercentBytes(bytes) + t, 3 * k) == Some(bytes[k])
  {
    var s := PercentBytes(bytes) + t;
    if k == 0 {
      var b := bytes[0];
      assert s[..3] == PercentByte(b);
      HexRoundTrip(b / 16);
      HexRoundTrip(b % 16);
    } else {
      ByteAtPercentBytes(bytes[1..], t, k - 1);
      assert s == PercentByte(bytes[0]) + (PercentBytes(bytes[1..]) + t);
      assert s[3..] == PercentBytes(bytes[1..]) + t;
    }
  }

  /** One escaped character decodes back to itself, however the text goes on. */
  lemma DecodeEscapedChar(c: char, t: string)
    requires !Unreserved(c)
    ensures DecodeEscape(EncodeChar(c) + t) == Some((c, |EncodeChar(c)|))
  {
    var cp := c as int;
    var bytes := Utf8(cp);
    var s := EncodeChar(c) + t;
    assert s == PercentBytes(bytes) + t;
    forall k | 0 <= k < |bytes| ensures ByteAt(s, 3 * k) == Some(bytes[k]) {
      ByteAtPercentBytes(bytes, t, k);
    }
    if cp < 0x80 {
      assert ByteAt(s, 0) == Some(cp);
    } else if cp < 0x800 {
      Decode2(cp, s);
    } else if cp < 0x1_0000 {
      Decode3(cp, s);
    } else {
      Decode4(cp, s);
    }
  }

  lemma Decode2(cp: int, s: string)
    requires IsScalar(cp) && 0x80 <= cp < 0x800
    requires |Utf8(cp)| == 2 && |s| >= 6
    requires ByteAt(s, 0) == Some(Utf8(cp)[0]) && ByteAt(s, 3) == Some(Utf8(cp)[1])
    ensures DecodeEscape(s) == Some((cp as char, 6))
  {
    var q1 := cp / 64;
    assert Utf8(cp) == [0xC0 + q1, 0x80 + cp % 64];
    assert ContAt(s, 3) == Some(cp % 64);
    assert q1 * 64 + cp % 64 == cp;
  }

  lemma Decode3(cp: int, s: string)
    requires IsScalar(cp) && 0x800 <= cp < 0x1_0000
    requires |Utf8(cp)| == 3 && |s| >= 9
    requires ByteAt(s, 0) == Some(Utf8(cp)[0]) && ByteAt(s, 3) == Some(Utf8(cp)[1])
    requires ByteAt(s, 6) == Some(Utf8(cp)[2])
    ensures DecodeEscape(s) == Some((cp as char, 9))
  {
    var q1 := cp / 64;
    var q2 := q1 / 64;
    assert Utf8(cp) == [0xE0 + q2, 0x80 + q1 % 64, 0x80 + cp % 64];
    assert ContAt(s, 3) == Some(q1 % 64);
    assert ContAt(s, 6) == Some(cp % 64);
    assert q2 * 64 + q1 % 64 == q1;
    assert q1 * 64 + cp % 64 == cp;
  }

  lemma Decode4(cp: int, s: string)
    requires IsScalar(cp) && 0x1_0000 <= cp
    requires |Utf8(cp)| == 4 && |s| >= 12
    requires ByteAt(s, 0) == Some(Utf8(cp)[0]) && ByteAt(s, 3) == Some(Utf8(cp)[1])
    requires ByteAt(s, 6) == Some(Utf8(cp)[2]) && ByteAt(s, 9) == Some(Utf8(cp)[3])
    ensures DecodeEscape(s) == Some((cp as char, 12))
  {
    var q1 := cp / 64;
    var q2 := q1 / 64;
    var q3 := q2 / 64;
    assert Utf8(cp) == [0xF0 + q3, 0x80 + q2 % 64, 0x80 + q1 % 64, 0x80 + cp % 64];
    assert ContAt(s, 3) == Some(q2 % 64);
    assert ContAt(s, 6) == Some(q1 % 64);
    assert ContAt(s, 9) == Some(cp % 64);
    assert q3 * 64 + q2 % 64 == q2;
    assert q2 * 64 + q1 % 64 == q1;
    assert q1 * 64 + cp % 64 == cp;
  }

  /** A character other than `%` decodes to itself. */
  lemma DecodePlainChar(c: char, rest: string)
    requires c != '%'
    ensures Decode([c] + rest) == Prepend([c], Decode(rest))
  {
    assert ([c] + rest)[1..] == rest;
  }

  /** A run of escapes that decodes to `c` is followed by the decoding of the rest. */
  lemma DecodeEscapeRun(e: string, rest: string, c: char)
    requires |e| >= 1 && e[0] == '%'
    requires DecodeEscape(e + rest) == Some((c, |e|))
    ensures Decode(e + rest) == Prepend([c], Decode(rest))
  {
    assert (e + rest)[0] == '%';
    assert (e + rest)[|e|..] == rest;
  }

  /** Decoding an encoded string followed by more text yields the string
      followed by the decoding of that text. */
  lemma {:induction false} DecodeEncodeAppend(s: string, t: string)
    ensures Decode(EncodeURIComponent(s) + t) == Prepend(s, Decode(t))
  {
    if s == [] {
      assert EncodeURIComponent(s) + t == t;
      PrependEmpty(Decode(t));
    } else {
      var rest := EncodeURIComponent(s[1..]) + t;
      DecodeEncodeAppend(s[1..], t);
      EncodeCons(s, t);
      DecodeEncodedChar(s[0], rest);
      PrependTwice(s[0], s[1..], Decode(t));
    }
  }

  lemma EncodeCons(s: string, t: string)
    requires s != []
    ensures EncodeURIComponent(s) + t == EncodeChar(s[0]) + (EncodeURIComponent(s[1..]) + t)
    ensures [s[0]] + s[1..] == s
  {
    var x := EncodeURIComponent(s[1..]);
    var e := EncodeChar(s[0]);
    assert EncodeURIComponent(s) == e + x;
    Associative(e, x, t);
  }

  lemma Associative(a: string, b: string, c: string)
    ensures (a + b) + c == a + (b + c)
  {
  }

  /** An encoded character decodes to itself, whatever follows it. */
  lemma DecodeEncodedChar(c: char, rest: string)
    ensures Decode(EncodeChar(c) + rest) == Prepend([c], Decode(rest))
  {
    if Unreserved(c) {
      DecodePlainChar(c, rest);
    } else {
      DecodeEscapedChar(c, rest);
      DecodeEscapeRun(EncodeChar(c), rest, c);
    }
  }

  lemma PrependEmpty(o: Option<string>)
    ensures Prepend([], o) == o
  {
    match o {
      case Some(r) => assert [] + r == r;
      case None =>
    }
  }

  lemma PrependTwice(c: char, s: string, o: Option<string>)
    ensures Prepend([c], Prepend(s, o)) == Prepend([c] + s, o)
  {
    match o {
      case Some(r) => assert [c] + (s + r) == ([c] + s) + r;
      case None =>
    }
  }

  /** `decodeURIComponent(encodeURIComponent(s)) === s`. */
  lemma DecodeEncode(s: string)
    ensures Decode(EncodeURIComponent(s)) == Some(s)
  {
    DecodeEncodeAppend(s, "");
    assert EncodeURIComponent(s) + "" == EncodeURIComponent(s);
    assert s + "" == s;
  }

  /** Text without `%` decodes to itself. */
  lemma {:induction false} DecodePlain(t: string)
    requires '%' !in t
    ensures Decode(t) == Some(t)
  {
    if t != [] {
      DecodePlain(t[1..]);
      assert t == [t[0]] + t[1..];
    }
  }
}
