/** Which bytes are text in UTF-8. */
module Utf8 {
  type Byte = n: nat | n < 256
  type Bytes = seq<Byte>

  /** Section 4 of RFC 3629. */
  predicate ValidUtf8(s: Bytes) {
    if s == [] then true
    else if s[0] < 0x80 then ValidUtf8(s[1..])
    else if 0xC2 <= s[0] <= 0xDF then |s| >= 2 && Tail(s[1]) && ValidUtf8(s[2..])
    else if 0xE0 <= s[0] <= 0xEF then
      |s| >= 3 && Tail(s[1]) && Tail(s[2]) && (s[0] == 0xE0 ==> s[1] >= 0xA0) && (s[0] == 0xED ==> s[1] < 0xA0)
      && ValidUtf8(s[3..])
    else
      0xF0 <= s[0] <= 0xF4 && |s| >= 4 && Tail(s[1]) && Tail(s[2]) && Tail(s[3])
      && (s[0] == 0xF0 ==> s[1] >= 0x90) && (s[0] == 0xF4 ==> s[1] < 0x90) && ValidUtf8(s[4..])
  }

  predicate Tail(b: Byte) { 0x80 <= b <= 0xBF }

  /** A Unicode scalar value: a code point that is no surrogate. */
  type Scalar = c: nat | c < 0xD800 || 0xE000 <= c < 0x110000

  /** The table of section 3 of RFC 3629. */
  function EncodeScalar(c: Scalar): Bytes {
    if c < 0x80 then [c]
    else if c < 0x800 then [0xC0 + c / 64, 0x80 + c % 64]
    else if c < 0x10000 then [0xE0 + c / 4096, 0x80 + c / 64 % 64, 0x80 + c % 64]
    else [0xF0 + c / 262144, 0x80 + c / 4096 % 64, 0x80 + c / 64 % 64, 0x80 + c % 64]
  }

  function EncodeText(cs: seq<Scalar>): Bytes {
    if cs == [] then [] else EncodeScalar(cs[0]) + EncodeText(cs[1..])
  }

  lemma TwoAreValid(x: Byte, y: Byte, rest: Bytes)
    requires 0xC2 <= x <= 0xDF && Tail(y)
    ensures ValidUtf8([x, y] + rest) <==> ValidUtf8(rest)
  {
    assert ([x, y] + rest)[2..] == rest;
  }

  lemma ThreeAreValid(x: Byte, y: Byte, z: Byte, rest: Bytes)
    requires 0xE0 <= x <= 0xEF && Tail(y) && Tail(z) && (x == 0xE0 ==> y >= 0xA0) && (x == 0xED ==> y < 0xA0)
    ensures ValidUtf8([x, y, z] + rest) <==> ValidUtf8(rest)
  {
    assert ([x, y, z] + rest)[3..] == rest;
  }

  lemma FourAreValid(x: Byte, y: Byte, z: Byte, u: Byte, rest: Bytes)
    requires 0xF0 <= x <= 0xF4 && Tail(y) && Tail(z) && Tail(u) && (x == 0xF0 ==> y >= 0x90) && (x == 0xF4 ==> y < 0x90)
    ensures ValidUtf8([x, y, z, u] + rest) <==> ValidUtf8(rest)
  {
    assert ([x, y, z, u] + rest)[4..] == rest;
  }

  lemma ScalarIsValid(c: Scalar, rest: Bytes)
    ensures ValidUtf8(EncodeScalar(c) + rest) <==> ValidUtf8(rest)
  {
    var e := EncodeScalar(c);
    if c < 0x80 {
      assert ([c] + rest)[1..] == rest;
    } else if c < 0x800 {
      TwoAreValid(e[0], e[1], rest);
    } else if c < 0x10000 {
      ThreeAreValid(e[0], e[1], e[2], rest);
    } else {
      FourAreValid(e[0], e[1], e[2], e[3], rest);
    }
  }

  lemma {:induction false} EncodedIsValid(cs: seq<Scalar>)
    ensures ValidUtf8(EncodeText(cs))
  {
    if cs != [] {
      EncodedIsValid(cs[1..]);
      ScalarIsValid(cs[0], EncodeText(cs[1..]));
    }
  }

  lemma TwoBytes(x: int, y: int) returns (c: Scalar)
    requires 0xC2 <= x <= 0xDF && 0x80 <= y <= 0xBF
    ensures EncodeScalar(c) == [x, y]
  {
    c := (x - 0xC0) * 64 + (y - 0x80);
  }

  lemma ThreeBytes(x: int, y: int, z: int) returns (c: Scalar)
    requires 0xE0 <= x <= 0xEF && 0x80 <= y <= 0xBF && 0x80 <= z <= 0xBF
    requires (x == 0xE0 ==> y >= 0xA0) && (x == 0xED ==> y < 0xA0)
    ensures EncodeScalar(c) == [x, y, z]
  {
    var high := (x - 0xE0) * 64 + (y - 0x80);
    c := high * 64 + (z - 0x80);
    assert c / 64 == high && c / 4096 == x - 0xE0;
  }

  lemma FourBytes(x: int, y: int, z: int, u: int) returns (c: Scalar)
    requires 0xF0 <= x <= 0xF4 && 0x80 <= y <= 0xBF && 0x80 <= z <= 0xBF && 0x80 <= u <= 0xBF
    requires (x == 0xF0 ==> y >= 0x90) && (x == 0xF4 ==> y < 0x90)
    ensures EncodeScalar(c) == [x, y, z, u]
  {
    var top := (x - 0xF0) * 64 + (y - 0x80);
    var high := top * 64 + (z - 0x80);
    c := high * 64 + (u - 0x80);
    assert c / 64 == high && c / 4096 == top && c / 262144 == x - 0xF0;
  }

  /** The scalar that the first bytes of valid text encode. */
  lemma FirstScalar(s: Bytes) returns (c: Scalar)
    requires s != [] && ValidUtf8(s)
    ensures var n := |EncodeScalar(c)|;
            n <= |s| && s[..n] == EncodeScalar(c) && ValidUtf8(s[n..])
  {
    if s[0] < 0x80 {
      c := s[0];
    } else if s[0] <= 0xDF {
      c := TwoBytes(s[0], s[1]);
    } else if s[0] <= 0xEF {
      c := ThreeBytes(s[0], s[1], s[2]);
    } else {
      c := FourBytes(s[0], s[1], s[2], s[3]);
    }
  }

  lemma {:induction false} ValidIsEncoded(s: Bytes) returns (cs: seq<Scalar>)
    requires ValidUtf8(s)
    ensures EncodeText(cs) == s
  {
    cs := [];
    if s != [] {
      var c := FirstScalar(s);
      var others := ValidIsEncoded(s[|EncodeScalar(c)|..]);
      cs := [c] + others;
      assert cs[1..] == others;
    }
  }

  /** Exactly the encodings of scalar values are accepted as text. */
  lemma Utf8IsExact(s: Bytes)
    ensures ValidUtf8(s) <==> exists cs :: EncodeText(cs) == s
  {
    if ValidUtf8(s) {
      var cs := ValidIsEncoded(s);
    }
    if cs :| EncodeText(cs) == s {
      EncodedIsValid(cs);
    }
  }
}
