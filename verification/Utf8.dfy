/** UTF-8 text as bytes: well-formedness, character boundaries, and the white space `trim_start` removes. */
module Utf8 {
  import opened Chars

  type Byte = b: int | 0 <= b < 256

  type Bytes = seq<Byte>

  predicate Continuation(b: Byte) {
    0x80 <= b < 0xC0
  }

  /** The length of the well-formed character at the head of `s` (table 3-7 of the Unicode Standard), or 0. */
  function CharLen(s: Bytes): (n: nat)
    ensures n <= |s|
    ensures forall i :: 1 <= i < n ==> Continuation(s[i])
    ensures n > 0 ==> !Continuation(s[0]) && (n > 1 <==> s[0] >= 0x80)
  {
    if |s| >= 1 && s[0] < 0x80 then 1
    else if |s| >= 2 && 0xC2 <= s[0] <= 0xDF && Continuation(s[1]) then 2
    else if |s| >= 3 && Second3(s[0], s[1]) && Continuation(s[1]) && Continuation(s[2]) then 3
    else if |s| >= 4 && Second4(s[0], s[1]) && Continuation(s[1]) && Continuation(s[2]) && Continuation(s[3]) then 4
    else 0
  }

  /** No overlong forms and no surrogates. */
  predicate Second3(b0: Byte, b1: Byte) {
    0xE0 <= b0 <= 0xEF && (b0 == 0xE0 ==> b1 >= 0xA0) && (b0 == 0xED ==> b1 <= 0x9F)
  }

  /** No overlong forms and nothing above U+10FFFF. */
  predicate Second4(b0: Byte, b1: Byte) {
    0xF0 <= b0 <= 0xF4 && (b0 == 0xF0 ==> b1 >= 0x90) && (b0 == 0xF4 ==> b1 <= 0x8F)
  }

  /** What a Rust `str` guarantees. */
  predicate Valid(s: Bytes) {
    s == [] || (CharLen(s) > 0 && Valid(s[CharLen(s)..]))
  }

  /** `is_char_boundary`: slicing a `str` anywhere else panics. */
  predicate Boundary(s: Bytes, i: nat) {
    i <= |s| && (i == 0 || i == |s| || !Continuation(s[i]))
  }

  lemma CharLenOfPrefix(s: Bytes, i: nat)
    requires 0 < CharLen(s) <= i <= |s|
    ensures CharLen(s[..i]) == CharLen(s)
  {}

  /** Cutting at a boundary leaves two well-formed texts. */
  lemma {:induction false} SplitValid(s: Bytes, i: nat)
    requires Valid(s) && Boundary(s, i)
    ensures Valid(s[..i]) && Valid(s[i..])
  {
    if i > 0 {
      var n := CharLen(s);
      CharLenOfPrefix(s, i);
      hide CharLen;
      SplitValid(s[n..], i - n);
      assert s[..i][n..] == s[n..][..i - n];
      assert s[n..][i - n..] == s[i..];
    } else {
      assert s[..0] == [] && s[0..] == s;
    }
  }

  /** Around an ASCII byte both sides are boundaries. */
  lemma {:induction false} AsciiBoundaries(s: Bytes, i: nat)
    requires Valid(s) && i < |s| && s[i] < 0x80
    ensures Boundary(s, i) && Boundary(s, i + 1)
  {
    var n := CharLen(s);
    if i < n {
      assert n == 1;
      assert |s| > 1 ==> CharLen(s[1..]) > 0 && s[1..][0] == s[1];
    } else {
      AsciiBoundaries(s[n..], i - n);
      assert s[n..][i - n] == s[i];
      assert i + 1 < |s| ==> s[n..][i + 1 - n] == s[i + 1];
    }
  }

  // ---- Scalar values ----

  /** Unicode scalar values: code points but for the surrogates. */
  type Scalar = n: int | 0 <= n <= 0x10FFFF && !(0xD800 <= n <= 0xDFFF)

  /** The UTF-8 encoding form of one scalar value. */
  function EncodeScalar(c: Scalar): (r: Bytes)
    ensures 1 <= |r| <= 4
  {
    if c < 0x80 then [c]
    else if c < 0x800 then [0xC0 + c / 0x40, 0x80 + c % 0x40]
    else if c < 0x10000 then [0xE0 + c / 0x1000, 0x80 + c / 0x40 % 0x40, 0x80 + c % 0x40]
    else [0xF0 + c / 0x40000, 0x80 + c / 0x1000 % 0x40, 0x80 + c / 0x40 % 0x40, 0x80 + c % 0x40]
  }

  function Encode(cs: seq<Scalar>): Bytes {
    if cs == [] then [] else EncodeScalar(cs[0]) + Encode(cs[1..])
  }

  /** The digits of a scalar value to the base 64, least significant last. */
  lemma Sextets(c: nat)
    ensures c == c / 0x40 * 0x40 + c % 0x40
    ensures c / 0x40 == c / 0x1000 * 0x40 + c / 0x40 % 0x40
    ensures c / 0x1000 == c / 0x40000 * 0x40 + c / 0x1000 % 0x40
  {
    assert c / 0x40 / 0x40 == c / 0x1000;
    assert c / 0x1000 / 0x40 == c / 0x40000;
  }

  lemma Prefix(r: Bytes, rest: Bytes)
    ensures forall i :: 0 <= i < |r| ==> (r + rest)[i] == r[i]
  {}

  /** The head of an encoded scalar is read as one character. */
  lemma ScalarReads(c: Scalar, rest: Bytes)
    ensures CharLen(EncodeScalar(c) + rest) == |EncodeScalar(c)|
  {
    hide CharLen, EncodeScalar;
    EncodedLen(c);
    ReadsLike(EncodeScalar(c), rest);
  }

  /** Only the first bytes of a text matter to the length of its first character. */
  lemma ReadsLike(r: Bytes, rest: Bytes)
    requires CharLen(r) > 0
    ensures CharLen(r + rest) == CharLen(r)
  {
    Prefix(r, rest);
  }

  lemma EncodedLen(c: Scalar)
    ensures CharLen(EncodeScalar(c)) == |EncodeScalar(c)|
  {
    Sextets(c);
  }

  /** Every character read is an encoded scalar. */
  lemma CharIsScalar(s: Bytes) returns (c: Scalar)
    requires CharLen(s) > 0
    ensures s[..CharLen(s)] == EncodeScalar(c)
  {
    var n := CharLen(s);
    if n == 1 {
      c := s[0];
    } else if n == 2 {
      c := Joined(0, 0, s[0] - 0xC0, s[1] - 0x80);
    } else if n == 3 {
      c := Joined(0, s[0] - 0xE0, s[1] - 0x80, s[2] - 0x80);
    } else {
      c := Joined(s[0] - 0xF0, s[1] - 0x80, s[2] - 0x80, s[3] - 0x80);
    }
  }

  /** The number of four digits to the base 64. */
  function Joined(d3: nat, d2: nat, d1: nat, d0: nat): (c: nat)
    requires d2 < 0x40 && d1 < 0x40 && d0 < 0x40
    ensures c % 0x40 == d0 && c / 0x40 % 0x40 == d1 && c / 0x1000 % 0x40 == d2 && c / 0x40000 == d3
    ensures c / 0x40 == d3 * 0x1000 + d2 * 0x40 + d1 && c / 0x1000 == d3 * 0x40 + d2
  {
    d3 * 0x40000 + d2 * 0x1000 + d1 * 0x40 + d0
  }

  /** Well-formed text is exactly what encodes a sequence of scalar values. */
  lemma {:induction false} EncodeValid(cs: seq<Scalar>)
    ensures Valid(Encode(cs))
  {
    if cs != [] {
      EncodeValid(cs[1..]);
      ScalarReads(cs[0], Encode(cs[1..]));
      hide CharLen, EncodeScalar;
      assert Encode(cs)[|EncodeScalar(cs[0])|..] == Encode(cs[1..]);
    }
  }

  lemma {:induction false} ValidDecodes(s: Bytes) returns (cs: seq<Scalar>)
    requires Valid(s)
    ensures Encode(cs) == s
  {
    hide CharLen, EncodeScalar;
    if s == [] {
      cs := [];
    } else {
      var c := CharIsScalar(s);
      var rest := ValidDecodes(s[CharLen(s)..]);
      cs := [c] + rest;
      assert cs[1..] == rest && s == s[..CharLen(s)] + s[CharLen(s)..];
    }
  }

  // ---- White space ----

  /** The length of the white-space character at the head of `s`, or 0. */
  function SpaceLen(s: Bytes): (n: nat)
    ensures n <= |s|
  {
    if |s| >= 1 && (9 <= s[0] <= 13 || s[0] == 32) then 1
    else if |s| >= 2 && s[0] == 0xC2 && (s[1] == 0x85 || s[1] == 0xA0) then 2
    else if |s| >= 3 && s[0] == 0xE1 && s[1] == 0x9A && s[2] == 0x80 then 3
    else if |s| >= 3 && s[0] == 0xE2 && s[1] == 0x80 && (0x80 <= s[2] <= 0x8A || s[2] in {0xA8, 0xA9, 0xAF}) then 3
    else if |s| >= 3 && s[0] == 0xE2 && s[1] == 0x81 && s[2] == 0x9F then 3
    else if |s| >= 3 && s[0] == 0xE3 && s[1] == 0x80 && s[2] == 0x80 then 3
    else 0
  }

  function TrimStart(s: Bytes): Bytes {
    if SpaceLen(s) == 0 then s else TrimStart(s[SpaceLen(s)..])
  }

  /** `SpaceLen` knows the Unicode white space, and nothing else. */
  lemma SpaceReads(c: Scalar, rest: Bytes)
    ensures SpaceLen(EncodeScalar(c) + rest) == if WhiteSpace(c) then |EncodeScalar(c)| else 0
  {
    Prefix(EncodeScalar(c), rest);
    Sextets(c);
  }

  lemma SpaceIsScalar(s: Bytes) returns (c: Scalar)
    requires SpaceLen(s) > 0
    ensures WhiteSpace(c) && s[..SpaceLen(s)] == EncodeScalar(c)
  {
    var n := SpaceLen(s);
    if n == 1 {
      c := s[0];
    } else if n == 2 {
      c := Joined(0, 0, s[0] - 0xC0, s[1] - 0x80);
    } else {
      c := Joined(0, s[0] - 0xE0, s[1] - 0x80, s[2] - 0x80);
    }
  }

  ghost predicate AllWhite(cs: seq<Scalar>) {
    forall i :: 0 <= i < |cs| ==> WhiteSpace(cs[i])
  }

  /** Trimming takes white space off the front, all of it and nothing else. */
  lemma {:induction false} TrimStartCuts(s: Bytes) returns (indent: seq<Scalar>)
    ensures AllWhite(indent) && s == Encode(indent) + TrimStart(s) && SpaceLen(TrimStart(s)) == 0
  {
    hide SpaceLen, EncodeScalar, WhiteSpace;
    if SpaceLen(s) == 0 {
      indent := [];
    } else {
      var c := SpaceIsScalar(s);
      var rest := TrimStartCuts(s[SpaceLen(s)..]);
      indent := [c] + rest;
      assert indent[1..] == rest;
      assert s == s[..SpaceLen(s)] + s[SpaceLen(s)..];
      assert s == EncodeScalar(c) + (Encode(rest) + TrimStart(s)) == EncodeScalar(c) + Encode(rest) + TrimStart(s);
    }
  }

  lemma {:induction false} TrimStartOf(indent: seq<Scalar>, rest: Bytes)
    requires AllWhite(indent) && SpaceLen(rest) == 0
    ensures TrimStart(Encode(indent) + rest) == rest
  {
    hide SpaceLen, EncodeScalar, WhiteSpace;
    if indent == [] {
      assert Encode(indent) + rest == rest;
    } else {
      var first, tail := EncodeScalar(indent[0]), Encode(indent[1..]) + rest;
      assert Encode(indent) + rest == first + tail;
      SpaceReads(indent[0], tail);
      assert (first + tail)[|first|..] == tail;
      TrimStartOf(indent[1..], rest);
    }
  }
}
