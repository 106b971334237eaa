/** The base64 text a blob column is rendered as (section 4 of RFC 4648). */
module Base64 {
  import opened Wrappers

  const TABLE: string := "ABCDEFGHIJKLMNOPQRSTUVWXYZabcdefghijklmnopqrstuvwxyz0123456789+/"

  // ---- The alphabet ----

  /** Table 1 of RFC 4648, by ranges. */
  function Symbol(v: nat): char
    requires v < 64
  {
    if v < 26 then 'A' + v as char
    else if v < 52 then 'a' + (v - 26) as char
    else if v < 62 then '0' + (v - 52) as char
    else if v == 62 then '+'
    else '/'
  }

  function ValueOf(c: char): (r: Option<nat>)
    ensures r.Some? ==> r.value < 64 && Symbol(r.value) == c
  {
    if 'A' <= c <= 'Z' then Some((c - 'A') as nat)
    else if 'a' <= c <= 'z' then Some((c - 'a') as nat + 26)
    else if '0' <= c <= '9' then Some((c - '0') as nat + 52)
    else if c == '+' then Some(62)
    else if c == '/' then Some(63)
    else None
  }

  lemma ValueOfSymbol(v: nat)
    requires v < 64
    ensures ValueOf(Symbol(v)) == Some(v) && Symbol(v) != '='
  {}

  const UPPER: string := "ABCDEFGHIJKLMNOPQRSTUVWXYZ"

  lemma TableStarts()
    ensures |TABLE| == 64 && TABLE[..26] == UPPER
  {
    assert UPPER <= TABLE;
  }

  lemma UpperAt(v: nat)
    requires v < 26
    ensures |UPPER| == 26 && UPPER[v] == Symbol(v)
  {}

  lemma LowerAt(v: nat)
    requires 26 <= v < 52
    ensures |TABLE| == 64 && TABLE[v] == Symbol(v)
  {}

  lemma RestAt(v: nat)
    requires 52 <= v < 64
    ensures |TABLE| == 64 && TABLE[v] == Symbol(v)
  {}

  /** The encoder's table is the RFC's alphabet. */
  lemma TableIsAlphabet(v: nat)
    requires v < 64
    ensures |TABLE| == 64 && TABLE[v] == Symbol(v)
  {
    hide TABLE, UPPER, Symbol;
    if v < 26 {
      TableStarts();
      UpperAt(v);
      assert TABLE[..26][v] == TABLE[v];
    } else if v < 52 {
      LowerAt(v);
    } else {
      RestAt(v);
    }
  }

  // ---- Reference: 24-bit groups ----

  /** Three octets, most significant first, as one 24-bit group. */
  function Group(b0: bv8, b1: bv8, b2: bv8): bv24 {
    (b0 as bv24 << 16) | (b1 as bv24 << 8) | b2 as bv24
  }

  /** The four 6-bit digits of a group, most significant first. */
  function Digits(g: bv24): (d: (bv8, bv8, bv8, bv8))
    ensures d.0 < 64 && d.1 < 64 && d.2 < 64 && d.3 < 64
  {
    (((g >> 18) & 63) as bv8, ((g >> 12) & 63) as bv8, ((g >> 6) & 63) as bv8, (g & 63) as bv8)
  }

  function SymbolOf(d: bv8): char
    requires d < 64
  {
    Symbol(d as nat)
  }

  function Quantum(b0: bv8, b1: bv8, b2: bv8): string {
    var d := Digits(Group(b0, b1, b2));
    [SymbolOf(d.0), SymbolOf(d.1), SymbolOf(d.2), SymbolOf(d.3)]
  }

  /** The encoding the RFC describes: a short final group is filled with zero bits, and the symbols that
      carry none of its bits are pads. */
  function EncodeLast(bytes: seq<bv8>): string
    requires |bytes| < 3
  {
    if |bytes| == 0 then ""
    else if |bytes| == 1 then Quantum(bytes[0], 0, 0)[..2] + "=="
    else Quantum(bytes[0], bytes[1], 0)[..3] + "="
  }

  function Encode(bytes: seq<bv8>): string {
    if |bytes| < 3 then EncodeLast(bytes) else Quantum(bytes[0], bytes[1], bytes[2]) + Encode(bytes[3..])
  }

  lemma QuantumDigits(b0: bv8, b1: bv8, b2: bv8)
    ensures Digits(Group(b0, b1, b2)) == (b0 >> 2, ((b0 & 3) << 4) | (b1 >> 4), ((b1 & 15) << 2) | (b2 >> 6), b2 & 63)
  {}

  // ---- The encoder ----

  function At(i: bv8): char
    requires i < 64
  {
    TableIsAlphabet(i as nat);
    TABLE[i as int]
  }

  lemma AtIsSymbol(i: bv8)
    requires i < 64
    ensures At(i) == SymbolOf(i)
  {
    hide TABLE, Symbol;
    TableIsAlphabet(i as nat);
  }

  /** Push the four symbols of a full group. */
  method PushGroup(s: string, b0: bv8, b1: bv8, b2: bv8) returns (t: string)
    ensures t == s + Quantum(b0, b1, b2)
  {
    hide At, Quantum;
    t := s + [At(b0 >> 2)];
    t := t + [At(((b0 & 3) << 4) | (b1 >> 4))];
    t := t + [At(((b1 & 15) << 2) | (b2 >> 6))];
    t := t + [At(b2 & 63)];
    QuantumAt(b0, b1, b2);
  }

  /** Push the symbols and pads of a short last group. */
  method PushLast(s: string, rest: seq<bv8>) returns (t: string)
    requires |rest| < 3
    ensures t == s + EncodeLast(rest)
  {
    hide At, Quantum;
    t := s;
    if |rest| == 1 {
      var b0 := rest[0];
      QuantumAt(b0, 0, 0);
      t := t + [At(b0 >> 2)];
      t := t + [At((b0 & 3) << 4)];
      t := t + "==";
    } else if |rest| == 2 {
      var b0, b1 := rest[0], rest[1];
      QuantumAt(b0, b1, 0);
      t := t + [At(b0 >> 2)];
      t := t + [At(((b0 & 3) << 4) | (b1 >> 4))];
      t := t + [At((b1 & 15) << 2)];
      t := t + "=";
    }
  }

  lemma EncodeStep(bytes: seq<bv8>, i: nat)
    requires i <= |bytes|
    ensures Encode(bytes[i..]) ==
            if i + 3 > |bytes| then EncodeLast(bytes[i..])
            else Quantum(bytes[i], bytes[i + 1], bytes[i + 2]) + Encode(bytes[i + 3..])
  {
    hide Quantum, EncodeLast;
    assert i + 3 <= |bytes| ==> bytes[i..][3..] == bytes[i + 3..];
  }

  lemma ConcatAssoc(a: string, b: string, c: string)
    ensures a + (b + c) == a + b + c
  {}

  /** The hand-written encoder computes the RFC's encoding. */
  method EncodeBlob(bytes: seq<bv8>) returns (s: string)
    ensures s == Encode(bytes)
  {
    hide Quantum, Encode, EncodeLast;
    s := "";
    var i := 0;
    while i + 3 <= |bytes|
      invariant 0 <= i <= |bytes|
      invariant s + Encode(bytes[i..]) == Encode(bytes)
    {
      EncodeStep(bytes, i);
      var q := PushGroup(s, bytes[i], bytes[i + 1], bytes[i + 2]);
      ConcatAssoc(s, Quantum(bytes[i], bytes[i + 1], bytes[i + 2]), Encode(bytes[i + 3..]));
      s := q;
      i := i + 3;
    }
    EncodeStep(bytes, i);
    s := PushLast(s, bytes[i..]);
  }

  /** The twiddled table indices are the group's digits. */
  lemma QuantumAt(b0: bv8, b1: bv8, b2: bv8)
    ensures Quantum(b0, b1, b2) ==
            [At(b0 >> 2), At(((b0 & 3) << 4) | (b1 >> 4)), At(((b1 & 15) << 2) | (b2 >> 6)), At(b2 & 63)]
    ensures b1 == 0 ==> ((b0 & 3) << 4) | (b1 >> 4) == (b0 & 3) << 4
    ensures b2 == 0 ==> ((b1 & 15) << 2) | (b2 >> 6) == (b1 & 15) << 2
  {
    hide Digits, Group, At, SymbolOf;
    QuantumDigits(b0, b1, b2);
    AtIsSymbol(b0 >> 2);
    AtIsSymbol(((b0 & 3) << 4) | (b1 >> 4));
    AtIsSymbol(((b1 & 15) << 2) | (b2 >> 6));
    AtIsSymbol(b2 & 63);
  }

  // ---- The decoder ----

  /** The 6-bit digit a symbol stands for. */
  function DigitOf(c: char): (r: Option<bv8>)
    ensures r.Some? ==> r.value < 64 && SymbolOf(r.value) == c
  {
    match ValueOf(c)
    case None => None
    case Some(v) =>
      NatDigit(v);
      Some(v as bv8)
  }

  lemma NatDigit(v: nat)
    requires v < 64
    ensures v as bv8 < 64 && (v as bv8) as nat == v
  {}

  function Octet0(d0: bv8, d1: bv8): bv8 {
    (d0 << 2) | (d1 >> 4)
  }

  function Octet1(d1: bv8, d2: bv8): bv8 {
    (d1 << 4) | (d2 >> 2)
  }

  function Octet2(d2: bv8, d3: bv8): bv8 {
    (d2 << 6) | d3
  }

  /** Strict decoding: whole quanta only, pads only at the end, pad bits zero. */
  function Decode(s: string): Option<seq<bv8>> {
    if s == "" then Some([])
    else if |s| < 4 then None
    else if s[3] == '=' then
      if |s| == 4 then DecodeLast(s[0], s[1], s[2]) else None
    else
      match (DigitOf(s[0]), DigitOf(s[1]), DigitOf(s[2]), DigitOf(s[3]))
      case (Some(d0), Some(d1), Some(d2), Some(d3)) =>
        (match Decode(s[4..])
         case Some(rest) => Some([Octet0(d0, d1), Octet1(d1, d2), Octet2(d2, d3)] + rest)
         case None => None)
      case _ => None
  }

  /** A final quantum with one or two pads. */
  function DecodeLast(c0: char, c1: char, c2: char): Option<seq<bv8>> {
    match (DigitOf(c0), DigitOf(c1))
    case (Some(d0), Some(d1)) =>
      if c2 == '=' then
        if d1 & 15 == 0 then Some([Octet0(d0, d1)]) else None
      else
        (match DigitOf(c2)
         case Some(d2) => if d2 & 3 == 0 then Some([Octet0(d0, d1), Octet1(d1, d2)]) else None
         case None => None)
    case _ => None
  }

  lemma DigitOfSymbol(d: bv8)
    requires d < 64
    ensures DigitOf(SymbolOf(d)) == Some(d) && SymbolOf(d) != '='
  {
    ValueOfSymbol(d as nat);
  }

  /** Regrouping the bits of three octets into digits and back. */
  lemma DigitsToOctets(b0: bv8, b1: bv8, b2: bv8)
    ensures var d := Digits(Group(b0, b1, b2));
            && Octet0(d.0, d.1) == b0 && Octet1(d.1, d.2) == b1 && Octet2(d.2, d.3) == b2
            && (b1 == 0 ==> d.1 & 15 == 0) && (b2 == 0 ==> d.2 & 3 == 0)
  {
    hide Digits, Group;
    QuantumDigits(b0, b1, b2);
  }

  lemma OctetsToDigits(d0: bv8, d1: bv8, d2: bv8, d3: bv8)
    requires d0 < 64 && d1 < 64 && d2 < 64 && d3 < 64
    ensures Digits(Group(Octet0(d0, d1), Octet1(d1, d2), Octet2(d2, d3))) == (d0, d1, d2, d3)
    ensures d2 & 3 == 0 ==> Octet2(d2, 0) == 0
    ensures d1 & 15 == 0 ==> Octet1(d1, 0) == 0 && Octet2(0, 0) == 0
  {}

  /** Each symbol of a quantum decodes to its digit, and none is a pad. */
  lemma QuantumReads(b0: bv8, b1: bv8, b2: bv8)
    ensures var q, d := Quantum(b0, b1, b2), Digits(Group(b0, b1, b2));
            && DigitOf(q[0]) == Some(d.0) && DigitOf(q[1]) == Some(d.1) && DigitOf(q[2]) == Some(d.2) && DigitOf(q[3]) == Some(d.3)
            && '=' !in q
  {
    hide Group, DigitOf, SymbolOf;
    var d := Digits(Group(b0, b1, b2));
    hide Digits;
    DigitOfSymbol(d.0);
    DigitOfSymbol(d.1);
    DigitOfSymbol(d.2);
    DigitOfSymbol(d.3);
  }

  /** Decoding inverts the encoder on every byte sequence. */
  lemma {:induction false} DecodeEncode(bytes: seq<bv8>)
    ensures Decode(Encode(bytes)) == Some(bytes)
  {
    hide Group, Digits, DigitOf, SymbolOf, Quantum, Octet0, Octet1, Octet2;
    if |bytes| > 0 {
      var b0 := bytes[0];
      var b1 := if |bytes| > 1 then bytes[1] else 0;
      var b2 := if |bytes| > 2 then bytes[2] else 0;
      QuantumReads(b0, b1, b2);
      DigitsToOctets(b0, b1, b2);
      var q, s := Quantum(b0, b1, b2), Encode(bytes);
      assert |q| == 4 by {
        QuantumSize(b0, b1, b2);
      }
      if |bytes| > 2 {
        DecodeEncode(bytes[3..]);
        assert s[4..] == Encode(bytes[3..]);
        assert s[0] == q[0] && s[1] == q[1] && s[2] == q[2] && s[3] == q[3];
        assert bytes == [b0, b1, b2] + bytes[3..];
      } else if |bytes| == 2 {
        assert s[0] == q[0] && s[1] == q[1] && s[2] == q[2] && s[3] == '=';
        assert bytes == [b0, b1];
      } else {
        assert s[0] == q[0] && s[1] == q[1] && s[2] == '=' && s[3] == '=';
        assert bytes == [b0];
      }
    }
  }

  lemma QuantumSize(b0: bv8, b1: bv8, b2: bv8)
    ensures |Quantum(b0, b1, b2)| == 4
  {}

  /** Encoding octets whose digits are known gives the symbols of those digits. */
  lemma QuantumWrites(d0: bv8, d1: bv8, d2: bv8, d3: bv8)
    requires d0 < 64 && d1 < 64 && d2 < 64 && d3 < 64
    ensures Quantum(Octet0(d0, d1), Octet1(d1, d2), Octet2(d2, d3)) == [SymbolOf(d0), SymbolOf(d1), SymbolOf(d2), SymbolOf(d3)]
  {
    hide Group, Digits, SymbolOf, Octet0, Octet1, Octet2;
    OctetsToDigits(d0, d1, d2, d3);
  }

  /** An accepted full quantum encodes back to its four symbols. */
  lemma EncodeDecodeFull(s: string)
    requires |s| >= 4 && s[3] != '=' && Decode(s).Some?
    ensures Decode(s[4..]).Some?
    ensures var bytes, rest := Decode(s).value, Decode(s[4..]).value;
            |bytes| >= 3 && bytes[3..] == rest && Quantum(bytes[0], bytes[1], bytes[2]) == s[..4]
  {
    hide Group, Digits, DigitOf, SymbolOf, Quantum, Octet0, Octet1, Octet2;
    QuantumWrites(DigitOf(s[0]).value, DigitOf(s[1]).value, DigitOf(s[2]).value, DigitOf(s[3]).value);
  }

  /** Every accepted text is the encoding of what it decodes to. */
  lemma {:induction false} EncodeDecode(s: string)
    requires Decode(s).Some?
    ensures Encode(Decode(s).value) == s
  {
    hide DecodeLast, DigitOf, Quantum, Octet0, Octet1, Octet2;
    if s != "" {
      assert |s| >= 4;
      if s[3] == '=' {
        EncodeDecodeLast(s[0], s[1], s[2]);
        assert s == [s[0], s[1], s[2], '='];
      } else {
        EncodeDecodeFull(s);
        hide Decode;
        EncodeDecode(s[4..]);
        assert s == s[..4] + s[4..];
      }
    }
  }

  /** Digits whose pad bits are zero are written back as one or two octets. */
  lemma EncodeTwoPads(d0: bv8, d1: bv8)
    requires d0 < 64 && d1 < 64 && d1 & 15 == 0
    ensures Encode([Octet0(d0, d1)]) == [SymbolOf(d0), SymbolOf(d1), '=', '=']
  {
    assert Octet1(d1, 0) == 0 && Octet2(0, 0) == 0;
    hide Quantum, SymbolOf, Octet0, Octet1, Octet2;
    QuantumWrites(d0, d1, 0, 0);
  }

  lemma EncodeOnePad(d0: bv8, d1: bv8, d2: bv8)
    requires d0 < 64 && d1 < 64 && d2 < 64 && d2 & 3 == 0
    ensures Encode([Octet0(d0, d1), Octet1(d1, d2)]) == [SymbolOf(d0), SymbolOf(d1), SymbolOf(d2), '=']
  {
    assert Octet2(d2, 0) == 0;
    hide Quantum, SymbolOf, Octet0, Octet1, Octet2;
    QuantumWrites(d0, d1, d2, 0);
  }

  lemma EncodeDecodeLast(c0: char, c1: char, c2: char)
    requires DecodeLast(c0, c1, c2).Some?
    ensures |DecodeLast(c0, c1, c2).value| < 3 && Encode(DecodeLast(c0, c1, c2).value) == [c0, c1, c2, '=']
  {
    hide DigitOf, SymbolOf, Octet0, Octet1, Octet2, Encode;
    if c2 == '=' {
      EncodeTwoPads(DigitOf(c0).value, DigitOf(c1).value);
    } else {
      EncodeOnePad(DigitOf(c0).value, DigitOf(c1).value, DigitOf(c2).value);
    }
  }

  /** The texts the decoder accepts are exactly the encoder's outputs, each of one byte sequence. */
  lemma DecodesIffEncoded(s: string, bytes: seq<bv8>)
    ensures Decode(s) == Some(bytes) <==> s == Encode(bytes)
  {
    DecodeEncode(bytes);
    if Decode(s) == Some(bytes) {
      EncodeDecode(s);
    }
  }

  lemma EncodeInjective(a: seq<bv8>, b: seq<bv8>)
    requires Encode(a) == Encode(b)
    ensures a == b
  {
    DecodeEncode(a);
    DecodeEncode(b);
  }

  /** Four symbols for every started group of three octets, within the capacity the encoder reserves. */
  lemma {:induction false} EncodeLength(bytes: seq<bv8>)
    ensures |Encode(bytes)| == 4 * ((|bytes| + 2) / 3)
    ensures |Encode(bytes)| <= |bytes| * 4 / 3 + 4
  {
    hide Quantum;
    if |bytes| > 0 {
      QuantumSize(bytes[0], if |bytes| > 1 then bytes[1] else 0, if |bytes| > 2 then bytes[2] else 0);
    }
    if |bytes| > 2 {
      EncodeLength(bytes[3..]);
    }
  }

  function Pads(n: nat): nat {
    (3 - n % 3) % 3
  }

  /** Pads are exactly the last zero, one or two symbols. */
  lemma {:induction false} PadsAtEnd(bytes: seq<bv8>)
    ensures var s := Encode(bytes);
            |s| >= Pads(|bytes|) && forall i :: 0 <= i < |s| ==> (s[i] == '=' <==> i >= |s| - Pads(|bytes|))
  {
    hide Quantum, Group, Digits, DigitOf;
    if |bytes| > 0 {
      var b1 := if |bytes| > 1 then bytes[1] else 0;
      var b2 := if |bytes| > 2 then bytes[2] else 0;
      QuantumSize(bytes[0], b1, b2);
      QuantumReads(bytes[0], b1, b2);
      var q, s := Quantum(bytes[0], b1, b2), Encode(bytes);
      if |bytes| > 2 {
        PadsAtEnd(bytes[3..]);
        EncodeLength(bytes[3..]);
        assert Pads(|bytes|) == Pads(|bytes| - 3);
        assert s == q + Encode(bytes[3..]);
      } else {
        assert s[0] == q[0] && s[1] == q[1] && s[2] == if |bytes| == 2 then q[2] else '=';
      }
    }
  }

  // ---- Section 10 of RFC 4648 ----

  lemma QuantumOf(b0: bv8, b1: bv8, b2: bv8, d0: bv8, d1: bv8, d2: bv8, d3: bv8)
    requires d0 == b0 >> 2 && d1 == ((b0 & 3) << 4) | (b1 >> 4) && d2 == ((b1 & 15) << 2) | (b2 >> 6) && d3 == b2 & 63
    ensures d0 < 64 && d1 < 64 && d2 < 64 && d3 < 64
    ensures Quantum(b0, b1, b2) == [SymbolOf(d0), SymbolOf(d1), SymbolOf(d2), SymbolOf(d3)]
  {
    hide SymbolOf, Digits, Group;
    QuantumDigits(b0, b1, b2);
  }

  /** The test vectors for `f`, `fo`, `foo` and `foob`. */
  lemma TestVectors()
    ensures Encode([0x66]) == "Zg==" && Encode([0x66, 0x6F]) == "Zm8=" && Encode([0x66, 0x6F, 0x6F]) == "Zm9v"
    ensures Encode([0x66, 0x6F, 0x6F, 0x62]) == "Zm9vYg=="
  {
    QuantumOf(0x66, 0, 0, 25, 32, 0, 0);
    QuantumOf(0x66, 0x6F, 0, 25, 38, 60, 0);
    QuantumOf(0x66, 0x6F, 0x6F, 25, 38, 61, 47);
    QuantumOf(0x62, 0, 0, 24, 32, 0, 0);
    VectorSymbols();
    hide Quantum, SymbolOf;
    assert [0x66, 0x6F, 0x6F][3..] == [] && [0x66, 0x6F, 0x6F, 0x62][3..] == [0x62];
  }

  lemma VectorSymbols()
    ensures [SymbolOf(25), SymbolOf(32)] == "Zg" && [SymbolOf(25), SymbolOf(38), SymbolOf(60)] == "Zm8"
    ensures [SymbolOf(25), SymbolOf(38), SymbolOf(61), SymbolOf(47)] == "Zm9v" && [SymbolOf(24), SymbolOf(32)] == "Yg"
  {}
}
