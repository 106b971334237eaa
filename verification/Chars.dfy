/** Character-level string helpers: trimming and ASCII case. */
module Chars {

  /** The code points of Unicode white space, which trimming removes. */
  predicate WhiteSpace(n: int) {
    9 <= n <= 13 || n in {0x20, 0x85, 0xA0, 0x1680, 0x2028, 0x2029, 0x202F, 0x205F, 0x3000} || 0x2000 <= n <= 0x200A
  }

  predicate IsWhite(c: char) {
    WhiteSpace(c as int)
  }

  function TrimStart(s: string): string {
    if s != "" && IsWhite(s[0]) then TrimStart(s[1..]) else s
  }

  function TrimEnd(s: string): string {
    if s != "" && IsWhite(s[|s| - 1]) then TrimEnd(s[..|s| - 1]) else s
  }

  function Trim(s: string): string {
    TrimEnd(TrimStart(s))
  }

  function LowerAscii(s: string): string {
    seq(|s|, i requires 0 <= i < |s| => if 'A' <= s[i] <= 'Z' then s[i] - 'A' + 'a' else s[i])
  }

  /** A text with solid ends survives trimming, behind an optional blank. */
  lemma TrimSolid(lead: string, s: string)
    requires lead == "" || lead == " "
    requires s != "" && !IsWhite(s[0]) && !IsWhite(s[|s| - 1])
    ensures Trim(lead + s) == s
  {
    assert TrimStart(s) == s && TrimEnd(s) == s;
    assert TrimStart(lead + s) == s by {
      if lead == " " {
        assert (lead + s)[0] == ' ' && (lead + s)[1..] == s;
      } else {
        assert lead + s == s;
      }
    }
  }

  lemma TrimKeepsOut(s: string, d: char)
    requires d !in s
    ensures d !in Trim(s)
  {
    TrimStartKeepsOut(s, d);
    TrimEndKeepsOut(TrimStart(s), d);
  }

  lemma {:induction false} TrimStartKeepsOut(s: string, d: char)
    requires d !in s
    ensures d !in TrimStart(s)
  {
    if s != "" && IsWhite(s[0]) {
      TrimStartKeepsOut(s[1..], d);
    }
  }

  lemma {:induction false} TrimEndKeepsOut(s: string, d: char)
    requires d !in s
    ensures d !in TrimEnd(s)
  {
    if s != "" && IsWhite(s[|s| - 1]) {
      TrimEndKeepsOut(s[..|s| - 1], d);
    }
  }

  ghost predicate Blank(s: string) {
    forall i :: 0 <= i < |s| ==> IsWhite(s[i])
  }

  /** Empty, or without white space at either end. */
  predicate Solid(s: string) {
    s == "" || (!IsWhite(s[0]) && !IsWhite(s[|s| - 1]))
  }

  /** Trimming takes the white space off both ends, and nothing else. */
  lemma TrimCuts(s: string) returns (front: string, back: string)
    ensures Blank(front) && Blank(back) && s == front + Trim(s) + back && Solid(Trim(s))
  {
    hide IsWhite;
    front := TrimStartCuts(s);
    back := TrimEndCuts(TrimStart(s));
    assert s == front + (Trim(s) + back) == front + Trim(s) + back;
  }

  lemma {:induction false} TrimStartCuts(s: string) returns (front: string)
    ensures Blank(front) && s == front + TrimStart(s) && (TrimStart(s) == "" || !IsWhite(TrimStart(s)[0]))
  {
    hide IsWhite;
    if s != "" && IsWhite(s[0]) {
      var rest := TrimStartCuts(s[1..]);
      front := [s[0]] + rest;
      assert s == [s[0]] + s[1..];
    } else {
      front := "";
    }
  }

  lemma {:induction false} TrimEndCuts(s: string) returns (back: string)
    ensures Blank(back) && s == TrimEnd(s) + back
    ensures TrimEnd(s) == "" || (!IsWhite(TrimEnd(s)[|TrimEnd(s)| - 1]) && TrimEnd(s)[0] == s[0])
  {
    hide IsWhite;
    if s != "" && IsWhite(s[|s| - 1]) {
      var rest := TrimEndCuts(s[..|s| - 1]);
      back := rest + [s[|s| - 1]];
      assert s == s[..|s| - 1] + [s[|s| - 1]];
    } else {
      back := "";
    }
  }

  /** Solid text between white space is what trimming leaves. */
  lemma TrimIs(front: string, t: string, back: string)
    requires Blank(front) && Blank(back) && t != "" && Solid(t)
    ensures Trim(front + t + back) == t
  {
    hide IsWhite;
    TrimStartIs(front, t + back);
    assert front + t + back == front + (t + back);
    TrimEndIs(t, back);
  }

  lemma {:induction false} BlankTrims(s: string)
    requires Blank(s)
    ensures Trim(s) == ""
  {
    if s != "" {
      BlankTrims(s[1..]);
    }
  }

  lemma {:induction false} TrimStartIs(front: string, t: string)
    requires Blank(front) && t != "" && !IsWhite(t[0])
    ensures TrimStart(front + t) == t
  {
    hide IsWhite;
    if front == "" {
      assert front + t == t;
    } else {
      TrimStartIs(front[1..], t);
      assert (front + t)[1..] == front[1..] + t;
    }
  }

  lemma {:induction false} TrimEndIs(t: string, back: string)
    requires Blank(back) && t != "" && !IsWhite(t[|t| - 1])
    ensures TrimEnd(t + back) == t
  {
    hide IsWhite;
    if back == "" {
      assert t + back == t;
    } else {
      var s := t + back;
      TrimEndIs(t, back[..|back| - 1]);
      assert s[..|s| - 1] == t + back[..|back| - 1] && s[|s| - 1] == back[|back| - 1];
    }
  }

  /** Two texts that differ in the case of ASCII letters only; the second has no capitals. */
  ghost predicate SameLetters(s: string, low: string) {
    |s| == |low| && forall i :: 0 <= i < |s| ==>
      if 65 <= s[i] as int <= 90 then low[i] as int == s[i] as int + 32 else low[i] == s[i]
  }

  lemma LowerIff(s: string, low: string)
    ensures LowerAscii(s) == low <==> SameLetters(s, low)
  {
    assert |LowerAscii(s)| == |s|;
    if SameLetters(s, low) {
      assert forall i :: 0 <= i < |s| ==> LowerAscii(s)[i] == low[i];
    }
  }
}
