/** Decimal suffixes: the candidate names `x-1`, `x-2`, ... the installer probes. */
module Names {

  function Digit(n: nat): (c: char)
    requires n < 10
    ensures c != '-'
  {
    '0' + n as char
  }

  /** Decimal rendering, as `format!("{}", n)`. */
  function Decimal(n: nat): (s: string)
    ensures |s| >= 1
    ensures '-' !in s
  {
    if n < 10 then [Digit(n)] else Decimal(n / 10) + [Digit(n % 10)]
  }

  /** The number a digit string stands for, read from the left. */
  function Value(s: string): nat
    requires forall i :: 0 <= i < |s| ==> '0' <= s[i] <= '9'
  {
    if s == "" then 0 else 10 * Value(s[..|s| - 1]) + (s[|s| - 1] as nat - '0' as nat)
  }

  /** A decimal is made of digits, starts with no zero but for zero itself, and reads back as its number. */
  lemma {:induction false} DecimalReads(n: nat)
    ensures var s := Decimal(n);
            && s != "" && (forall i :: 0 <= i < |s| ==> '0' <= s[i] <= '9')
            && Value(s) == n
            && (s[0] == '0' ==> n == 0 && |s| == 1)
  {
    var s := Decimal(n);
    if n < 10 {
      assert s[..0] == "" && Value("") == 0;
    } else {
      DecimalReads(n / 10);
      assert s[..|s| - 1] == Decimal(n / 10);
    }
  }

  /** Candidate number `n` for a desired name; number 0 is the name itself. */
  function Candidate(desired: string, n: nat): string {
    if n == 0 then desired else desired + "-" + Decimal(n)
  }

  lemma DecimalInjective(a: nat, b: nat)
    requires Decimal(a) == Decimal(b)
    ensures a == b
  {
    DecimalReads(a);
    DecimalReads(b);
  }

  /** The dash of a suffixed name is its last one: decimals hold no dash. */
  lemma LastDash(x: string, a: nat)
    ensures var s := x + "-" + Decimal(a);
            s[|x|] == '-' && forall i :: |x| < i < |s| ==> s[i] != '-'
  {
    var s, d := x + "-" + Decimal(a), Decimal(a);
    forall i | |x| < i < |s| ensures s[i] != '-' {
      assert s[i] == d[i - |x| - 1];
    }
  }

  /** A suffixed name splits in one way only. */
  lemma SuffixUnique(x: string, a: nat, y: string, b: nat)
    requires x + "-" + Decimal(a) == y + "-" + Decimal(b)
    ensures x == y && a == b
  {
    var s := x + "-" + Decimal(a);
    LastDash(x, a);
    LastDash(y, b);
    assert s[..|x|] == x && s[..|y|] == y;
    assert s[|x| + 1..] == Decimal(a) && s[|y| + 1..] == Decimal(b);
    DecimalInjective(a, b);
  }

  lemma CandidateInjective(x: string, a: nat, b: nat)
    requires Candidate(x, a) == Candidate(x, b)
    ensures a == b
  {
    if a > 0 && b > 0 {
      SuffixUnique(x, a, x, b);
    }
    assert a > 0 ==> |Candidate(x, a)| > |x|;
    assert b > 0 ==> |Candidate(x, b)| > |x|;
  }

  /** Candidates `lo..hi` of one name. */
  ghost function Candidates(x: string, lo: nat, hi: nat): set<string> {
    set i: nat | lo <= i < hi :: Candidate(x, i)
  }

  lemma {:induction false} CandidatesCount(x: string, lo: nat, hi: nat)
    requires lo <= hi
    ensures |Candidates(x, lo, hi)| == hi - lo
  {
    if lo == hi {
      assert Candidates(x, lo, hi) == {};
    } else {
      CandidatesCount(x, lo, hi - 1);
      assert Candidates(x, lo, hi) == Candidates(x, lo, hi - 1) + {Candidate(x, hi - 1)};
      if Candidate(x, hi - 1) in Candidates(x, lo, hi - 1) {
        var i: nat :| lo <= i < hi - 1 && Candidate(x, hi - 1) == Candidate(x, i);
        CandidateInjective(x, hi - 1, i);
      }
    }
  }

  lemma {:induction false} SubsetSmaller<T>(a: set<T>, b: set<T>)
    requires a <= b
    ensures |a| <= |b|
  {
    if a != {} {
      var x :| x in a;
      SubsetSmaller(a - {x}, b - {x});
    }
  }

  /** Pigeonhole: a finite set of names holds at most its own number of candidates. */
  lemma CandidatesRunOut(names: set<string>, x: string, n: nat)
    requires forall i: nat :: i < n ==> Candidate(x, i) in names
    ensures n <= |names|
  {
    CandidatesCount(x, 0, n);
    SubsetSmaller(Candidates(x, 0, n), names);
  }
}
