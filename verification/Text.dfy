/** First-occurrence search and splitting, over any element type. */
module Text {
  import opened Wrappers

  /** `p` occurs in `s` at position `i`. */
  predicate HasAt<T(==)>(s: seq<T>, p: seq<T>, i: nat) {
    i + |p| <= |s| && s[i..i + |p|] == p
  }

  predicate StartsWith<T(==)>(s: seq<T>, p: seq<T>) {
    HasAt(s, p, 0)
  }

  predicate EndsWith<T(==)>(s: seq<T>, p: seq<T>) {
    |p| <= |s| && s[|s| - |p|..] == p
  }

  ghost predicate Occurs<T>(s: seq<T>, p: seq<T>) {
    exists i: nat :: HasAt(s, p, i)
  }

  /** The least position from `from` on where `p` occurs. */
  function Find<T(==)>(s: seq<T>, p: seq<T>, from: nat): (r: Option<nat>)
    requires from <= |s|
    ensures r.Some? ==> from <= r.value && HasAt(s, p, r.value)
    ensures r.Some? ==> forall i :: from <= i < r.value ==> !HasAt(s, p, i)
    ensures r.None? ==> forall i :: from <= i ==> !HasAt(s, p, i)
    decreases |s| - from
  {
    if HasAt(s, p, from) then Some(from)
    else if from == |s| then None
    else Find(s, p, from + 1)
  }

  /** Occurrences seen from inside a tail, or within a prefix. */
  lemma FindInTail<T>(s: seq<T>, p: seq<T>, n: nat, k: nat)
    requires n <= |s|
    ensures HasAt(s[n..], p, k) <==> HasAt(s, p, n + k)
  {
    if n + k + |p| <= |s| {
      assert s[n..][k..k + |p|] == s[n + k..n + k + |p|];
    }
  }

  lemma FindInPrefix<T>(s: seq<T>, p: seq<T>, n: nat, k: nat)
    requires n <= |s| && k + |p| <= n
    ensures HasAt(s[..n], p, k) <==> HasAt(s, p, k)
  {
    assert s[..n][k..k + |p|] == s[k..k + |p|];
  }

  lemma FoundIs<T>(s: seq<T>, p: seq<T>, n: nat, j: nat)
    requires n <= j && HasAt(s, p, j) && forall i :: n <= i < j ==> !HasAt(s, p, i)
    ensures Find(s, p, n) == Some(j)
  {}

  /** The pieces of `s` between occurrences of the separator `c`; always at least one. */
  function SplitOn<T(==)>(s: seq<T>, c: T): (r: seq<seq<T>>)
    ensures |r| >= 1
    ensures forall i :: 0 <= i < |r| ==> c !in r[i]
  {
    if s == [] then [[]]
    else
      var rest := SplitOn(s[1..], c);
      if s[0] == c then [[]] + rest else [[s[0]] + rest[0]] + rest[1..]
  }

  function Join<T>(parts: seq<seq<T>>, sep: seq<T>): seq<T> {
    if |parts| == 0 then []
    else if |parts| == 1 then parts[0]
    else parts[0] + sep + Join(parts[1..], sep)
  }

  /** Cutting at a separator in the middle. */
  lemma {:induction false} SplitOnMiddle<T>(a: seq<T>, c: T, b: seq<T>)
    ensures SplitOn(a + [c] + b, c) == SplitOn(a, c) + SplitOn(b, c)
  {
    var s := a + [c] + b;
    if a == [] {
      assert s[0] == c && s[1..] == b && SplitOn(a, c) == [[]];
    } else {
      SplitOnMiddle(a[1..], c, b);
      assert s[0] == a[0] && s[1..] == a[1..] + [c] + b;
      Regroup(a[0], c, SplitOn(a[1..], c), SplitOn(b, c));
    }
  }

  lemma Regroup<T>(x: T, c: T, p: seq<seq<T>>, q: seq<seq<T>>)
    requires p != []
    ensures (if x == c then [[]] + (p + q) else [[x] + (p + q)[0]] + (p + q)[1..]) ==
            (if x == c then [[]] + p else [[x] + p[0]] + p[1..]) + q
  {}

  /** Two lists of pieces, the last of the one run into the first of the other. */
  function Glue<T>(p: seq<seq<T>>, q: seq<seq<T>>): seq<seq<T>>
    requires p != [] && q != []
  {
    p[..|p| - 1] + [p[|p| - 1] + q[0]] + q[1..]
  }

  lemma GlueNothing<T>(q: seq<seq<T>>)
    requires q != []
    ensures Glue([[]], q) == q
  {
    assert [] + q[0] == q[0];
  }

  lemma GlueBehind<T>(x: seq<T>, p: seq<seq<T>>, q: seq<seq<T>>)
    requires p != [] && q != []
    ensures Glue([x] + p, q) == [x] + Glue(p, q)
    ensures Glue([x + p[0]] + p[1..], q) == [x + Glue(p, q)[0]] + Glue(p, q)[1..]
  {
    var g, h := Glue([x + p[0]] + p[1..], q), Glue(p, q);
    assert |g| == |h| == |p| + |q| - 1;
    if |p| == 1 {
      assert x + (p[0] + q[0]) == x + p[0] + q[0];
    }
  }

  /** The pieces of a concatenation. */
  lemma {:induction false} SplitOnAppend<T>(a: seq<T>, b: seq<T>, c: T)
    ensures SplitOn(a + b, c) == Glue(SplitOn(a, c), SplitOn(b, c))
  {
    hide Glue;
    if a == [] {
      assert a + b == b;
      GlueNothing(SplitOn(b, c));
    } else {
      SplitOnAppend(a[1..], b, c);
      assert (a + b)[0] == a[0] && (a + b)[1..] == a[1..] + b;
      GlueBehind([], SplitOn(a[1..], c), SplitOn(b, c));
      GlueBehind([a[0]], SplitOn(a[1..], c), SplitOn(b, c));
    }
  }

  lemma {:induction false} SplitOnSingle<T>(a: seq<T>, c: T)
    requires c !in a
    ensures SplitOn(a, c) == [a]
  {
    if a != [] {
      SplitOnSingle(a[1..], c);
      assert [a[0]] + a[1..] == a;
    }
  }

  /** A piece without the separator, put in front of a separator, is split off whole. */
  lemma SplitOnCons<T>(a: seq<T>, c: T, b: seq<T>)
    requires c !in a
    ensures SplitOn(a + [c] + b, c) == [a] + SplitOn(b, c)
  {
    SplitOnMiddle(a, c, b);
    SplitOnSingle(a, c);
  }

  /** Joining inverts splitting, so that the pieces lose nothing. */
  lemma {:induction false} JoinSplit<T>(s: seq<T>, c: T)
    ensures Join(SplitOn(s, c), [c]) == s
  {
    if s != [] {
      JoinSplit(s[1..], c);
      var rest := SplitOn(s[1..], c);
      assert s == [s[0]] + s[1..];
      if s[0] == c {
        assert ([[]] + rest)[1..] == rest && [] + [c] + Join(rest, [c]) == [c] + Join(rest, [c]);
      } else {
        var first := [s[0]] + rest[0];
        assert ([first] + rest[1..])[1..] == rest[1..];
        if |rest| > 1 {
          assert first + [c] + Join(rest[1..], [c]) == [s[0]] + (rest[0] + [c] + Join(rest[1..], [c]));
        }
      }
    }
  }

  /** Splitting inverts joining when no piece holds the separator. */
  lemma {:induction false} SplitJoin<T>(parts: seq<seq<T>>, c: T)
    requires |parts| >= 1
    requires forall i :: 0 <= i < |parts| ==> c !in parts[i]
    ensures SplitOn(Join(parts, [c]), c) == parts
  {
    if |parts| == 1 {
      SplitOnSingle(parts[0], c);
    } else {
      SplitJoin(parts[1..], c);
      SplitOnCons(parts[0], c, Join(parts[1..], [c]));
    }
  }
}
