/** How an overlay template is merged into a base template. */
module Merger {
  import opened Wrappers
  import opened Text
  import opened Chars

  datatype MergeStrategy = Replace | Append | Prepend | Section(name: string)

  function Parse(s: string): MergeStrategy {
    var trimmed := Trim(s);
    if StartsWith(trimmed, "section:") then Section(trimmed[8..])
    else
      var lower := LowerAscii(trimmed);
      if lower == "append" then Append
      else if lower == "prepend" then Prepend
      else Replace
  }

  function Marker(name: string): string {
    "{{!-- " + name + " --}}"
  }

  function AppendTo(base: string, overlay: string): string {
    if base == "" then overlay
    else if EndsWith(base, "\n") then base + overlay
    else base + "\n" + overlay
  }

  function PrependTo(base: string, overlay: string): string {
    if base == "" then overlay
    else if EndsWith(overlay, "\n") then overlay + base
    else overlay + "\n" + base
  }

  /** `str::replace`: leftmost occurrences, never overlapping. */
  function ReplaceAll(s: string, p: string, o: string): string
    requires p != ""
    decreases |s|
  {
    match Find(s, p, 0)
    case None => s
    case Some(j) => s[..j] + o + ReplaceAll(s[j + |p|..], p, o)
  }

  function Merge(strategy: MergeStrategy, base: string, overlay: string): string {
    match strategy
    case Replace => overlay
    case Append => AppendTo(base, overlay)
    case Prepend => PrependTo(base, overlay)
    case Section(name) =>
      if Find(base, Marker(name), 0).Some? then ReplaceAll(base, Marker(name), overlay) else AppendTo(base, overlay)
  }

  // ---- What each strategy does ----

  /** The line end that keeps two texts apart, when the first holds something and lacks one. */
  function Apart(first: string): string {
    if first == "" || first[|first| - 1] == '\n' then "" else "\n"
  }

  /** An append keeps the base and the overlay whole, in this order, kept apart by a line end if the base holds
      something and does not end in one. */
  lemma AppendKeepsBoth(base: string, overlay: string)
    ensures Merge(Append, base, overlay) == base + Apart(base) + overlay
    ensures |Merge(Append, base, overlay)| == |base| + |overlay| + if base == "" || base[|base| - 1] == '\n' then 0 else 1
  {
    assert base != "" ==> base[|base| - 1..] == [base[|base| - 1]];
    assert base + "" == base && "" + overlay == overlay;
  }

  /** A prepend puts the overlay first; only with an empty base nothing keeps them apart, and even an empty
      overlay is ended by a line end. */
  lemma PrependKeepsBoth(base: string, overlay: string)
    ensures Merge(Prepend, base, overlay) ==
            overlay + (if base == "" || (overlay != "" && overlay[|overlay| - 1] == '\n') then "" else "\n") + base
  {
    assert overlay != "" ==> overlay[|overlay| - 1..] == [overlay[|overlay| - 1]];
    assert overlay + "" == overlay;
  }

  lemma ReplaceForgetsBase(base: string, overlay: string)
    ensures Merge(Replace, base, overlay) == overlay
  {}

  // ---- Cutting at markers ----

  /** `p` occurs in `s` for the first time at the end of `s`. */
  ghost predicate FirstAtEnd(s: string, p: string) {
    forall i :: 0 <= i < |s| ==> !HasAt(s + p, p, i)
  }

  /** `pieces` is a leftmost cutting at `p`: after each piece but the last the first occurrence of `p`
      follows, and the last holds none. */
  ghost predicate Cut(pieces: seq<string>, p: string) {
    && pieces != []
    && (forall i :: 0 <= i < |pieces| - 1 ==> FirstAtEnd(pieces[i], p))
    && !Occurs(pieces[|pieces| - 1], p)
  }

  function Pieces(s: string, p: string): (r: seq<string>)
    requires p != ""
    ensures r != []
    decreases |s|
  {
    match Find(s, p, 0)
    case None => [s]
    case Some(j) => [s[..j]] + Pieces(s[j + |p|..], p)
  }

  lemma JoinCons(piece: string, rest: seq<string>, sep: string)
    requires rest != []
    ensures Join([piece] + rest, sep) == piece + sep + Join(rest, sep)
  {
    assert ([piece] + rest)[1..] == rest;
  }

  lemma CutHere(s: string, p: string, j: nat)
    requires HasAt(s, p, j) && forall i :: 0 <= i < j ==> !HasAt(s, p, i)
    ensures j + |p| <= |s| && s == s[..j] + p + s[j + |p|..] && FirstAtEnd(s[..j], p)
  {
    var t := s[..j] + p;
    assert t == s[..j + |p|];
    assert s == s[..j + |p|] + s[j + |p|..];
    forall i | 0 <= i < j ensures !HasAt(t, p, i) {
      FindInPrefix(s, p, j + |p|, i);
      assert !HasAt(s, p, i);
    }
  }

  lemma CutCons(piece: string, rest: seq<string>, p: string)
    requires FirstAtEnd(piece, p) && Cut(rest, p)
    ensures Cut([piece] + rest, p)
  {
    var all := [piece] + rest;
    forall i | 0 <= i < |all| - 1 ensures FirstAtEnd(all[i], p) {
      assert i > 0 ==> all[i] == rest[i - 1];
    }
  }

  /** Cutting a base at its markers and joining the pieces with them again gives the base back. */
  lemma {:induction false} PiecesCut(s: string, p: string)
    requires p != ""
    ensures Cut(Pieces(s, p), p) && Join(Pieces(s, p), p) == s
    decreases |s|
  {
    hide FirstAtEnd;
    match Find(s, p, 0)
    case None =>
    case Some(j) =>
      CutHere(s, p, j);
      var rest := Pieces(s[j + |p|..], p);
      PiecesCut(s[j + |p|..], p);
      CutCons(s[..j], rest, p);
      JoinCons(s[..j], rest, p);
  }

  lemma FirstIsFound(piece: string, p: string, tail: string)
    requires FirstAtEnd(piece, p)
    ensures Find(piece + p + tail, p, 0) == Some(|piece|)
  {
    var s := piece + p + tail;
    assert s[|piece|..|piece| + |p|] == p && s[..|piece| + |p|] == piece + p;
    forall i | 0 <= i < |piece| ensures !HasAt(s, p, i) {
      FindInPrefix(s, p, |piece| + |p|, i);
      assert !HasAt(piece + p, p, i);
    }
    FoundIs(s, p, 0, |piece|);
  }

  /** There is one leftmost cutting: any cutting that joins to the base is the base's. */
  lemma {:induction false} CutUnique(pieces: seq<string>, p: string)
    requires p != "" && Cut(pieces, p)
    ensures Pieces(Join(pieces, p), p) == pieces
  {
    if |pieces| > 1 {
      CutTail(pieces, p);
      assert FirstAtEnd(pieces[0], p);
      hide FirstAtEnd, Cut, Pieces;
      CutUnique(pieces[1..], p);
      PiecesHere(pieces[0], p, Join(pieces[1..], p));
      assert pieces == [pieces[0]] + pieces[1..];
    } else {
      assert pieces == [pieces[0]];
    }
  }

  lemma CutTail(pieces: seq<string>, p: string)
    requires Cut(pieces, p) && |pieces| > 1
    ensures Cut(pieces[1..], p)
  {
    hide FirstAtEnd, Occurs;
    forall i | 0 <= i < |pieces| - 2 ensures FirstAtEnd(pieces[1..][i], p) {
      assert pieces[1..][i] == pieces[i + 1];
    }
  }

  lemma PiecesHere(piece: string, p: string, tail: string)
    requires p != "" && FirstAtEnd(piece, p)
    ensures Pieces(piece + p + tail, p) == [piece] + Pieces(tail, p)
  {
    FirstIsFound(piece, p, tail);
    hide FirstAtEnd, Find;
    var s := piece + p + tail;
    assert s[..|piece|] == piece && s[|piece| + |p|..] == tail;
  }

  lemma {:induction false} ReplaceJoins(s: string, p: string, o: string)
    requires p != ""
    ensures ReplaceAll(s, p, o) == Join(Pieces(s, p), o)
    decreases |s|
  {
    match Find(s, p, 0)
    case None =>
    case Some(j) =>
      ReplaceJoins(s[j + |p|..], p, o);
      JoinCons(s[..j], Pieces(s[j + |p|..], p), o);
  }

  lemma {:induction false} JoinLength(pieces: seq<string>, a: string, b: string)
    requires pieces != []
    ensures |Join(pieces, b)| == |Join(pieces, a)| + (|pieces| - 1) * (|b| - |a|)
  {
    if |pieces| > 1 {
      JoinLength(pieces[1..], a, b);
      var k, d := |pieces| - 2, |b| - |a|;
      assert (k + 1) * d == k * d + d;
    }
  }

  /** With a marker the overlay takes its place everywhere; without one the merge is an append. */
  lemma MergeByPieces(name: string, base: string, overlay: string)
    ensures var m, r := Marker(name), Merge(Section(name), base, overlay);
            var pieces := Pieces(base, m);
            && (|pieces| > 1 ==> r == Join(pieces, overlay))
            && (|pieces| == 1 ==> r == Merge(Append, base, overlay))
  {
    ReplaceJoins(base, Marker(name), overlay);
    hide Join, Marker, AppendTo;
  }

  /** Section merge. However a base is cut leftmost at the section's marker, the merge puts the overlay in
      place of every marker and keeps the pieces; without a marker the base is kept and the overlay appended. */
  lemma SectionMerge(name: string, overlay: string, pieces: seq<string>)
    requires Cut(pieces, "{{!-- " + name + " --}}")
    ensures var m := "{{!-- " + name + " --}}";
            var base := Join(pieces, m);
            var r := Merge(Section(name), base, overlay);
            && (|pieces| > 1 ==> r == Join(pieces, overlay))
            && (|pieces| > 1 ==> |r| == |base| + (|pieces| - 1) * (|overlay| - |m|))
            && (|pieces| == 1 ==> base == pieces[0] && r == base + Apart(base) + overlay)
  {
    hide *;
    var m := "{{!-- " + name + " --}}";
    MarkerIs(name);
    CutSizes(pieces, m);
    CutUnique(pieces, m);
    MergeByPieces(name, Join(pieces, m), overlay);
    JoinLength(pieces, m, overlay);
    AppendKeepsBoth(Join(pieces, m), overlay);
  }

  lemma MarkerIs(name: string)
    ensures Marker(name) == "{{!-- " + name + " --}}" != ""
  {}

  lemma CutSizes(pieces: seq<string>, p: string)
    requires Cut(pieces, p)
    ensures pieces != [] && (|pieces| == 1 ==> Join(pieces, p) == pieces[0])
  {}

  /** Every base has such a cutting. */
  lemma SectionCuts(name: string, base: string)
    ensures Cut(Pieces(base, Marker(name)), Marker(name)) && Join(Pieces(base, Marker(name)), Marker(name)) == base
  {
    PiecesCut(base, Marker(name));
  }

  /** Merging a section's own marker into a base that has it changes nothing. */
  lemma MarkerMergesToItself(name: string, base: string)
    requires Occurs(base, Marker(name))
    ensures Merge(Section(name), base, Marker(name)) == base
  {
    PiecesCut(base, Marker(name));
    ReplaceJoins(base, Marker(name), Marker(name));
  }

  // ---- Stacking overlays ----

  lemma AppendNonEmpty(base: string, overlay: string)
    requires overlay != ""
    ensures EndsWith(AppendTo(base, overlay), "\n") <==> EndsWith(overlay, "\n")
  {
    var r := AppendTo(base, overlay);
    assert r[|r| - 1..] == overlay[|overlay| - 1..];
  }

  /** Appending two overlays one by one, or as one stacked overlay, is the same. */
  lemma AppendAssociative(base: string, o1: string, o2: string)
    ensures Merge(Append, Merge(Append, base, o1), o2) == Merge(Append, base, Merge(Append, o1, o2))
  {
    if base != "" && o1 != "" {
      AppendNonEmpty(base, o1);
    } else if base != "" {
      var b := AppendTo(base, "");
      assert b == if EndsWith(base, "\n") then base else base + "\n";
      assert b[|b| - 1..] == "\n";
    }
  }

  /** The line end an overlay gets when a base follows it. */
  function Break(overlay: string): string {
    if EndsWith(overlay, "\n") then "" else "\n"
  }

  lemma PrependIs(base: string, overlay: string)
    requires base != ""
    ensures PrependTo(base, overlay) == overlay + Break(overlay) + base
  {
    assert overlay + "" == overlay;
  }

  /** Prepending is associative unless an empty overlay goes in front of a base: alone it still adds a line. */
  lemma PrependAssociativeIff(base: string, o1: string, o2: string)
    ensures Merge(Prepend, Merge(Prepend, base, o1), o2) == Merge(Prepend, base, Merge(Prepend, o1, o2)) <==>
            base == "" || o1 != ""
  {
    if base != "" && o1 != "" {
      PrependStacks(base, o1, o2);
    } else if base != "" {
      PrependIs(base, "");
      PrependIs(PrependTo(base, ""), o2);
      PrependIs(base, o2);
      assert PrependTo("", o2) == o2 && Break("") == "\n";
      hide PrependTo, Break;
      assert |PrependTo(PrependTo(base, ""), o2)| == |PrependTo(base, o2)| + 1;
    }
  }

  lemma PrependStacks(base: string, o1: string, o2: string)
    requires base != "" && o1 != ""
    ensures PrependTo(PrependTo(base, o1), o2) == PrependTo(base, PrependTo(o1, o2))
  {
    PrependIs(base, o1);
    PrependIs(PrependTo(base, o1), o2);
    PrependIs(base, PrependTo(o1, o2));
    PrependIs(o1, o2);
    var front := o2 + Break(o2);
    assert Break(front + o1) == Break(o1) by {
      assert (front + o1)[|front + o1| - 1..] == o1[|o1| - 1..];
    }
    hide PrependTo, Break;
    assert front + (o1 + Break(o1) + base) == front + o1 + Break(o1) + base;
  }

  // ---- Strategy literals ----

  function Literal(strategy: MergeStrategy): string {
    match strategy
    case Replace => "replace"
    case Append => "append"
    case Prepend => "prepend"
    case Section(name) => "section:" + name
  }

  lemma {:induction false} TrimEndOf(prefix: string, s: string)
    requires prefix != "" && !IsWhite(prefix[|prefix| - 1])
    ensures TrimEnd(prefix + s) == prefix + TrimEnd(s)
  {
    if s == "" {
      assert prefix + s == prefix;
    } else {
      assert (prefix + s)[..|prefix + s| - 1] == prefix + s[..|s| - 1];
      if IsWhite(s[|s| - 1]) {
        TrimEndOf(prefix, s[..|s| - 1]);
      }
    }
  }

  /** A strategy literal is read back exactly when trimming leaves the end of its section name alone. */
  lemma ParseLiteralIff(strategy: MergeStrategy)
    ensures Parse(Literal(strategy)) == strategy <==> (strategy.Section? ==> TrimEnd(strategy.name) == strategy.name)
  {
    var s := Literal(strategy);
    match strategy
    case Section(name) =>
      TrimEndOf("section:", name);
      assert s[0] == 's' && TrimStart(s) == s;
      var t := "section:" + TrimEnd(name);
      assert t[0..8] == "section:" && t[8..] == TrimEnd(name);
    case _ =>
      TrimSolid("", s);
      assert "" + s == s && LowerAscii(s) == s;
      assert s[0] != "section:"[0];
  }

  /** What a strategy text says, whatever white space surrounds it: `section:` and a name, `append` or `prepend`
      in any case, and a replacement for all else. */
  lemma ParseIff(front: string, t: string, back: string)
    requires Blank(front) && Blank(back) && t != "" && Solid(t)
    ensures var s := Parse(front + t + back);
            && (forall name :: s == Section(name) <==> t == "section:" + name)
            && (s == Append <==> SameLetters(t, "append"))
            && (s == Prepend <==> SameLetters(t, "prepend"))
  {
    hide Trim, LowerAscii, Solid;
    TrimIs(front, t, back);
    LowerIff(t, "append");
    LowerIff(t, "prepend");
    assert StartsWith(t, "section:") ==> t == t[0..8] + t[8..];
    forall name | t == "section:" + name ensures t[0..8] == "section:" && t[8..] == name {}
    if StartsWith(t, "section:") {
      assert t[0] == 's' && "append"[0] == 'a' && "prepend"[0] == 'p';
    }
  }

  lemma EmptyParses(blank: string)
    requires Blank(blank)
    ensures Parse(blank) == Replace
  {
    BlankTrims(blank);
    assert LowerAscii("") == "";
  }
}
