/** The byte scanner over a whole Markdown body: lines, fences, and the links of each line. */
module WikiScanner {
  import opened Wrappers
  import opened Text
  import opened Utf8
  import opened WikiLinks

  // ---- Links of a line ----

  /** `split_once('|')`. */
  function SplitOnce(content: Bytes): (Bytes, Option<Bytes>) {
    match Find(content, [PIPE], 0)
    case Some(j) => (content[..j], Some(content[j + 1..]))
    case None => (content, None)
  }

  function LinkOf(content: Bytes): WikiLink {
    var (target, alias) := SplitOnce(content);
    WikiLink(target, alias, OPENER + content + CLOSER)
  }

  function LinksOf(ts: seq<Token>): seq<WikiLink> {
    if ts == [] then []
    else (if ts[0].Link? then [LinkOf(ts[0].content)] else []) + LinksOf(ts[1..])
  }

  function LineLinks(line: Bytes): seq<WikiLink> {
    LinksOf(Lex(line))
  }

  // ---- Lines and fences ----

  const FENCE: Bytes := [TICK, TICK, TICK]
  const TILDES: Bytes := [TILDE, TILDE, TILDE]

  /** `str::lines`: cut at line feeds, a carriage return before one dropped, no empty last line. */
  function LinesOf(body: Bytes): seq<Bytes>
    decreases |body|
  {
    if body == [] then []
    else
      match Find(body, [LF], 0)
      case None => [body]
      case Some(j) => [StripCr(body[..j])] + LinesOf(body[j + 1..])
  }

  function StripCr(line: Bytes): Bytes {
    if line != [] && line[|line| - 1] == CR then line[..|line| - 1] else line
  }

  predicate IsFence(line: Bytes) {
    var t := TrimStart(line);
    StartsWith(t, FENCE) || StartsWith(t, TILDES)
  }

  /** Links of the lines outside fences; a fence line toggles and is never scanned itself. */
  function ScanLines(lines: seq<Bytes>, inFence: bool): seq<WikiLink> {
    if lines == [] then []
    else if IsFence(lines[0]) then ScanLines(lines[1..], !inFence)
    else (if inFence then [] else LineLinks(lines[0])) + ScanLines(lines[1..], inFence)
  }

  function BodyLinks(body: Bytes): seq<WikiLink> {
    ScanLines(LinesOf(body), false)
  }

  // ---- The scanner ----

  lemma LinksCons(t: Token, rest: seq<Token>)
    ensures LinksOf([t] + rest) == (if t.Link? then [LinkOf(t.content)] else []) + LinksOf(rest)
  {
    assert ([t] + rest)[1..] == rest;
  }

  /** Every link token is a link, and no other token is. */
  lemma {:induction false} LinksAppend(a: seq<Token>, b: seq<Token>)
    ensures LinksOf(a + b) == LinksOf(a) + LinksOf(b)
  {
    hide LinkOf;
    if a == [] {
      assert a + b == b;
    } else {
      LinksAppend(a[1..], b);
      assert (a + b)[1..] == a[1..] + b;
    }
  }

  lemma LinksOfOne(t: Token)
    ensures LinksOf([t]) == if t.Link? then [LinkOf(t.content)] else []
  {
    assert [t][1..] == [];
  }

  /** Reading on from a position inside a line. */
  lemma LexFrom(s: Bytes, i: nat)
    requires i < |s|
    ensures
      if s[i] == TICK then
        var r := Find(s, [TICK], i + 1);
        if r.Some? then r.value < |s| && LineLinks(s[i..]) == LineLinks(s[r.value + 1..]) else LineLinks(s[i..]) == []
      else if HasAt(s, OPENER, i) then
        var r := Find(s, CLOSER, i + 2);
        if r.Some? then r.value + 2 <= |s| && FirstLink(s[i..], LinkOf(s[i + 2..r.value]), s[r.value + 2..])
        else LineLinks(s[i..]) == []
      else LineLinks(s[i..]) == LineLinks(s[i + 1..])
  {
    FindInTail(s, OPENER, i, 0);
    if s[i] == TICK {
      LexCodeFrom(s, i);
    } else if HasAt(s, OPENER, i) {
      LexLinkFrom(s, i);
    } else {
      LinksCons(Plain(s[i..][0]), Lex(s[i..][1..]));
      assert s[i..][1..] == s[i + 1..];
    }
  }

  /** The first token of a line that opens a code span, or a link. */
  lemma LexHead(t: Bytes)
    requires t != []
    ensures t[0] == TICK ==>
              match Find(t, [TICK], 1)
              case Some(j) => j < |t| && Lex(t) == [Code(t[1..j], true)] + Lex(t[j + 1..])
              case None => Lex(t) == [Code(t[1..], false)] + []
    ensures t[0] != TICK && HasAt(t, OPENER, 0) ==>
              match Find(t, CLOSER, 2)
              case Some(j) => j + 2 <= |t| && Lex(t) == [Link(t[2..j])] + Lex(t[j + 2..])
              case None => Lex(t) == [Unclosed(t[2..])] + []
  {}

  /** A line that starts with a code span reads on after it. */
  lemma LexCode(t: Bytes)
    requires t != [] && t[0] == TICK
    ensures var r := Find(t, [TICK], 1);
            if r.Some? then r.value < |t| && LineLinks(t) == LineLinks(t[r.value + 1..]) else LineLinks(t) == []
  {
    LexHead(t);
    assert LinksOf([]) == [];
    hide HasAt, Lex, LinksOf;
    match Find(t, [TICK], 1)
    case Some(j) => LinksCons(Code(t[1..j], true), Lex(t[j + 1..]));
    case None => LinksCons(Code(t[1..], false), []);
  }

  lemma LexCodeFrom(s: Bytes, i: nat)
    requires i < |s| && s[i] == TICK
    ensures var r := Find(s, [TICK], i + 1);
            if r.Some? then r.value < |s| && LineLinks(s[i..]) == LineLinks(s[r.value + 1..]) else LineLinks(s[i..]) == []
  {
    var t := s[i..];
    hide HasAt, LineLinks, Find;
    FindFrom(s, [TICK], i, 1);
    LexCode(t);
    var r := Find(s, [TICK], i + 1);
    if r.Some? {
      TickAt(s, r.value);
      assert t[r.value - i + 1..] == s[r.value + 1..];
    }
  }

  ghost predicate FirstLink(t: Bytes, link: WikiLink, rest: Bytes) {
    LineLinks(t) == [link] + LineLinks(rest)
  }

  lemma LexLink(t: Bytes)
    requires t != [] && t[0] != TICK && HasAt(t, OPENER, 0)
    ensures match Find(t, CLOSER, 2)
            case Some(j) => j + 2 <= |t| && FirstLink(t, LinkOf(t[2..j]), t[j + 2..])
            case None => LineLinks(t) == []
  {
    LexHead(t);
    assert LinksOf([]) == [];
    hide HasAt, LinkOf, Lex, LinksOf;
    match Find(t, CLOSER, 2)
    case Some(j) => LinksCons(Link(t[2..j]), Lex(t[j + 2..]));
    case None => LinksCons(Unclosed(t[2..]), []);
  }

  lemma TailSlices(s: Bytes, i: nat, j: nat)
    requires i + 2 <= j && HasAt(s, CLOSER, j)
    ensures j + 2 <= |s| && s[i..][2..j - i] == s[i + 2..j] && s[i..][j - i + 2..] == s[j + 2..]
  {}

  lemma OpenerAt(s: Bytes, i: nat)
    requires HasAt(s, OPENER, i)
    ensures i + 2 <= |s| && HasAt(s[i..], OPENER, 0)
  {
    FindInTail(s, OPENER, i, 0);
  }

  lemma LexLinkFrom(s: Bytes, i: nat)
    requires i < |s| && s[i] != TICK && HasAt(s, OPENER, i)
    ensures var r := Find(s, CLOSER, i + 2);
            if r.Some? then r.value + 2 <= |s| && FirstLink(s[i..], LinkOf(s[i + 2..r.value]), s[r.value + 2..])
            else LineLinks(s[i..]) == []
  {
    hide *;
    var t := s[i..];
    OpenerAt(s, i);
    FindFrom(s, CLOSER, i, 2);
    LexLink(t);
    var r := Find(s, CLOSER, i + 2);
    if r.Some? {
      var j := r.value;
      TailSlices(s, i, j);
      var content, rest := t[2..j - i], t[j - i + 2..];
      assert FirstLink(t, LinkOf(content), rest);
      assert content == s[i + 2..j] && rest == s[j + 2..];
      assert FirstLink(t, LinkOf(s[i + 2..j]), s[j + 2..]);
    }
  }

  lemma FindFrom(s: Bytes, p: Bytes, n: nat, k: nat)
    requires n + k <= |s|
    ensures match Find(s, p, n + k)
            case Some(j) => j >= n + k && Find(s[n..], p, k) == Some(j - n)
            case None => Find(s[n..], p, k) == None
  {
    forall i: nat ensures HasAt(s[n..], p, i) <==> HasAt(s, p, n + i) {
      FindInTail(s, p, n, i);
    }
    match Find(s, p, n + k)
    case Some(j) =>
      forall i | k <= i < j - n ensures !HasAt(s[n..], p, i) {
        assert !HasAt(s, p, n + i);
      }
      assert HasAt(s[n..], p, j - n);
    case None =>
      forall i | k <= i ensures !HasAt(s[n..], p, i) {
        assert !HasAt(s, p, n + i);
      }
  }

  /** Where a slice of a line may start and end: next to the ASCII delimiters the scanner stops at. */
  lemma SlicesOnBoundaries(line: Bytes, start: nat, pos: nat)
    requires Valid(line) && start + 2 <= pos <= |line| - 2
    requires HasAt(line, OPENER, start) && HasAt(line, CLOSER, pos)
    ensures Boundary(line, start) && Boundary(line, start + 2) && Boundary(line, pos) && Boundary(line, pos + 2)
    ensures Valid(line[start + 2..pos]) && Valid(line[start..pos + 2])
  {
    PairAt(line, OPEN, start);
    PairAt(line, CLOSE, pos);
    hide HasAt, Valid;
    AsciiBoundaries(line, start);
    AsciiBoundaries(line, start + 1);
    AsciiBoundaries(line, pos);
    AsciiBoundaries(line, pos + 1);
    SliceValid(line, start + 2, pos);
    SliceValid(line, start, pos + 2);
  }

  lemma SliceValid(s: Bytes, i: nat, j: nat)
    requires Valid(s) && i <= j && Boundary(s, i) && Boundary(s, j)
    ensures Valid(s[i..j])
  {
    SplitValid(s, j);
    assert i < j ==> s[..j][i] == s[i];
    SplitValid(s[..j], i);
    assert s[..j][i..] == s[i..j];
  }

  lemma PartsValid(content: Bytes)
    requires Valid(content)
    ensures var link := LinkOf(content); Valid(link.target) && (link.alias.Some? ==> Valid(link.alias.value))
  {
    match Find(content, [PIPE], 0)
    case Some(j) =>
      assert content[j..j + 1][0] == PIPE;
      AsciiBoundaries(content, j);
      SplitValid(content, j);
      SplitValid(content, j + 1);
    case None =>
  }

  lemma PairAt(s: Bytes, b: Byte, i: nat)
    ensures HasAt(s, [b, b], i) <==> i + 1 < |s| && s[i] == b && s[i + 1] == b
  {
    if i + 2 <= |s| {
      assert s[i..i + 2] == [s[i], s[i + 1]];
    }
  }

  lemma TickFound(s: Bytes, start: nat, pos: nat)
    requires start <= pos <= |s| && (forall i :: start <= i < pos ==> s[i] != TICK)
    requires pos < |s| ==> s[pos] == TICK
    ensures Find(s, [TICK], start) == if pos < |s| then Some(pos) else None
  {
    forall i: nat ensures HasAt(s, [TICK], i) <==> i < |s| && s[i] == TICK {
      TickAt(s, i);
    }
  }

  lemma NoCloser(s: Bytes, start: nat, pos: nat)
    requires start <= pos <= |s| && pos + 1 >= |s| && forall i :: start <= i < pos ==> !HasAt(s, CLOSER, i)
    ensures Find(s, CLOSER, start) == None
  {}

  /** The raw slice is the opener, the content and the closer. */
  lemma RawIs(s: Bytes, start: nat, pos: nat)
    requires start + 2 <= pos <= |s| - 2 && HasAt(s, OPENER, start) && HasAt(s, CLOSER, pos)
    ensures s[start..pos + 2] == OPENER + s[start + 2..pos] + CLOSER
  {
    assert s[start..pos + 2] == s[start..start + 2] + s[start + 2..pos] + s[pos..pos + 2];
  }

  lemma NoLinks()
    ensures LineLinks([]) == []
  {}

  /** Skip the inline code span that opens at `start`, closing backtick included. */
  method SkipCodeSpan(line: Bytes, start: nat) returns (pos: nat)
    requires start < |line| && line[start] == TICK
    ensures start < pos <= |line| && LineLinks(line[start..]) == LineLinks(line[pos..])
  {
    hide *;
    NoLinks();
    LexCodeFrom(line, start);
    pos := start + 1;
    while pos < |line| && line[pos] != TICK
      invariant start < pos <= |line|
      invariant forall i :: start < i < pos ==> line[i] != TICK
    {
      pos := pos + 1;
    }
    TickFound(line, start + 1, pos);
    assert pos == |line| ==> line[pos..] == [];
    if pos < |line| {
      pos := pos + 1;
    }
  }

  /** Read the link that opens at `start`, or find that the line never closes it. The asserted boundaries
      are what keeps the two slices from panicking. */
  method CloseLink(line: Bytes, start: nat) returns (link: Option<WikiLink>, pos: nat)
    requires Valid(line) && HasAt(line, OPENER, start)
    ensures start < pos <= |line|
    ensures link.None? ==> LineLinks(line[start..]) == []
    ensures link.Some? ==> LineLinks(line[start..]) == [link.value] + LineLinks(line[pos..]) && ValidLink(link.value)
  {
    PairAt(line, OPEN, start);
    hide LineLinks, HasAt, Valid, SplitOnce;
    LexFrom(line, start);
    pos := start + 2;
    while pos + 1 < |line|
      invariant start + 2 <= pos <= |line|
      invariant forall i :: start + 2 <= i < pos ==> !HasAt(line, CLOSER, i)
    {
      PairAt(line, CLOSE, pos);
      if line[pos] == CLOSE && line[pos + 1] == CLOSE {
        FoundIs(line, CLOSER, start + 2, pos);
        SlicesOnBoundaries(line, start, pos);
        assert Boundary(line, start) && Boundary(line, start + 2) && Boundary(line, pos) && Boundary(line, pos + 2);
        var content := line[start + 2..pos];
        var raw := line[start..pos + 2];
        PartsValid(content);
        RawIs(line, start, pos);
        var (target, alias) := SplitOnce(content);
        return Some(WikiLink(target, alias, raw)), pos + 2;
      }
      pos := pos + 1;
    }
    NoCloser(line, start + 2, pos);
    link := None;
  }

  ghost predicate ValidLink(link: WikiLink) {
    Valid(link.target) && Valid(link.raw) && (link.alias.Some? ==> Valid(link.alias.value))
  }

  lemma ConcatAssoc(a: seq<WikiLink>, b: seq<WikiLink>, c: seq<WikiLink>)
    ensures a + (b + c) == a + b + c
  {}

  /** Scan one line byte by byte. */
  method ScanLine(line: Bytes) returns (links: seq<WikiLink>)
    requires Valid(line)
    ensures links == LineLinks(line)
    ensures forall i :: 0 <= i < |links| ==> ValidLink(links[i])
  {
    assert LineLinks([]) == [];
    hide LineLinks, HasAt, Valid, ValidLink;
    var pos := 0;
    links := [];
    assert line[0..] == line;
    while pos < |line|
      invariant 0 <= pos <= |line|
      invariant links + LineLinks(line[pos..]) == LineLinks(line)
      invariant forall i :: 0 <= i < |links| ==> ValidLink(links[i])
    {
      if line[pos] == TICK {
        pos := SkipCodeSpan(line, pos);
        continue;
      }
      PairAt(line, OPEN, pos);
      if pos + 1 < |line| && line[pos] == OPEN && line[pos + 1] == OPEN {
        var link;
        link, pos := CloseLink(line, pos);
        if link.None? {
          return;
        }
        ConcatAssoc(links, [link.value], LineLinks(line[pos..]));
        links := links + [link.value];
        continue;
      }
      LexFrom(line, pos);
      pos := pos + 1;
    }
    assert line[pos..] == [];
  }

  // ---- The whole body ----

  /** Extract the links of a body, line by line, toggling at fences. */
  method ExtractWikiLinks(body: Bytes) returns (links: seq<WikiLink>)
    requires Valid(body)
    ensures links == BodyLinks(body)
    ensures forall i :: 0 <= i < |links| ==> ValidLink(links[i])
  {
    hide LineLinks, Valid, ValidLink, LinesOf, IsFence;
    var lines := LinesOf(body);
    LinesValid(body);
    links := [];
    var inFence := false;
    for i := 0 to |lines|
      invariant links + ScanLines(lines[i..], inFence) == ScanLines(lines, false)
      invariant forall k :: 0 <= k < |links| ==> ValidLink(links[k])
    {
      assert lines[i..][1..] == lines[i + 1..];
      if IsFence(lines[i]) {
        inFence := !inFence;
        continue;
      }
      if inFence {
        continue;
      }
      var found := ScanLine(lines[i]);
      ConcatAssoc(links, found, ScanLines(lines[i + 1..], inFence));
      links := links + found;
    }
  }

  /** Cutting a valid body at line ends leaves valid lines. */
  lemma {:induction false} LinesValid(body: Bytes)
    requires Valid(body)
    ensures forall i :: 0 <= i < |LinesOf(body)| ==> Valid(LinesOf(body)[i])
    decreases |body|
  {
    if body != [] {
      match Find(body, [LF], 0)
      case Some(j) =>
        assert body[j] == body[j..j + 1][0] == LF;
        hide Valid, HasAt;
        AsciiBoundaries(body, j);
        SplitValid(body, j);
        SplitValid(body, j + 1);
        LinesValid(body[j + 1..]);
        StripCrValid(body[..j]);
      case None =>
    }
  }

  lemma StripCrValid(line: Bytes)
    requires Valid(line)
    ensures Valid(StripCr(line))
  {
    hide Valid;
    if line != [] && line[|line| - 1] == CR {
      AsciiBoundaries(line, |line| - 1);
      SplitValid(line, |line| - 1);
    }
  }

  // ---- Which lines are fences ----

  /** White space, three backticks or three tildes, and anything. */
  ghost predicate FenceOf(line: Bytes, indent: seq<Scalar>, mark: Byte, rest: Bytes) {
    AllWhite(indent) && mark in {0x60, 0x7E} && line == Encode(indent) + [mark, mark, mark] + rest
  }

  ghost predicate FenceLine(line: Bytes) {
    exists indent, mark, rest :: FenceOf(line, indent, mark, rest)
  }

  lemma MarkStarts(mark: Byte, rest: Bytes)
    requires mark in {0x60, 0x7E}
    ensures SpaceLen([mark, mark, mark] + rest) == 0
    ensures StartsWith([mark, mark, mark] + rest, [mark, mark, mark])
  {
    var t := [mark, mark, mark] + rest;
    assert t[0] == mark && t[0..3] == [mark, mark, mark];
  }

  /** The lines that toggle a fence are exactly those. */
  lemma FenceIff(line: Bytes)
    ensures IsFence(line) <==> FenceLine(line)
  {
    if IsFence(line) {
      FenceIsLine(line);
    }
    if indent, mark, rest :| FenceOf(line, indent, mark, rest) {
      LineIsFence(line, indent, mark, rest);
    }
  }

  lemma FenceIsLine(line: Bytes)
    requires IsFence(line)
    ensures FenceLine(line)
  {
    hide Encode, SpaceLen, TrimStart;
    var indent := TrimStartCuts(line);
    var t := TrimStart(line);
    var mark: Byte := if StartsWith(t, FENCE) then 0x60 else 0x7E;
    assert t == t[0..3] + t[3..] && t[0..3] == [mark, mark, mark];
    assert line == Encode(indent) + [mark, mark, mark] + t[3..];
    assert FenceOf(line, indent, mark, t[3..]);
  }

  lemma LineIsFence(line: Bytes, indent: seq<Scalar>, mark: Byte, rest: Bytes)
    requires FenceOf(line, indent, mark, rest)
    ensures IsFence(line)
  {
    hide Encode, SpaceLen, TrimStart, HasAt;
    var solid := [mark, mark, mark] + rest;
    MarkStarts(mark, rest);
    TrimStartOf(indent, solid);
    assert line == Encode(indent) + solid;
  }

  // ---- What fences hide ----

  function Fences(lines: seq<Bytes>): nat {
    if lines == [] then 0 else (if IsFence(lines[0]) then 1 else 0) + Fences(lines[1..])
  }

  /** A line is scanned exactly when it is no fence line and an even number of fence lines precede it. */
  predicate Visible(lines: seq<Bytes>, i: nat)
    requires i < |lines|
  {
    !IsFence(lines[i]) && Fences(lines[..i]) % 2 == 0
  }

  /** The links of the visible lines among the first `n`, in order. */
  function VisibleLinks(lines: seq<Bytes>, n: nat): seq<WikiLink>
    requires n <= |lines|
  {
    if n == 0 then []
    else VisibleLinks(lines, n - 1) + if Visible(lines, n - 1) then LineLinks(lines[n - 1]) else []
  }

  lemma {:induction false} FencesSnoc(lines: seq<Bytes>, line: Bytes)
    ensures Fences(lines + [line]) == Fences(lines) + if IsFence(line) then 1 else 0
  {
    if lines == [] {
      assert lines + [line] == [line] && [line][1..] == [];
    } else {
      FencesSnoc(lines[1..], line);
      assert (lines + [line])[1..] == lines[1..] + [line];
    }
  }

  lemma {:induction false} ScanFrom(lines: seq<Bytes>, n: nat)
    requires n <= |lines|
    ensures ScanLines(lines, false) == VisibleLinks(lines, n) + ScanLines(lines[n..], Fences(lines[..n]) % 2 == 1)
  {
    hide IsFence, LineLinks;
    if n == 0 {
      assert lines[0..] == lines;
    } else {
      ScanFrom(lines, n - 1);
      FencesSnoc(lines[..n - 1], lines[n - 1]);
      assert lines[..n - 1] + [lines[n - 1]] == lines[..n];
      assert lines[n - 1..][1..] == lines[n..];
    }
  }

  /** The links of a body are those of its visible lines, in order. */
  lemma BodyLinksAreVisible(body: Bytes)
    ensures BodyLinks(body) == VisibleLinks(LinesOf(body), |LinesOf(body)|)
  {
    var lines := LinesOf(body);
    ScanFrom(lines, |lines|);
    assert lines[|lines|..] == [];
  }
}
