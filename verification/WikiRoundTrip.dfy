/** Writing Markdown with wiki-links and extracting them again. */
module WikiRoundTrip {
  import opened Wrappers
  import opened Text
  import opened Utf8
  import opened WikiLinks
  import opened WikiScanner

  // ---- Lines of prose ----

  /** What a writer puts on a line, in ASCII bytes: plain words, inline code between backticks, and links
      `[[target]]` or `[[target|alias]]`. */
  datatype Segment = Words(text: Bytes) | Span(code: Bytes) | Wiki(target: Bytes, alias: Option<Bytes>)
  {
    function Show(): Bytes {
      match this
      case Words(text) => text
      case Span(code) => [0x60] + code + [0x60]
      case Wiki(target, alias) => [0x5B, 0x5B] + Content(target, alias) + [0x5D, 0x5D]
    }

    /** Words open neither a code span nor a link, code holds no backtick, and a link's text is closed
        at its end only and cut at the right bar. */
    ghost predicate Fine() {
      match this
      case Words(text) => TICK !in text && !Occurs(text + [OPEN], OPENER)
      case Span(code) => TICK !in code
      case Wiki(target, alias) => PIPE !in target && ClosesAtEnd(Content(target, alias))
    }

    function Links(): seq<WikiLink> {
      match this
      case Wiki(target, alias) => [WikiLink(target, alias, Show())]
      case _ => []
    }
  }

  function Content(target: Bytes, alias: Option<Bytes>): Bytes {
    target + if alias.Some? then [0x7C] + alias.value else []
  }

  function ShowAll(segs: seq<Segment>): Bytes {
    if segs == [] then [] else segs[0].Show() + ShowAll(segs[1..])
  }

  function LinksIn(segs: seq<Segment>): seq<WikiLink> {
    if segs == [] then [] else segs[0].Links() + LinksIn(segs[1..])
  }

  lemma ContentSplits(target: Bytes, alias: Option<Bytes>)
    requires PIPE !in target
    ensures SplitOnce(Content(target, alias)) == (target, alias)
  {
    var c := Content(target, alias);
    forall i | 0 <= i < |target| ensures !HasAt(c, [PIPE], i) {
      assert c[i] == target[i] && c[i..i + 1] == [c[i]];
    }
    if alias.Some? {
      assert c[|target|..|target| + 1] == [PIPE];
      FoundIs(c, [PIPE], 0, |target|);
      assert c[..|target|] == target && c[|target| + 1..] == alias.value;
    } else {
      assert c == target;
    }
  }

  /** Words are read through byte by byte. */
  lemma {:induction false} WordsRead(text: Bytes, rest: Bytes)
    requires Words(text).Fine()
    ensures LineLinks(text + rest) == LineLinks(rest)
  {
    if text == [] {
      assert text + rest == rest;
    } else {
      var s, tail := text + rest, text[1..];
      PairAt(text + [OPEN], OPEN, 0);
      assert !HasAt(text + [OPEN], OPENER, 0);
      forall i: nat ensures !HasAt(tail + [OPEN], OPENER, i) {
        PairAt(tail + [OPEN], OPEN, i);
        PairAt(text + [OPEN], OPEN, i + 1);
        assert !HasAt(text + [OPEN], OPENER, i + 1);
      }
      WordsRead(tail, rest);
      assert s[1..] == tail + rest && s[0..] == s;
      PairAt(s, OPEN, 0);
      LexFrom(s, 0);
    }
  }

  lemma SegmentReads(seg: Segment, rest: Bytes)
    requires seg.Fine()
    ensures LineLinks(seg.Show() + rest) == seg.Links() + LineLinks(rest)
  {
    var s := seg.Show() + rest;
    match seg
    case Words(text) => WordsRead(text, rest);
    case Span(code) =>
      CodeReads(code, true, rest);
      assert s == Code(code, true).Show() + rest;
      LexHead(s);
      LinksCons(Code(code, true), Lex(rest));
    case Wiki(target, alias) =>
      var c := Content(target, alias);
      LinkReads(c, rest);
      assert s == Link(c).Show() + rest;
      LexHead(s);
      LinksCons(Link(c), Lex(rest));
      ContentSplits(target, alias);
  }

  /** A line of segments is read back: exactly its links, in order, none from its words or code. */
  lemma {:induction false} LineRoundTrip(segs: seq<Segment>)
    requires forall i :: 0 <= i < |segs| ==> segs[i].Fine()
    ensures LineLinks(ShowAll(segs)) == LinksIn(segs)
  {
    if segs != [] {
      LineRoundTrip(segs[1..]);
      SegmentReads(segs[0], ShowAll(segs[1..]));
    }
  }

  /** Every extracted link comes from a link token whose text holds no closer. */
  lemma {:induction false} LinkFromToken(ts: seq<Token>, i: nat) returns (content: Bytes)
    requires WellFormed(ts) && i < |LinksOf(ts)|
    ensures LinksOf(ts)[i] == LinkOf(content) && ClosesAtEnd(content)
  {
    if ts[0].Link? && i == 0 {
      content := ts[0].content;
    } else {
      content := LinkFromToken(ts[1..], if ts[0].Link? then i - 1 else i);
    }
  }

  lemma SplitOnceTarget(content: Bytes)
    ensures PIPE !in SplitOnce(content).0
  {
    match Find(content, [PIPE], 0)
    case Some(j) =>
      forall i | 0 <= i < j ensures content[i] != PIPE {
        assert !HasAt(content, [PIPE], i) && content[i..i + 1] == [content[i]];
      }
    case None =>
      forall i | 0 <= i < |content| ensures content[i] != PIPE {
        assert !HasAt(content, [PIPE], i) && content[i..i + 1] == [content[i]];
      }
  }

  lemma SplitOnceLosesNothing(content: Bytes)
    ensures var (target, alias) := SplitOnce(content); Content(target, alias) == content
  {
    match Find(content, [PIPE], 0)
    case Some(j) => assert content == content[..j] + content[j..j + 1] + content[j + 1..];
    case None =>
  }

  /** `links` lie in `line` at `starts`, one behind the other, each written out in full and closed at its
      first closer. */
  ghost predicate Placed(line: Bytes, links: seq<WikiLink>, starts: seq<nat>) {
    && |starts| == |links|
    && forall i :: 0 <= i < |links| ==>
         && HasAt(line, links[i].raw, starts[i])
         && links[i].raw == Wiki(links[i].target, links[i].alias).Show()
         && PIPE !in links[i].target && ClosesAtEnd(Content(links[i].target, links[i].alias))
         && (i + 1 < |links| ==> starts[i] + |links[i].raw| <= starts[i + 1])
  }

  function Shift(starts: seq<nat>, n: nat): seq<nat> {
    seq(|starts|, i requires 0 <= i < |starts| => n + starts[i])
  }

  lemma ShiftPlaced(front: Bytes, line: Bytes, links: seq<WikiLink>, starts: seq<nat>)
    requires Placed(line, links, starts)
    ensures |starts| == |links| && Placed(front + line, links, Shift(starts, |front|))
  {
    hide HasAt, Content, ClosesAtEnd, Segment.Show;
    assert (front + line)[|front|..] == line;
    forall i | 0 <= i < |links| ensures HasAt(front + line, links[i].raw, |front| + starts[i]) {
      FindInTail(front + line, links[i].raw, |front|, starts[i]);
    }
  }

  lemma FrontPlaced(line: Bytes, link: WikiLink, links: seq<WikiLink>, starts: seq<nat>)
    requires Placed(line, links, starts) && HasAt(line, link.raw, 0) && link.raw == Wiki(link.target, link.alias).Show()
    requires PIPE !in link.target && ClosesAtEnd(Content(link.target, link.alias))
    requires links != [] ==> |link.raw| <= starts[0]
    ensures Placed(line, [link] + links, [0] + starts)
  {
    hide HasAt, Content, ClosesAtEnd, Segment.Show;
  }

  /** A link token in front of a line is that line's first link. */
  lemma TokenPlaced(content: Bytes, line: Bytes, links: seq<WikiLink>, starts: seq<nat>)
    requires ClosesAtEnd(content) && Placed(line, links, starts)
    ensures var front := Link(content).Show();
            Placed(front + line, [LinkOf(content)] + links, [0] + Shift(starts, |front|))
  {
    hide ClosesAtEnd, Placed, SplitOnce;
    var front, link := Link(content).Show(), LinkOf(content);
    assert (front + line)[..|front|] == front;
    SplitOnceLosesNothing(content);
    SplitOnceTarget(content);
    ShiftPlaced(front, line, links, starts);
    FrontPlaced(front + line, link, links, Shift(starts, |front|));
  }

  /** What precedes `start` is whole tokens of the line, and the token there is this link. */
  ghost predicate TokenAt(ts: seq<Token>, link: WikiLink, start: nat) {
    && start <= |Print(ts)|
    && exists k :: 0 <= k < |ts| && ts[k].Link? && LinkOf(ts[k].content) == link && Print(ts)[..start] == Print(ts[..k])
  }

  ghost predicate AtTokens(ts: seq<Token>, links: seq<WikiLink>, starts: seq<nat>) {
    |starts| == |links| && forall i :: 0 <= i < |links| ==> TokenAt(ts, links[i], starts[i])
  }

  lemma TokenAtShift(ts: seq<Token>, link: WikiLink, start: nat)
    requires ts != [] && TokenAt(ts[1..], link, start)
    ensures TokenAt(ts, link, |ts[0].Show()| + start)
  {
    hide LinkOf, Token.Show;
    var k :| 0 <= k < |ts[1..]| && ts[1..][k].Link? && LinkOf(ts[1..][k].content) == link
             && Print(ts[1..])[..start] == Print(ts[1..][..k]);
    var front := ts[0].Show();
    assert ts[..k + 1][0] == ts[0] && ts[..k + 1][1..] == ts[1..][..k];
    assert Print(ts)[..|front| + start] == front + Print(ts[1..])[..start];
    assert ts[k + 1] == ts[1..][k];
  }

  lemma AtTokensShift(ts: seq<Token>, links: seq<WikiLink>, starts: seq<nat>)
    requires ts != [] && AtTokens(ts[1..], links, starts)
    ensures AtTokens(ts, links, Shift(starts, |ts[0].Show()|))
  {
    hide TokenAt;
    forall i | 0 <= i < |links| ensures TokenAt(ts, links[i], |ts[0].Show()| + starts[i]) {
      TokenAtShift(ts, links[i], starts[i]);
    }
  }

  lemma AtFirstToken(ts: seq<Token>, links: seq<WikiLink>, starts: seq<nat>)
    requires ts != [] && ts[0].Link? && AtTokens(ts, links, starts)
    ensures AtTokens(ts, [LinkOf(ts[0].content)] + links, [0] + starts)
  {
    hide LinkOf, TokenAt;
    FirstTokenAt(ts);
  }

  lemma FirstTokenAt(ts: seq<Token>)
    requires ts != [] && ts[0].Link?
    ensures TokenAt(ts, LinkOf(ts[0].content), 0)
  {
    hide LinkOf, Token.Show;
    assert ts[..0] == [] && Print(ts)[..0] == [];
  }

  lemma {:induction false} TokensPlaced(ts: seq<Token>) returns (starts: seq<nat>)
    requires WellFormed(ts)
    ensures Placed(Print(ts), LinksOf(ts), starts) && AtTokens(ts, LinksOf(ts), starts)
  {
    hide Shift, LinkOf, ClosesAtEnd, HasAt, Content, Segment.Show, TokenAt;
    if ts == [] {
      starts := [];
    } else {
      starts := TokensPlaced(ts[1..]);
      AtTokensShift(ts, LinksOf(ts[1..]), starts);
      if ts[0].Link? {
        AtFirstToken(ts, LinksOf(ts[1..]), Shift(starts, |ts[0].Show()|));
        TokenPlaced(ts[0].content, Print(ts[1..]), LinksOf(ts[1..]), starts);
        starts := [0] + Shift(starts, |ts[0].Show()|);
      } else {
        ShiftPlaced(ts[0].Show(), Print(ts[1..]), LinksOf(ts[1..]), starts);
        starts := Shift(starts, |ts[0].Show()|);
      }
    }
  }

  /** Links lie where they were found. On any line the links have disjoint, increasing ranges; each is the
      slice `[[target]]` or `[[target|alias]]` of the line, cut at its first bar and its first closer; and what
      precedes it is whole tokens, so that it starts inside no code span and no other link. */
  lemma LinksPlaced(line: Bytes) returns (starts: seq<nat>)
    ensures Placed(line, LineLinks(line), starts) && AtTokens(Lex(line), LineLinks(line), starts)
    ensures Print(Lex(line)) == line
  {
    LexPrints(line);
    starts := TokensPlaced(Lex(line));
  }

  /** The condition on links is exact: a printed link is read back if and only if it meets it. */
  lemma LinkRoundTripIff(target: Bytes, alias: Option<Bytes>)
    ensures LineLinks(Wiki(target, alias).Show()) == Wiki(target, alias).Links() <==> Wiki(target, alias).Fine()
  {
    var seg := Wiki(target, alias);
    var s := seg.Show();
    assert s + [] == s && LineLinks([]) == [];
    if seg.Fine() {
      SegmentReads(seg, []);
    }
    if LineLinks(s) == seg.Links() {
      LexPrints(s);
      var content := LinkFromToken(Lex(s), 0);
      assert LinkOf(content).raw == s;
      assert s[2..|s| - 2] == Content(target, alias) && (OPENER + content + CLOSER)[2..|s| - 2] == content;
      SplitOnceTarget(content);
    }
  }

  // ---- Whole documents ----

  /** A fence line as written: white space, three backticks or tildes, and an info text. */
  datatype Mark = Mark(indent: seq<Scalar>, backticks: bool, info: Bytes)
  {
    function Show(): Bytes {
      Encode(indent) + (if backticks then [0x60, 0x60, 0x60] else [0x7E, 0x7E, 0x7E]) + info
    }

    ghost predicate Fine() {
      AllWhite(indent) && FineLine(Show())
    }
  }

  /** A line of prose, or a fenced block with whatever lines between its fences. */
  datatype Block = Prose(segs: seq<Segment>) | Fenced(open: Mark, inner: seq<Bytes>, close: Mark)
  {
    function Lines(): seq<Bytes> {
      match this
      case Prose(segs) => [ShowAll(segs)]
      case Fenced(open, inner, close) => [open.Show()] + inner + [close.Show()]
    }

    /** No line but the two fences reads as one. */
    ghost predicate Fine() {
      match this
      case Prose(segs) => (forall i :: 0 <= i < |segs| ==> segs[i].Fine()) && !FenceLine(ShowAll(segs)) && FineLine(ShowAll(segs))
      case Fenced(open, inner, close) =>
        && open.Fine() && close.Fine()
        && forall i :: 0 <= i < |inner| ==> !FenceLine(inner[i]) && FineLine(inner[i])
    }

    function Links(): seq<WikiLink> {
      match this
      case Prose(segs) => LinksIn(segs)
      case Fenced(_, _, _) => []
    }
  }

  lemma MarkIsFence(mark: Mark)
    requires mark.Fine()
    ensures IsFence(mark.Show())
  {
    assert FenceOf(mark.Show(), mark.indent, if mark.backticks then 0x60 else 0x7E, mark.info);
    FenceIff(mark.Show());
  }

  function DocumentLines(blocks: seq<Block>): seq<Bytes> {
    if blocks == [] then [] else blocks[0].Lines() + DocumentLines(blocks[1..])
  }

  function DocumentLinks(blocks: seq<Block>): seq<WikiLink> {
    if blocks == [] then [] else blocks[0].Links() + DocumentLinks(blocks[1..])
  }

  // ---- Lines and their ends ----

  /** A line that survives being cut out again. */
  predicate FineLine(line: Bytes) {
    10 !in line && (line != [] ==> line[|line| - 1] != 13)
  }

  /** Lines with their ends: a line feed, or a carriage return and one. */
  function Unlines(lines: seq<Bytes>, crlf: seq<bool>): Bytes
    requires |crlf| == |lines|
  {
    if lines == [] then [] else lines[0] + (if crlf[0] then [13, 10] else [10]) + Unlines(lines[1..], crlf[1..])
  }

  lemma NoLineFeed(line: Bytes, rest: Bytes)
    requires 10 !in line
    ensures Find(line + [LF] + rest, [LF], 0) == Some(|line|) && Find(line, [LF], 0) == None
  {
    var body := line + [LF] + rest;
    assert body[|line|..|line| + 1] == [LF];
    forall i | 0 <= i < |line| ensures !HasAt(body, [LF], i) && !HasAt(line, [LF], i) {
      assert body[i] == line[i] && body[i..i + 1] == [body[i]] && line[i..i + 1] == [line[i]];
    }
    FoundIs(body, [LF], 0, |line|);
  }

  lemma FirstLine(line: Bytes, crlf: bool, rest: Bytes)
    requires FineLine(line)
    ensures LinesOf(line + (if crlf then [13, 10] else [10]) + rest) == [line] + LinesOf(rest)
  {
    var text := if crlf then line + [13] else line;
    assert line + (if crlf then [13, 10] else [10]) + rest == text + [10] + rest;
    LineFeedEnds(text, rest);
    assert text[..|line|] == line;
    hide LinesOf;
  }

  lemma LineFeedEnds(text: Bytes, rest: Bytes)
    requires 10 !in text
    ensures LinesOf(text + [10] + rest) == [StripCr(text)] + LinesOf(rest)
  {
    hide StripCr;
    var body := text + [10] + rest;
    NoLineFeed(text, rest);
    assert body[..|text|] == text && body[|text| + 1..] == rest;
  }

  /** An unended last line counts if there is anything on it, and keeps a carriage return. */
  lemma LastLine(line: Bytes)
    requires 10 !in line
    ensures LinesOf(line) == if line == [] then [] else [line]
  {
    NoLineFeed(line, []);
  }

  /** Lines are cut out of their text again, with either kind of end and an unended last line. */
  lemma {:induction false} LinesRoundTrip(lines: seq<Bytes>, crlf: seq<bool>, last: Bytes)
    requires |crlf| == |lines| && 10 !in last
    requires forall i :: 0 <= i < |lines| ==> FineLine(lines[i])
    ensures LinesOf(Unlines(lines, crlf) + last) == lines + if last == [] then [] else [last]
  {
    hide FineLine, LinesOf;
    if lines != [] {
      LinesRoundTrip(lines[1..], crlf[1..], last);
      var rest := Unlines(lines[1..], crlf[1..]) + last;
      FirstLine(lines[0], crlf[0], rest);
      var ended := if crlf[0] then [13, 10] else [10];
      assert Unlines(lines, crlf) + last == lines[0] + ended + rest;
      assert lines == [lines[0]] + lines[1..];
    } else {
      assert Unlines(lines, crlf) + last == last;
      LastLine(last);
    }
  }

  // ---- Documents ----

  lemma {:induction false} ScanAppend(a: seq<Bytes>, b: seq<Bytes>, inFence: bool)
    ensures ScanLines(a + b, inFence) ==
            ScanLines(a, inFence) + ScanLines(b, if Fences(a) % 2 == 0 then inFence else !inFence)
  {
    hide IsFence, LineLinks;
    if a == [] {
      assert a + b == b;
    } else {
      assert (a + b)[1..] == a[1..] + b;
      ScanAppend(a[1..], b, if IsFence(a[0]) then !inFence else inFence);
    }
  }

  /** Inside a fence nothing is found. */
  lemma {:induction false} FenceHides(inner: seq<Bytes>)
    requires forall i :: 0 <= i < |inner| ==> !FenceLine(inner[i])
    ensures ScanLines(inner, true) == [] && Fences(inner) == 0
  {
    hide IsFence, FenceLine, LineLinks;
    if inner != [] {
      FenceIff(inner[0]);
      FenceHides(inner[1..]);
    }
  }

  lemma BlockReads(b: Block)
    requires b.Fine()
    ensures ScanLines(b.Lines(), false) == b.Links() && Fences(b.Lines()) % 2 == 0
  {
    hide IsFence, FenceLine, LineLinks, Mark.Show, Mark.Fine;
    match b
    case Prose(segs) =>
      LineRoundTrip(segs);
      FenceIff(ShowAll(segs));
      assert b.Lines()[1..] == [];
    case Fenced(open, inner, close) =>
      FenceHides(inner);
      MarkIsFence(open);
      MarkIsFence(close);
      ScanAppend(inner, [close.Show()], true);
      FencesSnoc(inner, close.Show());
      assert b.Lines()[1..] == inner + [close.Show()];
      assert [close.Show()][1..] == [];
  }

  lemma {:induction false} BlocksRead(blocks: seq<Block>)
    requires forall i :: 0 <= i < |blocks| ==> blocks[i].Fine()
    ensures ScanLines(DocumentLines(blocks), false) == DocumentLinks(blocks)
    ensures forall i :: 0 <= i < |DocumentLines(blocks)| ==> FineLine(DocumentLines(blocks)[i])
  {
    hide IsFence, FenceLine, LineLinks, FineLine;
    if blocks != [] {
      BlocksRead(blocks[1..]);
      BlockReads(blocks[0]);
      ScanAppend(blocks[0].Lines(), DocumentLines(blocks[1..]), false);
    }
  }

  /** Extraction inverts writing: a document of prose lines and fenced blocks, with backticks or tildes, indented
      or not, and with either kind of line end, yields exactly the links of its prose, in order. */
  lemma DocumentRoundTrip(blocks: seq<Block>, crlf: seq<bool>)
    requires forall i :: 0 <= i < |blocks| ==> blocks[i].Fine()
    requires |crlf| == |DocumentLines(blocks)|
    ensures BodyLinks(Unlines(DocumentLines(blocks), crlf)) == DocumentLinks(blocks)
  {
    hide LinesOf, ScanLines, FineLine, FenceLine;
    BlocksRead(blocks);
    LinesRoundTrip(DocumentLines(blocks), crlf, []);
    var body := Unlines(DocumentLines(blocks), crlf);
    assert body + [] == body && DocumentLines(blocks) + [] == DocumentLines(blocks);
  }
}
