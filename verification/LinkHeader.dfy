/** The `rel="next"` target of an HTTP `Link` header (section 5 of RFC 5988). */
module LinkHeader {
  import opened Wrappers
  import opened Text
  import opened Chars

  // ---- Parts and entries ----

  /** `trim_matches('"')`: quotes off both ends. */
  function TrimQuotes(s: string): string {
    if s != "" && s[0] == '"' then TrimQuotes(s[1..])
    else if s != "" && s[|s| - 1] == '"' then TrimQuotes(s[..|s| - 1])
    else s
  }

  datatype Part = Target(url: string) | RelNext | Other

  function Classify(part: string): Part {
    var p := Trim(part);
    if |p| >= 2 && p[0] == '<' && p[|p| - 1] == '>' then Target(p[1..|p| - 1])
    else if StartsWith(p, "rel=") && TrimQuotes(p[4..]) == "next" then RelNext
    else Other
  }

  /** The last target among the parts of an entry. */
  function UrlOf(parts: seq<string>): Option<string> {
    if parts == [] then None
    else
      match Classify(parts[|parts| - 1])
      case Target(url) => Some(url)
      case _ => UrlOf(parts[..|parts| - 1])
  }

  predicate IsNext(parts: seq<string>) {
    exists i :: 0 <= i < |parts| && Classify(parts[i]) == RelNext
  }

  /** The target of the first entry that has a `next` relation; that entry may have none. */
  function FirstNext(entries: seq<string>): Option<string> {
    if entries == [] then None
    else if IsNext(SplitOn(entries[0], ';')) then UrlOf(SplitOn(entries[0], ';'))
    else FirstNext(entries[1..])
  }

  function NextOf(header: string): Option<string> {
    FirstNext(SplitOn(header, ','))
  }

  method ParseLinkNext(header: string) returns (next: Option<string>)
    ensures next == NextOf(header)
  {
    hide Classify, SplitOn;
    var entries := SplitOn(header, ',');
    for i := 0 to |entries|
      invariant FirstNext(entries[i..]) == FirstNext(entries)
    {
      assert entries[i..][1..] == entries[i + 1..];
      var parts := SplitOn(entries[i], ';');
      var url: Option<string> := None;
      var isNext := false;
      for j := 0 to |parts|
        invariant url == UrlOf(parts[..j])
        invariant isNext <==> IsNext(parts[..j])
      {
        PartsSnoc(parts, j);
        match Classify(parts[j]) {
          case Target(inner) => url := Some(inner);
          case RelNext => isNext := true;
          case Other =>
        }
      }
      assert parts[..|parts|] == parts;
      if isNext {
        return url;
      }
    }
    return None;
  }

  lemma PartsSnoc(parts: seq<string>, j: nat)
    requires j < |parts|
    ensures UrlOf(parts[..j + 1]) == if Classify(parts[j]).Target? then Some(Classify(parts[j]).url) else UrlOf(parts[..j])
    ensures IsNext(parts[..j + 1]) <==> IsNext(parts[..j]) || Classify(parts[j]) == RelNext
  {
    hide Classify;
    assert parts[..j + 1][..j] == parts[..j];
    if IsNext(parts[..j]) {
      var i :| 0 <= i < j && Classify(parts[..j][i]) == RelNext;
      assert parts[..j + 1][i] == parts[..j][i];
    }
    if Classify(parts[j]) == RelNext {
      assert parts[..j + 1][j] == parts[j];
    }
  }

  // ---- What a part is ----

  ghost predicate Quotes(s: string) {
    forall i :: 0 <= i < |s| ==> s[i] == '"'
  }

  lemma {:induction false} TrimQuotesCuts(s: string) returns (q: string, r: string)
    ensures Quotes(q) && Quotes(r) && s == q + TrimQuotes(s) + r
  {
    if s != "" && s[0] == '"' {
      q, r := TrimQuotesCuts(s[1..]);
      q := "\"" + q;
      assert s == [s[0]] + s[1..];
    } else if s != "" && s[|s| - 1] == '"' {
      q, r := TrimQuotesCuts(s[..|s| - 1]);
      r := r + "\"";
      assert s == s[..|s| - 1] + [s[|s| - 1]];
    } else {
      q, r := "", "";
    }
  }

  lemma {:induction false} TrimQuotesIs(q: string, t: string, r: string)
    requires Quotes(q) && Quotes(r) && t != "" && t[0] != '"' && t[|t| - 1] != '"'
    ensures TrimQuotes(q + t + r) == t
    decreases |q| + |r|
  {
    var s := q + t + r;
    if q != "" {
      TrimQuotesIs(q[1..], t, r);
      assert s[0] == '"' && s[1..] == q[1..] + t + r;
    } else if r != "" {
      TrimQuotesIs(q, t, r[..|r| - 1]);
      assert s[0] == t[0] && s[|s| - 1] == '"' && s[..|s| - 1] == q + t + r[..|r| - 1];
    } else {
      assert s == t;
    }
  }

  ghost predicate TargetText(part: string, front: string, url: string, back: string) {
    Blank(front) && Blank(back) && part == front + ("<" + url + ">") + back
  }

  ghost predicate NextText(part: string, front: string, q: string, r: string, back: string) {
    Blank(front) && Blank(back) && Quotes(q) && Quotes(r) && part == front + ("rel=" + (q + "next" + r)) + back
  }

  /** A part is a target if it is text between angle brackets, up to blanks around them, and a `next` relation if
      it is `rel=` and `next`, up to blanks around it and quotes around the word; nothing else is either. */
  lemma ClassifyIff(part: string)
    ensures forall url :: Classify(part) == Target(url) <==> exists front, back :: TargetText(part, front, url, back)
    ensures Classify(part) == RelNext <==> exists front, q, r, back :: NextText(part, front, q, r, back)
  {
    forall url ensures Classify(part) == Target(url) <==> exists front, back :: TargetText(part, front, url, back) {
      if Classify(part) == Target(url) {
        IsTargetText(part, url);
      }
      if front, back :| TargetText(part, front, url, back) {
        TargetTextIs(part, front, url, back);
      }
    }
    if Classify(part) == RelNext {
      IsNextText(part);
    }
    if front, q, r, back :| NextText(part, front, q, r, back) {
      NextTextIs(part, front, q, r, back);
    }
  }

  lemma IsTargetText(part: string, url: string)
    requires Classify(part) == Target(url)
    ensures exists front, back :: TargetText(part, front, url, back)
  {
    hide IsWhite, TrimStart, TrimEnd;
    var front, back := TrimCuts(part);
    var p := Trim(part);
    assert p == "<" + url + ">";
    assert TargetText(part, front, url, back);
  }

  lemma TargetTextIs(part: string, front: string, url: string, back: string)
    requires TargetText(part, front, url, back)
    ensures Classify(part) == Target(url)
  {
    var p := "<" + url + ">";
    TrimIs(front, p, back);
    assert p[1..|p| - 1] == url;
  }

  lemma IsNextText(part: string)
    requires Classify(part) == RelNext
    ensures exists front, q, r, back :: NextText(part, front, q, r, back)
  {
    hide IsWhite, TrimStart, TrimEnd, TrimQuotes;
    var front, back := TrimCuts(part);
    var p := Trim(part);
    var q, r := TrimQuotesCuts(p[4..]);
    assert p == p[0..4] + p[4..] && p[0..4] == "rel=";
    assert NextText(part, front, q, r, back);
  }

  lemma NextTextIs(part: string, front: string, q: string, r: string, back: string)
    requires NextText(part, front, q, r, back)
    ensures Classify(part) == RelNext
  {
    var v := q + "next" + r;
    var p := "rel=" + v;
    assert p[|p| - 1] == if r == "" then 't' else '"';
    TrimIs(front, p, back);
    TrimQuotesIs(q, "next", r);
    assert p[0..4] == "rel=" && p[4..] == v;
  }

  /** Entry `k` announces `next`, and no entry in front of it does. */
  ghost predicate FirstAnnounces(entries: seq<string>, k: nat) {
    k < |entries| && IsNext(SplitOn(entries[k], ';')) && forall j :: 0 <= j < k ==> !IsNext(SplitOn(entries[j], ';'))
  }

  /** Part `i` is a target, and the last of its entry. */
  ghost predicate LastTarget(parts: seq<string>, i: nat, url: string) {
    i < |parts| && Classify(parts[i]) == Target(url) && forall j :: i < j < |parts| ==> !Classify(parts[j]).Target?
  }

  lemma {:induction false} UrlIff(parts: seq<string>, url: string)
    ensures UrlOf(parts) == Some(url) <==> exists i: nat :: LastTarget(parts, i, url)
  {
    hide Classify;
    if parts != [] {
      var init, last := parts[..|parts| - 1], |parts| - 1;
      UrlIff(init, url);
      if Classify(parts[last]).Target? {
        assert Classify(parts[last]) == Target(url) ==> LastTarget(parts, last, url);
        if i: nat :| LastTarget(parts, i, url) {
          assert i == last;
        }
      } else {
        if i: nat :| LastTarget(init, i, url) {
          assert LastTarget(parts, i, url);
        }
        if i: nat :| LastTarget(parts, i, url) {
          assert LastTarget(init, i, url);
        }
      }
    }
  }

  lemma {:induction false} FirstNextIff(entries: seq<string>, k: nat)
    requires FirstAnnounces(entries, k)
    ensures FirstNext(entries) == UrlOf(SplitOn(entries[k], ';'))
  {
    hide IsNext, UrlOf, SplitOn;
    if k > 0 {
      assert forall j :: 0 <= j < k - 1 ==> entries[1..][j] == entries[j + 1];
      FirstNextIff(entries[1..], k - 1);
    }
  }

  lemma {:induction false} NoneAnnounces(entries: seq<string>)
    ensures FirstNext(entries) == None || exists k: nat :: FirstAnnounces(entries, k)
  {
    hide IsNext, UrlOf, SplitOn;
    if entries != [] && !IsNext(SplitOn(entries[0], ';')) {
      NoneAnnounces(entries[1..]);
      if k: nat :| FirstAnnounces(entries[1..], k) {
        assert FirstAnnounces(entries, k + 1) by {
          assert forall j :: 1 <= j < k + 1 ==> entries[j] == entries[1..][j - 1];
        }
      }
    } else if entries != [] {
      assert FirstAnnounces(entries, 0);
    }
  }

  lemma AnnouncedNext(entries: seq<string>, url: string, k: nat, i: nat)
    requires FirstAnnounces(entries, k) && LastTarget(SplitOn(entries[k], ';'), i, url)
    ensures FirstNext(entries) == Some(url)
  {
    hide IsNext, UrlOf, SplitOn, Classify, FirstNext;
    FirstNextIff(entries, k);
    UrlIff(SplitOn(entries[k], ';'), url);
  }

  /** Entry `k` is the first to announce `next`, and part `i` is its last target. */
  ghost predicate Announces(header: string, k: nat, i: nat, url: string) {
    var entries := SplitOn(header, ',');
    FirstAnnounces(entries, k) && LastTarget(SplitOn(entries[k], ';'), i, url)
  }

  lemma SomeAnnounces(header: string, url: string) returns (k: nat, i: nat)
    requires NextOf(header) == Some(url)
    ensures Announces(header, k, i, url)
  {
    hide IsNext, UrlOf, SplitOn, Classify, FirstNext;
    var entries := SplitOn(header, ',');
    NoneAnnounces(entries);
    k :| FirstAnnounces(entries, k);
    FirstNextIff(entries, k);
    UrlIff(SplitOn(entries[k], ';'), url);
    i :| LastTarget(SplitOn(entries[k], ';'), i, url);
  }

  /** What the parser finds in any header, cut at commas into entries and at semicolons into parts: the last
      target of the first entry with a `next` relation. */
  lemma NextIff(header: string, url: string)
    ensures NextOf(header) == Some(url) <==> exists k: nat, i: nat :: Announces(header, k, i, url)
  {
    if NextOf(header) == Some(url) {
      var k, i := SomeAnnounces(header, url);
    }
    if k: nat, i: nat :| Announces(header, k, i, url) {
      hide IsNext, UrlOf, SplitOn, Classify, FirstNext;
      AnnouncedNext(SplitOn(header, ','), url, k, i);
    }
  }

  // ---- Printing ----

  /** A link value: its target, one relation, written quoted or bare, and further parameters. */
  datatype LinkValue = LinkValue(url: string, rel: string, quoted: bool, params: seq<string>)
  {
    function Rel(): string {
      if quoted then "rel=\"" + rel + "\"" else "rel=" + rel
    }

    function Parts(): seq<string> {
      ["<" + url + ">", " " + Rel()] + seq(|params|, i requires 0 <= i < |params| => " " + params[i])
    }

    function Show(): string {
      Join(Parts(), ";")
    }

    /** Targets free of the two separators; a relation free of separators, quotes and blanks; parameters
        free of separators that are neither targets nor relations themselves. */
    predicate Fine() {
      && ',' !in url && ';' !in url
      && ',' !in rel && ';' !in rel && '"' !in rel
      && (forall i :: 0 <= i < |rel| ==> !IsWhite(rel[i]))
      && forall i :: 0 <= i < |params| ==> ',' !in params[i] && ';' !in params[i] && Classify(" " + params[i]) == Other
    }
  }

  function ShowAll(links: seq<LinkValue>): string {
    if links == [] then ""
    else if |links| == 1 then links[0].Show()
    else links[0].Show() + ", " + ShowAll(links[1..])
  }

  /** What the header says comes next. */
  function FirstNextLink(links: seq<LinkValue>): Option<string> {
    if links == [] then None
    else if links[0].rel == "next" then Some(links[0].url)
    else FirstNextLink(links[1..])
  }

  // ---- Round trip ----

  lemma NoQuotes(s: string)
    requires '"' !in s
    ensures TrimQuotes(s) == s
  {
    assert s != "" ==> s[0] in s && s[|s| - 1] in s;
  }

  lemma QuotesOff(rel: string, quoted: bool)
    requires '"' !in rel
    ensures TrimQuotes(if quoted then "\"" + rel + "\"" else rel) == rel
  {
    if rel == "" {
      assert "\"" + "" + "\"" == "\"\"" && "\"\""[1..] == "\"" && "\""[1..] == "";
    } else {
      assert rel[0] in rel && rel[|rel| - 1] in rel;
      TrimQuotesIs("\"", rel, "\"");
      NoQuotes(rel);
    }
  }

  lemma TargetReads(lead: string, url: string)
    requires lead == "" || lead == " "
    ensures Classify(lead + ("<" + url + ">")) == Target(url)
  {
    var s := "<" + url + ">";
    TrimSolid(lead, s);
    assert s[1..|s| - 1] == url;
  }

  lemma RelReads(link: LinkValue)
    requires link.Fine()
    ensures Classify(" " + link.Rel()) == if link.rel == "next" then RelNext else Other
  {
    var s := link.Rel();
    TrimSolid(" ", s);
    assert s[0..4] == "rel=";
    assert s[4..] == if link.quoted then "\"" + link.rel + "\"" else link.rel;
    QuotesOff(link.rel, link.quoted);
  }

  lemma {:induction false} JoinFree(parts: seq<string>, sep: char, c: char)
    requires c != sep && forall i :: 0 <= i < |parts| ==> c !in parts[i]
    ensures c !in Join(parts, [sep])
  {
    if |parts| > 1 {
      JoinFree(parts[1..], sep, c);
    }
  }

  /** The parts of a printed link, behind an optional blank. */
  function PartsOf(link: LinkValue, lead: string): seq<string> {
    [lead + link.Parts()[0]] + link.Parts()[1..]
  }

  lemma PartsFree(link: LinkValue, lead: string)
    requires link.Fine() && (lead == "" || lead == " ")
    ensures var parts := PartsOf(link, lead);
            && (forall i :: 0 <= i < |parts| ==> ',' !in parts[i] && ';' !in parts[i])
            && lead + link.Show() == Join(parts, ";")
  {
    var own := link.Parts();
    var parts := [lead + own[0]] + own[1..];
    assert parts[1..] == own[1..];
    assert lead + (own[0] + ";" + Join(own[1..], ";")) == lead + own[0] + ";" + Join(own[1..], ";");
    hide Join;
    assert ',' !in link.Rel() && ';' !in link.Rel();
    forall i | 0 <= i < |parts| ensures ',' !in parts[i] && ';' !in parts[i] {
      if i >= 2 {
        assert parts[i] == " " + link.params[i - 2];
      }
    }
  }

  lemma {:induction false} OthersGiveNothing(parts: seq<string>, n: nat)
    requires n <= |parts| && forall i :: n <= i < |parts| ==> Classify(parts[i]) == Other
    ensures UrlOf(parts) == UrlOf(parts[..n]) && (IsNext(parts) <==> IsNext(parts[..n]))
    decreases |parts| - n
  {
    hide Classify;
    if n < |parts| {
      PartsSnoc(parts, n);
      OthersGiveNothing(parts, n + 1);
    } else {
      assert parts[..n] == parts;
    }
  }

  /** Parts that are a target, a relation and other things. */
  lemma PartsRead(parts: seq<string>, url: string)
    requires |parts| >= 2 && Classify(parts[0]) == Target(url) && !Classify(parts[1]).Target?
    requires forall i :: 2 <= i < |parts| ==> Classify(parts[i]) == Other
    ensures UrlOf(parts) == Some(url) && (IsNext(parts) <==> Classify(parts[1]) == RelNext)
  {
    hide Classify;
    OthersGiveNothing(parts, 2);
    PartsSnoc(parts, 1);
    PartsSnoc(parts, 0);
    assert parts[..0] == [];
  }

  lemma PartsClassified(link: LinkValue, lead: string)
    requires link.Fine() && (lead == "" || lead == " ")
    ensures var parts := PartsOf(link, lead);
            && |parts| >= 2 && Classify(parts[0]) == Target(link.url)
            && Classify(parts[1]) == (if link.rel == "next" then RelNext else Other)
            && forall i :: 2 <= i < |parts| ==> Classify(parts[i]) == Other
  {
    TargetReads(lead, link.url);
    RelReads(link);
    var parts := PartsOf(link, lead);
    forall i | 2 <= i < |parts| ensures Classify(parts[i]) == Other {
      assert parts[i] == " " + link.params[i - 2];
    }
  }

  /** A printed link is one entry: its target is read back, and it is next exactly when its relation says so. */
  lemma EntryReads(link: LinkValue, lead: string)
    requires link.Fine() && (lead == "" || lead == " ")
    ensures ',' !in lead + link.Show()
    ensures UrlOf(SplitOn(lead + link.Show(), ';')) == Some(link.url)
    ensures IsNext(SplitOn(lead + link.Show(), ';')) <==> link.rel == "next"
  {
    hide Classify, Join, SplitOn, IsNext, UrlOf, PartsOf, LinkValue.Show, LinkValue.Fine;
    var parts := PartsOf(link, lead);
    PartsFree(link, lead);
    PartsClassified(link, lead);
    JoinFree(parts, ';', ',');
    SplitJoin(parts, ';');
    PartsRead(parts, link.url);
  }

  lemma {:induction false} LinksRead(links: seq<LinkValue>, lead: string)
    requires links != [] && (lead == "" || lead == " ")
    requires forall i :: 0 <= i < |links| ==> links[i].Fine()
    ensures NextOf(lead + ShowAll(links)) == FirstNextLink(links)
  {
    hide IsNext, UrlOf;
    var first, rest := lead + links[0].Show(), links[1..];
    EntryReads(links[0], lead);
    if |links| == 1 {
      SplitOnSingle(first, ',');
      assert lead + ShowAll(links) == first;
      assert [first][1..] == [] && rest == [];
      assert FirstNext([]) == None && FirstNextLink(rest) == None;
      assert FirstNext([first]) == if IsNext(SplitOn(first, ';')) then UrlOf(SplitOn(first, ';')) else FirstNext([first][1..]);
    } else {
      var tail := " " + ShowAll(rest);
      assert lead + ShowAll(links) == first + [','] + tail;
      SplitOnCons(first, ',', tail);
      assert ([first] + SplitOn(tail, ','))[1..] == SplitOn(tail, ',');
      LinksRead(rest, " ");
    }
  }

  lemma EmptyHeader()
    ensures NextOf("") == None
  {
    var parts := SplitOn("", ';');
    assert Trim("") == "" && !StartsWith("", "rel=");
    assert parts == [""] && Classify(parts[0]) == Other;
    assert !IsNext(parts);
    assert [""][1..] == [];
  }

  /** Round trip: from any printed list of links, quoted or not and with any further parameters, the parser
      returns the target of the first `next` link, or nothing when there is none. */
  lemma HeaderRoundTrip(links: seq<LinkValue>)
    requires forall i :: 0 <= i < |links| ==> links[i].Fine()
    ensures NextOf(ShowAll(links)) == FirstNextLink(links)
  {
    if links == [] {
      EmptyHeader();
    } else {
      LinksRead(links, "");
      assert "" + ShowAll(links) == ShowAll(links);
    }
  }

  // ---- What the parser cannot read ----

  lemma {:induction false} SplitOnKeepsOut(s: string, c: char, d: char)
    requires d !in s
    ensures forall i :: 0 <= i < |SplitOn(s, c)| ==> d !in SplitOn(s, c)[i]
  {
    if s != "" {
      SplitOnKeepsOut(s[1..], c, d);
    }
  }

  lemma {:induction false} UrlKeepsOut(parts: seq<string>, d: char)
    requires UrlOf(parts).Some? && forall i :: 0 <= i < |parts| ==> d !in parts[i]
    ensures d !in UrlOf(parts).value
  {
    TrimKeepsOut(parts[|parts| - 1], d);
    if !Classify(parts[|parts| - 1]).Target? {
      UrlKeepsOut(parts[..|parts| - 1], d);
    }
  }

  lemma {:induction false} EntriesKeepOut(entries: seq<string>)
    requires FirstNext(entries).Some? && forall i :: 0 <= i < |entries| ==> ',' !in entries[i]
    ensures ',' !in FirstNext(entries).value && ';' !in FirstNext(entries).value
  {
    hide UrlOf;
    if IsNext(SplitOn(entries[0], ';')) {
      SplitOnKeepsOut(entries[0], ';', ',');
      UrlKeepsOut(SplitOn(entries[0], ';'), ',');
      UrlKeepsOut(SplitOn(entries[0], ';'), ';');
    } else {
      EntriesKeepOut(entries[1..]);
    }
  }

  /** Whatever the header, a returned target holds neither separator. */
  lemma TargetsHoldNoSeparators(header: string)
    requires NextOf(header).Some?
    ensures ',' !in NextOf(header).value && ';' !in NextOf(header).value
  {
    EntriesKeepOut(SplitOn(header, ','));
  }
}
