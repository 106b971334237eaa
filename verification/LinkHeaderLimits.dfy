/** Which `next` links the parser reads back, whatever else the link carries. */
module LinkHeaderLimits {
  import opened Wrappers
  import opened Text
  import opened Chars
  import opened LinkHeader

  predicate Clean(url: string) {
    ',' !in url && ';' !in url
  }

  /** All pieces between commas and semicolons are of the given sort. */
  ghost predicate All(s: string, ok: Part -> bool) {
    forall i :: 0 <= i < |SplitOn(s, ',')| ==> AllParts(SplitOn(s, ',')[i], ok)
  }

  ghost predicate AllParts(entry: string, ok: Part -> bool) {
    forall i :: 0 <= i < |SplitOn(entry, ';')| ==> ok(Classify(SplitOn(entry, ';')[i]))
  }

  // ---- Any text behind the target ----

  lemma UrlInFront(target: string, url: string, parts: seq<string>)
    requires Classify(target) == Target(url)
    ensures UrlOf([target] + parts) == if UrlOf(parts).Some? then UrlOf(parts) else Some(url)
    ensures IsNext([target] + parts) <==> IsNext(parts)
  {
    hide Classify, UrlOf;
    UrlBehind(target, url, parts);
    IsNextAppend([target], parts);
  }

  lemma {:induction false} UrlBehind(target: string, url: string, parts: seq<string>)
    requires Classify(target) == Target(url)
    ensures UrlOf([target] + parts) == if UrlOf(parts).Some? then UrlOf(parts) else Some(url)
  {
    hide Classify;
    var all := [target] + parts;
    if parts == [] {
      assert all == [target];
    } else {
      assert all[..|all| - 1] == [target] + parts[..|parts| - 1];
      UrlBehind(target, url, parts[..|parts| - 1]);
    }
  }

  /** The entries of a header that starts with a target, and the parts of the first. */
  lemma HeaderEntries(url: string, tail: string)
    requires Clean(url)
    ensures var target, entries := "<" + url + ">", SplitOn(tail, ',');
            && SplitOn(target + ";" + tail, ',') == [target + ";" + entries[0]] + entries[1..]
            && SplitOn(target + ";" + entries[0], ';') == [target] + SplitOn(entries[0], ';')
  {
    var target, entries := "<" + url + ">", SplitOn(tail, ',');
    assert ',' !in target && ';' !in target;
    SplitComma(target, tail);
    SplitSemicolon(target, entries[0]);
    SplitOnSingle(target, ',');
    SplitOnSingle(target, ';');
  }

  /** A header that starts with a target: its first entry is the target's, up to the first comma. */
  lemma FirstEntry(url: string, tail: string)
    requires Clean(url)
    ensures var entries := SplitOn(tail, ',');
            var parts := SplitOn(entries[0], ';');
            NextOf("<" + url + ">;" + tail) ==
            if !IsNext(parts) then FirstNext(entries[1..])
            else if UrlOf(parts).Some? then UrlOf(parts) else Some(url)
  {
    hide Classify, IsNext, UrlOf, SplitOn;
    var target, entries := "<" + url + ">", SplitOn(tail, ',');
    HeaderEntries(url, tail);
    assert "<" + url + ">;" + tail == target + ";" + tail;
    TargetReads("", url);
    assert "" + target == target;
    UrlInFront(target, url, SplitOn(entries[0], ';'));
    var first := target + ";" + entries[0];
    assert ([first] + entries[1..])[1..] == entries[1..] && ([first] + entries[1..])[0] == first;
  }

  /** Whatever follows a target: it is read back if and only if it holds no separator and, with the text cut
      at commas and semicolons as the parser does, its own entry announces `next` and names no other target
      behind it, or does not, and the first later entry that does names this very target. */
  lemma AnyTailIff(url: string, tail: string)
    ensures var entries := SplitOn(tail, ',');
            var parts := SplitOn(entries[0], ';');
            NextOf("<" + url + ">;" + tail) == Some(url) <==>
            Clean(url) && if IsNext(parts) then UrlOf(parts) in {None, Some(url)} else FirstNext(entries[1..]) == Some(url)
  {
    if Clean(url) {
      FirstEntry(url, tail);
    } else if NextOf("<" + url + ">;" + tail) == Some(url) {
      TargetsHoldNoSeparators("<" + url + ">;" + tail);
    }
  }

  // ---- Links as they are written ----

  /** The name of the relation parameter as written, and the blanks around its equals sign. */
  datatype Key = Key(name: string, left: string, right: string)
  {
    function Show(): string {
      name + left + "=" + right
    }

    /** Parameter names are read in any case. */
    predicate Proper() {
      && LowerAscii(name) == "rel"
      && (forall i :: 0 <= i < |left| ==> IsWhite(left[i])) && (forall i :: 0 <= i < |right| ==> IsWhite(right[i]))
    }
  }

  const REL := Key("rel", "", "")

  /** A link with its relation types between further parameters, in quotes or, if it is one, bare. */
  datatype WrittenLink = WrittenLink(
    url: string, before: seq<string>, key: Key, rels: seq<string>, quoted: bool, after: seq<string>)
  {
    function Relation(): string {
      var list := Join(rels, " ");
      " " + (key.Show() + if quoted then "\"" + list + "\"" else list)
    }

    function Params(): seq<string> {
      Blanked(before) + [Relation()] + Blanked(after)
    }

    function Show(): string {
      "<" + url + ">;" + Join(Params(), ";")
    }

    /** Relation types are words; further parameters hold anything, but no piece of them between separators
        reads as a target or as a `next` relation of its own. */
    ghost predicate Proper() {
      && rels != [] && (quoted || |rels| == 1) && key.Proper()
      && (forall i :: 0 <= i < |rels| ==> Word(rels[i]))
      && (forall i :: 0 <= i < |before| ==> Plain(" " + before[i]))
      && (forall i :: 0 <= i < |after| ==> Plain(" " + after[i]))
    }
  }

  function Blanked(params: seq<string>): (r: seq<string>)
    ensures |r| == |params| && forall i :: 0 <= i < |r| ==> r[i] == " " + params[i]
  {
    seq(|params|, i requires 0 <= i < |params| => " " + params[i])
  }

  predicate Word(s: string) {
    s != "" && forall i :: 0 <= i < |s| ==> s[i] !in {',', ';', '"', '<'} && !IsWhite(s[i])
  }

  ghost predicate Plain(s: string) {
    All(s, (p: Part) => p == Other)
  }

  ghost predicate NoTarget(s: string) {
    All(s, (p: Part) => !p.Target?)
  }

  lemma AllPartsJoin(x: string, y: string, ok: Part -> bool)
    requires AllParts(x, ok) && AllParts(y, ok)
    ensures AllParts(x + ";" + y, ok)
    ensures IsNext(SplitOn(x + ";" + y, ';')) <==> IsNext(SplitOn(x, ';')) || IsNext(SplitOn(y, ';'))
  {
    hide Classify;
    SplitSemicolon(x, y);
    var p, q := SplitOn(x, ';'), SplitOn(y, ';');
    IsNextAppend(p, q);
  }

  lemma SplitSemicolon(x: string, y: string)
    ensures SplitOn(x + ";" + y, ';') == SplitOn(x, ';') + SplitOn(y, ';')
  {
    SplitOnMiddle(x, ';', y);
    assert x + ";" + y == x + [';'] + y;
  }

  lemma IsNextAppend(p: seq<string>, q: seq<string>)
    ensures IsNext(p + q) <==> IsNext(p) || IsNext(q)
  {
    hide Classify;
    if i :| 0 <= i < |p| && Classify(p[i]) == RelNext {
      assert (p + q)[i] == p[i];
    }
    if i :| 0 <= i < |q| && Classify(q[i]) == RelNext {
      assert (p + q)[|p| + i] == q[i];
    }
    if i :| 0 <= i < |p + q| && Classify((p + q)[i]) == RelNext {
      assert if i < |p| then (p + q)[i] == p[i] else (p + q)[i] == q[i - |p|];
    }
  }

  /** The entries of two texts joined by a semicolon. */
  lemma SplitComma(x: string, y: string)
    ensures var p, q := SplitOn(x, ','), SplitOn(y, ',');
            SplitOn(x + ";" + y, ',') == p[..|p| - 1] + [p[|p| - 1] + ";" + q[0]] + q[1..]
  {
    var p := SplitOn(x, ',');
    SplitOnSingle(";", ',');
    SplitOnAppend(x, ";", ',');
    SplitOnAppend(x + ";", y, ',');
  }

  lemma AllJoin(x: string, y: string, ok: Part -> bool)
    requires All(x, ok) && All(y, ok)
    ensures All(x + ";" + y, ok)
  {
    hide AllParts, SplitOn;
    var p, q, r := SplitOn(x, ','), SplitOn(y, ','), SplitOn(x + ";" + y, ',');
    SplitComma(x, y);
    AllPartsJoin(p[|p| - 1], q[0], ok);
    forall i | 0 <= i < |r| ensures AllParts(r[i], ok) {
      if i < |p| - 1 {
        assert r[i] == p[i];
      } else if i >= |p| {
        assert r[i] == q[i - |p| + 1];
      }
    }
  }

  lemma Weaker(s: string)
    requires Plain(s)
    ensures NoTarget(s) && !IsNext(SplitOn(SplitOn(s, ',')[0], ';'))
  {
    hide Classify;
    assert AllParts(SplitOn(s, ',')[0], (p: Part) => p == Other);
    forall i | 0 <= i < |SplitOn(s, ',')| ensures AllParts(SplitOn(s, ',')[i], (p: Part) => !p.Target?) {
      assert AllParts(SplitOn(s, ',')[i], (p: Part) => p == Other);
    }
  }

  /** No target anywhere: no entry can name one. */
  lemma {:induction false} NoTargetNamesNone(parts: seq<string>)
    requires forall i :: 0 <= i < |parts| ==> !Classify(parts[i]).Target?
    ensures UrlOf(parts) == None
  {
    hide Classify;
    if parts != [] {
      NoTargetNamesNone(parts[..|parts| - 1]);
    }
  }

  lemma {:induction false} NoTargetNoNext(entries: seq<string>)
    requires forall i :: 0 <= i < |entries| ==> AllParts(entries[i], (p: Part) => !p.Target?)
    ensures FirstNext(entries) == None
  {
    hide Classify, IsNext;
    if entries != [] {
      NoTargetNoNext(entries[1..]);
      assert AllParts(entries[0], (p: Part) => !p.Target?);
      NoTargetNamesNone(SplitOn(entries[0], ';'));
    }
  }

  predicate Commaless(texts: seq<string>) {
    forall i :: 0 <= i < |texts| ==> ',' !in texts[i]
  }

  /** A text without separators is one entry of one part. */
  lemma OnePart(s: string)
    requires ',' !in s && ';' !in s
    ensures SplitOn(s, ',') == [s] && SplitOn(s, ';') == [s]
    ensures !Classify(s).Target? ==> NoTarget(s)
    ensures IsNext([s]) <==> Classify(s) == RelNext
  {
    hide Classify;
    SplitOnSingle(s, ',');
    SplitOnSingle(s, ';');
    assert [s][0] == s;
  }

  lemma {:induction false} PlainParams(texts: seq<string>)
    requires texts != [] && forall i :: 0 <= i < |texts| ==> Plain(texts[i])
    ensures Plain(Join(texts, ";"))
  {
    hide All;
    if |texts| > 1 {
      PlainParams(texts[1..]);
      AllJoin(texts[0], Join(texts[1..], ";"), (p: Part) => p == Other);
    }
  }

  /** Parameters behind a relation neither add a target nor take the relation out of the first entry. */
  lemma RelationThen(relation: string, after: seq<string>)
    requires ',' !in relation && ';' !in relation && !Classify(relation).Target?
    requires forall i :: 0 <= i < |after| ==> Plain(after[i])
    ensures var s := Join([relation] + after, ";");
            NoTarget(s) && (IsNext(SplitOn(SplitOn(s, ',')[0], ';')) <==> Classify(relation) == RelNext)
  {
    hide Classify, IsNext, Plain, All;
    OnePart(relation);
    assert ([relation] + after)[1..] == after;
    if after != [] {
      var y := Join(after, ";");
      PlainParams(after);
      Weaker(y);
      AllJoin(relation, y, (p: Part) => !p.Target?);
      SplitComma(relation, y);
      SplitSemicolon(relation, SplitOn(y, ',')[0]);
      IsNextAppend([relation], SplitOn(SplitOn(y, ',')[0], ';'));
    }
  }

  /** Parameters in front of a relation leave it in the first entry if and only if they hold no comma. */
  lemma {:induction false} ParamsThen(before: seq<string>, relation: string, after: seq<string>)
    requires ',' !in relation && ';' !in relation && !Classify(relation).Target?
    requires forall i :: 0 <= i < |before| ==> Plain(before[i])
    requires forall i :: 0 <= i < |after| ==> Plain(after[i])
    ensures var s := Join(before + [relation] + after, ";");
            && NoTarget(s)
            && (IsNext(SplitOn(SplitOn(s, ',')[0], ';')) <==> Classify(relation) == RelNext && Commaless(before))
  {
    hide Classify, IsNext, Plain, All;
    if before == [] {
      assert before + [relation] + after == [relation] + after;
      RelationThen(relation, after);
    } else {
      var x, all := before[0], before + [relation] + after;
      var y := Join(before[1..] + [relation] + after, ";");
      assert all[0] == x && all[1..] == before[1..] + [relation] + after;
      ParamsThen(before[1..], relation, after);
      Weaker(x);
      AllJoin(x, y, (p: Part) => !p.Target?);
      FirstOfTwo(x, y);
    }
  }

  /** The first entry of two joined texts. */
  lemma FirstOfTwo(x: string, y: string)
    requires Plain(x)
    ensures IsNext(SplitOn(SplitOn(x + ";" + y, ',')[0], ';')) <==> ',' !in x && IsNext(SplitOn(SplitOn(y, ',')[0], ';'))
  {
    hide Classify, IsNext, Plain, All;
    Weaker(x);
    SplitComma(x, y);
    var p, q := SplitOn(x, ','), SplitOn(y, ',');
    if ',' in x {
      CommaSplits(x);
    } else {
      SplitOnSingle(x, ',');
      SplitSemicolon(x, q[0]);
      IsNextAppend(SplitOn(x, ';'), SplitOn(q[0], ';'));
    }
  }

  lemma {:induction false} CommaSplits(s: string)
    requires ',' in s
    ensures |SplitOn(s, ',')| > 1
  {
    if s[0] != ',' {
      CommaSplits(s[1..]);
    }
  }

  /** Words hold no separator, and their list is `next` only if `next` is all of it. */
  lemma {:induction false} RelsJoin(rels: seq<string>)
    requires rels != [] && forall i :: 0 <= i < |rels| ==> Word(rels[i])
    ensures var list := Join(rels, " ");
            && list != "" && !IsWhite(list[|list| - 1]) && list[|list| - 1] != '"' && list[0] != '"'
            && ',' !in list && ';' !in list && '"' !in list && '<' !in list
            && (list == "next" <==> rels == ["next"])
  {
    if |rels| == 1 {
      assert rels == [rels[0]];
    } else {
      RelsJoin(rels[1..]);
      var list := Join(rels, " ");
      assert list == rels[0] + " " + Join(rels[1..], " ");
      assert list[|rels[0]|] == ' ';
    }
  }

  /** A key holds no separator, starts with a letter, and opens a relation for the parser only if it is `rel=`. */
  lemma KeyReads(key: Key)
    requires key.Proper()
    ensures var k := key.Show();
            && ',' !in k && ';' !in k && k != "" && !IsWhite(k[0]) && k[0] != '<'
            && |k| >= 4
            && (k[..4] == "rel=" <==> key.name == "rel" && key.left == "")
            && (k[..4] == "rel=" ==> k[4..] == key.right)
  {
    var k, low := key.Show(), LowerAscii(key.name);
    assert |key.name| == 3 && low[0] == 'r' && low[1] == 'e' && low[2] == 'l';
    assert forall i :: 0 <= i < 3 ==> low[i] == if 'A' <= key.name[i] <= 'Z' then key.name[i] - 'A' + 'a' else key.name[i];
    assert k[..3] == key.name;
    if key.left != "" {
      assert k[3] == key.left[0] && "rel="[3] == '=';
    } else {
      assert k == key.name + "=" + key.right && k[3] == '=' && k[..4] == key.name + "=" && k[4..] == key.right;
      assert "rel="[..3] == "rel" && (k[..4] == "rel=" ==> k[..4][..3] == key.name);
    }
  }

  /** Quotes come off the ends only: a text that starts with something else keeps its start. */
  lemma {:induction false} TrimQuotesKeepsStart(s: string)
    requires s != "" && s[0] != '"'
    ensures TrimQuotes(s) != "" && TrimQuotes(s)[0] == s[0]
  {
    if s[|s| - 1] == '"' {
      TrimQuotesKeepsStart(s[..|s| - 1]);
    }
  }

  lemma RelationReads(link: WrittenLink)
    requires link.Proper()
    ensures ',' !in link.Relation() && ';' !in link.Relation()
    ensures Classify(link.Relation()) == if link.rels == ["next"] && link.key == REL then RelNext else Other
  {
    hide Join, Word, Plain, IsWhite, Classify, Key.Show, Key.Proper;
    var list := Join(link.rels, " ");
    RelsJoin(link.rels);
    KeyReads(link.key);
    RelationOf(link.key, list, link.quoted);
  }

  lemma RelationOf(key: Key, list: string, quoted: bool)
    requires key.Proper() && list != "" && !IsWhite(list[|list| - 1]) && '"' !in list
    ensures var value := if quoted then "\"" + list + "\"" else list;
            Classify(" " + (key.Show() + value)) == if list == "next" && key == REL then RelNext else Other
  {
    var value := if quoted then "\"" + list + "\"" else list;
    var s := key.Show() + value;
    assert s[|s| - 1] == value[|value| - 1];
    KeyReads(key);
    assert s[..4] == key.Show()[..4] && s[0..4] == s[..4] && s[4..] == key.Show()[4..] + value;
    hide Key.Show, IsWhite, TrimQuotes, LowerAscii;
    TrimSolid(" ", s);
    if s[..4] == "rel=" {
      if key.right == "" {
        assert key == REL && s[4..] == value;
        QuotesOff(list, quoted);
      } else {
        TrimQuotesKeepsStart(s[4..]);
        BlankIsNoLetter(key);
      }
    }
  }

  lemma BlankIsNoLetter(key: Key)
    requires key.Proper() && key.right != ""
    ensures key.right[0] != "next"[0] && key.right[0] != '"'
  {}

  /** A `next` link with any further parameters, quoted or bare: its target is read back if and only if it holds
      no comma and no semicolon, no parameter in front of the relation holds a comma, the relation is written
      `rel=`, in lower case and without blanks, and `next` is its only type. Otherwise a target without
      separators is lost: the parser finds no next link. */
  lemma SingleNextIff(link: WrittenLink)
    requires link.Proper()
    ensures NextOf(link.Show()) == Some(link.url) <==>
            Clean(link.url) && Commaless(link.before) && link.key == REL && link.rels == ["next"]
    ensures Clean(link.url) ==> NextOf(link.Show()) in {None, Some(link.url)}
  {
    hide Classify, Plain, All, IsNext, UrlOf, FirstNext, NextOf, WrittenLink.Relation, Join;
    var tail := Join(link.Params(), ";");
    RelationReads(link);
    ParamsThen(Blanked(link.before), link.Relation(), Blanked(link.after));
    BlankedCommaless(link.before);
    AnyTailIff(link.url, tail);
    NoTargetTail(tail);
    if Clean(link.url) {
      FirstEntry(link.url, tail);
    }
  }

  lemma BlankedCommaless(params: seq<string>)
    ensures Commaless(Blanked(params)) <==> Commaless(params)
  {
    forall i | 0 <= i < |params| ensures ',' in Blanked(params)[i] <==> ',' in params[i] {
      var b := Blanked(params)[i];
      assert b[1..] == params[i] && b == [' '] + b[1..];
    }
  }

  lemma NoTargetTail(tail: string)
    requires NoTarget(tail)
    ensures UrlOf(SplitOn(SplitOn(tail, ',')[0], ';')) == None && FirstNext(SplitOn(tail, ',')[1..]) == None
  {
    hide Classify, IsNext;
    var entries := SplitOn(tail, ',');
    assert AllParts(entries[0], (p: Part) => !p.Target?);
    NoTargetNamesNone(SplitOn(entries[0], ';'));
    NoTargetNoNext(entries[1..]);
  }

  // ---- Two links that are lost ----

  const COMMA_IN_TITLE := WrittenLink("u", ["title=\"a,b\""], REL, ["next"], true, [])

  /** Two parts around a comma. */
  lemma PlainPair(left: string, right: string)
    requires ',' !in left && ';' !in left && ',' !in right && ';' !in right
    requires Classify(left) == Other && Classify(right) == Other
    ensures Plain(left + [','] + right)
  {
    hide Classify;
    SplitOnMiddle(left, ',', right);
    SplitOnSingle(left, ',');
    SplitOnSingle(right, ',');
    SplitOnSingle(left, ';');
    SplitOnSingle(right, ';');
  }

  lemma TitleParts()
    ensures Classify(" title=\"a") == Other && Classify("b\"") == Other
  {
    TrimSolid(" ", "title=\"a");
    TrimSolid("", "b\"");
    assert " " + "title=\"a" == " title=\"a" && "" + "b\"" == "b\"";
  }

  lemma TitleIsProper()
    ensures COMMA_IN_TITLE.Proper() && !Commaless(COMMA_IN_TITLE.before)
  {
    hide Classify, Plain;
    TitleParts();
    var title, left, right := COMMA_IN_TITLE.before[0], " title=\"a", "b\"";
    assert ',' !in left && ';' !in left && ',' !in right && ';' !in right;
    assert " " + title == left + [','] + right && title[8] == ',';
    PlainPair(left, right);
    assert LowerAscii("rel") == "rel";
  }

  /** `<u>; title="a,b"; rel="next"`: a comma inside the quoted title, and the next page is not found. */
  lemma CommaInTitleLosesNext()
    ensures NextOf(COMMA_IN_TITLE.Show()) == None
  {
    assert Clean(COMMA_IN_TITLE.url);
    hide NextOf, WrittenLink.Show, WrittenLink.Proper, Commaless;
    TitleIsProper();
    SingleNextIff(COMMA_IN_TITLE);
  }

  /** `rel="next last"` lists `next` among the relation types, and the next page is not found either. */
  lemma SecondRelationLosesNext(url: string)
    requires Clean(url)
    ensures NextOf(WrittenLink(url, [], REL, ["next", "last"], true, []).Show()) == None
  {
    assert LowerAscii("rel") == "rel";
    SingleNextIff(WrittenLink(url, [], REL, ["next", "last"], true, []));
  }

  /** Nor is it behind `Rel="next"`, although parameter names may be written in any case. */
  lemma CapitalLosesNext(url: string)
    requires Clean(url)
    ensures NextOf(WrittenLink(url, [], Key("Rel", "", ""), ["next"], true, []).Show()) == None
  {
    assert LowerAscii("Rel") == "rel" && "Rel"[0] != "rel"[0];
    SingleNextIff(WrittenLink(url, [], Key("Rel", "", ""), ["next"], true, []));
  }
}
