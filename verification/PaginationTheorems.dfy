/** What a fetch promises about the upstream's whole list. */
module PaginationTheorems {
  import opened Wrappers
  import opened Json
  import opened Pagination
  import LinkHeader

  // ---- Reading replies ----

  /** The field a service keeps its items in; GitHub replies are bare arrays. */
  function ItemsField(e: Endpoint): Option<string> {
    match e
    case GithubIssues => None
    case GithubPulls => None
    case GithubReleases => None
    case SlackChannels => Some("channels")
    case SlackHistory => Some("messages")
    case _ => Some("results")
  }

  predicate IsSlack(e: Endpoint) {
    e in {SlackChannels, SlackHistory}
  }

  /** When a reply has items, and what is reported when it does not: Slack's own error if it says it failed, and
      an unexpected shape for every service if the array is missing. */
  lemma ItemsIff(e: Endpoint, r: Response, items: seq<Json>)
    ensures RawItems(e, r) == Ok(items) <==>
            && (IsSlack(e) ==> r.body.Get("ok") == Some(JBool(true)))
            && (if ItemsField(e).Some? then r.body.Get(ItemsField(e).value) == Some(JArray(items)) else r.body == JArray(items))
    ensures RawItems(e, r).Err? ==>
              RawItems(e, r).error ==
              if IsSlack(e) && r.body.Get("ok") != Some(JBool(true)) then
                ApiError(if r.body.GetString("error").Some? then r.body.GetString("error").value else "unknown_error")
              else UnexpectedShape
  {}

  /** When a reply promises another page: GitHub by its `Link` header, Slack by a cursor that is not empty,
      Notion by a cursor beside `has_more`, Todoist by a cursor. */
  lemma CursorIff(e: Endpoint, r: Response, c: string)
    ensures NextCursor(e, r) == Some(c) <==>
            if ItemsField(e).None? then r.link.Some? && LinkHeader.NextOf(r.link.value) == Some(c)
            else if IsSlack(e) then
              c != "" && exists meta :: r.body.Get("response_metadata") == Some(meta) && meta.Get("next_cursor") == Some(JString(c))
            else
              && r.body.Get("next_cursor") == Some(JString(c))
              && (e in {NotionDataSource, NotionSearch, NotionPage} ==> r.body.Get("has_more") == Some(JBool(true)))
  {
    if IsSlack(e) && r.body.Get("response_metadata").Some? {
      var meta := r.body.Get("response_metadata").value;
      assert r.body.Get("response_metadata") == Some(meta);
    }
    hide LinkHeader.NextOf;
  }

  /** A page is what a reply holds, and a reply that failed or is malformed is that failure. */
  lemma PageIff(e: Endpoint, shape: Json -> Json, reply: Result<Response, FetchError>)
    ensures reply.Err? ==> ReadPage(e, shape, reply) == Err(reply.error)
    ensures reply.Ok? && RawItems(e, reply.value).Err? ==> ReadPage(e, shape, reply) == Err(RawItems(e, reply.value).error)
    ensures reply.Ok? && RawItems(e, reply.value).Ok? ==>
              ReadPage(e, shape, reply) == Ok(Page(Normalize(e, shape, RawItems(e, reply.value).value), NextCursor(e, reply.value)))
  {}

  // ---- The pull-request filter ----

  /** An entry of GitHub's issue list that is a pull request. */
  predicate IsPull(e: Endpoint, item: Json) {
    e == GithubIssues && item.JObject? && "pull_request" in item.fields
  }

  lemma NormalizeOne(e: Endpoint, shape: Json -> Json, item: Json)
    ensures Normalize(e, shape, [item]) == if IsPull(e, item) then [] else [shape(item)]
  {
    assert [item][1..] == [];
  }

  lemma NormalizeHead(e: Endpoint, shape: Json -> Json, items: seq<Json>)
    requires items != []
    ensures Normalize(e, shape, items) ==
            (if IsPull(e, items[0]) then [] else [shape(items[0])]) + Normalize(e, shape, items[1..])
  {}

  lemma NormalizeNone(e: Endpoint, shape: Json -> Json)
    ensures Normalize(e, shape, []) == []
  {}

  lemma {:induction false} NormalizeAppend(e: Endpoint, shape: Json -> Json, a: seq<Json>, b: seq<Json>)
    ensures Normalize(e, shape, a + b) == Normalize(e, shape, a) + Normalize(e, shape, b)
  {
    hide Normalize, IsPull;
    if a == [] {
      NormalizeNone(e, shape);
      assert a + b == b;
    } else {
      assert (a + b)[1..] == a[1..] + b && (a + b)[0] == a[0];
      NormalizeHead(e, shape, a);
      NormalizeHead(e, shape, a + b);
      NormalizeAppend(e, shape, a[1..], b);
    }
  }

  /** Exactly the pull requests are dropped, wherever they stand: the result is the rest, shaped, in order. */
  lemma {:induction false} NormalizeKeeps(e: Endpoint, shape: Json -> Json, items: seq<Json>) returns (kept: seq<nat>)
    ensures var r := Normalize(e, shape, items);
            && |kept| == |r|
            && (forall k :: 0 <= k < |kept| ==> kept[k] < |items| && !IsPull(e, items[kept[k]]) && r[k] == shape(items[kept[k]]))
            && (forall j, k :: 0 <= j < k < |kept| ==> kept[j] < kept[k])
            && (forall i :: 0 <= i < |items| && !IsPull(e, items[i]) ==> i in kept)
  {
    if items == [] {
      kept := [];
    } else {
      var init, last := items[..|items| - 1], |items| - 1;
      kept := NormalizeKeeps(e, shape, init);
      NormalizeAppend(e, shape, init, [items[last]]);
      NormalizeOne(e, shape, items[last]);
      assert items == init + [items[last]];
      hide Normalize, IsPull;
      if !IsPull(e, items[last]) {
        kept := kept + [last];
      }
    }
  }

  // ---- Items ----

  /** The first `limit` items, or all if there are fewer. */
  function First(limit: nat, items: seq<Json>): seq<Json> {
    if limit <= |items| then items[..limit] else items
  }

  /** What an answer says about the whole feed: from an upstream that ends it holds the first `limit` items,
      one that claims no more holds everything, of an upstream that ended, and a failure is answered by that
      failure exactly if it was met before `limit` items were. */
  ghost predicate TrueToFeed(feed: Feed, limit: nat, r: Result<Fetched, FetchError>) {
    && (forall x :: r == Err(x) <==> feed.end == Broken(x) && |Flat(feed.pages)| < limit)
    && (feed.end == Exhausted ==> r.Ok? && r.value.items == First(limit, Flat(feed.pages)))
    && (r.Ok? && !r.value.hasMore ==> feed.end == Exhausted && r.value.items == Flat(feed.pages))
  }

  lemma AnswerMeans(feed: Feed, limit: nat)
    requires Suffices(feed, limit)
    ensures TrueToFeed(feed, limit, Answer(feed, limit))
  {
    var flat := Flat(feed.pages);
    assert flat[..|flat|] == flat;
  }

  // ---- has_more ----

  lemma {:induction false} FlatLast(pages: seq<Page>)
    requires pages != []
    ensures Flat(pages) == Flat(pages[..|pages| - 1]) + pages[|pages| - 1].items
  {
    var init, last := pages[..|pages| - 1], pages[|pages| - 1];
    assert pages == init + [last];
    FlatAppend(init, [last]);
    assert [last][1..] == [] && Flat([last]) == last.items;
  }

  /** Reading stops short of the last page exactly when the pages before it hold `limit` items. */
  lemma {:induction false} StopsShort(pages: seq<Page>, limit: int)
    requires pages != [] && limit >= 1
    ensures PagesRead(pages, limit) < |pages| <==> |Flat(pages[..|pages| - 1])| >= limit
  {
    var init := pages[..|pages| - 1];
    if |pages| == 1 {
      assert init == [] && pages[1..] == [];
    } else {
      assert init[0] == pages[0] && init[1..] == pages[1..][..|pages| - 2];
      if |pages[0].items| < limit {
        StopsShort(pages[1..], limit - |pages[0].items|);
      }
    }
  }

  /** `has_more` is documented to be truthful. On an upstream that ends it says whether more than `limit`
      items exist, except exactly when `limit` items exist and the last page is empty. */
  lemma HasMoreTruthfulIff(feed: Feed, limit: nat)
    requires feed.end == Exhausted && feed.pages != [] && limit >= 1
    ensures var flat := Flat(feed.pages);
            (Answer(feed, limit).value.hasMore <==> |flat| > limit) <==>
            !(|flat| == limit && feed.pages[|feed.pages| - 1].items == [])
  {
    StopsShort(feed.pages, limit);
    FlatLast(feed.pages);
  }

  /** An upstream whose pages have a successor exactly when later items exist. */
  ghost predicate HonestCursors(pages: seq<Page>) {
    forall i :: 0 <= i < |pages| ==> (pages[i].next.Some? <==> Flat(pages[i + 1..]) != [])
  }

  /** Every page of a served feed but the last names a successor. */
  lemma {:induction false} ServedPagesContinue(up: Upstream, e: Endpoint, shape: Json -> Json, cursor: Option<string>, feed: Feed)
    requires Serves(up, e, shape, cursor, feed) && feed.end == Exhausted
    ensures feed.pages != [] && feed.pages[|feed.pages| - 1].next == None
    ensures forall i :: 0 <= i < |feed.pages| - 1 ==> feed.pages[i].next.Some?
    decreases |feed.pages|
  {
    hide ReadPage;
    if feed.pages[0].next.Some? {
      var rest := Feed(feed.pages[1..], feed.end);
      ServedPagesContinue(up, e, shape, feed.pages[0].next, rest);
      assert forall i :: 1 <= i < |feed.pages| ==> feed.pages[i] == rest.pages[i - 1];
    }
  }

  /** With honest cursors `has_more` is always the truth. */
  lemma HonestCursorsTruthful(up: Upstream, e: Endpoint, shape: Json -> Json, feed: Feed, limit: nat)
    requires Serves(up, e, shape, None, feed) && feed.end == Exhausted && HonestCursors(feed.pages) && limit >= 1
    ensures Answer(feed, limit).Ok? && (Answer(feed, limit).value.hasMore <==> |Flat(feed.pages)| > limit)
  {
    ServedPagesContinue(up, e, shape, None, feed);
    var n := |feed.pages|;
    FlatLast(feed.pages);
    if n > 1 {
      assert feed.pages[n - 2].next.Some?;
      assert feed.pages[n - 2 + 1..] == [feed.pages[n - 1]] && [feed.pages[n - 1]][1..] == [];
    } else {
      assert feed.pages[..0] == [];
    }
    HasMoreTruthfulIff(feed, limit);
  }

  /** How upstreams split one flat list into pages does not show: two fetches get the same items, and with
      honest cursors the same answer. */
  lemma SplitDoesNotShow(up: Upstream, e: Endpoint, shape: Json -> Json, a: Feed, up': Upstream, e': Endpoint, shape': Json -> Json, b: Feed, limit: nat)
    requires Serves(up, e, shape, None, a) && Serves(up', e', shape', None, b)
    requires a.end == Exhausted && b.end == Exhausted && Flat(a.pages) == Flat(b.pages) && limit >= 1
    ensures Answer(a, limit).Ok? && Answer(b, limit).Ok? && Answer(a, limit).value.items == Answer(b, limit).value.items
    ensures HonestCursors(a.pages) && HonestCursors(b.pages) ==> Answer(a, limit) == Answer(b, limit)
  {
    AnswerMeans(a, limit);
    AnswerMeans(b, limit);
    if HonestCursors(a.pages) && HonestCursors(b.pages) {
      HonestCursorsTruthful(up, e, shape, a, limit);
      HonestCursorsTruthful(up', e', shape', b, limit);
    }
  }

  // ---- Dropping pull requests makes cursors dishonest ----

  const ISSUE := JObject(map["number" := JNumber("1")])

  const PULL := JObject(map["number" := JNumber("2"), "pull_request" := JObject(map[])])

  const NEXT_LINK: string := "<p2>; rel=\"next\""

  /** GitHub's reply to an issue list of one issue on its first page and one pull request on its second. */
  function IssueThenPull(cursor: Option<string>): Result<Response, FetchError> {
    if cursor == None then Ok(Response(JArray([ISSUE]), Some(NEXT_LINK)))
    else Ok(Response(JArray([PULL]), None))
  }

  /** The repository holds one issue, and a fetch limited to one issue still says there is more. */
  lemma PullRequestsFakeMore(shape: Json -> Json)
    ensures var feed := Feed([Page([shape(ISSUE)], Some("p2")), Page([], None)], Exhausted);
            && Serves(IssueThenPull, GithubIssues, shape, None, feed)
            && Flat(feed.pages) == [shape(ISSUE)]
            && Answer(feed, 1) == Ok(Fetched([shape(ISSUE)], true))
  {
    var first, second := Page([shape(ISSUE)], Some("p2")), Page([], None);
    PagesOfIssueThenPull(shape);
    hide ReadPage, IssueThenPull;
    var rest := Feed([second], Exhausted);
    assert Serves(IssueThenPull, GithubIssues, shape, Some("p2"), rest);
    assert [first, second][1..] == [second] && [second][1..] == [];
    assert Flat([second]) == [];
    assert Flat([first, second]) == [shape(ISSUE)];
  }

  lemma NextLinkReads()
    ensures LinkHeader.NextOf(NEXT_LINK) == Some("p2")
  {
    var link := LinkHeader.LinkValue("p2", "next", true, []);
    LinkHeader.HeaderRoundTrip([link]);
    ShownLink(link);
    hide NEXT_LINK, LinkHeader.NextOf;
  }

  lemma PullRequestDropped(shape: Json -> Json)
    ensures Normalize(GithubIssues, shape, [ISSUE]) == [shape(ISSUE)]
    ensures Normalize(GithubIssues, shape, [PULL]) == []
  {
    assert ISSUE.Get("pull_request") == None && PULL.Get("pull_request").Some?;
    hide ISSUE, PULL;
    assert [ISSUE][1..] == [] && [PULL][1..] == [];
  }

  lemma PagesOfIssueThenPull(shape: Json -> Json)
    ensures ReadPage(GithubIssues, shape, IssueThenPull(None)) == Ok(Page([shape(ISSUE)], Some("p2")))
    ensures ReadPage(GithubIssues, shape, IssueThenPull(Some("p2"))) == Ok(Page([], None))
  {
    hide LinkHeader.NextOf, NEXT_LINK, ISSUE, PULL, Normalize;
    NextLinkReads();
    PullRequestDropped(shape);
  }

  lemma ShownLink(link: LinkHeader.LinkValue)
    requires link == LinkHeader.LinkValue("p2", "next", true, [])
    ensures link.Show() == NEXT_LINK
  {
    var target, rel := "<p2>", " rel=\"next\"";
    assert "<" + link.url + ">" == target && " " + link.Rel() == rel;
    var parts := link.Parts();
    assert parts == [target, rel] && parts[1..] == [rel];
    assert NEXT_LINK == target + ";" + rel;
  }

  // ---- Number of requests ----

  /** The page size each adapter asks for. */
  function PageSize(e: Endpoint, limit: nat): nat {
    match e
    case GithubIssues => Min(4 * limit, 100)
    case GithubPulls => limit
    case GithubReleases => limit
    case NotionDataSource => 100
    case NotionPage => 100
    case NotionSearch => Min(limit, 100)
    case SlackChannels => Min(limit, 999)
    case SlackHistory => Min(limit, 999)
    case TodoistTasks => Min(limit, 200)
    case TodoistProjects => Min(limit, 200)
  }

  function Min(a: nat, b: nat): nat {
    if a <= b then a else b
  }

  function Max(a: nat, b: nat): nat {
    if a >= b then a else b
  }

  /** The most a service grants per page. */
  function MaxPage(e: Endpoint): nat {
    match e
    case SlackChannels => 999
    case SlackHistory => 999
    case TodoistTasks => 200
    case TodoistProjects => 200
    case _ => 100
  }

  /** An adapter asks for what the service grants of its limit, never for more than that but for GitHub's pulls and
      releases, and over-fetches issues fourfold to make up for the pull requests among them. */
  lemma PageSizeBounds(e: Endpoint, limit: nat)
    ensures PageSize(e, limit) >= Min(limit, MaxPage(e))
    ensures e !in {GithubPulls, GithubReleases} ==> PageSize(e, limit) <= MaxPage(e)
    ensures e == GithubIssues && 4 * limit <= MaxPage(e) ==> PageSize(e, limit) == 4 * limit
  {}

  function CeilDiv(a: nat, b: nat): nat
    requires b >= 1
  {
    (a + b - 1) / b
  }

  lemma CeilDivStep(a: nat, b: nat)
    requires b >= 1 && a > b
    ensures CeilDiv(a, b) == 1 + CeilDiv(a - b, b)
  {
    var x := a - 1;
    var q, r := x / b, x % b;
    assert x == q * b + r;
    assert x + b == (q + 1) * b + r;
    DivUnique(x + b, b, q + 1, r);
  }

  lemma {:induction false} MultipleApart(p: nat, q: nat, b: nat)
    requires p < q
    ensures q * b >= p * b + b
  {
    if p + 1 < q {
      MultipleApart(p, q - 1, b);
      assert q * b == (q - 1) * b + b;
    }
  }

  lemma DivUnique(x: nat, b: nat, q: nat, r: nat)
    requires b >= 1 && x == q * b + r && r < b
    ensures x / b == q
  {
    var p := x / b;
    assert p * b <= x < p * b + b by {
      assert x == b * p + x % b;
    }
    if p < q {
      MultipleApart(p, q, b);
    } else if q < p {
      MultipleApart(q, p, b);
    }
  }

  /** Every page but the last holds `size` items, and the last at most that many, and some unless it is alone. */
  ghost predicate FullPages(pages: seq<Page>, size: nat) {
    && pages != []
    && (forall i :: 0 <= i < |pages| - 1 ==> |pages[i].items| == size)
    && |pages[|pages| - 1].items| <= size
    && (|pages| > 1 ==> pages[|pages| - 1].items != [])
  }

  /** One request per started page of the items needed, and at least one. */
  function RequestsNeeded(total: nat, size: nat, limit: nat): nat
    requires size >= 1
  {
    Max(1, CeilDiv(Min(limit, total), size))
  }

  lemma CeilDivSmall(a: nat, b: nat)
    requires 1 <= a <= b
    ensures CeilDiv(a, b) == 1
  {
    DivUnique(a + b - 1, b, 1, a - 1);
  }

  lemma {:induction false} FullPagesRead(pages: seq<Page>, size: nat, limit: nat)
    requires size >= 1 && limit >= 1 && FullPages(pages, size)
    ensures PagesRead(pages, limit) == RequestsNeeded(|Flat(pages)|, size, limit)
  {
    var first, rest, total := pages[0].items, pages[1..], |Flat(pages)|;
    assert total == |first| + |Flat(rest)|;
    var m := Min(limit, total);
    if rest == [] {
      if m >= 1 {
        CeilDivSmall(m, size);
      } else {
        DivUnique(size - 1, size, 0, size - 1);
      }
    } else {
      assert FullPages(rest, size) by {
        assert forall i :: 0 <= i < |rest| ==> rest[i] == pages[i + 1];
      }
      assert |Flat(rest)| >= 1 by {
        FlatLast(rest);
      }
      if limit <= size {
        CeilDivSmall(m, size);
      } else {
        FullPagesRead(rest, size, limit - size);
        CeilDivStep(m, size);
        if m - size <= size {
          CeilDivSmall(m - size, size);
        }
      }
    }
  }

  /** Against an upstream that fills its pages, a fetch makes one request per started page of the items it
      needs, and at least one. */
  lemma RequestCount(feed: Feed, size: nat, limit: nat)
    requires feed.end == Exhausted && size >= 1 && limit >= 1 && FullPages(feed.pages, size)
    ensures Requests(feed, limit) == RequestsNeeded(|Flat(feed.pages)|, size, limit)
  {
    FullPagesRead(feed.pages, size, limit);
  }

  /** A limit the service grants in one page costs one request. */
  lemma OneRequest(e: Endpoint, feed: Feed, limit: nat)
    requires 1 <= limit <= MaxPage(e)
    requires feed.end == Exhausted && FullPages(feed.pages, Min(PageSize(e, limit), MaxPage(e)))
    ensures Requests(feed, limit) == 1
  {
    var size := Min(PageSize(e, limit), MaxPage(e));
    RequestCount(feed, size, limit);
    var m := Min(limit, |Flat(feed.pages)|);
    if m >= 1 {
      CeilDivSmall(m, size);
    } else {
      DivUnique(size - 1, size, 0, size - 1);
    }
  }

  // ---- What a fetch promises ----

  /** The answer is true to the feed, and when pages are filled no request is made in vain. */
  ghost predicate Promised(feed: Feed, limit: nat, r: Result<Fetched, FetchError>, requests: int) {
    && TrueToFeed(feed, limit, r)
    && forall size: nat :: size >= 1 && feed.end == Exhausted && FullPages(feed.pages, size) ==>
                             requests == RequestsNeeded(|Flat(feed.pages)|, size, limit)
  }

  lemma AnswerKeepsPromises(feed: Feed, limit: nat)
    requires Suffices(feed, limit) && limit >= 1
    ensures Promised(feed, limit, Answer(feed, limit), Requests(feed, limit))
  {
    hide TrueToFeed, FullPages, RequestsNeeded, Requests, Answer;
    AnswerMeans(feed, limit);
    forall size: nat | size >= 1 && feed.end == Exhausted && FullPages(feed.pages, size)
      ensures Requests(feed, limit) == RequestsNeeded(|Flat(feed.pages)|, size, limit)
    {
      RequestCount(feed, size, limit);
    }
  }
}
