/** An upstream that serves any list in full pages, by offset, in the shape of each endpoint. */
module PaginationUpstream {
  import opened Wrappers
  import opened Json
  import opened Names
  import opened Pagination
  import opened PaginationTheorems

  // ---- Replies ----

  function CursorField(next: Option<string>): Json {
    match next
    case Some(c) => JString(c)
    case None => JNull
  }

  /** A reply of the endpoint's shape, holding these items and promising this cursor. */
  function Respond(e: Endpoint, items: seq<Json>, next: Option<string>): Response {
    match e
    case GithubIssues => GithubReply(items, next)
    case GithubPulls => GithubReply(items, next)
    case GithubReleases => GithubReply(items, next)
    case SlackChannels => SlackReply("channels", items, next)
    case SlackHistory => SlackReply("messages", items, next)
    case TodoistTasks => Response(JObject(map["results" := JArray(items), "next_cursor" := CursorField(next)]), None)
    case TodoistProjects => Response(JObject(map["results" := JArray(items), "next_cursor" := CursorField(next)]), None)
    case _ => NotionReply(items, next)
  }

  function GithubReply(items: seq<Json>, next: Option<string>): Response {
    Response(JArray(items), if next.Some? then Some(NextLink(next.value).Show()) else None)
  }

  function NextLink(url: string): LinkHeader.LinkValue {
    LinkHeader.LinkValue(url, "next", true, [])
  }

  function NotionReply(items: seq<Json>, next: Option<string>): Response {
    Response(JObject(map["results" := JArray(items), "has_more" := JBool(next.Some?), "next_cursor" := CursorField(next)]), None)
  }

  /** Slack's last page carries an empty cursor. */
  function SlackReply(field: string, items: seq<Json>, next: Option<string>): Response {
    var meta := JObject(map["next_cursor" := JString(if next.Some? then next.value else "")]);
    Response(JObject(map["ok" := JBool(true), field := JArray(items), "response_metadata" := meta]), None)
  }

  /** Cursors that survive any endpoint. */
  predicate GoodCursor(c: string) {
    c != "" && ',' !in c && ';' !in c
  }

  lemma GithubReads(items: seq<Json>, next: Option<string>)
    requires next.Some? ==> GoodCursor(next.value)
    ensures GithubNext(GithubReply(items, next)) == next
  {
    if next.Some? {
      LinkHeader.HeaderRoundTrip([NextLink(next.value)]);
      assert LinkHeader.ShowAll([NextLink(next.value)]) == NextLink(next.value).Show();
    }
  }

  lemma SlackReads(field: string, items: seq<Json>, next: Option<string>)
    requires field in {"channels", "messages"} && (next.Some? ==> GoodCursor(next.value))
    ensures SlackItems(SlackReply(field, items, next).body, field) == Ok(items)
    ensures SlackNext(SlackReply(field, items, next).body) == next
  {
    var body := SlackReply(field, items, next).body;
    var meta := JObject(map["next_cursor" := JString(if next.Some? then next.value else "")]);
    assert body.Get("response_metadata") == Some(meta) && body.Get(field) == Some(JArray(items));
    assert body.Get("ok") == Some(JBool(true));
  }

  /** Each endpoint's reader finds the items and the cursor in the reply. */
  lemma RespondReads(e: Endpoint, shape: Json -> Json, items: seq<Json>, next: Option<string>)
    requires next.Some? ==> GoodCursor(next.value)
    ensures ReadPage(e, shape, Ok(Respond(e, items, next))) == Ok(Page(Normalize(e, shape, items), next))
  {
    hide Normalize, GoodCursor, GithubNext, SlackNext, SlackItems;
    match e
    case SlackChannels => SlackReads("channels", items, next);
    case SlackHistory => SlackReads("messages", items, next);
    case GithubIssues => GithubReads(items, next);
    case GithubPulls => GithubReads(items, next);
    case GithubReleases => GithubReads(items, next);
    case _ =>
      var body := Respond(e, items, next).body;
      assert body.Get("results") == Some(JArray(items)) && body.Get("next_cursor") == Some(CursorField(next));
  }

  // ---- Offsets as cursors ----

  /** The offset a cursor stands for, among those up to `bound`. */
  function OffsetOf(cursor: string, bound: nat): Option<nat> {
    if Decimal(bound) == cursor then Some(bound)
    else if bound == 0 then None
    else OffsetOf(cursor, bound - 1)
  }

  lemma {:induction false} OffsetReads(n: nat, bound: nat)
    requires n <= bound
    ensures OffsetOf(Decimal(n), bound) == Some(n)
  {
    if Decimal(bound) == Decimal(n) {
      DecimalInjective(bound, n);
    } else {
      OffsetReads(n, bound - 1);
    }
  }

  lemma {:induction false} DecimalIsGood(n: nat)
    ensures GoodCursor(Decimal(n))
  {
    assert forall d: nat :: d < 10 ==> Digit(d) != ',' && Digit(d) != ';';
    if n >= 10 {
      DecimalIsGood(n / 10);
    }
  }

  function PageAt(e: Endpoint, all: seq<Json>, size: nat, n: nat): Response
    requires n <= |all|
  {
    if n + size < |all| then Respond(e, all[n..n + size], Some(Decimal(n + size))) else Respond(e, all[n..], None)
  }

  /** The upstream: pages of `size` items from an offset, as long as there are that many. */
  function Paged(e: Endpoint, all: seq<Json>, size: nat): Upstream {
    (cursor: Option<string>) =>
      match if cursor.Some? then OffsetOf(cursor.value, |all|) else Some(0)
      case Some(n) => if n <= |all| then Ok(PageAt(e, all, size, n)) else Err(Http)
      case None => Err(Http)
  }

  // ---- What it serves ----

  /** No item is dropped by the pull-request filter. */
  predicate NothingFiltered(e: Endpoint, all: seq<Json>) {
    e == GithubIssues ==> forall i :: 0 <= i < |all| ==> all[i].Get("pull_request") == None
  }

  function Shaped(shape: Json -> Json, all: seq<Json>): (r: seq<Json>)
    ensures |r| == |all|
  {
    seq(|all|, i requires 0 <= i < |all| => shape(all[i]))
  }

  lemma {:induction false} NormalizeShapes(e: Endpoint, shape: Json -> Json, all: seq<Json>)
    requires NothingFiltered(e, all)
    ensures Normalize(e, shape, all) == Shaped(shape, all)
  {
    if all != [] {
      NormalizeShapes(e, shape, all[1..]);
      assert Shaped(shape, all) == [shape(all[0])] + Shaped(shape, all[1..]);
    }
  }

  function PagesFrom(e: Endpoint, shape: Json -> Json, all: seq<Json>, size: nat, n: nat): (r: seq<Page>)
    requires size >= 1 && n <= |all|
    ensures r != []
    decreases |all| - n
  {
    if n + size < |all| then
      [Page(Normalize(e, shape, all[n..n + size]), Some(Decimal(n + size)))] + PagesFrom(e, shape, all, size, n + size)
    else [Page(Normalize(e, shape, all[n..]), None)]
  }

  lemma FullPagesCons(pages: seq<Page>, size: nat)
    requires pages != []
    ensures |pages| == 1 && |pages[0].items| <= size ==> FullPages(pages, size)
    ensures |pages| > 1 && |pages[0].items| == size && FullPages(pages[1..], size) && pages[|pages| - 1].items != [] ==> FullPages(pages, size)
  {
    assert forall i :: 1 <= i < |pages| ==> pages[i] == pages[1..][i - 1];
  }

  lemma {:induction false} PagesAreFull(e: Endpoint, shape: Json -> Json, all: seq<Json>, size: nat, n: nat)
    requires size >= 1 && n <= |all| && NothingFiltered(e, all)
    ensures var pages := PagesFrom(e, shape, all, size, n);
            FullPages(pages, size) && (n < |all| ==> pages[|pages| - 1].items != [])
    decreases |all| - n
  {
    var pages := PagesFrom(e, shape, all, size, n);
    hide Decimal, FullPages, Shaped, Normalize, PagesFrom;
    FullPagesCons(pages, size);
    PagesUnfold(e, shape, all, size, n);
    if n + size < |all| {
      NormalizeShapes(e, shape, all[n..n + size]);
      PagesAreFull(e, shape, all, size, n + size);
    } else {
      NormalizeShapes(e, shape, all[n..]);
    }
  }

  /** The pages hold the list, filtered and shaped, whatever is on it. */
  lemma {:induction false} PagesFlat(e: Endpoint, shape: Json -> Json, all: seq<Json>, size: nat, n: nat)
    requires size >= 1 && n <= |all|
    ensures Flat(PagesFrom(e, shape, all, size, n)) == Normalize(e, shape, all[n..])
    decreases |all| - n
  {
    var pages := PagesFrom(e, shape, all, size, n);
    hide Decimal, Normalize;
    if n + size < |all| {
      PagesFlat(e, shape, all, size, n + size);
      assert pages[1..] == PagesFrom(e, shape, all, size, n + size);
      NormalizeAppend(e, shape, all[n..n + size], all[n + size..]);
      assert all[n..] == all[n..n + size] + all[n + size..];
    } else {
      assert pages[1..] == [];
    }
  }

  lemma PageReads(e: Endpoint, shape: Json -> Json, all: seq<Json>, size: nat, n: nat)
    requires size >= 1 && n <= |all|
    ensures ReadPage(e, shape, Ok(PageAt(e, all, size, n))) == Ok(PagesFrom(e, shape, all, size, n)[0])
  {
    DecimalIsGood(n + size);
    hide Respond, GoodCursor, Decimal, ReadPage, Normalize;
    if n + size < |all| {
      RespondReads(e, shape, all[n..n + size], Some(Decimal(n + size)));
    } else {
      RespondReads(e, shape, all[n..], None);
    }
  }

  lemma {:induction false} PagedServes(e: Endpoint, shape: Json -> Json, all: seq<Json>, size: nat, cursor: Option<string>, n: nat)
    requires size >= 1 && n <= |all|
    requires cursor == (if n == 0 then None else Some(Decimal(n))) || cursor == Some(Decimal(n))
    ensures Serves(Paged(e, all, size), e, shape, cursor, Feed(PagesFrom(e, shape, all, size, n), Exhausted))
    decreases |all| - n
  {
    hide PageAt, ReadPage, OffsetOf, Decimal, Paged, Normalize, PagesFrom;
    PageReads(e, shape, all, size, n);
    PagedAnswers(e, all, size, cursor, n);
    PagesUnfold(e, shape, all, size, n);
    if n + size < |all| {
      PagedServes(e, shape, all, size, Some(Decimal(n + size)), n + size);
    }
  }

  lemma PagedAnswers(e: Endpoint, all: seq<Json>, size: nat, cursor: Option<string>, n: nat)
    requires n <= |all| && (cursor == (if n == 0 then None else Some(Decimal(n))) || cursor == Some(Decimal(n)))
    ensures Paged(e, all, size)(cursor) == Ok(PageAt(e, all, size, n))
  {
    hide PageAt, OffsetOf, Decimal;
    OffsetReads(n, |all|);
  }

  lemma PagesUnfold(e: Endpoint, shape: Json -> Json, all: seq<Json>, size: nat, n: nat)
    requires size >= 1 && n <= |all|
    ensures var pages := PagesFrom(e, shape, all, size, n);
            if n + size < |all| then
              && pages[0].items == Normalize(e, shape, all[n..n + size]) && pages[0].next == Some(Decimal(n + size))
              && pages[1..] == PagesFrom(e, shape, all, size, n + size)
            else pages[0].next == None && pages == [pages[0]] && pages[0].items == Normalize(e, shape, all[n..])
  {
    hide Normalize, Decimal;
  }

  /** For every list, page size and limit there is an upstream that serves the list in pages of that size, and a
      fetch on it returns the first `limit` items of what the pull-request filter leaves of the list. */
  lemma MixedFetch(e: Endpoint, shape: Json -> Json, all: seq<Json>, size: nat, limit: nat) returns (feed: Feed)
    requires size >= 1 && limit >= 1
    ensures Serves(Paged(e, all, size), e, shape, None, feed) && feed.end == Exhausted
    ensures feed.pages == PagesFrom(e, shape, all, size, 0) && Flat(feed.pages) == Normalize(e, shape, all)
    ensures Answer(feed, limit).Ok? && Answer(feed, limit).value.items == First(limit, Normalize(e, shape, all))
  {
    feed := Feed(PagesFrom(e, shape, all, size, 0), Exhausted);
    PagedServes(e, shape, all, size, None, 0);
    PagesFlat(e, shape, all, size, 0);
    assert all[0..] == all;
    AnswerMeans(feed, limit);
  }

  /** When nothing is filtered those pages are full: a fetch makes `max(1, ceil(min(limit, T) / size))` requests,
      and its `has_more` is true to the list. */
  lemma PagedFetch(e: Endpoint, shape: Json -> Json, all: seq<Json>, size: nat, limit: nat) returns (feed: Feed)
    requires size >= 1 && limit >= 1 && NothingFiltered(e, all)
    ensures Serves(Paged(e, all, size), e, shape, None, feed)
    ensures feed.end == Exhausted && FullPages(feed.pages, size) && Flat(feed.pages) == Shaped(shape, all)
    ensures Requests(feed, limit) == RequestsNeeded(|all|, size, limit)
    ensures Answer(feed, limit) == Ok(Fetched(First(limit, Shaped(shape, all)), |all| > limit))
  {
    hide Serves, FullPages, Flat, RequestsNeeded, PagesFrom, Paged, NothingFiltered, Normalize, Shaped;
    feed := MixedFetch(e, shape, all, size, limit);
    NormalizeShapes(e, shape, all);
    PagesAreFull(e, shape, all, size, 0);
    RequestCount(feed, size, limit);
    LastPageTellsTrue(feed, limit, size, |all|);
  }

  lemma LastPageTellsTrue(feed: Feed, limit: nat, size: nat, total: nat)
    requires limit >= 1 && feed.end == Exhausted && feed.pages != [] && |Flat(feed.pages)| == total
    requires total > 0 ==> feed.pages[|feed.pages| - 1].items != []
    ensures Answer(feed, limit).Ok? && (Answer(feed, limit).value.hasMore <==> total > limit)
  {
    hide Flat;
    HasMoreTruthfulIff(feed, limit);
  }
}
