/** The fetch loop of the paginated adapters. */
module PaginationLoop {
  import opened Wrappers
  import opened Json
  import opened Pagination
  import opened PaginationTheorems

  class HttpClient {
    const up: Upstream
    var requests: nat

    constructor (up: Upstream)
      ensures this.up == up && requests == 0
    {
      this.up := up;
      requests := 0;
    }

    method Get(cursor: Option<string>) returns (r: Result<Response, FetchError>)
      modifies this
      ensures r == up(cursor) && requests == old(requests) + 1
    {
      requests := requests + 1;
      r := up(cursor);
    }
  }

  /** A fetch that has read the pages `read`, with the feed `left` ahead of it. */
  ghost predicate Reading(feed: Feed, limit: nat, read: seq<Page>, items: seq<Json>, left: Feed) {
    && feed == Feed(read + left.pages, left.end)
    && items == Flat(read) && |items| < limit
    && Flat(feed.pages) == items + Flat(left.pages)
    && PagesRead(feed.pages, limit) == |read| + PagesRead(left.pages, limit - |items|)
  }

  lemma ReadOn(feed: Feed, limit: nat, read: seq<Page>, items: seq<Json>, left: Feed)
    requires Reading(feed, limit, read, items, left) && left.pages != []
    ensures var page, rest := left.pages[0], Feed(left.pages[1..], left.end);
            var more := items + page.items;
            && Flat(feed.pages) == more + Flat(rest.pages)
            && (|more| < limit ==> Reading(feed, limit, read + [page], more, rest))
            && (|more| >= limit ==> PagesRead(feed.pages, limit) == |read| + 1)
  {
    var page, rest := left.pages[0], left.pages[1..];
    assert read + left.pages == read + [page] + rest;
    FlatAppend(read, [page]);
    FlatAppend([page], []);
    assert Flat([page]) == page.items by {
      assert [page][1..] == [];
    }
    assert items + (page.items + Flat(rest)) == items + page.items + Flat(rest);
  }

  /** Accumulate pages until `limit` items are there or the upstream ends, then truncate. Specified against the
      whole feed: the items are the first `limit` of all there are, nothing is dropped unless the fetch says so,
      and the number of requests is what full pages make necessary. */
  method Fetch(client: HttpClient, e: Endpoint, shape: Json -> Json, limit: nat, ghost feed: Feed)
    returns (r: Result<Fetched, FetchError>)
    requires limit >= 1
    requires Serves(client.up, e, shape, None, feed) && Suffices(feed, limit)
    modifies client
    ensures r == Answer(feed, limit)
    ensures client.requests == old(client.requests) + Requests(feed, limit)
    ensures Promised(feed, limit, r, client.requests - old(client.requests))
  {
    hide Flat, PagesRead, ReadPage, Promised;
    AnswerKeepsPromises(feed, limit);
    var items: seq<Json> := [];
    var cursor: Option<string> := None;
    ghost var left, read := feed, [];
    FlatStart(feed);
    while true
      invariant Serves(client.up, e, shape, cursor, left)
      invariant Reading(feed, limit, read, items, left) && Suffices(feed, limit)
      invariant client.requests == old(client.requests) + |read|
      decreases |left.pages|
    {
      var reply := client.Get(cursor);
      var r := ReadPage(e, shape, reply);
      if r.Err? {
        FlatStart(left);
        return Err(r.error);
      }
      var page := r.value;
      ReadOn(feed, limit, read, items, left);
      assert left.pages == [page] + left.pages[1..];
      items := items + page.items;
      if |items| >= limit {
        assert Flat(feed.pages)[..limit] == items[..limit];
        FlatStart(Feed(left.pages[1..], left.end));
        return Ok(Fetched(items[..limit], |items| > limit || page.next.Some?));
      }
      if page.next == None {
        FlatStart(Feed([], Exhausted));
        return Ok(Fetched(items, false));
      }
      cursor := page.next;
      read := read + [page];
      left := Feed(left.pages[1..], left.end);
      FlatStart(left);
    }
  }

  lemma FlatStart(feed: Feed)
    ensures Flat([]) == [] && PagesRead([], 0) == 0
    ensures forall limit :: PagesRead([], limit) == 0
    ensures forall limit :: limit >= 1 ==> Reading(feed, limit, [], [], feed)
  {
    assert [] + feed.pages == feed.pages && [] + Flat(feed.pages) == Flat(feed.pages);
  }
}
