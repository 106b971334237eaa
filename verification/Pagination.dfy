/** What the paginated adapters read: GitHub, Notion, Slack and Todoist.
 *
 * Their six fetch loops share one shape and differ in where a response keeps its items and its cursor.
 * An upstream is any function from cursors to replies; field renaming is any function on items.
 */
module Pagination {
  import opened Wrappers
  import opened Json
  import LinkHeader

  datatype Endpoint =
    | GithubIssues | GithubPulls | GithubReleases
    | NotionDataSource | NotionSearch | NotionPage
    | SlackChannels | SlackHistory
    | TodoistTasks | TodoistProjects

  datatype FetchError = Http | UnexpectedShape | ApiError(code: string)

  /** A reply: its JSON body, and the value of its `Link` header if it has one. */
  datatype Response = Response(body: Json, link: Option<string>)

  /** What an upstream answers to the first request, and to a request with a cursor. */
  type Upstream = Option<string> -> Result<Response, FetchError>

  datatype Page = Page(items: seq<Json>, next: Option<string>)

  datatype Fetched = Fetched(items: seq<Json>, hasMore: bool)

  // ---- Reading one response ----

  /** `response_array`, `extract_results`, `check_ok` and the channel and message arrays. */
  function RawItems(e: Endpoint, r: Response): Result<seq<Json>, FetchError> {
    match e
    case GithubIssues => if r.body.JArray? then Ok(r.body.items) else Err(UnexpectedShape)
    case GithubPulls => if r.body.JArray? then Ok(r.body.items) else Err(UnexpectedShape)
    case GithubReleases => if r.body.JArray? then Ok(r.body.items) else Err(UnexpectedShape)
    case SlackChannels => SlackItems(r.body, "channels")
    case SlackHistory => SlackItems(r.body, "messages")
    case _ => FieldItems(r.body, "results")
  }

  function FieldItems(body: Json, field: string): Result<seq<Json>, FetchError> {
    match body.GetArray(field)
    case Some(items) => Ok(items)
    case None => Err(UnexpectedShape)
  }

  function SlackItems(body: Json, field: string): Result<seq<Json>, FetchError> {
    if body.GetBool("ok") != Some(true) then
      Err(ApiError(match body.GetString("error") case Some(code) => code case None => "unknown_error"))
    else FieldItems(body, field)
  }

  /** The next request's cursor, if the response promises one. */
  function NextCursor(e: Endpoint, r: Response): Option<string> {
    match e
    case GithubIssues => GithubNext(r)
    case GithubPulls => GithubNext(r)
    case GithubReleases => GithubNext(r)
    case SlackChannels => SlackNext(r.body)
    case SlackHistory => SlackNext(r.body)
    case TodoistTasks => r.body.GetString("next_cursor")
    case TodoistProjects => r.body.GetString("next_cursor")
    case _ => if r.body.GetBool("has_more") == Some(true) then r.body.GetString("next_cursor") else None
  }

  function GithubNext(r: Response): Option<string> {
    match r.link
    case Some(header) => LinkHeader.NextOf(header)
    case None => None
  }

  /** Slack sends an empty cursor on its last page. */
  function SlackNext(body: Json): Option<string> {
    match body.Get("response_metadata")
    case Some(meta) => if meta.GetString("next_cursor") == Some("") then None else meta.GetString("next_cursor")
    case None => None
  }

  /** GitHub's issue list mixes in pull requests, which are dropped before shaping. */
  function Normalize(e: Endpoint, shape: Json -> Json, items: seq<Json>): seq<Json> {
    if items == [] then []
    else
      (if e == GithubIssues && items[0].Get("pull_request").Some? then [] else [shape(items[0])])
      + Normalize(e, shape, items[1..])
  }

  function ReadPage(e: Endpoint, shape: Json -> Json, reply: Result<Response, FetchError>): Result<Page, FetchError> {
    match reply
    case Err(x) => Err(x)
    case Ok(r) =>
      match RawItems(e, r)
      case Err(x) => Err(x)
      case Ok(items) => Ok(Page(Normalize(e, shape, items), NextCursor(e, r)))
  }

  // ---- Feeds: the pages an upstream serves in a row ----

  /** How a feed ends: with a page that has no successor, with a failure, or not looked at further. */
  datatype End = Exhausted | Broken(error: FetchError) | Unread

  datatype Feed = Feed(pages: seq<Page>, end: End)

  /** Starting from a cursor, the upstream serves exactly this feed. */
  ghost predicate Serves(up: Upstream, e: Endpoint, shape: Json -> Json, cursor: Option<string>, feed: Feed)
    decreases |feed.pages|
  {
    match ReadPage(e, shape, up(cursor))
    case Err(x) => feed == Feed([], Broken(x))
    case Ok(page) =>
      && feed.pages != [] && feed.pages[0] == page
      && match page.next
         case None => feed == Feed([page], Exhausted)
         case Some(_) => feed == Feed([page], Unread) || Serves(up, e, shape, page.next, Feed(feed.pages[1..], feed.end))
  }

  /** All items of a row of pages. */
  function Flat(pages: seq<Page>): seq<Json> {
    if pages == [] then [] else pages[0].items + Flat(pages[1..])
  }

  /** A feed on which a fetch ends: it ends itself, or holds enough items. */
  ghost predicate Suffices(feed: Feed, limit: nat) {
    feed.end == Unread ==> |Flat(feed.pages)| >= limit
  }

  // ---- What a fetch answers ----

  /** How many pages a fetch reads: up to the first at which `limit` items are reached. */
  function PagesRead(pages: seq<Page>, limit: int): nat
    ensures PagesRead(pages, limit) <= |pages|
  {
    if pages == [] then 0
    else if |pages[0].items| >= limit then 1
    else 1 + PagesRead(pages[1..], limit - |pages[0].items|)
  }

  /** What a fetch answers, read off the whole feed: the first `limit` of all its items, and whether
      anything, be it only another page, lies beyond them; or the failure met before reaching them. */
  ghost function Answer(feed: Feed, limit: nat): Result<Fetched, FetchError> {
    var flat := Flat(feed.pages);
    if |flat| >= limit then
      Ok(Fetched(flat[..limit], |flat| > limit || PagesRead(feed.pages, limit) < |feed.pages| || feed.end != Exhausted))
    else
      match feed.end
      case Broken(x) => Err(x)
      case _ => Ok(Fetched(flat, false))
  }

  /** Pages read, and the request that failed if that is how it ended. */
  ghost function Requests(feed: Feed, limit: nat): nat {
    PagesRead(feed.pages, limit) + if feed.end.Broken? && |Flat(feed.pages)| < limit then 1 else 0
  }

  lemma {:induction false} FlatAppend(a: seq<Page>, b: seq<Page>)
    ensures Flat(a + b) == Flat(a) + Flat(b)
  {
    if a == [] {
      assert a + b == b;
    } else {
      FlatAppend(a[1..], b);
      assert (a + b)[1..] == a[1..] + b;
      assert a[0].items + (Flat(a[1..]) + Flat(b)) == a[0].items + Flat(a[1..]) + Flat(b);
    }
  }
}
