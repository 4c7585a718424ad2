/** Reading a paginated endpoint of an arbitrary server. */
module Pagination {
  import opened Wrappers

  const PER_PAGE := 50

  const PAGE_LIMIT := 100_000

  datatype ExportError = ExportError

  /** The `X-Total-Count` header of one reply. */
  datatype Header = NoHeader | NotANumber | Total(count: int)

  /** A page, a missing endpoint, or a failed or malformed reply. */
  datatype Reply<T> = Page(items: seq<T>, header: Header) | Unavailable | Failed

  /** The recorded evidence; no pages are read from an optional endpoint that is missing. */
  datatype Evidence = Evidence(pages: nat, items: nat, total: Option<int>)

  /** The items of the first `n` pages. */
  function Pages<T>(server: int -> Reply<T>, n: nat): seq<T> {
    if n == 0 then [] else Pages(server, n - 1) + if server(n).Page? then server(n).items else []
  }

  /** Every page of the first `n` was read, and every total announced is `total`. */
  ghost predicate Announces<T>(server: int -> Reply<T>, n: nat, total: Option<int>) {
    forall k | 1 <= k <= n ::
      server(k).Page? && (server(k).header == NoHeader || (total.Some? && server(k).header == Total(total.value)))
  }

  ghost predicate AllAnnounce<T>(server: int -> Reply<T>, n: nat) {
    forall k | 1 <= k <= n :: server(k).Page? && server(k).header.Total?
  }

  ghost predicate FullBefore<T>(server: int -> Reply<T>, n: nat) {
    forall k | 1 <= k < n :: server(k).Page? && |server(k).items| >= PER_PAGE
  }

  /** The server cuts one list into pages, and announces its length or never does. */
  ghost predicate Serves<T(!new)>(server: int -> Reply<T>, list: seq<T>, announced: bool) {
    forall k | 1 <= k :: server(k) == Page(Slice(list, k), if announced then Total(|list|) else NoHeader)
  }

  function Start(length: nat, page: int): (r: nat)
    requires page >= 1
    ensures r <= length
  {
    if PER_PAGE * (page - 1) <= length then PER_PAGE * (page - 1) else length
  }

  function Slice<T>(list: seq<T>, page: int): seq<T>
    requires page >= 1
  {
    list[Start(|list|, page)..Start(|list|, page + 1)]
  }

  lemma SliceJoins<T>(list: seq<T>, page: int)
    requires page >= 1
    ensures list[..Start(|list|, page)] + Slice(list, page) == list[..Start(|list|, page + 1)]
  {
  }

  /** What one reply does to the items read so far and the announced total. */
  datatype Step<T> = Reject | Missing | Stop(items: seq<T>, total: Option<int>) | More(items: seq<T>, total: Option<int>)

  function Judge<T(==)>(items: seq<T>, page: seq<T>, total: Option<int>): Step<T> {
    var all := items + page;
    if total.Some? then
      if |all| > total.value then Reject
      else if |all| == total.value then Stop(all, total)
      else if page == [] then Reject
      else More(all, total)
    else if |page| < PER_PAGE then Stop(all, total)
    else More(all, total)
  }

  function Take<T(==)>(reply: Reply<T>, page: int, items: seq<T>, total: Option<int>, requireTotal: bool, optional: bool): Step<T> {
    match reply
    case Failed => Reject
    case Unavailable => if optional && page == 1 then Missing else Reject
    case Page(more, NoHeader) => if requireTotal then Reject else Judge(items, more, total)
    case Page(more, NotANumber) => Reject
    case Page(more, Total(count)) =>
      if count < 0 || (total.Some? && count != total.value) then Reject else Judge(items, more, Some(count))
  }

  /** The page can be read: its header is no nonsense, and agrees with what was announced before. */
  ghost predicate Readable<T>(reply: Reply<T>, total: Option<int>, requireTotal: bool) {
    && reply.Page? && reply.header != NotANumber && (requireTotal ==> reply.header != NoHeader)
    && (reply.header.Total? ==> reply.header.count >= 0 && (total == None || total == Some(reply.header.count)))
  }

  /** What is announced once the page was read. */
  ghost predicate Announced<T>(reply: Reply<T>, total: Option<int>, seen: Option<int>)
    requires reply.Page?
  {
    if reply.header.Total? then seen == Some(reply.header.count) else seen == total
  }

  /** Each outcome of a page stands for exactly this: an optional endpoint is missing on its first page; the
      last page reaches the announced total, or is short when none is announced; a page before it leaves
      items to come, and has some; everything else is rejected. */
  lemma TakeTells<T>(reply: Reply<T>, page: int, items: seq<T>, total: Option<int>, requireTotal: bool, optional: bool)
    ensures var step := Take(reply, page, items, total, requireTotal, optional);
            && (step.Missing? <==> reply == Unavailable && optional && page == 1)
            && (step.Stop? ==> Readable(reply, total, requireTotal) && step.items == items + reply.items && Announced(reply, total, step.total))
            && (step.More? ==> Readable(reply, total, requireTotal) && step.items == items + reply.items && Announced(reply, total, step.total))
            && (step.Stop? <==> Readable(reply, total, requireTotal) && forall seen | Announced(reply, total, seen) ::
                  if seen.Some? then |items| + |reply.items| == seen.value else |reply.items| < 50)
            && (step.More? <==> Readable(reply, total, requireTotal) && forall seen | Announced(reply, total, seen) ::
                  if seen.Some? then |items| + |reply.items| < seen.value && reply.items != [] else |reply.items| >= 50)
  {
    if reply.Page? {
      var seen := if reply.header.Total? then Some(reply.header.count) else total;
      assert Announced(reply, total, seen);
    }
  }

  /** The reading from one page on. */
  function ReadFrom<T(==)>(server: int -> Reply<T>, page: int, items: seq<T>, total: Option<int>, requireTotal: bool,
                           optional: bool): Result<(seq<T>, Evidence), ExportError>
    requires 1 <= page <= PAGE_LIMIT
    decreases PAGE_LIMIT - page
  {
    match Take(server(page), page, items, total, requireTotal, optional)
    case Reject => Err(ExportError)
    case Missing => Ok(([], Evidence(0, 0, None)))
    case Stop(all, seen) => Ok((all, Evidence(page, |all|, seen)))
    case More(all, seen) =>
      if page == PAGE_LIMIT then Err(ExportError) else ReadFrom(server, page + 1, all, seen, requireTotal, optional)
  }

  /** `GiteaClient.paginate`. */
  method Paginate<T(==)>(server: int -> Reply<T>, requireTotal: bool, optional: bool)
    returns (r: Result<(seq<T>, Evidence), ExportError>)
    ensures r == ReadFrom(server, 1, [], None, requireTotal, optional)
  {
    var items: seq<T> := [];
    var expected: Option<int> := None;
    var page := 1;
    while true
      invariant 1 <= page <= PAGE_LIMIT
      invariant ReadFrom(server, 1, [], None, requireTotal, optional)
                == ReadFrom(server, page, items, expected, requireTotal, optional)
      decreases PAGE_LIMIT - page
    {
      var reply := server(page);
      if reply == Unavailable && optional && page == 1 {
        return Ok(([], Evidence(0, 0, None)));
      }
      if !reply.Page? || reply.header.NotANumber? {
        return Err(ExportError);
      }
      ghost var was := (items, expected);
      if reply.header.Total? {
        if reply.header.count < 0 || (expected.Some? && reply.header.count != expected.value) {
          return Err(ExportError);
        }
        expected := Some(reply.header.count);
      } else if requireTotal {
        return Err(ExportError);
      }
      items := items + reply.items;
      assert Take(reply, page, was.0, was.1, requireTotal, optional) == Judge(was.0, reply.items, expected);
      if expected.Some? {
        if |items| > expected.value {
          return Err(ExportError);
        }
        if |items| == expected.value {
          break;
        }
        if reply.items == [] {
          return Err(ExportError);
        }
      } else if |reply.items| < PER_PAGE {
        break;
      }
      if page == PAGE_LIMIT {
        return Err(ExportError);
      }
      page := page + 1;
    }
    return Ok((items, Evidence(page, |items|, expected)));
  }

  /** What a successful reading of `p` pages says about the server. */
  ghost predicate IsComplete<T>(server: int -> Reply<T>, items: seq<T>, e: Evidence, requireTotal: bool) {
    && items == Pages(server, e.pages) && e.items == |items|
    && Announces(server, e.pages, e.total)
    && (e.total.Some? ==> e.total.value == |items|)
    && (e.total == None ==> FullBefore(server, e.pages) && server(e.pages).Page? && |server(e.pages).items| < PER_PAGE)
    && (requireTotal ==> AllAnnounce(server, e.pages))
    && SomethingBefore(server, e.pages)
  }

  /** No page before the last one is empty. */
  ghost predicate SomethingBefore<T>(server: int -> Reply<T>, n: nat) {
    forall k | 1 <= k < n :: server(k).Page? && server(k).items != []
  }

  ghost predicate SoFar<T>(server: int -> Reply<T>, page: int, items: seq<T>, total: Option<int>, requireTotal: bool) {
    && page >= 1 && items == Pages(server, page - 1) && Announces(server, page - 1, total)
    && (total == None ==> FullBefore(server, page))
    && (requireTotal ==> AllAnnounce(server, page - 1))
    && SomethingBefore(server, page)
  }

  lemma OnePageOn<T>(server: int -> Reply<T>, page: int, items: seq<T>, total: Option<int>, requireTotal: bool, optional: bool)
    requires SoFar(server, page, items, total, requireTotal)
    ensures match Take(server(page), page, items, total, requireTotal, optional)
            case Stop(all, seen) => IsComplete(server, all, Evidence(page, |all|, seen), requireTotal)
            case More(all, seen) => SoFar(server, page + 1, all, seen, requireTotal)
            case Reject => true
            case Missing => optional && page == 1 && server(1) == Unavailable
  {
  }

  /** Whatever the server, what is returned is every page up to the last one, in order; no page
      contradicts the announced total, which is the number of items; without a total only the last
      page is short. */
  lemma {:induction false} ReadingIsComplete<T>(server: int -> Reply<T>, page: int, items: seq<T>, total: Option<int>,
                                                requireTotal: bool, optional: bool)
    requires 1 <= page <= PAGE_LIMIT && SoFar(server, page, items, total, requireTotal)
    ensures match ReadFrom(server, page, items, total, requireTotal, optional)
            case Err(_) => true
            case Ok((all, e)) =>
              if e.pages == 0 then all == [] && optional && server(1) == Unavailable
              else IsComplete(server, all, e, requireTotal)
    decreases PAGE_LIMIT - page
  {
    hide SoFar, IsComplete, Take;
    OnePageOn(server, page, items, total, requireTotal, optional);
    var step := Take(server(page), page, items, total, requireTotal, optional);
    if step.More? && page < PAGE_LIMIT {
      ReadingIsComplete(server, page + 1, step.items, step.total, requireTotal, optional);
    }
  }

  /** The list ends within the last page allowed; without an announced total that page must be short. */
  predicate FitsPages(length: nat, announced: bool) {
    length + (if announced then 0 else 1) <= 50 * 100_000
  }

  lemma StepThroughList<T(!new)>(server: int -> Reply<T>, list: seq<T>, announced: bool, requireTotal: bool, optional: bool,
                                 page: int, total: Option<int>)
    requires Serves(server, list, announced) && (requireTotal ==> announced)
    requires page >= 1 && (page > 1 ==> PER_PAGE * (page - 1) < |list| + if announced then 0 else 1)
    requires total == None || (announced && total == Some(|list|))
    ensures var read := list[..Start(|list|, page + 1)];
            var seen := if announced then Some(|list|) else None;
            Take(server(page), page, list[..Start(|list|, page)], total, requireTotal, optional)
            == if |list| + (if announced then 0 else 1) <= PER_PAGE * page then Stop(read, seen) else More(read, seen)
    ensures |list| <= PER_PAGE * page ==> list[..Start(|list|, page + 1)] == list
  {
    SliceJoins(list, page);
  }

  /** A server that cuts a list into pages is read back as that list exactly when the list fits into the
      pages allowed. */
  lemma {:induction false} ServedIsReadBack<T(!new)>(server: int -> Reply<T>, list: seq<T>, announced: bool, requireTotal: bool,
                                               optional: bool, page: int, total: Option<int>)
    requires Serves(server, list, announced) && (requireTotal ==> announced)
    requires 1 <= page <= PAGE_LIMIT && (page > 1 ==> PER_PAGE * (page - 1) < |list| + if announced then 0 else 1)
    requires total == None || (announced && total == Some(|list|))
    ensures var r := ReadFrom(server, page, list[..Start(|list|, page)], total, requireTotal, optional);
            (r.Ok? <==> FitsPages(|list|, announced)) && (r.Ok? ==> r.value.0 == list)
    decreases PAGE_LIMIT - page
  {
    hide Take, Start, Serves;
    StepThroughList(server, list, announced, requireTotal, optional, page, total);
    var step := Take(server(page), page, list[..Start(|list|, page)], total, requireTotal, optional);
    if step.More? && page < PAGE_LIMIT {
      ServedIsReadBack(server, list, announced, requireTotal, optional, page + 1, step.total);
    }
  }
}
