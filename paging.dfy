/** `_IFBaseAPI._get_paging_items`: collecting the items of a cursor-paged endpoint.

    The server is an oracle: `server(k)` is the reply to the k-th request of the run (k from 0).
    A run's requests are determined by the earlier replies, so quantifying over every such
    function covers every server, including ones whose replies depend on the requests. */
module Paging {

  import opened Wrappers
  import opened Exceptions

  /** The largest page the server hands out. */
  const MaxPageSize := 100

  /** The query of one page request: `{"limit": size}` plus `"next": cursor` when there is one. */
  datatype Request<C> = Request(size: int, cursor: Option<C>)

  /** One page as the accessors read it: `items`, `paging.hasNext`, and `paging.cursors.next`,
      which may be absent. */
  datatype Page<T, C> = Page(items: seq<T>, hasNext: bool, next: Option<C>)

  /** What one request yields: a page, or the error the request or its response check raised. */
  datatype Reply<T, C> = Fetched(page: Page<T, C>) | Failed(error: Error)

  type Server<T, C> = nat -> Reply<T, C>

  /** A reply after which an unbounded run stops looping. */
  predicate Stops<T, C>(r: Reply<T, C>) {
    r.Failed? || !r.page.hasNext
  }

  /** The server eventually sends a reply that ends the unbounded loop. */
  ghost predicate Terminates<T, C>(server: Server<T, C>) {
    exists m: nat :: Stops(server(m))
  }

  function ItemsOf<T, C>(r: Reply<T, C>): seq<T> {
    if r.Fetched? then r.page.items else []
  }

  /** The items of the replies to requests 0 .. n-1, in that order. */
  function Flatten<T, C>(server: Server<T, C>, n: nat): seq<T> {
    if n == 0 then [] else Flatten(server, n - 1) + ItemsOf(server(n - 1))
  }

  lemma {:induction false} LeastStop<T, C>(server: Server<T, C>, m: nat)
    requires Stops(server(m))
    ensures exists k: nat :: k <= m && Stops(server(k)) && forall j :: 0 <= j < k ==> !Stops(server(j))
    decreases m
  {
    if j :| 0 <= j < m && Stops(server(j)) {
      LeastStop(server, j);
    } else {
      assert forall j :: 0 <= j < m ==> !Stops(server(j));
    }
  }

  /** The index of the first reply that ends the unbounded loop. */
  ghost function FirstStop<T, C>(server: Server<T, C>): (m: nat)
    requires Terminates(server)
    ensures Stops(server(m))
  {
    var m0: nat :| Stops(server(m0));
    LeastStop(server, m0);
    var k: nat :| Stops(server(k)) && forall j :: 0 <= j < k ==> !Stops(server(j));
    k
  }

  /** No reply before `FirstStop` ends the loop. */
  lemma FirstStopLeast<T, C>(server: Server<T, C>, j: nat)
    requires Terminates(server) && j < FirstStop(server)
    ensures !Stops(server(j))
  {
  }

  /** A limit the first request already covers (also zero and negative limits). */
  predicate SinglePage(limit: Option<int>) {
    limit.Some? && limit.value <= MaxPageSize
  }

  /** `divmod(limit - 100, 100)` for a limit above 100; the operand is positive, so floor and
      Euclidean division agree. */
  function FullBatches(n: int): nat
    requires n > MaxPageSize
  {
    (n - MaxPageSize) / MaxPageSize
  }

  function Remainder(n: int): nat
    requires n > MaxPageSize
  {
    (n - MaxPageSize) % MaxPageSize
  }

  /** The page size of request k: 100 throughout an unbounded run; the limit itself for a single
      page; otherwise 100 for the first request and the full batches, then the remainder. */
  function SizeAt(limit: Option<int>, k: nat): int {
    if limit.None? then MaxPageSize
    else if limit.value <= MaxPageSize then limit.value
    else if k <= FullBatches(limit.value) then MaxPageSize
    else Remainder(limit.value)
  }

  /** Whether request k carries the previous page's cursor: every request after the first in an
      unbounded run; only the full batches in a bounded one (the remainder request has none). */
  predicate CursoredAt(limit: Option<int>, k: nat) {
    0 < k && (limit.None? || (limit.value > MaxPageSize && k <= FullBatches(limit.value)))
  }

  /** Request k of a run against `server`. */
  function RequestAt<T, C>(limit: Option<int>, server: Server<T, C>, k: nat): Request<C> {
    Request(SizeAt(limit, k),
            if CursoredAt(limit, k) && server(k - 1).Fetched? then server(k - 1).page.next else None)
  }

  /** The number of requests of a run that nothing interrupts. Unbounded: up to and including the
      first page without a next page, plus one trailing request. */
  ghost function FetchCount<T, C>(limit: Option<int>, server: Server<T, C>): nat
    requires limit.None? ==> Terminates(server)
  {
    if limit.None? then FirstStop(server) + 2
    else if limit.value <= MaxPageSize then 1
    else FullBatches(limit.value) + 2
  }

  /** The error raised after request k: the request failed, or a further request needs the
      cursor of its reply and the reply has none. */
  ghost function Fault<T, C>(limit: Option<int>, server: Server<T, C>, k: nat): Option<Error>
    requires limit.None? ==> Terminates(server)
  {
    if server(k).Failed? then Some(server(k).error)
    else if k + 1 < FetchCount(limit, server) && CursoredAt(limit, k + 1) && server(k).page.next.None?
    then Some(KeyError("next"))
    else None
  }

  /** Requests 0 .. n-1 of a run against `server`. */
  function Requests<T, C>(limit: Option<int>, server: Server<T, C>, n: nat): (rs: seq<Request<C>>)
    ensures |rs| == n
  {
    if n == 0 then [] else Requests(limit, server, n - 1) + [RequestAt(limit, server, n - 1)]
  }

  /** None of replies 0 .. n-1 raised anything. */
  ghost predicate Clean<T, C>(limit: Option<int>, server: Server<T, C>, n: nat)
    requires limit.None? ==> Terminates(server)
  {
    n == 0 || (Clean(limit, server, n - 1) && Fault(limit, server, n - 1).None?)
  }

  /** One turn of the loop: request k + 1 is a full page after the cursor of reply k, and reply k
      faults exactly when it has no cursor. */
  lemma LoopStep<T, C>(limit: Option<int>, server: Server<T, C>, k: nat)
    requires limit.None? ==> Terminates(server)
    requires !SinglePage(limit) && server(k).Fetched? && k + 2 < FetchCount(limit, server)
    ensures RequestAt(limit, server, k + 1) == Request(MaxPageSize, server(k).page.next)
    ensures Fault(limit, server, k) == if server(k).page.next.None? then Some(KeyError("next")) else None
  {
  }

  /** After the loop, with k the index of its last reply: the request that follows is the last one. */
  lemma FinalStep<T, C>(limit: Option<int>, server: Server<T, C>, k: nat)
    requires limit.None? ==> Terminates(server)
    requires !SinglePage(limit) && server(k).Fetched? && k + 2 == FetchCount(limit, server)
    ensures RequestAt(limit, server, k + 1) ==
              if limit.None? then Request(MaxPageSize, server(k).page.next)
              else Request(Remainder(limit.value), None)
    ensures Fault(limit, server, k) ==
              if limit.None? && server(k).page.next.None? then Some(KeyError("next")) else None
    ensures Fault(limit, server, k + 1) ==
              if server(k + 1).Failed? then Some(server(k + 1).error) else None
  {
  }

  /** The `while` loop of `_get_paging_items`: starting from the first page, it follows cursors
      with pages of 100 while the last page says there is more (no limit) or for the `val` full
      batches (a limit above 100). Either it stops at a fault, or it ends at the page that the
      final request follows. */
  method FollowCursors<T, C>(server: Server<T, C>, limit: Option<int>, val: int, first: Page<T, C>)
    returns (failure: Option<Error>, lbuffer: nat, batch: Page<T, C>, items: seq<T>, trace: seq<Request<C>>)
    requires limit.None? ==> Terminates(server)
    requires !SinglePage(limit) && server(0) == Fetched(first)
    requires limit.Some? ==> val == FullBatches(limit.value)
    ensures 1 <= |trace| <= FetchCount(limit, server)
    ensures trace == Requests(limit, server, |trace|)
    ensures Clean(limit, server, |trace| - 1)
    ensures failure.Some? ==> Fault(limit, server, |trace| - 1) == failure
    ensures failure.None? ==> |trace| == lbuffer + 1 && server(lbuffer) == Fetched(batch)
    ensures failure.None? ==> lbuffer + 2 == FetchCount(limit, server) && items == Flatten(server, |trace|)
  {
    var lnone := limit.None?;
    trace := [Request(MaxPageSize, None)];
    batch := first;
    items := first.items;
    assert items == Flatten(server, 1);
    ghost var last := FetchCount(limit, server) - 2;
    lbuffer := 0;
    while if lnone then batch.hasNext else 0 <= lbuffer < val
      invariant |trace| == lbuffer + 1 && lbuffer <= last
      invariant server(lbuffer) == Fetched(batch)
      invariant trace == Requests(limit, server, |trace|)
      invariant Clean(limit, server, lbuffer)
      invariant items == Flatten(server, |trace|)
      decreases last - lbuffer
    {
      LoopStep(limit, server, lbuffer);
      if batch.next.None? {
        return Some(KeyError("next")), lbuffer, batch, items, trace;
      }
      lbuffer := lbuffer + 1;
      trace := trace + [Request(MaxPageSize, batch.next)];
      var reply := server(lbuffer);
      if reply.Failed? {
        return Some(reply.error), lbuffer, batch, items, trace;
      }
      batch := reply.page;
      items := items + batch.items;
    }
    if lnone && lbuffer < FirstStop(server) {
      FirstStopLeast(server, lbuffer);
    }
    FinalStep(limit, server, lbuffer);
    failure := None;
  }

  /** `_get_paging_items(path, key, limit)`. Returns what the call returns or raises, and the
      requests it sent. The run stops at the first fault; without one it makes `FetchCount`
      requests and returns all their items in order. */
  method GetPagingItems<T, C>(server: Server<T, C>, limit: Option<int>)
    returns (result: Result<seq<T>>, trace: seq<Request<C>>)
    requires limit.None? ==> Terminates(server)
    ensures 1 <= |trace| <= FetchCount(limit, server)
    ensures trace == Requests(limit, server, |trace|)
    ensures Clean(limit, server, |trace| - 1)
    ensures result.Err? ==> Fault(limit, server, |trace| - 1) == Some(result.error)
    ensures result.Ok? ==> |trace| == FetchCount(limit, server) && Fault(limit, server, |trace| - 1).None?
    ensures result.Ok? ==> result.value == Flatten(server, |trace|)
  {
    var lnone := limit.None?;
    var ilim := if lnone || limit.value > MaxPageSize then MaxPageSize else limit.value;
    var val, rem := 0, 0;
    var reply := server(0);
    if reply.Failed? {
      return Err(reply.error), [Request(ilim, None)];
    }
    if !lnone && limit.value <= MaxPageSize {
      assert Flatten(server, 1) == reply.page.items;
      return Ok(reply.page.items), [Request(ilim, None)];
    }
    if !lnone {
      val, rem := (limit.value - MaxPageSize) / MaxPageSize, (limit.value - MaxPageSize) % MaxPageSize;
    }
    var failure, lbuffer, batch, items;
    failure, lbuffer, batch, items, trace := FollowCursors(server, limit, val, reply.page);
    if failure.Some? {
      return Err(failure.value), trace;
    }
    FinalStep(limit, server, lbuffer);
    if lnone {
      if batch.next.None? {
        return Err(KeyError("next")), trace;
      }
      trace := trace + [Request(MaxPageSize, batch.next)];
    } else {
      trace := trace + [Request(rem, None)];
    }
    reply := server(|trace| - 1);
    if reply.Failed? {
      return Err(reply.error), trace;
    }
    items := items + reply.page.items;
    result := Ok(items);
  }
}

/** What a paging run promises, stated over the reference definitions that `GetPagingItems` is
    proved against. */
module PagingProperties {

  import opened Wrappers
  import opened Exceptions
  import opened Paging

  /** A limit of at most 100 (zero and negative ones included) makes one request, of the limit's
      own size and without a cursor, and returns that page's items. */
  lemma SinglePageRun<T, C>(limit: Option<int>, server: Server<T, C>)
    requires SinglePage(limit)
    ensures FetchCount(limit, server) == 1
    ensures RequestAt(limit, server, 0) == Request(limit.value, None)
    ensures Flatten(server, 1) == ItemsOf(server(0))
    ensures Fault(limit, server, 0) == if server(0).Failed? then Some(server(0).error) else None
  {
  }

  /** A limit above 100: 100, then `FullBatches` more pages of 100 after the previous cursor, then
      one request of `Remainder` items without a cursor, made even when the remainder is 0. */
  lemma BoundedPlan<T, C>(n: int, server: Server<T, C>)
    requires n > MaxPageSize
    ensures FetchCount(Some(n), server) == FullBatches(n) + 2
    ensures MaxPageSize + MaxPageSize * FullBatches(n) + Remainder(n) == n
    ensures 0 <= Remainder(n) < MaxPageSize
    ensures RequestAt(Some(n), server, 0) == Request(MaxPageSize, None)
    ensures forall k: nat :: 1 <= k <= FullBatches(n) ==>
              RequestAt(Some(n), server, k).size == MaxPageSize &&
              (server(k - 1).Fetched? ==> RequestAt(Some(n), server, k).cursor == server(k - 1).page.next)
    ensures RequestAt(Some(n), server, FullBatches(n) + 1) == Request(Remainder(n), None)
  {
  }

  /** The sum of the page sizes of requests 0 .. j-1. */
  function SumSizes(limit: Option<int>, j: nat): int {
    if j == 0 then 0 else SumSizes(limit, j - 1) + SizeAt(limit, j - 1)
  }

  lemma {:induction false} FullPagesSum(n: int, j: nat)
    requires n > MaxPageSize && j <= FullBatches(n) + 1
    ensures SumSizes(Some(n), j) == MaxPageSize * j
  {
    if j > 0 {
      FullPagesSum(n, j - 1);
    }
  }

  /** With a limit, the requested page sizes add up to exactly the limit. */
  lemma SizesSumToLimit<T, C>(limit: Option<int>, server: Server<T, C>)
    requires limit.Some?
    ensures SumSizes(limit, FetchCount(limit, server)) == limit.value
  {
    var n := limit.value;
    if n > MaxPageSize {
      FullPagesSum(n, FullBatches(n) + 1);
    }
  }

  /** For no limit or a limit of at least 0, every page size lies between 0 and 100. */
  lemma PageSizesInRange<T, C>(limit: Option<int>, server: Server<T, C>, k: nat)
    requires limit.None? ==> Terminates(server)
    requires limit.Some? ==> limit.value >= 0
    ensures 0 <= SizeAt(limit, k) <= MaxPageSize
  {
  }

  /** Without a limit: pages of 100 throughout; the first request has no cursor and each later one
      the cursor of the reply just before it; m + 2 requests where m is the first page without a
      next page, the last of them after that page. */
  lemma UnboundedPlan<T, C>(server: Server<T, C>)
    requires Terminates(server)
    ensures FetchCount(None, server) == FirstStop(server) + 2
    ensures RequestAt(None, server, 0) == Request(MaxPageSize, None)
    ensures forall k: nat :: 0 < k && server(k - 1).Fetched? ==>
              RequestAt(None, server, k) == Request(MaxPageSize, server(k - 1).page.next)
    ensures forall j :: 0 <= j < FirstStop(server) ==> server(j).Fetched? && server(j).page.hasNext
    ensures server(FirstStop(server)).Fetched? ==> !server(FirstStop(server)).page.hasNext
  {
    forall j | 0 <= j < FirstStop(server) {
      FirstStopLeast(server, j);
    }
  }

  /** A reply with the `hasNext` flag forgotten. */
  function Erase<T, C>(r: Reply<T, C>): Reply<T, C> {
    if r.Fetched? then Fetched(r.page.(hasNext := false)) else r
  }

  lemma {:induction false} FlattenErased<T, C>(s1: Server<T, C>, s2: Server<T, C>, j: nat)
    requires forall k: nat :: Erase(s1(k)) == Erase(s2(k))
    ensures Flatten(s1, j) == Flatten(s2, j)
  {
    if j > 0 {
      FlattenErased(s1, s2, j - 1);
      assert Erase(s1(j - 1)) == Erase(s2(j - 1));
    }
  }

  /** With a limit, `hasNext` is never consulted: two servers that differ only there give the same
      requests, the same faults and the same items. */
  lemma BoundedIgnoresHasNext<T, C>(limit: Option<int>, s1: Server<T, C>, s2: Server<T, C>)
    requires limit.Some?
    requires forall k: nat :: Erase(s1(k)) == Erase(s2(k))
    ensures FetchCount(limit, s1) == FetchCount(limit, s2)
    ensures forall k: nat :: RequestAt(limit, s1, k) == RequestAt(limit, s2, k)
    ensures forall k: nat :: Fault(limit, s1, k) == Fault(limit, s2, k)
    ensures forall j: nat :: Flatten(s1, j) == Flatten(s2, j)
  {
    forall k: nat ensures RequestAt(limit, s1, k) == RequestAt(limit, s2, k) {
      if k > 0 {
        assert Erase(s1(k - 1)) == Erase(s2(k - 1));
      }
    }
    forall k: nat ensures Fault(limit, s1, k) == Fault(limit, s2, k) {
      assert Erase(s1(k)) == Erase(s2(k));
    }
    forall j: nat ensures Flatten(s1, j) == Flatten(s2, j) {
      FlattenErased(s1, s2, j);
    }
  }

  /** The result is every page's items, in request order, with nothing dropped or reordered:
      the items of reply i sit right after those of replies 0 .. i-1. */
  lemma {:induction false} FlattenPageAt<T, C>(server: Server<T, C>, i: nat, j: nat)
    requires i < j
    ensures |Flatten(server, i)| + |ItemsOf(server(i))| <= |Flatten(server, j)|
    ensures Flatten(server, j)[..|Flatten(server, i)|] == Flatten(server, i)
    ensures Flatten(server, j)[|Flatten(server, i)|..|Flatten(server, i)| + |ItemsOf(server(i))|]
            == ItemsOf(server(i))
  {
    if j > i + 1 {
      FlattenPageAt(server, i, j - 1);
      var f := Flatten(server, j - 1);
      assert Flatten(server, j) == f + ItemsOf(server(j - 1));
      assert Flatten(server, j)[..|f|] == f;
    }
  }

  /** The number of items is the sum of the sizes of the pages. */
  function SumItems<T, C>(server: Server<T, C>, j: nat): nat {
    if j == 0 then 0 else SumItems(server, j - 1) + |ItemsOf(server(j - 1))|
  }

  lemma {:induction false} FlattenLength<T, C>(server: Server<T, C>, j: nat)
    ensures |Flatten(server, j)| == SumItems(server, j)
  {
    if j > 0 {
      FlattenLength(server, j - 1);
    }
  }

  /** A server that never sends more items than asked for. */
  ghost predicate HonoursSizes<T, C>(limit: Option<int>, server: Server<T, C>)
    requires limit.None? ==> Terminates(server)
  {
    forall k :: 0 <= k < FetchCount(limit, server) ==> |ItemsOf(server(k))| <= SizeAt(limit, k)
  }

  lemma {:induction false} FlattenBelowSizes<T, C>(limit: Option<int>, server: Server<T, C>, j: nat)
    requires limit.None? ==> Terminates(server)
    requires HonoursSizes(limit, server) && j <= FetchCount(limit, server)
    ensures |Flatten(server, j)| <= SumSizes(limit, j)
  {
    if j > 0 {
      FlattenBelowSizes(limit, server, j - 1);
    }
  }

  /** With a limit of at least 0 and a server that never sends more than asked for, a run never
      returns more items than the limit. */
  lemma ResultWithinLimit<T, C>(limit: Option<int>, server: Server<T, C>)
    requires limit.Some? && limit.value >= 0
    requires HonoursSizes(limit, server)
    ensures |Flatten(server, FetchCount(limit, server))| <= limit.value
  {
    FlattenBelowSizes(limit, server, FetchCount(limit, server));
    SizesSumToLimit(limit, server);
  }

  /** Limits 150, 250 and 200: sizes 100, 50; 100, 100, 50; and 100, 100, 0, the last request of
      size 0 still being sent. */
  lemma WorkedLimits<T, C>(server: Server<T, C>)
    ensures FetchCount(Some(150), server) == 2
    ensures SizeAt(Some(150), 0) == 100 && SizeAt(Some(150), 1) == 50
    ensures FetchCount(Some(250), server) == 3
    ensures SizeAt(Some(250), 0) == 100 && SizeAt(Some(250), 1) == 100 && SizeAt(Some(250), 2) == 50
    ensures FetchCount(Some(200), server) == 3
    ensures SizeAt(Some(200), 0) == 100 && SizeAt(Some(200), 1) == 100
    ensures RequestAt(Some(200), server, 2) == Request(0, None)
  {
  }
}
