/** The single-item feed generators `featured`, `collective`, `subscriptions` and `popular`,
    driven for a finite `limit` until they are exhausted. */
module Feeds {

  import opened Wrappers
  import opened Exceptions
  import opened Paging

  /** The four feeds; `featured` and `subscriptions` take a `read` flag (default true). */
  datatype Feed = Featured(read: bool) | Collective | Subscriptions(read: bool) | Popular

  /** The verb of a feed page fetch. */
  datatype Verb = Get | Post

  /** A request a generator sends: one feed page (query `{"limit": size}`), or the read mark for
      the post with `id`, always sent with PUT and the query `{"from": from}`. */
  datatype Call<Id> = FetchFeed(verb: Verb, feed: Feed, size: int) | MarkRead(id: Id, from: string)

  /** `collective` is the one feed fetched with POST. */
  function VerbOf(feed: Feed): Verb {
    if feed.Collective? then Post else Get
  }

  /** The tag of the read request that follows each item, if the feed sends one. */
  function ReadFrom(feed: Feed): Option<string> {
    match feed
    case Featured(read) => if read then Some("feat") else None
    case Subscriptions(read) => if read then Some("subs") else None
    case _ => None
  }

  function FetchCall<Id>(feed: Feed): Call<Id> {
    FetchFeed(VerbOf(feed), feed, 1)
  }

  function Max0(n: int): nat {
    if n < 0 then 0 else n
  }

  /** The position in the run of the fetch of item i: each item costs one call, two when read. */
  function CallIndex(feed: Feed, i: nat): nat {
    if ReadFrom(feed).Some? then 2 * i else i
  }

  /** The calls made for one yielded item. */
  function ItemCalls<T, Id>(feed: Feed, idOf: T -> Option<Id>, item: T): seq<Call<Id>> {
    [FetchCall(feed)] +
    if ReadFrom(feed).Some? && idOf(item).Some? then [MarkRead(idOf(item).value, ReadFrom(feed).value)] else []
  }

  /** The calls made for the items `ys`, in order. */
  function FeedTrace<T, Id>(feed: Feed, idOf: T -> Option<Id>, ys: seq<T>): seq<Call<Id>> {
    if ys == [] then [] else FeedTrace(feed, idOf, ys[..|ys| - 1]) + ItemCalls(feed, idOf, ys[|ys| - 1])
  }

  /** The item of the fetch at call `k`: the first item of the page. The feeds share the paging
      server type; for the reply to a read mark only `Failed?` matters, its page is never read. */
  function FirstItemAt<T, C>(server: Server<T, C>, k: nat): Option<T> {
    if server(k).Fetched? && |server(k).page.items| > 0 then Some(server(k).page.items[0]) else None
  }

  /** The error that ends iteration i, if any: the fetch raises, the page is empty (`[0]` on an
      empty list), the item has no "id" for the read mark, or the read request raises. This is the
      specification of one iteration; `NextItem` below is its step-by-step rendering. */
  function IterationFault<T, C, Id>(feed: Feed, server: Server<T, C>, idOf: T -> Option<Id>, i: nat): Option<Error> {
    var base := CallIndex(feed, i);
    if server(base).Failed? then Some(server(base).error)
    else if |server(base).page.items| == 0 then Some(IndexError)
    else if ReadFrom(feed).None? then None
    else if idOf(server(base).page.items[0]).None? then Some(KeyError("id"))
    else if server(base + 1).Failed? then Some(server(base + 1).error)
    else None
  }

  /** Iteration i went through and yielded `y`, the first item of its page. */
  ghost predicate ItemYielded<T, C, Id>(feed: Feed, server: Server<T, C>, idOf: T -> Option<Id>, i: nat, y: T) {
    IterationFault(feed, server, idOf, i).None? && FirstItemAt(server, CallIndex(feed, i)) == Some(y)
  }

  /** The calls iteration i makes before it stops, as far as they get. */
  function IterationCalls<T, C, Id>(feed: Feed, server: Server<T, C>, idOf: T -> Option<Id>, i: nat): seq<Call<Id>> {
    match FirstItemAt(server, CallIndex(feed, i))
    case Some(item) => ItemCalls(feed, idOf, item)
    case None => [FetchCall(feed)]
  }

  lemma FeedTraceSnoc<T, Id>(feed: Feed, idOf: T -> Option<Id>, ys: seq<T>, y: T)
    ensures FeedTrace(feed, idOf, ys + [y]) == FeedTrace(feed, idOf, ys) + ItemCalls(feed, idOf, y)
  {
  }

  /** One resumption of the generator, for iteration i, whose page fetch is call number
      `CallIndex(feed, i)`: fetch a page of one, take its first item, send the read mark if the feed
      marks reads, and yield the item, unless one of these raises. */
  method NextItem<T, C, Id>(feed: Feed, server: Server<T, C>, idOf: T -> Option<Id>, i: nat)
    returns (item: Option<T>, calls: seq<Call<Id>>, failure: Option<Error>)
    ensures failure == IterationFault(feed, server, idOf, i)
    ensures calls == IterationCalls(feed, server, idOf, i)
    ensures item.Some? <==> failure.None?
    ensures item.Some? ==> FirstItemAt(server, CallIndex(feed, i)) == item && CallIndex(feed, i + 1) == CallIndex(feed, i) + |calls|
  {
    var base := CallIndex(feed, i);
    var jso := server(base);
    calls := [FetchCall(feed)];
    if jso.Failed? {
      return None, calls, Some(jso.error);
    }
    if |jso.page.items| == 0 {
      return None, calls, Some(IndexError);
    }
    var feat := jso.page.items[0];
    if ReadFrom(feed).Some? {
      if idOf(feat).None? {
        return None, calls, Some(KeyError("id"));
      }
      calls := calls + [MarkRead(idOf(feat).value, ReadFrom(feed).value)];
      var ack := server(base + 1);
      if ack.Failed? {
        return None, calls, Some(ack.error);
      }
    }
    item, failure := Some(feat), None;
  }

  /** Drains the generator for `feed` with a finite `limit`: the items it yields, the calls it
      sends, and the error that ends it early, if one does. An item is yielded only after its
      read mark went through; items yielded before an error stay yielded. */
  method DrainFeed<T, C, Id>(feed: Feed, limit: int, server: Server<T, C>, idOf: T -> Option<Id>)
    returns (yielded: seq<T>, trace: seq<Call<Id>>, failure: Option<Error>)
    ensures failure.None? ==> |yielded| == Max0(limit)
    ensures failure.Some? ==> |yielded| < limit
    ensures forall i :: 0 <= i < |yielded| ==> ItemYielded(feed, server, idOf, i, yielded[i])
    ensures failure.Some? ==> failure == IterationFault(feed, server, idOf, |yielded|)
    ensures failure.None? ==> trace == FeedTrace(feed, idOf, yielded)
    ensures failure.Some? ==> trace == FeedTrace(feed, idOf, yielded) + IterationCalls(feed, server, idOf, |yielded|)
  {
    yielded, trace, failure := [], [], None;
    var n := 0;
    while n < limit
      invariant n == |yielded| <= Max0(limit)
      invariant trace == FeedTrace(feed, idOf, yielded)
      invariant forall i :: 0 <= i < n ==> ItemYielded(feed, server, idOf, i, yielded[i])
    {
      var feat, calls, raised := NextItem(feed, server, idOf, n);
      trace := trace + calls;
      if raised.Some? {
        failure := raised;
        return;
      }
      FeedTraceSnoc(feed, idOf, yielded, feat.value);
      yielded := yielded + [feat.value];
      n := n + 1;
    }
  }
}

/** The shape of a generator's calls. */
module FeedProperties {

  import opened Wrappers
  import opened Paging
  import opened Feeds

  /** For items that all carry an id when the feed marks them read: one page fetch of size 1 per
      item, each followed, when the feed marks reads, by the read mark for that item. */
  lemma {:induction false} FeedTraceShape<T, Id>(feed: Feed, idOf: T -> Option<Id>, ys: seq<T>)
    requires ReadFrom(feed).Some? ==> forall i :: 0 <= i < |ys| ==> idOf(ys[i]).Some?
    ensures |FeedTrace(feed, idOf, ys)| == CallIndex(feed, |ys|)
    ensures forall i :: 0 <= i < |ys| ==>
              FeedTrace(feed, idOf, ys)[CallIndex(feed, i)] == FetchFeed(VerbOf(feed), feed, 1)
    ensures ReadFrom(feed).Some? ==> forall i :: 0 <= i < |ys| ==>
              FeedTrace(feed, idOf, ys)[CallIndex(feed, i) + 1] == MarkRead(idOf(ys[i]).value, ReadFrom(feed).value)
  {
    if ys != [] {
      var init := ys[..|ys| - 1];
      FeedTraceShape(feed, idOf, init);
      var t0 := FeedTrace(feed, idOf, init);
      var t := FeedTrace(feed, idOf, ys);
      assert t == t0 + ItemCalls(feed, idOf, ys[|ys| - 1]);
      forall i | 0 <= i < |ys|
        ensures t[CallIndex(feed, i)] == FetchFeed(VerbOf(feed), feed, 1)
        ensures ReadFrom(feed).Some? ==> t[CallIndex(feed, i) + 1] == MarkRead(idOf(ys[i]).value, ReadFrom(feed).value)
      {
        if i < |init| {
          assert init[i] == ys[i];
        }
      }
    }
  }

  /** Every item a drained feed yields carries an id when the feed marks reads, so the call shape
      above holds for what `DrainFeed` yields. */
  lemma {:induction false} YieldedCarryIds<T, C, Id>(feed: Feed, server: Server<T, C>, idOf: T -> Option<Id>, ys: seq<T>)
    requires forall i :: 0 <= i < |ys| ==> ItemYielded(feed, server, idOf, i, ys[i])
    ensures ReadFrom(feed).Some? ==> forall i :: 0 <= i < |ys| ==> idOf(ys[i]).Some?
  {
    forall i | 0 <= i < |ys|
      ensures ReadFrom(feed).Some? ==> idOf(ys[i]).Some?
    {
      assert ItemYielded(feed, server, idOf, i, ys[i]);
    }
  }
}
