/**
 The worker side of the monitor protocol (panel-app/vpn_endpoint_monitor.py): fetching the
 targets page by page while the VPN table changes under it, and posting results in batches
 that the panel will take.
 */
module MonitorWorker {
  import opened MonitorProtocol

  const MAX_TARGETS_PER_CYCLE := 10_000
  const MAX_HTTP_REQUEST_BYTES := 64 * 1024

  predicate StrictlyAscending(ids: seq<nat>) {
    forall k, m :: 0 <= k < m < |ids| ==> ids[k] < ids[m]
  }

  /** Active in each of the tables that the first `requests` requests met. */
  ghost predicate ActiveThroughout(tables: nat -> map<nat, Vpn>, requests: nat, v: nat) {
    forall k: nat :: k < requests ==> IsActive(tables(k), v)
  }

  ghost predicate ActiveOnce(tables: nat -> map<nat, Vpn>, requests: nat, v: nat) {
    exists k: nat :: k < requests && IsActive(tables(k), v)
  }

  /** Ids up to `upto` that were fetched: no duplicates, only active ones, and none that was active all along is missing. */
  ghost predicate Covered(tables: nat -> map<nat, Vpn>, requests: nat, upto: nat, ids: seq<nat>) {
    && StrictlyAscending(ids)
    && (forall v :: v in ids ==> 0 < v && ActiveOnce(tables, requests, v))
    && (forall v :: 0 < v <= upto && ActiveThroughout(tables, requests, v) ==> v in ids)
  }

  /**
   `PanelClient.fetch_targets`: request `k` meets table `tables(k)` and is answered with
   `serve(k, after)`. The loop ends, no VPN is fetched twice, and a VPN that is active in
   every table the requests met is fetched, whatever happens to the others meanwhile.
   */
  method FetchTargets(ghost tables: nat -> map<nat, Vpn>, serve: (nat, nat) -> seq<nat>)
    returns (fetched: Try<seq<nat>>, requests: nat)
    requires forall k, after :: IsPage(tables(k), after, MONITOR_MAX_BATCH, serve(k, after))
    ensures 0 < requests <= MAX_TARGETS_PER_CYCLE / MONITOR_MAX_BATCH + 1
    ensures fetched.Refused? ==>
              && fetched.code == "panel target count exceeds the cycle limit"
              && requests == MAX_TARGETS_PER_CYCLE / MONITOR_MAX_BATCH + 1
    ensures fetched.Ok? ==> forall upto: nat :: Covered(tables, requests, upto, fetched.value)
  {
    var targets: seq<nat> := [];
    var after := 0;
    requests := 0;
    while true
      invariant |targets| == requests * MONITOR_MAX_BATCH && |targets| <= MAX_TARGETS_PER_CYCLE
      invariant after == if targets == [] then 0 else targets[|targets| - 1]
      invariant Covered(tables, requests, after, targets)
      decreases MAX_TARGETS_PER_CYCLE - |targets|
    {
      var page := serve(requests, after);
      assert IsPage(tables(requests), after, MONITOR_MAX_BATCH, page);
      ghost var before, made := targets, requests;
      targets := targets + page;
      requests := requests + 1;
      forall upto: nat | |page| < MONITOR_MAX_BATCH || upto <= page[|page| - 1]
        ensures Covered(tables, requests, upto, targets)
      {
        PageContinues(tables, made, after, page, before, upto);
      }
      if |targets| > MAX_TARGETS_PER_CYCLE {
        return Refused("panel target count exceeds the cycle limit"), requests;
      }
      if |page| < MONITOR_MAX_BATCH {
        break;
      }
      var nextAfter := page[|page| - 1];
      if nextAfter <= after {
        return Refused("panel target pagination cursor is invalid"), requests;
      }
      after := nextAfter;
    }
    fetched := Ok(targets);
  }

  /** A further page keeps the fetched ids covered, up to its last id, or for good if it is not full. */
  lemma PageContinues(tables: nat -> map<nat, Vpn>, requests: nat, after: nat, page: seq<nat>, ids: seq<nat>, upto: nat)
    requires IsPage(tables(requests), after, MONITOR_MAX_BATCH, page)
    requires after == if ids == [] then 0 else ids[|ids| - 1]
    requires Covered(tables, requests, after, ids)
    requires |page| < MONITOR_MAX_BATCH || upto <= page[|page| - 1]
    ensures Covered(tables, requests + 1, upto, ids + page)
  {
    var all := ids + page;
    forall v | v in all ensures 0 < v && ActiveOnce(tables, requests + 1, v) {
      if v in ids {
        var k: nat :| k < requests && IsActive(tables(k), v);
      } else {
        assert IsActive(tables(requests), v);
      }
    }
    forall v | 0 < v && v <= upto && ActiveThroughout(tables, requests + 1, v)
      ensures v in all
    {
      assert IsActive(tables(requests), v);
      if v <= after {
        assert ActiveThroughout(tables, requests, v);
      }
    }
  }

  // ----- Posting in batches -----

  /** Length of `{"results":[...]}` around items of the given encoded sizes. */
  function EncodedSize<T>(batch: seq<T>, size: T -> nat): nat {
    14 + Sizes(batch, size) + if batch == [] then 0 else |batch| - 1
  }

  function Sizes<T>(batch: seq<T>, size: T -> nat): nat {
    if batch == [] then 0 else Sizes(batch[..|batch| - 1], size) + size(batch[|batch| - 1])
  }

  /** The request body: the results, each as `text` gives it, in one JSON object. */
  function Body<T>(batch: seq<T>, text: T -> string): string {
    "{\"results\":[" + Items(batch, text) + "]}"
  }

  function Items<T>(batch: seq<T>, text: T -> string): string {
    if batch == [] then ""
    else
      var n := |batch| - 1;
      Items(batch[..n], text) + (if n == 0 then "" else ",") + text(batch[n])
  }

  lemma {:induction false} SizeOfItems<T>(batch: seq<T>, text: T -> string, size: T -> nat)
    requires forall result :: size(result) == |text(result)|
    ensures |Items(batch, text)| == Sizes(batch, size) + if batch == [] then 0 else |batch| - 1
  {
    if batch != [] {
      SizeOfItems(batch[..|batch| - 1], text, size);
    }
  }

  /** The size that is compared with the limit is the length of the request body. */
  lemma SizeOfBody<T>(batch: seq<T>, text: T -> string, size: T -> nat)
    requires forall result :: size(result) == |text(result)|
    ensures EncodedSize(batch, size) == |Body(batch, text)|
  {
    SizeOfItems(batch, text, size);
  }

  function Flatten<T>(batches: seq<seq<T>>): seq<T> {
    if batches == [] then [] else Flatten(batches[..|batches| - 1]) + batches[|batches| - 1]
  }

  /** A batch that the panel will not turn away for its size. */
  predicate Fits<T>(batch: seq<T>, size: T -> nat) {
    0 < |batch| <= MONITOR_MAX_BATCH && EncodedSize(batch, size) <= MAX_HTTP_REQUEST_BYTES
  }

  /** No batch had room for the first result of the next one. */
  ghost predicate Greedy<T>(batches: seq<seq<T>>, size: T -> nat) {
    forall k :: 0 <= k < |batches| - 1 ==> Full(batches[k], batches[k + 1], size)
  }

  predicate Full<T>(batch: seq<T>, next: seq<T>, size: T -> nat) {
    next != [] && !Fits(batch + [next[0]], size)
  }

  ghost predicate AllFit<T>(batches: seq<seq<T>>, size: T -> nat) {
    forall k :: 0 <= k < |batches| ==> Fits(batches[k], size)
  }

  /** Closed batches and the one that is being filled. */
  ghost predicate Packed<T>(closed: seq<seq<T>>, open: seq<T>, size: T -> nat) {
    && AllFit(closed, size) && Greedy(closed, size)
    && (open != [] ==> Fits(open, size) && Greedy(closed + [open], size))
    && (closed != [] ==> open != [])
  }

  lemma FlattenMore<T>(closed: seq<seq<T>>, open: seq<T>)
    ensures Flatten(closed + [open]) == Flatten(closed) + open
  {
    assert (closed + [open])[..|closed|] == closed;
  }

  lemma LongerIsGreedy<T>(closed: seq<seq<T>>, open: seq<T>, result: T, size: T -> nat)
    requires open != [] && Greedy(closed + [open], size)
    ensures Greedy(closed + [open + [result]], size)
  {
    var before, after := closed + [open], closed + [open + [result]];
    forall k | 0 <= k < |after| - 1 ensures Full(after[k], after[k + 1], size) {
      assert Full(before[k], before[k + 1], size);
    }
  }

  lemma MoreIsGreedy<T>(closed: seq<seq<T>>, open: seq<T>, result: T, size: T -> nat)
    requires Greedy(closed + [open], size) && !Fits(open + [result], size)
    ensures Greedy(closed + [open] + [[result]], size)
  {
    var before, after := closed + [open], closed + [open] + [[result]];
    forall k | 0 <= k < |after| - 1 ensures Full(after[k], after[k + 1], size) {
      if k < |before| - 1 {
        assert Full(before[k], before[k + 1], size);
      }
    }
  }

  /** One result goes into the open batch, or closes it, or is too large. */
  method AddResult<T>(closed0: seq<seq<T>>, open0: seq<T>, result: T, size: T -> nat)
    returns (closed: seq<seq<T>>, open: seq<T>, ok: bool)
    requires Packed(closed0, open0, size)
    ensures ok <==> EncodedSize([result], size) <= MAX_HTTP_REQUEST_BYTES
    ensures ok ==> Packed(closed, open, size) && open != [] && Flatten(closed) + open == Flatten(closed0) + open0 + [result]
    ensures !ok ==> AllFit(closed, size) && Greedy(closed, size) && Flatten(closed) <= Flatten(closed0) + open0
  {
    closed, open := closed0, open0;
    var candidate := open + [result];
    AtLeastItsLast(open, result, size);
    if open != [] {
      LongerIsGreedy(closed, open, result, size);
      FlattenMore(closed, open);
    }
    if open != [] && (|candidate| > MONITOR_MAX_BATCH || EncodedSize(candidate, size) > MAX_HTTP_REQUEST_BYTES) {
      MoreIsGreedy(closed, open, result, size);
      closed := closed + [open];
      candidate := [result];
    }
    ok := EncodedSize(candidate, size) <= MAX_HTTP_REQUEST_BYTES;
    if ok {
      assert closed0 == [] && open0 == [] ==> closed + [candidate] == [candidate];
      open := candidate;
    }
  }

  /**
   `_result_batches`: the batches keep the results in order, each fits the panel's limits, and
   none is closed while the next result would still fit; splitting fails exactly when a single
   result is too large on its own, and what was handed out before is then still in order.
   */
  method ResultBatches<T>(results: seq<T>, size: T -> nat) returns (batches: seq<seq<T>>, ok: bool)
    ensures ok <==> forall k :: 0 <= k < |results| ==> EncodedSize([results[k]], size) <= MAX_HTTP_REQUEST_BYTES
    ensures ok ==> Flatten(batches) == results
    ensures Flatten(batches) <= results
    ensures AllFit(batches, size) && Greedy(batches, size)
  {
    batches := [];
    var open: seq<T> := [];
    for k := 0 to |results|
      invariant Flatten(batches) + open == results[..k]
      invariant Packed(batches, open, size)
      invariant forall m :: 0 <= m < k ==> EncodedSize([results[m]], size) <= MAX_HTTP_REQUEST_BYTES
    {
      assert results[..k + 1] == results[..k] + [results[k]];
      batches, open, ok := AddResult(batches, open, results[k], size);
      if !ok {
        assert Flatten(batches) <= results[..k] <= results;
        return;
      }
    }
    assert results[..|results|] == results;
    if open != [] {
      FlattenMore(batches, open);
      batches := batches + [open];
    } else {
      assert Flatten(batches) + open == Flatten(batches);
    }
    ok := true;
  }

  /** A batch is never smaller than its last result alone. */
  lemma AtLeastItsLast<T>(batch: seq<T>, result: T, size: T -> nat)
    ensures EncodedSize(batch + [result], size) >= EncodedSize([result], size)
  {
    assert (batch + [result])[..|batch|] == batch;
    assert Sizes([result], size) == size(result);
  }
}
