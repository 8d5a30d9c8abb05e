/** `Handler` of `aionbot-core`: a list of entries; an event is dispatched by
    queueing the entries whose router matches it, then invoking their
    callbacks in the order the queue pops them, stopping at the first error. */
module Handlers {
  import opened Common
  import opened Queue
  import Routers
  import opened Entries

  /** The entries of `es` whose router matches `event`, in order. */
  function Matching(es: seq<Entry>, event: Routers.DynEvent): (r: seq<Entry>)
    ensures forall e :: e in r <==> e in es && Routers.Matches(e.router, event)
    ensures |r| <= |es|
  {
    if es == [] then []
    else
      var last := es[|es| - 1];
      Matching(es[..|es| - 1], event) + (if Routers.Matches(last.router, event) then [last] else [])
  }

  /** The ids of a list of entries. */
  ghost function IdsOf(es: seq<Entry>): set<string>
  {
    set e | e in es :: e.id
  }

  /** Filtering a list extended by one entry. */
  lemma {:induction false} MatchingAppend(es: seq<Entry>, e: Entry, event: Routers.DynEvent)
    ensures Matching(es + [e], event) == Matching(es, event) + (if Routers.Matches(e.router, event) then [e] else [])
  {
    assert (es + [e])[..|es + [e]| - 1] == es;
  }

  /** The ids of a concatenation are the ids of its two parts. */
  lemma IdsOfAppend(es: seq<Entry>, f: seq<Entry>)
    ensures IdsOf(es + f) == IdsOf(es) + IdsOf(f)
  {
    assert forall e :: e in es + f <==> e in es || e in f;
  }

  /** The heap entry `Handler::matches` pushes for the `k`-th matched entry:
      the queue starts its counter at 0, so the counter is the position. */
  function Slot(m: seq<Entry>, k: nat): (f: EventEntry<Entry>)
    requires k < |m|
    ensures f.item == m[k] && f.priority == m[k].priority && f.counter == k
  {
    EventEntry(m[k].priority, k, m[k])
  }

  /** The heap of the queue `Handler::matches` builds from the entries `m`:
      the `k`-th of them at its own priority under counter `k`. */
  ghost function QueueOf(m: seq<Entry>): set<EventEntry<Entry>>
  {
    set k: nat | k < |m| :: EventEntry(m[k].priority, k, m[k])
  }

  /** The queue built so far by `Handler::matches` from the entries `matched`:
      the heap holds each matched entry at its own priority under its position
      as counter, the counter is the number of pushes, and the pending ids are
      the matched ids. */
  ghost predicate Queued(heap: set<EventEntry<Entry>>, finder: map<string, EventEntry<Entry>>, counter: nat,
                         matched: seq<Entry>)
  {
    && heap == QueueOf(matched)
    && counter == |matched|
    && finder.Keys == IdsOf(matched)
  }

  /** One more push adds the slot of the new last entry. */
  lemma QueueOfAppend(m: seq<Entry>, e: Entry)
    ensures QueueOf(m + [e]) == QueueOf(m) + {EventEntry(e.priority, |m|, e)}
  {
    var m' := m + [e];
    forall x | x in QueueOf(m') ensures x in QueueOf(m) + {EventEntry(e.priority, |m|, e)} {
      var k: nat :| k < |m'| && x == EventEntry(m'[k].priority, k, m'[k]);
      if k < |m| {
        assert m'[k] == m[k];
      }
    }
    forall x | x in QueueOf(m) ensures x in QueueOf(m') {
      var k: nat :| k < |m| && x == EventEntry(m[k].priority, k, m[k]);
      assert m'[k] == m[k];
    }
    assert m'[|m|] == e;
  }

  /** Pushing one more matched entry, at its own priority and the current
      counter, keeps `Queued`. */
  lemma QueuedPush(heap: set<EventEntry<Entry>>, finder: map<string, EventEntry<Entry>>, matched: seq<Entry>,
                   e: Entry)
    requires Queued(heap, finder, |matched|, matched)
    ensures Queued(heap + {EventEntry(e.priority, |matched|, e)}, finder[e.id := EventEntry(e.priority, |matched|, e)],
                   |matched| + 1, matched + [e])
  {
    QueueOfAppend(matched, e);
    IdsOfAppend(matched, [e]);
    assert IdsOf([e]) == {e.id};
  }

  /** The `i`-th matched entry pops before the `j`-th: its priority is smaller
      (a lower `i8` first), or equal and it was registered later. */
  predicate PopsBefore(m: seq<Entry>, i: nat, j: nat)
  {
    i < |m| && j < |m| && (m[i].priority < m[j].priority || (m[i].priority == m[j].priority && i > j))
  }

  /** `ks` gives the position in `matched` of each invoked entry: the invoked
      entries are matched entries, in the order the queue pops them, with
      distinct ids; of the matched entries sharing an id, the one invoked is
      the one whose slot pops first. */
  ghost predicate InvokedInOrder(matched: seq<Entry>, trace: seq<Entry>, ks: seq<nat>)
  {
    && |ks| == |trace|
    && (forall t | 0 <= t < |ks| :: ks[t] < |matched| && trace[t] == matched[ks[t]])
    && (forall t, u | 0 <= t < u < |ks| :: PopsBefore(matched, ks[t], ks[u]))
    && (forall i, j | 0 <= i < j < |trace| :: trace[i].id != trace[j].id)
    && (forall t, k | 0 <= t < |ks| && 0 <= k < |matched| && k != ks[t] && matched[k].id == trace[t].id ::
          PopsBefore(matched, ks[t], k))
  }

  /** No matched entry was skipped: every matched entry whose id was not
      invoked pops after the last invoked entry, so the trace is the start of
      the pop order. */
  ghost predicate NoneSkipped(matched: seq<Entry>, trace: seq<Entry>, ks: seq<nat>)
  {
    && |ks| == |trace|
    && (trace != [] ==>
          forall k | 0 <= k < |matched| && matched[k].id !in IdsOf(trace) :: PopsBefore(matched, ks[|ks| - 1], k))
  }

  /** What dispatching `event` to the entries `matched` through the callbacks
      `call` may produce: `trace` lists the entries whose callback was invoked,
      in order, and `res` is the outcome.
        - only matched entries are invoked, each id at most once, in pop order:
          a lower priority first, and among equal priorities the entry
          registered later first;
        - no entry is skipped: every matched id not invoked pops after the last
          invoked entry, so a failing callback is the first failure in pop
          order;
        - every invocation but the last succeeded; the outcome is the error of
          the last one if it failed, and `Ok` otherwise;
        - an `Ok` outcome means every matched id was invoked. */
  ghost predicate Dispatched(matched: seq<Entry>, event: Routers.DynEvent,
                             call: (CallbackId, Routers.DynEvent) -> Result<string>,
                             res: Result<()>, trace: seq<Entry>)
  {
    && (exists ks :: InvokedInOrder(matched, trace, ks) && NoneSkipped(matched, trace, ks))
    && (trace != [] ==> Succeeded(trace[..|trace| - 1], event, call))
    && (res.Err? <==> trace != [] && call(trace[|trace| - 1].callback, event).Err?)
    && (res.Err? ==> res.error == call(trace[|trace| - 1].callback, event).error)
    && (res.Ok? ==> IdsOf(trace) == IdsOf(matched))
  }

  /** With no matching entry nothing is invoked and the dispatch is `Ok`. */
  lemma NoMatchInvokesNothing(event: Routers.DynEvent, call: (CallbackId, Routers.DynEvent) -> Result<string>,
                              res: Result<()>, trace: seq<Entry>)
    requires Dispatched([], event, call, res, trace)
    ensures trace == [] && res.Ok?
  {
    var ks: seq<nat> :| InvokedInOrder([], trace, ks);
    HasFirst(ks);
  }

  /** A non-empty list has its first element. */
  lemma HasFirst<T>(s: seq<T>)
    ensures s != [] ==> s[0] in s
  {
  }

  /** A dispatch that ends `Ok` invoked every matched id exactly once, and
      every callback it invoked succeeded. */
  lemma OkInvokedEachOnce(matched: seq<Entry>, event: Routers.DynEvent,
                          call: (CallbackId, Routers.DynEvent) -> Result<string>, trace: seq<Entry>)
    requires Dispatched(matched, event, call, Ok(()), trace)
    ensures forall e | e in matched :: exists i | 0 <= i < |trace| :: trace[i].id == e.id
    ensures forall i, j | 0 <= i < j < |trace| :: trace[i].id != trace[j].id
    ensures forall i | 0 <= i < |trace| :: call(trace[i].callback, event).Ok?
  {
    var ks: seq<nat> :| InvokedInOrder(matched, trace, ks);
    forall e | e in matched ensures exists i | 0 <= i < |trace| :: trace[i].id == e.id {
      assert e.id in IdsOf(matched);
      var t :| t in trace && t.id == e.id;
      var i :| 0 <= i < |trace| && trace[i] == t;
    }
    forall i | 0 <= i < |trace| ensures call(trace[i].callback, event).Ok? {
      if i < |trace| - 1 {
        assert trace[i] in trace[..|trace| - 1];
      }
    }
  }

  /** The position in the trace of a matched entry whose id is unique: an `Ok`
      dispatch invoked it. */
  lemma InvokedAt(matched: seq<Entry>, trace: seq<Entry>, ks: seq<nat>, i: nat)
    requires InvokedInOrder(matched, trace, ks) && IdsOf(trace) == IdsOf(matched)
    requires forall a, b | 0 <= a < b < |matched| :: matched[a].id != matched[b].id
    requires i < |matched|
    ensures exists u | 0 <= u < |trace| :: ks[u] == i
  {
    assert matched[i].id in IdsOf(matched);
    InvokedIdAt(matched, trace, ks, i);
  }

  /** A matched entry whose id is unique and was invoked has a turn in the
      trace. */
  lemma InvokedIdAt(matched: seq<Entry>, trace: seq<Entry>, ks: seq<nat>, i: nat)
    requires InvokedInOrder(matched, trace, ks)
    requires forall a, b | 0 <= a < b < |matched| :: matched[a].id != matched[b].id
    requires i < |matched| && matched[i].id in IdsOf(trace)
    ensures exists u | 0 <= u < |trace| :: ks[u] == i
  {
    var e :| e in trace && e.id == matched[i].id;
    var u :| 0 <= u < |trace| && trace[u] == e;
    assert matched[ks[u]].id == matched[i].id;
  }

  /** Every callback invoked before the last one returned `Ok`: a dispatch
      runs on only while callbacks succeed. */
  lemma EarlierCallsSucceeded(matched: seq<Entry>, event: Routers.DynEvent,
                              call: (CallbackId, Routers.DynEvent) -> Result<string>,
                              res: Result<()>, trace: seq<Entry>)
    requires Dispatched(matched, event, call, res, trace)
    ensures forall t | 0 <= t < |trace| - 1 :: call(trace[t].callback, event).Ok?
  {
    forall t | 0 <= t < |trace| - 1 ensures call(trace[t].callback, event).Ok? {
      assert trace[t] in trace[..|trace| - 1];
    }
  }

  /** The order among equal priorities: when the matched ids are distinct, an
      `Ok` dispatch invokes, of two matched entries with the same priority, the
      one registered later first. */
  lemma EqualPrioritiesLaterFirst(matched: seq<Entry>, event: Routers.DynEvent,
                                  call: (CallbackId, Routers.DynEvent) -> Result<string>, trace: seq<Entry>,
                                  i: nat, j: nat)
    requires Dispatched(matched, event, call, Ok(()), trace)
    requires forall a, b | 0 <= a < b < |matched| :: matched[a].id != matched[b].id
    requires i < j < |matched| && matched[i].priority == matched[j].priority
    ensures exists u, v | 0 <= v < u < |trace| :: trace[v] == matched[j] && trace[u] == matched[i]
  {
    var ks: seq<nat> :| InvokedInOrder(matched, trace, ks);
    InvokedAt(matched, trace, ks, i);
    InvokedAt(matched, trace, ks, j);
    var u :| 0 <= u < |trace| && ks[u] == i;
    var v :| 0 <= v < |trace| && ks[v] == j;
    assert !PopsBefore(matched, i, j);
    assert trace[v] == matched[j] && trace[u] == matched[i];
  }

  /** Two matched entries with distinct ids and the same priority: an `Ok`
      dispatch invokes the second one, then the first. */
  lemma TiedPairLaterFirst(matched: seq<Entry>, event: Routers.DynEvent,
                           call: (CallbackId, Routers.DynEvent) -> Result<string>, trace: seq<Entry>)
    requires |matched| == 2 && matched[0].priority == matched[1].priority && matched[0].id != matched[1].id
    requires Dispatched(matched, event, call, Ok(()), trace)
    ensures trace == [matched[1], matched[0]]
  {
    var ks: seq<nat> :| InvokedInOrder(matched, trace, ks);
    AtMostTwoInvoked(matched, trace, ks);
    EqualPrioritiesLaterFirst(matched, event, call, trace, 0, 1);
    var u, v :| 0 <= v < u < |trace| && trace[v] == matched[1] && trace[u] == matched[0];
    assert |trace| == 2 && v == 0 && u == 1;
  }

  /** Two entries registered with the same priority, both matching: an `Ok`
      dispatch invokes the second one, then the first. */
  lemma TiedPairInvokesSecondFirst(event: Routers.DynEvent,
                                   call: (CallbackId, Routers.DynEvent) -> Result<string>, trace: seq<Entry>)
    requires Dispatched([Entry("a", 0, Routers.All, 0), Entry("b", 0, Routers.All, 1)], event, call, Ok(()), trace)
    ensures trace == [Entry("b", 0, Routers.All, 1), Entry("a", 0, Routers.All, 0)]
  {
    assert "a" != "b" by { assert "a"[0] != "b"[0]; }
    TiedPairLaterFirst([Entry("a", 0, Routers.All, 0), Entry("b", 0, Routers.All, 1)], event, call, trace);
  }

  /** An id matched twice runs the callback of its slot that pops first, and
      only once. Of three matched entries with increasing priorities where the
      first and the third share an id and the second has another, an `Ok`
      dispatch invokes the first entry, then the second, and never the
      third. */
  lemma DuplicateIdFirstSlotWins(matched: seq<Entry>, event: Routers.DynEvent,
                                 call: (CallbackId, Routers.DynEvent) -> Result<string>, trace: seq<Entry>)
    requires |matched| == 3
    requires matched[0].priority < matched[1].priority < matched[2].priority
    requires matched[0].id == matched[2].id != matched[1].id
    requires Dispatched(matched, event, call, Ok(()), trace)
    ensures trace == [matched[0], matched[1]]
  {
    var ks: seq<nat> :| InvokedInOrder(matched, trace, ks);
    assert forall x: nat :: !PopsBefore(matched, 2, x);
    assert matched[0].id in IdsOf(matched) && matched[1].id in IdsOf(matched);
    HasFirst(ks);
    HasThree(ks);
    assert |ks| > 1 ==> ks[1] in ks;
  }

  /** `a` at priority 0, `b` at priority 1 and `a` again at priority 2, all
      matching: an `Ok` dispatch invokes the first `a`, then `b`; the second
      `a` is never invoked. */
  lemma DuplicateIdRunsOnce(event: Routers.DynEvent, call: (CallbackId, Routers.DynEvent) -> Result<string>,
                            trace: seq<Entry>)
    requires Dispatched([Entry("a", 0, Routers.All, 0), Entry("b", 1, Routers.All, 1), Entry("a", 2, Routers.All, 2)],
                        event, call, Ok(()), trace)
    ensures trace == [Entry("a", 0, Routers.All, 0), Entry("b", 1, Routers.All, 1)]
  {
    assert "a" != "b" by { assert "a"[0] != "b"[0]; }
    DuplicateIdFirstSlotWins([Entry("a", 0, Routers.All, 0), Entry("b", 1, Routers.All, 1), Entry("a", 2, Routers.All, 2)],
                             event, call, trace);
  }

  /** At most two entries are invoked out of two matched ones. */
  lemma AtMostTwoInvoked(matched: seq<Entry>, trace: seq<Entry>, ks: seq<nat>)
    requires InvokedInOrder(matched, trace, ks) && |matched| == 2
    ensures |trace| <= 2
  {
    HasThree(ks);
  }

  /** A list longer than two has its first three elements. */
  lemma HasThree<T>(s: seq<T>)
    ensures |s| > 2 ==> s[0] in s && s[1] in s && s[2] in s
  {
  }

  /** With at least one matched entry, a dispatch invokes something. */
  lemma DispatchedNonEmpty(matched: seq<Entry>, event: Routers.DynEvent,
                           call: (CallbackId, Routers.DynEvent) -> Result<string>, res: Result<()>, trace: seq<Entry>)
    requires Dispatched(matched, event, call, res, trace) && matched != []
    ensures trace != []
  {
    assert matched[0].id in IdsOf(matched);
    assert IdsOf([]) == {};
  }

  /** Of two matched entries with distinct ids, the first of lower priority:
      the first invoked is the first entry, and the second invoked, if any, is
      the second entry. */
  lemma LowerFirstOfTwo(matched: seq<Entry>, trace: seq<Entry>, ks: seq<nat>)
    requires |matched| == 2 && matched[0].priority < matched[1].priority && matched[0].id != matched[1].id
    requires InvokedInOrder(matched, trace, ks) && NoneSkipped(matched, trace, ks) && trace != []
    ensures |trace| <= 2 && trace[0] == matched[0]
    ensures |trace| == 2 ==> trace[1] == matched[1]
  {
    AtMostTwoInvoked(matched, trace, ks);
    assert forall x: nat :: !PopsBefore(matched, x, 0);
    HasFirst(ks);
    InvokedIdAt(matched, trace, ks, 0);
    var u :| 0 <= u < |trace| && ks[u] == 0;
    assert u == 0;
  }

  /** A failing callback is the first failure in pop order. Of two matched
      entries with distinct ids, the first of lower priority: when the first
      callback fails, only it is invoked and its error is returned. */
  lemma FirstFailureStops(matched: seq<Entry>, event: Routers.DynEvent,
                          call: (CallbackId, Routers.DynEvent) -> Result<string>, res: Result<()>, trace: seq<Entry>)
    requires |matched| == 2 && matched[0].priority < matched[1].priority && matched[0].id != matched[1].id
    requires Dispatched(matched, event, call, res, trace)
    requires call(matched[0].callback, event).Err?
    ensures trace == [matched[0]] && res == Err(call(matched[0].callback, event).error)
  {
    var ks: seq<nat> :| InvokedInOrder(matched, trace, ks) && NoneSkipped(matched, trace, ks);
    DispatchedNonEmpty(matched, event, call, res, trace);
    LowerFirstOfTwo(matched, trace, ks);
    EarlierCallsSucceeded(matched, event, call, res, trace);
  }

  /** Of the same two entries: when the first callback succeeds and the second
      fails, both are invoked in that order and the second error is
      returned. */
  lemma SecondFailureAfterFirst(matched: seq<Entry>, event: Routers.DynEvent,
                                call: (CallbackId, Routers.DynEvent) -> Result<string>, res: Result<()>,
                                trace: seq<Entry>)
    requires |matched| == 2 && matched[0].priority < matched[1].priority && matched[0].id != matched[1].id
    requires Dispatched(matched, event, call, res, trace)
    requires call(matched[0].callback, event).Ok? && call(matched[1].callback, event).Err?
    ensures trace == [matched[0], matched[1]] && res == Err(call(matched[1].callback, event).error)
  {
    var ks: seq<nat> :| InvokedInOrder(matched, trace, ks) && NoneSkipped(matched, trace, ks);
    DispatchedNonEmpty(matched, event, call, res, trace);
    LowerFirstOfTwo(matched, trace, ks);
    assert matched[1].id in IdsOf(matched);
    assert IdsOf([matched[0]]) == {matched[0].id};
    assert trace[..1] == [matched[0]];
  }

  /** Two matching entries, `a` at priority 0 registered before `b` at
      priority 1. When `a`'s callback fails, only `a` is invoked and its error
      is returned; when `a`'s succeeds and `b`'s fails, `a` then `b` are
      invoked and `b`'s error is returned. */
  lemma FailureStopsAtFirstInPopOrder(event: Routers.DynEvent,
                                      call: (CallbackId, Routers.DynEvent) -> Result<string>,
                                      res: Result<()>, trace: seq<Entry>)
    requires Dispatched([Entry("a", 0, Routers.All, 0), Entry("b", 1, Routers.All, 1)], event, call, res, trace)
    ensures call(0, event).Err? ==>
              trace == [Entry("a", 0, Routers.All, 0)] && res == Err(call(0, event).error)
    ensures call(0, event).Ok? && call(1, event).Err? ==>
              trace == [Entry("a", 0, Routers.All, 0), Entry("b", 1, Routers.All, 1)]
              && res == Err(call(1, event).error)
  {
    var m := [Entry("a", 0, Routers.All, 0), Entry("b", 1, Routers.All, 1)];
    assert "a" != "b" by { assert "a"[0] != "b"[0]; }
    if call(0, event).Err? {
      FirstFailureStops(m, event, call, res, trace);
    } else if call(1, event).Err? {
      SecondFailureAfterFirst(m, event, call, res, trace);
    }
  }

  /** Every callback invoked for `trace` returned `Ok`. */
  ghost predicate Succeeded(trace: seq<Entry>, event: Routers.DynEvent,
                            call: (CallbackId, Routers.DynEvent) -> Result<string>)
  {
    forall e | e in trace :: call(e.callback, event).Ok?
  }

  /** The state of the queue while `Handler::input` drains it: every heap entry
      is the slot of a matched entry, the slot of every matched entry whose id
      is pending is still in the heap, the pending ids and the invoked ids split
      the matched ids, and every heap entry pops after the last invoked
      entry. */
  ghost predicate Draining(heap: set<EventEntry<Entry>>, finder: map<string, EventEntry<Entry>>,
                           matched: seq<Entry>, trace: seq<Entry>, ks: seq<nat>)
  {
    && (forall f | f in heap :: f.counter < |matched| && f == Slot(matched, f.counter))
    && (forall k | 0 <= k < |matched| && matched[k].id in finder :: Slot(matched, k) in heap)
    && finder.Keys !! IdsOf(trace)
    && finder.Keys + IdsOf(trace) == IdsOf(matched)
    && InvokedInOrder(matched, trace, ks)
    && (ks != [] ==> forall f | f in heap :: PopsBefore(matched, ks[|ks| - 1], f.counter))
  }

  /** Before the first pop, the queue built by `Handler::matches` is draining
      with nothing invoked. */
  lemma StartDraining(heap: set<EventEntry<Entry>>, finder: map<string, EventEntry<Entry>>, matched: seq<Entry>)
    requires Queued(heap, finder, |matched|, matched)
    ensures Draining(heap, finder, matched, [], [])
  {
    assert IdsOf([]) == {};
    forall k | 0 <= k < |matched| && matched[k].id in finder ensures Slot(matched, k) in heap {
      assert Slot(matched, k) == EventEntry(matched[k].priority, k, matched[k]);
    }
  }

  /** While draining, no matched entry has been skipped. */
  lemma DrainingNoneSkipped(heap: set<EventEntry<Entry>>, finder: map<string, EventEntry<Entry>>,
                            matched: seq<Entry>, trace: seq<Entry>, ks: seq<nat>)
    requires Draining(heap, finder, matched, trace, ks)
    ensures NoneSkipped(matched, trace, ks)
  {
    forall k | 0 <= k < |matched| && matched[k].id !in IdsOf(trace) && trace != []
      ensures PopsBefore(matched, ks[|ks| - 1], k)
    {
      assert matched[k].id in IdsOf(matched);
      assert Slot(matched, k) in heap;
    }
  }

  /** A callback that returned `Ok` extends the succeeded prefix. */
  lemma SucceededExtend(trace: seq<Entry>, next: Entry, event: Routers.DynEvent,
                        call: (CallbackId, Routers.DynEvent) -> Result<string>)
    requires Succeeded(trace, event, call) && call(next.callback, event).Ok?
    ensures Succeeded(trace + [next], event, call)
  {
  }

  /** Draining ends with every matched id invoked and every callback
      succeeded: an `Ok` dispatch. */
  lemma Finished(matched: seq<Entry>, event: Routers.DynEvent,
                 call: (CallbackId, Routers.DynEvent) -> Result<string>, trace: seq<Entry>, ks: seq<nat>)
    requires InvokedInOrder(matched, trace, ks) && Succeeded(trace, event, call)
    requires IdsOf(trace) == IdsOf(matched)
    ensures Dispatched(matched, event, call, Ok(()), trace)
  {
    forall k | 0 <= k < |matched| ensures matched[k].id in IdsOf(trace) {
      assert matched[k] in matched;
    }
    assert NoneSkipped(matched, trace, ks);
    if trace != [] {
      assert trace[|trace| - 1] in trace;
    }
  }

  /** Draining stops at the first callback that fails: an `Err` dispatch. */
  lemma Failed(matched: seq<Entry>, event: Routers.DynEvent,
               call: (CallbackId, Routers.DynEvent) -> Result<string>, trace: seq<Entry>, last: Entry, ks: seq<nat>)
    requires InvokedInOrder(matched, trace + [last], ks) && NoneSkipped(matched, trace + [last], ks)
    requires Succeeded(trace, event, call)
    requires call(last.callback, event).Err?
    ensures Dispatched(matched, event, call, Err(call(last.callback, event).error), trace + [last])
  {
    assert (trace + [last])[..|trace|] == trace;
  }

  /** Removing a present key shrinks a map: the measure of the drain loop. */
  lemma RemoveShrinks<K, V>(m: map<K, V>, k: K)
    requires k in m
    ensures |m - {k}| < |m|
  {
    assert (m - {k}).Keys == m.Keys - {k};
  }

  /** One successful pop keeps `Draining` with the popped entry appended to the
      trace: the pop leaves only entries ranked below it, so it pops after
      every entry invoked before and before every entry still in the heap. */
  lemma DrainStep(heap: set<EventEntry<Entry>>, finder: map<string, EventEntry<Entry>>,
                  heap': set<EventEntry<Entry>>, finder': map<string, EventEntry<Entry>>,
                  matched: seq<Entry>, trace: seq<Entry>, ks: seq<nat>, top: EventEntry<Entry>)
    requires Draining(heap, finder, matched, trace, ks)
    requires top in heap && top.item.id in finder && finder' == finder - {top.item.id}
    requires heap' <= heap && forall f | f in heap' :: Queue.Cmp(f, top) == Less
    requires forall f | f in heap && f.item.id in finder' :: f in heap'
    requires forall f | f in heap && f.item.id in finder :: Queue.Cmp(f, top) != Greater
    ensures Draining(heap', finder', matched, trace + [top.item], ks + [top.counter])
  {
    var t, ks' := trace + [top.item], ks + [top.counter];
    assert top == Slot(matched, top.counter);
    forall k | 0 <= k < |matched| && k != top.counter && matched[k].id == top.item.id
      ensures PopsBefore(matched, top.counter, k)
    {
      assert Slot(matched, k) in heap;
    }
    IdsOfAppend(trace, [top.item]);
    assert IdsOf([top.item]) == {top.item.id};
    forall a, b | 0 <= a < b < |ks'| ensures PopsBefore(matched, ks'[a], ks'[b]) {
      if b == |ks| && a < |ks| - 1 {
        assert PopsBefore(matched, ks[a], ks[|ks| - 1]);
      }
    }
    forall i, j | 0 <= i < j < |t| ensures t[i].id != t[j].id {
      if j == |trace| {
        assert t[i] in trace;
      }
    }
  }

  class Handler {
    var entries: seq<Entry>

    /** `Handler::new`. */
    constructor (entries: seq<Entry>)
      ensures this.entries == entries
    {
      this.entries := entries;
    }

    /** `Handler::empty`. */
    constructor Empty()
      ensures entries == []
    {
      entries := [];
    }

    /** `Handler::extend`: appends after the existing entries, in order. */
    method Extend(es: seq<Entry>)
      modifies this
      ensures entries == old(entries) + es
    {
      entries := entries + es;
    }

    /** `Handler::matches`: a fresh queue holding the matching entries in list
        order: the `k`-th of them at its own priority with counter `k`, pending
        under its id; `entries` is only read. */
    method Matches(event: Routers.DynEvent) returns (q: EventQueue<string, Entry>)
      ensures fresh(q) && q.Valid() && q.key == IdOf
      ensures var m := Matching(entries, event);
              && q.heap == QueueOf(m)
              && q.counter == |m|
              && q.entryFinder.Keys == IdsOf(m)
    {
      q := new EventQueue(IdOf);
      for i := 0 to |entries|
        invariant fresh(q) && q.Valid() && q.key == IdOf
        invariant Queued(q.heap, q.entryFinder, q.counter, Matching(entries[..i], event))
      {
        QueueMatching(q, entries, i, event);
      }
      assert entries[..|entries|] == entries;
    }

    /** `Handler::input`: drains the queue of matching entries, invoking each
        callback on the event and stopping at the first error. */
    method Input(event: Routers.DynEvent, call: (CallbackId, Routers.DynEvent) -> Result<string>)
      returns (res: Result<()>, trace: seq<Entry>)
      ensures Dispatched(Matching(entries, event), event, call, res, trace)
    {
      var q := Matches(event);
      ghost var matched := Matching(entries, event);
      assert Queued(q.heap, q.entryFinder, q.counter, matched);
      StartDraining(q.heap, q.entryFinder, matched);
      trace := [];
      ghost var ks: seq<nat> := [];
      while true
        invariant fresh(q) && q.Valid() && q.key == IdOf
        invariant Draining(q.heap, q.entryFinder, matched, trace, ks)
        invariant Succeeded(trace, event, call)
        decreases |q.entryFinder|
      {
        var stop;
        stop, res, trace, ks := InvokeNext(q, event, call, matched, trace, ks);
        if stop {
          return;
        }
      }
    }
  }

  /** One turn of the loop of `Handler::input`: pops the next entry and
      invokes its callback; `stop` tells whether the dispatch is over. */
  method InvokeNext(q: EventQueue<string, Entry>, event: Routers.DynEvent,
                    call: (CallbackId, Routers.DynEvent) -> Result<string>,
                    ghost matched: seq<Entry>, trace: seq<Entry>, ghost ks: seq<nat>)
    returns (stop: bool, res: Result<()>, trace': seq<Entry>, ghost ks': seq<nat>)
    requires q.Valid() && q.key == IdOf
    requires Draining(q.heap, q.entryFinder, matched, trace, ks) && Succeeded(trace, event, call)
    modifies q
    ensures q.Valid()
    ensures stop ==> Dispatched(matched, event, call, res, trace')
    ensures !stop ==> Draining(q.heap, q.entryFinder, matched, trace', ks') && Succeeded(trace', event, call)
    ensures !stop ==> |q.entryFinder| < old(|q.entryFinder|)
  {
    var next;
    next, ks' := PopNext(q, matched, trace, ks);
    if next.None? {
      Finished(matched, event, call, trace, ks);
      return true, Ok(()), trace, ks;
    }
    DrainingNoneSkipped(q.heap, q.entryFinder, matched, trace + [next.value], ks');
    stop, res, trace' := Invoke(next.value, event, call, matched, trace, ks');
  }

  /** The callback invocation of one turn of `Handler::input`: the `?` stops
      the dispatch with the callback's error. */
  method Invoke(next: Entry, event: Routers.DynEvent,
                call: (CallbackId, Routers.DynEvent) -> Result<string>,
                ghost matched: seq<Entry>, trace: seq<Entry>, ghost ks: seq<nat>)
    returns (stop: bool, res: Result<()>, trace': seq<Entry>)
    requires InvokedInOrder(matched, trace + [next], ks) && NoneSkipped(matched, trace + [next], ks)
    requires Succeeded(trace, event, call)
    ensures trace' == trace + [next]
    ensures stop <==> call(next.callback, event).Err?
    ensures stop ==> Dispatched(matched, event, call, res, trace')
    ensures !stop ==> Succeeded(trace', event, call)
  {
    var outcome := call(next.callback, event);
    if outcome.Err? {
      Failed(matched, event, call, trace, next, ks);
      return true, Err(outcome.error), trace + [next];
    }
    SucceededExtend(trace, next, event, call);
    return false, Ok(()), trace + [next];
  }

  /** One `push` of `Handler::matches`. */
  method QueueMatching(q: EventQueue<string, Entry>, es: seq<Entry>, i: nat, event: Routers.DynEvent)
    requires i < |es|
    requires q.Valid() && q.key == IdOf
    requires Queued(q.heap, q.entryFinder, q.counter, Matching(es[..i], event))
    modifies q
    ensures q.Valid() && q.key == IdOf
    ensures Queued(q.heap, q.entryFinder, q.counter, Matching(es[..i + 1], event))
  {
    var done, e := es[..i], es[i];
    assert es[..i + 1] == done + [e];
    MatchingAppend(done, e, event);
    ghost var m := Matching(done, event);
    if Routers.Matches(e.router, event) {
      QueuedPush(q.heap, q.entryFinder, m, e);
      q.Push(e.priority, e);
      assert Matching(es[..i + 1], event) == m + [e];
    } else {
      assert Matching(es[..i + 1], event) == m;
    }
  }

  /** One `pop` of `Handler::input`: the next entry to invoke, if any. */
  method PopNext(q: EventQueue<string, Entry>, ghost matched: seq<Entry>, ghost trace: seq<Entry>,
                 ghost ks: seq<nat>)
    returns (next: Option<Entry>, ghost ks': seq<nat>)
    requires q.Valid() && q.key == IdOf
    requires Draining(q.heap, q.entryFinder, matched, trace, ks)
    modifies q
    ensures q.Valid() && q.key == IdOf
    ensures next.None? ==> IdsOf(trace) == IdsOf(matched)
    ensures next.Some? ==> Draining(q.heap, q.entryFinder, matched, trace + [next.value], ks')
    ensures next.Some? ==> |q.entryFinder| < old(|q.entryFinder|)
  {
    ghost var heap, finder := q.heap, q.entryFinder;
    ghost var top;
    next, top := q.Pop();
    ks' := ks;
    if next.Some? {
      DrainStep(heap, finder, q.heap, q.entryFinder, matched, trace, ks, top.value);
      RemoveShrinks(finder, next.value.id);
      ks' := ks + [top.value.counter];
    }
  }
}
