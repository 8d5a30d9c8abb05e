/** The priority queue of `crates/aionbot-core/src/queue.rs`: a binary heap of
    `(priority, counter, item)` entries, an `entry_finder` index from each pending
    item to its entry, a monotone `counter` and an `order_queue` of pending items.
    Removal is lazy: the index forgets the item, the heap keeps its entry, and
    `pop` discards heap entries whose item is no longer indexed. */
module Queue {
  import opened Common

  /** One heap slot (`EventEntry<T>`). */
  datatype EventEntry<T> = EventEntry(priority: i8, counter: nat, item: T)

  /** `Ord for EventEntry`: priorities compared reversed, then counters.
      `BinaryHeap` pops the greatest entry, so `Greater` means "pops first":
      a smaller priority, or the same priority and a later push. */
  function Cmp<T>(a: EventEntry<T>, b: EventEntry<T>): (o: Ordering)
    ensures o == Greater <==> a.priority < b.priority || (a.priority == b.priority && a.counter > b.counter)
    ensures o == Less <==> b.priority < a.priority || (a.priority == b.priority && a.counter < b.counter)
    ensures o == Equal <==> a.priority == b.priority && a.counter == b.counter
  {
    var byPriority := CompareInt(b.priority as int, a.priority as int);
    if byPriority != Equal then byPriority else CompareInt(a.counter, b.counter)
  }

  /** `e` is an entry `BinaryHeap::pop` may return from `h`: nothing in `h` is greater. */
  predicate IsTop<T(==)>(e: EventEntry<T>, h: set<EventEntry<T>>)
  {
    e in h && forall f | f in h :: Cmp(f, e) != Greater
  }

  /** Every non-empty heap has a top entry, so `pop` on it always returns something. */
  lemma {:induction false} TopExists<T>(h: set<EventEntry<T>>)
    requires h != {}
    ensures exists e :: IsTop(e, h)
  {
    var y :| y in h;
    var rest := h - {y};
    if rest == {} {
      assert h == rest + {y};
      assert IsTop(y, h);
    } else {
      TopExists(rest);
      var m :| IsTop(m, rest);
      if Cmp(y, m) == Greater {
        forall f | f in h ensures Cmp(f, y) != Greater {
          if f != y {
            assert f in rest;
          }
        }
        assert IsTop(y, h);
      } else {
        forall f | f in h ensures Cmp(f, m) != Greater {
          if f != y {
            assert f in rest;
          }
        }
        assert IsTop(m, h);
      }
    }
  }

  /** `order_queue.retain(|x| x != item)`: drops every element whose key is `k`. */
  function Without<K(==), T>(s: seq<T>, key: T -> K, k: K): (r: seq<T>)
    ensures forall x | x in r :: x in s && key(x) != k
    ensures forall x | x in s && key(x) != k :: x in r
    ensures |r| <= |s|
  {
    if s == [] then []
    else if key(s[0]) == k then Without(s[1..], key, k)
    else [s[0]] + Without(s[1..], key, k)
  }

  lemma {:induction false} WithoutAbsent<K, T>(s: seq<T>, key: T -> K, k: K)
    requires forall i | 0 <= i < |s| :: key(s[i]) != k
    ensures Without(s, key, k) == s
  {
    if s != [] {
      WithoutAbsent(s[1..], key, k);
    }
  }

  /** The keys of the items of `s`. */
  ghost function KeysOf<K, T>(s: seq<T>, key: T -> K): set<K>
  {
    if s == [] then {} else {key(s[0])} + KeysOf(s[1..], key)
  }

  lemma {:induction false} KeysOfWithout<K, T>(s: seq<T>, key: T -> K, k: K)
    ensures KeysOf(Without(s, key, k), key) == KeysOf(s, key) - {k}
  {
    if s != [] {
      KeysOfWithout(s[1..], key, k);
      if key(s[0]) != k {
        assert Without(s, key, k) == [s[0]] + Without(s[1..], key, k);
        assert ([s[0]] + Without(s[1..], key, k))[1..] == Without(s[1..], key, k);
      }
    }
  }

  /** The `order_queue` invariant: every element is indexed under its key, with
      the indexed item itself, and counters strictly decrease front to back, so
      the newest push is at the front and no key occurs twice. */
  ghost predicate NewestFirst<K, T>(s: seq<T>, key: T -> K, finder: map<K, EventEntry<T>>)
  {
    && (forall i | 0 <= i < |s| :: key(s[i]) in finder && finder[key(s[i])].item == s[i])
    && (forall i, j | 0 <= i < j < |s| :: finder[key(s[i])].counter > finder[key(s[j])].counter)
  }

  lemma {:induction false} WithoutNewestFirst<K, T>(s: seq<T>, key: T -> K, finder: map<K, EventEntry<T>>, k: K)
    requires NewestFirst(s, key, finder)
    ensures NewestFirst(Without(s, key, k), key, finder - {k})
  {
    if s != [] {
      WithoutNewestFirst(s[1..], key, finder, k);
      if key(s[0]) != k {
        var r := Without(s, key, k);
        var tail := Without(s[1..], key, k);
        assert r == [s[0]] + tail;
        forall j | 0 < j < |r| ensures finder[key(r[0])].counter > finder[key(r[j])].counter {
          assert r[j] in tail;
          var m :| 1 <= m < |s| && s[m] == r[j];
        }
      }
    }
  }

  /** No two heap entries share a counter. */
  ghost predicate UniqueCounters<T>(heap: set<EventEntry<T>>)
  {
    forall f, g | f in heap && g in heap && f.counter == g.counter :: f == g
  }

  /** The invariant of the four fields together: every indexed entry is in the
      heap under its own key, every counter was handed out already and by one
      push only, and `order_queue` lists exactly the indexed items, newest first. */
  ghost predicate Inv<K, T>(key: T -> K, heap: set<EventEntry<T>>, finder: map<K, EventEntry<T>>,
                            counter: nat, orderQueue: seq<T>)
  {
    && (forall k | k in finder :: key(finder[k].item) == k && finder[k] in heap)
    && (forall f | f in heap :: f.counter < counter)
    && UniqueCounters(heap)
    && NewestFirst(orderQueue, key, finder)
    && KeysOf(orderQueue, key) == finder.Keys
  }

  lemma UnindexKeepsInv<K, T>(key: T -> K, heap: set<EventEntry<T>>, finder: map<K, EventEntry<T>>,
                              counter: nat, orderQueue: seq<T>, k: K)
    requires Inv(key, heap, finder, counter, orderQueue)
    ensures Inv(key, heap, finder - {k}, counter, Without(orderQueue, key, k))
  {
    WithoutNewestFirst(orderQueue, key, finder, k);
    KeysOfWithout(orderQueue, key, k);
  }

  /** Unindexing a key that is not indexed changes nothing. */
  lemma UnindexAbsent<K, T>(key: T -> K, heap: set<EventEntry<T>>, finder: map<K, EventEntry<T>>,
                            counter: nat, orderQueue: seq<T>, k: K)
    requires Inv(key, heap, finder, counter, orderQueue) && k !in finder
    ensures finder - {k} == finder && Without(orderQueue, key, k) == orderQueue
  {
    WithoutAbsent(orderQueue, key, k);
  }

  lemma IndexKeepsInv<K, T>(key: T -> K, heap: set<EventEntry<T>>, finder: map<K, EventEntry<T>>,
                            counter: nat, orderQueue: seq<T>, e: EventEntry<T>)
    requires Inv(key, heap, finder, counter, orderQueue)
    requires key(e.item) !in finder && e.counter == counter
    ensures Inv(key, heap + {e}, finder[key(e.item) := e], counter + 1, [e.item] + orderQueue)
  {
    var finder' := finder[key(e.item) := e];
    var oq := [e.item] + orderQueue;
    assert oq[1..] == orderQueue;
    forall i | 0 <= i < |oq| ensures key(oq[i]) in finder' && finder'[key(oq[i])].item == oq[i] {
      if i > 0 {
        assert oq[i] == orderQueue[i - 1];
      }
    }
    forall i, j | 0 <= i < j < |oq| ensures finder'[key(oq[i])].counter > finder'[key(oq[j])].counter {
      assert oq[j] == orderQueue[j - 1];
      if i > 0 {
        assert oq[i] == orderQueue[i - 1];
      }
    }
  }

  /** Dropping heap entries keeps the invariant as long as every indexed entry
      stays; with an empty heap nothing is indexed. */
  lemma ShrinkKeepsInv<K, T>(key: T -> K, heap: set<EventEntry<T>>, heap': set<EventEntry<T>>,
                             finder: map<K, EventEntry<T>>, counter: nat, orderQueue: seq<T>)
    requires Inv(key, heap, finder, counter, orderQueue)
    requires heap' <= heap
    requires forall f | f in heap && key(f.item) in finder :: f in heap'
    ensures Inv(key, heap', finder, counter, orderQueue)
    ensures heap' == {} ==> finder == map[]
  {
    if finder != map[] {
      assert finder.Keys != {};
      var k :| k in finder;
      assert finder[k] in heap';
    }
  }

  lemma ReindexAfterRemove<K, V>(m: map<K, V>, k: K, v: V)
    ensures (m - {k})[k := v] == m[k := v]
  {
  }

  /** The queue. `key` stands for the item type's `Eq`/`Hash`: `entry_finder` and
      `order_queue.retain` identify items by it. The `BinaryHeap` is kept as the
      set of its entries: each entry carries a counter no earlier entry has, so
      the heap never holds two equal entries. */
  class EventQueue<K(==), T(==)> {
    const key: T -> K
    var heap: set<EventEntry<T>>
    var entryFinder: map<K, EventEntry<T>>
    var counter: nat
    var orderQueue: seq<T>

    ghost predicate Valid()
      reads this
    {
      Inv(key, heap, entryFinder, counter, orderQueue)
    }

    /** `EventQueue::new`. */
    constructor (key: T -> K)
      ensures Valid() && this.key == key
      ensures heap == {} && entryFinder == map[] && counter == 0 && orderQueue == []
    {
      this.key := key;
      heap := {};
      entryFinder := map[];
      counter := 0;
      orderQueue := [];
    }

    /** `EventQueue::remove`: forgets the item; its heap entry stays behind. */
    method Remove(item: T)
      requires Valid()
      modifies this
      ensures Valid()
      ensures entryFinder == old(entryFinder) - {key(item)}
      ensures heap == old(heap) && counter == old(counter)
      ensures orderQueue == Without(old(orderQueue), key, key(item))
    {
      if key(item) in entryFinder {
        UnindexKeepsInv(key, heap, entryFinder, counter, orderQueue, key(item));
        entryFinder := entryFinder - {key(item)};
        orderQueue := Without(orderQueue, key, key(item));
      } else {
        UnindexAbsent(key, heap, entryFinder, counter, orderQueue, key(item));
      }
    }

    /** `EventQueue::push`: a pending item is removed first, so the index holds
        one entry per key; an old heap entry for the item is not deleted. */
    method Push(priority: i8, item: T)
      requires Valid()
      modifies this
      ensures Valid()
      ensures counter == old(counter) + 1
      ensures heap == old(heap) + {EventEntry(priority, old(counter), item)}
      ensures entryFinder == old(entryFinder)[key(item) := EventEntry(priority, old(counter), item)]
      ensures orderQueue == [item] + Without(old(orderQueue), key, key(item))
    {
      if key(item) in entryFinder {
        ghost var before := entryFinder;
        Remove(item);
        ReindexAfterRemove(before, key(item), EventEntry(priority, counter, item));
      } else {
        UnindexAbsent(key, heap, entryFinder, counter, orderQueue, key(item));
      }
      var entry := EventEntry(priority, counter, item);
      IndexKeepsInv(key, heap, entryFinder, counter, orderQueue, entry);
      counter := counter + 1;
      entryFinder := entryFinder[key(item) := entry];
      heap := heap + {entry};
      orderQueue := [item] + orderQueue;
    }

    /** `BinaryHeap::pop` on the `heap` field: removes and returns a greatest
        entry under `Cmp`, or nothing when the heap is empty. */
    method HeapPop() returns (next: Option<EventEntry<T>>)
      modifies this`heap
      ensures next.None? <==> old(heap) == {}
      ensures next.None? ==> heap == old(heap)
      ensures next.Some? ==> IsTop(next.value, old(heap)) && heap == old(heap) - {next.value}
    {
      if heap == {} {
        return None;
      }
      TopExists(heap);
      var e :| IsTop(e, heap);
      heap := heap - {e};
      return Some(e);
    }

    /** `EventQueue::pop`: takes top heap entries until one whose item is still
        indexed; that item is returned and unindexed. `top` is the heap entry it
        came from. */
    method Pop() returns (r: Option<T>, ghost top: Option<EventEntry<T>>)
      requires Valid()
      modifies this
      ensures Valid()
      ensures counter == old(counter)
      ensures r.None? <==> old(entryFinder) == map[]
      ensures r.None? ==> heap == {} && entryFinder == old(entryFinder) && orderQueue == old(orderQueue)
      ensures r.Some? ==>
        && top.Some? && top.value.item == r.value && top.value in old(heap)
        && key(r.value) in old(entryFinder)
        && entryFinder == old(entryFinder) - {key(r.value)}
        && orderQueue == Without(old(orderQueue), key, key(r.value))
      ensures r.Some? ==> forall f | f in old(heap) && key(f.item) in old(entryFinder) :: Cmp(f, top.value) != Greater
      ensures r.Some? ==> forall f | f in old(heap) :: f in heap <==> Cmp(f, top.value) == Less
      ensures heap <= old(heap)
      ensures forall f | f in old(heap) && key(f.item) in entryFinder :: f in heap
    {
      ghost var start := heap;
      var next := SkipStale();
      if next.None? {
        ShrinkKeepsInv(key, start, heap, entryFinder, counter, orderQueue);
        return None, None;
      }
      var e := next.value;
      UnindexKeepsInv(key, start, entryFinder, counter, orderQueue, key(e.item));
      ShrinkKeepsInv(key, start, heap, entryFinder - {key(e.item)}, counter, Without(orderQueue, key, key(e.item)));
      entryFinder := entryFinder - {key(e.item)};
      orderQueue := Without(orderQueue, key, key(e.item));
      assert forall f | f in heap :: f != e && Cmp(f, e) != Greater;
      return Some(e.item), next;
    }

    /** The loop of `EventQueue::pop`: takes top heap entries until one whose
        item is indexed, and returns that entry, or nothing once the heap is
        empty. Only the heap changes. */
    method SkipStale() returns (next: Option<EventEntry<T>>)
      modifies this`heap
      ensures heap <= old(heap)
      ensures next.None? ==> heap == {} && forall f | f in old(heap) :: key(f.item) !in entryFinder
      ensures next.Some? ==>
        forall f | f in old(heap) && key(f.item) in entryFinder - {key(next.value.item)} :: f in heap
      ensures next.Some? ==>
        && next.value in old(heap) && key(next.value.item) in entryFinder
        && forall f | f in old(heap) && key(f.item) in entryFinder :: Cmp(f, next.value) != Greater
      ensures next.Some? ==> next.value !in heap && forall f | f in heap :: Cmp(f, next.value) != Greater
      ensures next.Some? ==> forall f | f in old(heap) && f !in heap :: Cmp(f, next.value) != Less
    {
      ghost var start := heap;
      while true
        invariant heap <= start
        invariant forall f | f in start && key(f.item) in entryFinder :: f in heap
        invariant forall f, g | f in start && f !in heap && g in heap :: Cmp(g, f) != Greater
        decreases |heap|
      {
        next := HeapPop();
        if next.None? {
          return;
        }
        if key(next.value.item) in entryFinder {
          return;
        }
      }
    }

    /** `EventQueue::is_empty`: asks the heap, not the index. */
    function IsEmpty(): (b: bool)
      reads this
      ensures b <==> heap == {}
    {
      heap == {}
    }
  }
}
