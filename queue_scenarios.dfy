/** Clients of `Queue.EventQueue` that pin down its observable behaviour: the
    unit test of queue.rs, lazy removal, re-pushing, and the order of
    successive pops. */
module QueueScenarios {
  import opened Common
  import opened Queue

  function Identity(c: char): char { c }

  /** The unit test of queue.rs: equal priorities pop newest first. */
  method PushFiveThenDrain() returns (popped: seq<Option<char>>)
    ensures popped == [Some('e'), Some('a'), Some('d'), Some('b'), Some('c'), None]
  {
    var q, h, live := PushFive();
    popped := DrainFive(q, h, live);
  }

  /** A fresh queue after three pushes of items not pending yet or pending. */
  method PushThree(p1: i8, c1: char, p2: i8, c2: char, p3: i8, c3: char)
    returns (q: EventQueue<char, char>, ghost h: set<EventEntry<char>>, ghost live: set<char>)
    ensures fresh(q) && q.Valid() && q.key == Identity && q.counter == 3
    ensures h == {} + {EventEntry(p1, 0, c1)} + {EventEntry(p2, 1, c2)} + {EventEntry(p3, 2, c3)}
    ensures live == {} + {c1} + {c2} + {c3}
    ensures q.heap == h && q.entryFinder.Keys == live
  {
    q := new EventQueue<char, char>(Identity);
    h, live := {}, {};
    PushExpecting(q, p1, c1, h, live);
    h, live := h + {EventEntry(p1, 0, c1)}, live + {c1};
    PushExpecting(q, p2, c2, h, live);
    h, live := h + {EventEntry(p2, 1, c2)}, live + {c2};
    PushExpecting(q, p3, c3, h, live);
    h, live := h + {EventEntry(p3, 2, c3)}, live + {c3};
  }

  /** The pushes of the unit test of queue.rs. */
  method PushFive() returns (q: EventQueue<char, char>, ghost h: set<EventEntry<char>>, ghost live: set<char>)
    ensures fresh(q) && q.Valid() && q.key == Identity
    ensures h == {EventEntry(1, 0, 'a'), EventEntry(2, 1, 'b'), EventEntry(3, 2, 'c'), EventEntry(2, 3, 'd'), EventEntry(1, 4, 'e')}
    ensures live == {'a', 'b', 'c', 'd', 'e'}
    ensures q.heap == h && q.entryFinder.Keys == live
  {
    q, h, live := PushThree(1, 'a', 2, 'b', 3, 'c');
    PushExpecting(q, 2, 'd', h, live);
    h, live := h + {EventEntry(2, 3, 'd')}, live + {'d'};
    PushExpecting(q, 1, 'e', h, live);
    h, live := h + {EventEntry(1, 4, 'e')}, live + {'e'};
    FiveUnions(h, live);
  }

  lemma FiveUnions(h: set<EventEntry<char>>, live: set<char>)
    requires h == {} + {EventEntry(1, 0, 'a')} + {EventEntry(2, 1, 'b')} + {EventEntry(3, 2, 'c')}
                     + {EventEntry(2, 3, 'd')} + {EventEntry(1, 4, 'e')}
    requires live == {} + {'a'} + {'b'} + {'c'} + {'d'} + {'e'}
    ensures h == {EventEntry(1, 0, 'a'), EventEntry(2, 1, 'b'), EventEntry(3, 2, 'c'), EventEntry(2, 3, 'd'), EventEntry(1, 4, 'e')}
    ensures live == {'a', 'b', 'c', 'd', 'e'}
  {
  }

  /** One push: its entry joins the heap and its key joins the index, whether
      or not the item was pending. */
  method PushExpecting(q: EventQueue<char, char>, p: i8, c: char, ghost h: set<EventEntry<char>>, ghost live: set<char>)
    requires q.Valid() && q.key == Identity
    requires q.heap == h && q.entryFinder.Keys == live
    modifies q
    ensures q.Valid()
    ensures q.heap == h + {EventEntry(p, old(q.counter), c)} && q.entryFinder.Keys == live + {c}
    ensures q.counter == old(q.counter) + 1
  {
    q.Push(p, c);
  }

  /** The pops of the unit test of queue.rs. */
  method DrainFive(q: EventQueue<char, char>, ghost h: set<EventEntry<char>>, ghost live: set<char>)
    returns (popped: seq<Option<char>>)
    requires q.Valid() && q.key == Identity
    requires h == {EventEntry(1, 0, 'a'), EventEntry(2, 1, 'b'), EventEntry(3, 2, 'c'), EventEntry(2, 3, 'd'), EventEntry(1, 4, 'e')}
    requires live == {'a', 'b', 'c', 'd', 'e'}
    requires q.heap == h && q.entryFinder.Keys == live
    modifies q
    ensures popped == [Some('e'), Some('a'), Some('d'), Some('b'), Some('c'), None]
  {
    FiveRanks(h, live);
    var r1 := PopExpecting(q, h, EventEntry(1, 4, 'e'), live);
    var r2 := PopExpecting(q, h, EventEntry(1, 0, 'a'), live - {'e'});
    var r3, r4 := DrainDB(q, h, live);
    var r5, r6 := DrainC(q, h, live);
    popped := [r1, r2, r3, r4, r5, r6];
  }

  /** The third and fourth pops of the unit test of queue.rs. */
  method DrainDB(q: EventQueue<char, char>, ghost h: set<EventEntry<char>>, ghost live: set<char>)
    returns (r3: Option<char>, r4: Option<char>)
    requires q.Valid() && q.key == Identity
    requires h == {EventEntry(1, 0, 'a'), EventEntry(2, 1, 'b'), EventEntry(3, 2, 'c'), EventEntry(2, 3, 'd'), EventEntry(1, 4, 'e')}
    requires live == {'a', 'b', 'c', 'd', 'e'}
    requires q.heap <= h && q.entryFinder.Keys == live - {'e'} - {'a'}
    requires forall f | f in h && f.item in live - {'e'} - {'a'} :: f in q.heap
    modifies q
    ensures q.Valid()
    ensures r3 == Some('d') && r4 == Some('b')
    ensures q.heap <= h && q.entryFinder.Keys == live - {'e'} - {'a'} - {'d'} - {'b'}
    ensures forall f | f in h && f.item in live - {'e'} - {'a'} - {'d'} - {'b'} :: f in q.heap
  {
    FiveRanks(h, live);
    r3 := PopExpecting(q, h, EventEntry(2, 3, 'd'), live - {'e'} - {'a'});
    r4 := PopExpecting(q, h, EventEntry(2, 1, 'b'), live - {'e'} - {'a'} - {'d'});
  }

  /** The last two pops of the unit test of queue.rs. */
  method DrainC(q: EventQueue<char, char>, ghost h: set<EventEntry<char>>, ghost live: set<char>)
    returns (r5: Option<char>, r6: Option<char>)
    requires q.Valid() && q.key == Identity
    requires h == {EventEntry(1, 0, 'a'), EventEntry(2, 1, 'b'), EventEntry(3, 2, 'c'), EventEntry(2, 3, 'd'), EventEntry(1, 4, 'e')}
    requires live == {'a', 'b', 'c', 'd', 'e'}
    requires q.heap <= h && q.entryFinder.Keys == live - {'e'} - {'a'} - {'d'} - {'b'}
    requires forall f | f in h && f.item in live - {'e'} - {'a'} - {'d'} - {'b'} :: f in q.heap
    modifies q
    ensures r5 == Some('c') && r6 == None
  {
    FiveRanks(h, live);
    r5 := PopExpecting(q, h, EventEntry(3, 2, 'c'), live - {'e'} - {'a'} - {'d'} - {'b'});
    assert q.entryFinder == map[];
    ghost var t6;
    r6, t6 := q.Pop();
  }

  /** One pop of a queue whose entries all lie in `h` and which holds every
      entry of `h` whose item is pending, where `e` outranks every other such
      entry: the pop releases `e.item` and keeps the other pending entries. */
  method PopExpecting(q: EventQueue<char, char>, ghost h: set<EventEntry<char>>,
                      ghost e: EventEntry<char>, ghost live: set<char>) returns (r: Option<char>)
    requires q.Valid() && q.key == Identity
    requires q.heap <= h && q.entryFinder.Keys == live
    requires forall f | f in h && f.item in live :: f in q.heap
    requires e in h && e.item in live
    requires forall f | f in h && f.item in live && f != e :: Cmp(e, f) == Greater
    modifies q
    ensures q.Valid()
    ensures r == Some(e.item)
    ensures q.heap <= h && q.entryFinder.Keys == live - {e.item}
    ensures forall f | f in h && f.item in live - {e.item} :: f in q.heap
  {
    ghost var top;
    r, top := q.Pop();
    assert Cmp(e, top.value) != Greater;
  }

  /** The ranks of the entries of the unit test, stage by stage. */
  lemma FiveRanks(h: set<EventEntry<char>>, live: set<char>)
    requires h == {EventEntry(1, 0, 'a'), EventEntry(2, 1, 'b'), EventEntry(3, 2, 'c'), EventEntry(2, 3, 'd'), EventEntry(1, 4, 'e')}
    requires live == {'a', 'b', 'c', 'd', 'e'}
    ensures forall f | f in h && f.item in live && f != EventEntry(1, 4, 'e') :: Cmp(EventEntry(1, 4, 'e'), f) == Greater
    ensures forall f | f in h && f.item in live - {'e'} && f != EventEntry(1, 0, 'a') :: Cmp(EventEntry(1, 0, 'a'), f) == Greater
    ensures forall f | f in h && f.item in live - {'e'} - {'a'} && f != EventEntry(2, 3, 'd') :: Cmp(EventEntry(2, 3, 'd'), f) == Greater
    ensures forall f | f in h && f.item in live - {'e'} - {'a'} - {'d'} && f != EventEntry(2, 1, 'b') :: Cmp(EventEntry(2, 1, 'b'), f) == Greater
    ensures forall f | f in h && f.item in live - {'e'} - {'a'} - {'d'} - {'b'} && f != EventEntry(3, 2, 'c') :: Cmp(EventEntry(3, 2, 'c'), f) == Greater
    ensures live - {'e'} - {'a'} - {'d'} - {'b'} - {'c'} == {}
  {
  }

  /** `is_empty` asks the heap: after `push(p, x); remove(x)` the queue is not
      empty, yet `pop` finds nothing. */
  method RemoveLeavesStaleEntry(p: i8, x: char) returns (empty: bool, popped: Option<char>)
    ensures !empty && popped == None
  {
    var q := new EventQueue<char, char>(Identity);
    q.Push(p, x);
    q.Remove(x);
    empty := q.IsEmpty();
    ghost var t;
    popped, t := q.Pop();
  }

  /** Pushing a pending item again leaves one pending copy: it pops once. */
  method RepushPopsOnce(p1: i8, p2: i8, x: char) returns (first: Option<char>, second: Option<char>)
    ensures first == Some(x) && second == None
  {
    var q := new EventQueue<char, char>(Identity);
    q.Push(p1, x);
    q.Push(p2, x);
    ghost var t1, t2;
    first, t1 := q.Pop();
    second, t2 := q.Pop();
  }

  /** The newest priority of a re-pushed item does not decide its turn: the
      stale entry of `x` at priority 1 comes first and releases `x` ahead of
      `y`, although `x` was last pushed at priority 3. */
  method StaleEntryDecidesTurn() returns (popped: seq<Option<char>>)
    ensures popped == [Some('x'), Some('y'), None]
  {
    var q, h, live := PushThree(1, 'x', 2, 'y', 3, 'x');
    var r1, r2, r3 := DrainXY(q, h, live);
    popped := [r1, r2, r3];
  }

  /** The pops of `StaleEntryDecidesTurn`. */
  method DrainXY(q: EventQueue<char, char>, ghost h: set<EventEntry<char>>, ghost live: set<char>)
    returns (r1: Option<char>, r2: Option<char>, r3: Option<char>)
    requires q.Valid() && q.key == Identity
    requires h == {} + {EventEntry(1, 0, 'x')} + {EventEntry(2, 1, 'y')} + {EventEntry(3, 2, 'x')}
    requires live == {} + {'x'} + {'y'} + {'x'}
    requires q.heap == h && q.entryFinder.Keys == live
    modifies q
    ensures r1 == Some('x') && r2 == Some('y') && r3 == None
  {
    ThreeRanks(h, live);
    r1 := PopExpecting(q, h, EventEntry(1, 0, 'x'), live);
    r2 := PopExpecting(q, h, EventEntry(2, 1, 'y'), live - {'x'});
    assert q.entryFinder == map[];
    ghost var t3;
    r3, t3 := q.Pop();
  }

  /** The ranks of the entries of `StaleEntryDecidesTurn`, stage by stage. */
  lemma ThreeRanks(h: set<EventEntry<char>>, live: set<char>)
    requires h == {} + {EventEntry(1, 0, 'x')} + {EventEntry(2, 1, 'y')} + {EventEntry(3, 2, 'x')}
    requires live == {} + {'x'} + {'y'} + {'x'}
    ensures forall f | f in h && f.item in live && f != EventEntry(1, 0, 'x') :: Cmp(EventEntry(1, 0, 'x'), f) == Greater
    ensures forall f | f in h && f.item in live - {'x'} && f != EventEntry(2, 1, 'y') :: Cmp(EventEntry(2, 1, 'y'), f) == Greater
    ensures live - {'x'} - {'y'} == {}
  {
  }

  /** After `remove(x)` the next `pop` does not return `x`. */
  method RemoveThenPop<K(==), T(==)>(q: EventQueue<K, T>, x: T) returns (r: Option<T>)
    requires q.Valid()
    modifies q
    ensures q.Valid()
    ensures r.Some? ==> q.key(r.value) != q.key(x)
    ensures q.key(x) !in q.entryFinder
  {
    q.Remove(x);
    ghost var t;
    r, t := q.Pop();
  }

  /** Two pops in a row come out in strict `Ord` order: the second entry is
      less than the first, so its priority is larger, or equal with an older
      counter. */
  method TwoPops<K(==), T(==)>(q: EventQueue<K, T>) returns (r1: Option<T>, r2: Option<T>,
                                                           ghost t1: Option<EventEntry<T>>, ghost t2: Option<EventEntry<T>>)
    requires q.Valid()
    modifies q
    ensures q.Valid()
    ensures r2.Some? ==> r1.Some?
    ensures r1.Some? && r2.Some? ==>
      t1.Some? && t2.Some? && q.key(r1.value) != q.key(r2.value) && Cmp(t2.value, t1.value) == Less
  {
    r1, t1 := q.Pop();
    r2, t2 := q.Pop();
  }

  /** A pop takes only the heap entries that rank at or above the entry it
      returns. After `push(1, y); push(3, x); remove(x)`, popping `y` leaves the
      stale entry `(3, 1, x)` behind, so `is_empty` is false. After
      `push(5, x); push(4, z)` that stale entry outranks both new entries and
      releases `x` first. Then `z` pops, and then nothing. */
  method StaleEntryOutlivesPop() returns (emptyAfterFirst: bool, popped: seq<Option<char>>)
    ensures !emptyAfterFirst
    ensures popped == [Some('y'), Some('x'), Some('z'), None]
  {
    var q := PushYXRemoveX();
    StaleRanks();
    var r1 := PopStage(q, {EventEntry(1, 0, 'y'), EventEntry(3, 1, 'x')}, EventEntry(1, 0, 'y'), {'y'},
                       {EventEntry(3, 1, 'x')});
    emptyAfterFirst := q.IsEmpty();
    var r2, r3, r4 := DrainXZ(q);
    popped := [r1, r2, r3, r4];
  }

  /** `push(1, y); push(3, x); remove(x)` on a fresh queue. */
  method PushYXRemoveX() returns (q: EventQueue<char, char>)
    ensures fresh(q) && q.Valid() && q.key == Identity && q.counter == 2
    ensures q.heap == {EventEntry(1, 0, 'y'), EventEntry(3, 1, 'x')} && q.entryFinder.Keys == {'y'}
  {
    q := new EventQueue<char, char>(Identity);
    PushExpecting(q, 1, 'y', {}, {});
    PushExpecting(q, 3, 'x', {} + {EventEntry(1, 0, 'y')}, {} + {'y'});
    StaleRanks();
    RemoveExpecting(q, 'x', {EventEntry(1, 0, 'y'), EventEntry(3, 1, 'x')}, {'y', 'x'});
  }

  /** One `remove`: the key leaves the index, the heap stays. */
  method RemoveExpecting(q: EventQueue<char, char>, c: char, ghost h: set<EventEntry<char>>, ghost live: set<char>)
    requires q.Valid() && q.key == Identity
    requires q.heap == h && q.entryFinder.Keys == live
    modifies q
    ensures q.Valid() && q.counter == old(q.counter)
    ensures q.heap == h && q.entryFinder.Keys == live - {c}
  {
    q.Remove(c);
  }

  /** The pushes and pops of `StaleEntryOutlivesPop` after its first pop. */
  method DrainXZ(q: EventQueue<char, char>) returns (r2: Option<char>, r3: Option<char>, r4: Option<char>)
    requires q.Valid() && q.key == Identity && q.counter == 2
    requires q.heap == {EventEntry(3, 1, 'x')} && q.entryFinder.Keys == {}
    modifies q
    ensures r2 == Some('x') && r3 == Some('z') && r4 == None
  {
    PushXZ(q);
    ghost var h2, h3, h4 := q.heap, {EventEntry(5, 2, 'x'), EventEntry(4, 3, 'z')}, {EventEntry(5, 2, 'x')};
    XZRanks(h2, h3, h4);
    r2 := PopStage(q, h2, EventEntry(3, 1, 'x'), {'x', 'z'}, h3);
    r3 := PopStage(q, h3, EventEntry(4, 3, 'z'), {'z'}, h4);
    r4 := PopNothing(q);
  }

  /** `push(5, x); push(4, z)` behind the stale entry `(3, 1, x)`. */
  method PushXZ(q: EventQueue<char, char>)
    requires q.Valid() && q.key == Identity && q.counter == 2
    requires q.heap == {EventEntry(3, 1, 'x')} && q.entryFinder.Keys == {}
    modifies q
    ensures q.Valid() && q.counter == 4
    ensures q.heap == {EventEntry(3, 1, 'x'), EventEntry(5, 2, 'x'), EventEntry(4, 3, 'z')}
    ensures q.entryFinder.Keys == {'x', 'z'}
  {
    PushExpecting(q, 5, 'x', {EventEntry(3, 1, 'x')}, {});
    PushExpecting(q, 4, 'z', {EventEntry(3, 1, 'x')} + {EventEntry(5, 2, 'x')}, {} + {'x'});
    StaleRanks();
  }

  /** The ranks of the last pops of `StaleEntryOutlivesPop`. */
  lemma XZRanks(h2: set<EventEntry<char>>, h3: set<EventEntry<char>>, h4: set<EventEntry<char>>)
    requires h2 == {EventEntry(3, 1, 'x'), EventEntry(5, 2, 'x'), EventEntry(4, 3, 'z')}
    requires h3 == {EventEntry(5, 2, 'x'), EventEntry(4, 3, 'z')}
    requires h4 == {EventEntry(5, 2, 'x')}
    ensures forall f | f in h2 && f.item in {'x', 'z'} && f != EventEntry(3, 1, 'x') :: Cmp(EventEntry(3, 1, 'x'), f) == Greater
    ensures h3 <= h2 && forall f | f in h2 :: f in h3 <==> Cmp(f, EventEntry(3, 1, 'x')) == Less
    ensures forall f | f in h3 && f.item in {'z'} && f != EventEntry(4, 3, 'z') :: Cmp(EventEntry(4, 3, 'z'), f) == Greater
    ensures h4 <= h3 && forall f | f in h3 :: f in h4 <==> Cmp(f, EventEntry(4, 3, 'z')) == Less
    ensures {'x', 'z'} - {'x'} == {'z'} && {'z'} - {'z'} == {}
  {
  }

  /** A pop with nothing pending returns nothing. */
  method PopNothing(q: EventQueue<char, char>) returns (r: Option<char>)
    requires q.Valid() && q.entryFinder.Keys == {}
    modifies q
    ensures r == None
  {
    assert q.entryFinder == map[];
    ghost var t;
    r, t := q.Pop();
  }

  /** The ranks of the entries of `StaleEntryOutlivesPop`, stage by stage. */
  lemma StaleRanks()
    ensures {} + {EventEntry(1, 0, 'y')} + {EventEntry(3, 1, 'x')} == {EventEntry(1, 0, 'y'), EventEntry(3, 1, 'x')}
    ensures {} + {'y'} + {'x'} == {'y', 'x'}
    ensures {EventEntry(3, 1, 'x')} + {EventEntry(5, 2, 'x')} + {EventEntry(4, 3, 'z')}
         == {EventEntry(3, 1, 'x'), EventEntry(5, 2, 'x'), EventEntry(4, 3, 'z')}
    ensures {} + {'x'} + {'z'} == {'x', 'z'} && {'x', 'z'} - {'x'} == {'z'} && {'y', 'x'} - {'x'} == {'y'}
    ensures Cmp(EventEntry(3, 1, 'x'), EventEntry(1, 0, 'y')) == Less
    ensures Cmp(EventEntry(3, 1, 'x'), EventEntry(5, 2, 'x')) == Greater
    ensures Cmp(EventEntry(3, 1, 'x'), EventEntry(4, 3, 'z')) == Greater
    ensures Cmp(EventEntry(5, 2, 'x'), EventEntry(3, 1, 'x')) == Less
    ensures Cmp(EventEntry(4, 3, 'z'), EventEntry(3, 1, 'x')) == Less
    ensures Cmp(EventEntry(5, 2, 'x'), EventEntry(4, 3, 'z')) == Less
  {
  }

  /** One pop of a queue whose heap is `h`, where `e` outranks every other entry
      whose item is pending: the pop releases `e.item`, and the heap keeps
      exactly the entries ranked below `e`, stale or not. */
  method PopStage(q: EventQueue<char, char>, ghost h: set<EventEntry<char>>, ghost e: EventEntry<char>,
                  ghost live: set<char>, ghost below: set<EventEntry<char>>) returns (r: Option<char>)
    requires q.Valid() && q.key == Identity
    requires q.heap == h && q.entryFinder.Keys == live
    requires e in h && e.item in live
    requires forall f | f in h && f.item in live && f != e :: Cmp(e, f) == Greater
    requires below <= h && forall f | f in h :: f in below <==> Cmp(f, e) == Less
    modifies q
    ensures q.Valid() && q.counter == old(q.counter)
    ensures r == Some(e.item)
    ensures q.heap == below && q.entryFinder.Keys == live - {e.item}
  {
    ghost var top;
    r, top := q.Pop();
    assert Cmp(e, top.value) != Greater;
  }
}
