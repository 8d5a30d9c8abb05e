/** `Entry` of `aionbot-core`: a registered callback with its id, priority and
    router. Equality and hashing look at the id only, ordering at the priority
    only. */
module Entries {
  import opened Common
  import Routers

  /** A callback is named by an identifier; what it does is supplied to the
      dispatcher as a function of this identifier (see `Handlers`). */
  type CallbackId = nat

  datatype Entry = Entry(id: string, priority: i8, router: Routers.Router, callback: CallbackId)

  /** `Entry::get_priority`. */
  function GetPriority(e: Entry): (p: i8)
    ensures p == e.priority
  {
    e.priority
  }

  /** `Entry::get_router`. */
  function GetRouter(e: Entry): (r: Routers.Router)
    ensures r == e.router
  {
    e.router
  }

  /** `Entry::get_handler`. */
  function GetHandler(e: Entry): (c: CallbackId)
    ensures c == e.callback
  {
    e.callback
  }

  /** `PartialEq for Entry`: `b` equals `a` exactly when `b` is `a`'s id with
      any priority, router and callback. */
  predicate Eq(a: Entry, b: Entry): (r: bool)
    ensures r <==> b == Entry(a.id, b.priority, b.router, b.callback)
  {
    a.id == b.id
  }

  /** `Hash for Entry`: the entry feeds only its id to the hasher, so every
      entry equal to `e` hashes to the same value. */
  function Hash(hasher: string -> nat, e: Entry): (h: nat)
    ensures forall b | Eq(e, b) :: h == hasher(b.id)
  {
    hasher(e.id)
  }

  /** The key under which the event queue indexes an entry: the part of the
      entry that `Eq` and `Hash` look at. */
  function IdOf(e: Entry): string
  {
    e.id
  }

  /** `Ord for Entry`: compares the priorities. */
  function Cmp(a: Entry, b: Entry): (o: Ordering)
    ensures o == Less <==> a.priority < b.priority
    ensures o == Equal <==> a.priority == b.priority
    ensures o == Greater <==> a.priority > b.priority
  {
    CompareInt(a.priority as int, b.priority as int)
  }

  /** `PartialOrd for Entry`: always defined. */
  function PartialCmp(a: Entry, b: Entry): (o: Option<Ordering>)
    ensures o.Some? && o.value == Cmp(a, b)
  {
    Some(Cmp(a, b))
  }

  /** Equality is an equivalence that ignores priority, router and callback. */
  lemma EqIsIdEquivalence(a: Entry, b: Entry, c: Entry)
    ensures Eq(a, a)
    ensures Eq(a, b) ==> Eq(b, a)
    ensures Eq(a, b) && Eq(b, c) ==> Eq(a, c)
    ensures Eq(a, b) <==> IdOf(a) == IdOf(b)
    ensures forall p, r, cb :: Eq(a, Entry(a.id, p, r, cb))
  {
  }

  /** Equal entries hash identically, whatever the hasher. */
  lemma EqualEntriesHashAlike(hasher: string -> nat, a: Entry, b: Entry)
    requires Eq(a, b)
    ensures Hash(hasher, a) == Hash(hasher, b)
  {
  }

  /** The ordering is antisymmetric and total, as `Ord` demands. */
  lemma CmpIsTotalOrder(a: Entry, b: Entry, c: Entry)
    ensures Cmp(a, b) == Less <==> Cmp(b, a) == Greater
    ensures Cmp(a, b) == Equal <==> Cmp(b, a) == Equal
    ensures Cmp(a, b) != Greater && Cmp(b, c) != Greater ==> Cmp(a, c) != Greater
  {
  }

  /** The ordering is not the equality: two entries with different ids and the
      same priority compare `Equal` yet are not equal. */
  lemma CmpEqualIsNotEq(r: Routers.Router)
    ensures var a := Entry("a", 0, r, 0);
            var b := Entry("b", 0, r, 1);
            Cmp(a, b) == Equal && !Eq(a, b)
  {
  }
}
