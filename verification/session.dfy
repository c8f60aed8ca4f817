/**
  A session of the catalog page: the cart loaded at start-up, then the calls
  the header and product cards make, one after another, each followed by a
  save of the new cart.
 */
module Session {
  import opened CartStore
  import opened Persistence

  /** One call the presentation layer makes into the cart store. */
  datatype Action<Id, P> =
    | Add(item: Item<Id, P>)
    | Remove(id: Id)
    | Increase(id: Id)
    | Decrease(id: Id)
    | Clear

  /** The cart after one call. */
  function Apply<Id(==), P>(c: Cart<Id, P>, a: Action<Id, P>): Cart<Id, P> {
    match a
    case Add(item) => AddToCart(c, item)
    case Remove(x) => RemoveFromCart(c, x)
    case Increase(x) => IncreaseQuantity(c, x)
    case Decrease(x) => DecreaseQuantity(c, x)
    case Clear => ClearCart(c)
  }

  /** The cart after a sequence of calls, taken in order. */
  function Run<Id(==), P>(c: Cart<Id, P>, actions: seq<Action<Id, P>>): Cart<Id, P>
    decreases |actions|
  {
    if |actions| == 0 then c else Run(Apply(c, actions[0]), actions[1..])
  }

  /** Every call keeps the cart invariant. */
  lemma ApplyPreservesValid<Id, P>(c: Cart<Id, P>, a: Action<Id, P>)
    requires Valid(c)
    ensures Valid(Apply(c, a))
  {
    match a
    case Add(item) => AddToCartPreservesValid(c, item);
    case Remove(x) => RemoveFromCartPreservesValid(c, x);
    case Increase(x) => IncreaseQuantityPreservesValid(c, x);
    case Decrease(x) => DecreaseQuantityPreservesValid(c, x);
    case Clear =>
  }

  /** Every sequence of calls keeps the cart invariant. */
  lemma {:induction false} RunPreservesValid<Id, P>(c: Cart<Id, P>, actions: seq<Action<Id, P>>)
    requires Valid(c)
    ensures Valid(Run(c, actions))
    decreases |actions|
  {
    if |actions| > 0 {
      ApplyPreservesValid(c, actions[0]);
      RunPreservesValid(Apply(c, actions[0]), actions[1..]);
    }
  }

  /** From a slot whose records repair into a valid cart, every cart the
      session reaches keeps unique identifiers and quantities in 1..5, and
      the slot written after the last call loads back to that cart. */
  lemma {:induction false} SessionKeepsInvariant<Id, P>(rs: seq<StoredEntry<Id, P>>, actions: seq<Action<Id, P>>)
    requires UniqueStoredIds(rs)
    requires forall i :: 0 <= i < |rs| ==> RepairsInRange(rs[i].quantity)
    ensures Valid(Run(Load(Records(rs)), actions))
    ensures Load(Save(Run(Load(Records(rs)), actions))) == Run(Load(Records(rs)), actions)
  {
    LoadValidIff(rs);
    RunPreservesValid(Load(Records(rs)), actions);
    LoadSaveValid(Run(Load(Records(rs)), actions));
  }

  /** A session that starts from an empty, unreadable or non-array slot
      starts from the empty cart and keeps the invariant throughout. */
  lemma SessionFromEmptySlot<Id, P>(slot: Slot<Id, P>, actions: seq<Action<Id, P>>)
    requires !slot.Records?
    ensures Valid(Run(Load(slot), actions))
  {
    RunPreservesValid(Load(slot), actions);
  }
}
