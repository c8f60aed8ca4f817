/**
  The cart store of the GuitarLA catalog page.

  A cart is an ordered sequence of entries. Each entry is a catalog item's
  fields plus an integer quantity. Every operation is a total function from
  the current cart and its input to the next cart. Entries are matched by
  exact equality of `id`.
 */
module CartStore {
  import opened Wrappers

  /** Largest quantity an entry reaches through the cart operations. */
  const MAX_ITEMS: int := 5
  /** Smallest quantity `DecreaseQuantity` leaves behind. */
  const MIN_ITEMS: int := 1

  /** A catalog record: its identifier and the fields no cart operation reads
      (name, image, price, description). */
  datatype Item<Id, P> = Item(id: Id, payload: P)

  /** An item's fields plus the quantity selected. */
  datatype Entry<Id, P> = Entry(id: Id, payload: P, quantity: int)

  type Cart<Id, P> = seq<Entry<Id, P>>

  // ---------------------------------------------------------------------
  // Invariants of a cart
  // ---------------------------------------------------------------------

  predicate InRange(q: int) {
    MIN_ITEMS <= q <= MAX_ITEMS
  }

  /** Some entry of `c` has identifier `x`. */
  ghost predicate HasId<Id, P>(c: Cart<Id, P>, x: Id) {
    exists i :: 0 <= i < |c| && c[i].id == x
  }

  /** No two entries share an identifier. */
  ghost predicate UniqueIds<Id, P>(c: Cart<Id, P>) {
    forall i, j :: 0 <= i < j < |c| ==> c[i].id != c[j].id
  }

  /** Every quantity lies between MIN_ITEMS and MAX_ITEMS. */
  ghost predicate AllInRange<Id, P>(c: Cart<Id, P>) {
    forall i :: 0 <= i < |c| ==> InRange(c[i].quantity)
  }

  /** The cart invariant every operation preserves. */
  ghost predicate Valid<Id, P>(c: Cart<Id, P>) {
    UniqueIds(c) && AllInRange(c)
  }

  /** `r` has the same identifiers and payloads as `c`, position by position:
      only quantities may differ. */
  ghost predicate SameShape<Id, P>(c: Cart<Id, P>, r: Cart<Id, P>) {
    |r| == |c| && forall i :: 0 <= i < |c| ==> r[i].id == c[i].id && r[i].payload == c[i].payload
  }

  // ---------------------------------------------------------------------
  // Operations
  // ---------------------------------------------------------------------

  /** The position of the first entry with identifier `x`, as `findIndex`
      computes it; `None` where `findIndex` answers -1. */
  function FindIndex<Id(==), P>(c: Cart<Id, P>, x: Id): (r: Option<nat>)
    ensures r.None? <==> !HasId(c, x)
    ensures r.Some? ==> r.value < |c| && c[r.value].id == x
    ensures r.Some? ==> forall j :: 0 <= j < r.value ==> c[j].id != x
  {
    if |c| == 0 then None
    else if c[0].id == x then Some(0)
    else
      match FindIndex(c[1..], x)
      case None =>
        assert forall i :: 1 <= i < |c| ==> c[i] == c[1..][i - 1];
        None
      case Some(k) => Some(k + 1)
  }

  /** addToCart: a new item is appended with quantity 1; an item already in
      the cart has its first entry's quantity raised by one, unless that
      quantity has reached MAX_ITEMS, in which case the cart is unchanged. */
  function AddToCart<Id(==), P>(c: Cart<Id, P>, item: Item<Id, P>): (r: Cart<Id, P>)
    ensures !HasId(c, item.id) ==>
      |r| == |c| + 1 && r[..|c|] == c && r[|c|] == Entry(item.id, item.payload, 1)
    ensures HasId(c, item.id) ==> SameShape(c, r)
    ensures HasId(c, item.id) ==>
      forall i :: 0 <= i < |c| && c[i].id != item.id ==> r[i] == c[i]
    ensures HasId(c, item.id) ==>
      forall i :: 0 <= i < |c| ==>
        r[i].quantity == c[i].quantity || r[i].quantity == c[i].quantity + 1 <= MAX_ITEMS
  {
    match FindIndex(c, item.id)
    case None => c + [Entry(item.id, item.payload, 1)]
    case Some(k) =>
      if c[k].quantity >= MAX_ITEMS then c
      else seq(|c|, i requires 0 <= i < |c| =>
                 if i == k then c[i].(quantity := c[i].quantity + 1) else c[i])
  }

  /** removeFromCart: keeps the entries whose identifier differs from `x`,
      in their original order. */
  function RemoveFromCart<Id(==), P>(c: Cart<Id, P>, x: Id): (r: Cart<Id, P>)
    ensures |r| <= |c|
    ensures !HasId(r, x)
    ensures !HasId(c, x) ==> r == c
  {
    if |c| == 0 then []
    else
      assert c == [c[0]] + c[1..];
      if c[0].id != x then [c[0]] + RemoveFromCart(c[1..], x)
      else RemoveFromCart(c[1..], x)
  }

  /** increaseQuantity: every entry with identifier `x` whose quantity is
      below MAX_ITEMS gains one; everything else is kept. */
  function IncreaseQuantity<Id(==), P>(c: Cart<Id, P>, x: Id): (r: Cart<Id, P>)
    ensures SameShape(c, r)
    ensures forall i :: 0 <= i < |c| && c[i].id != x ==> r[i] == c[i]
    ensures forall i :: 0 <= i < |c| ==>
      (r[i].quantity != c[i].quantity <==> c[i].id == x && c[i].quantity < MAX_ITEMS)
    ensures forall i :: 0 <= i < |c| ==>
      r[i].quantity == c[i].quantity || r[i].quantity == c[i].quantity + 1 <= MAX_ITEMS
  {
    seq(|c|, i requires 0 <= i < |c| =>
          if c[i].id == x && c[i].quantity < MAX_ITEMS
          then c[i].(quantity := c[i].quantity + 1)
          else c[i])
  }

  /** decreaseQuantity: every entry with identifier `x` whose quantity is
      above MIN_ITEMS loses one; everything else is kept. */
  function DecreaseQuantity<Id(==), P>(c: Cart<Id, P>, x: Id): (r: Cart<Id, P>)
    ensures SameShape(c, r)
    ensures forall i :: 0 <= i < |c| && c[i].id != x ==> r[i] == c[i]
    ensures forall i :: 0 <= i < |c| ==>
      (r[i].quantity != c[i].quantity <==> c[i].id == x && c[i].quantity > MIN_ITEMS)
    ensures forall i :: 0 <= i < |c| ==>
      r[i].quantity == c[i].quantity || MIN_ITEMS <= r[i].quantity == c[i].quantity - 1
  {
    seq(|c|, i requires 0 <= i < |c| =>
          if c[i].id == x && c[i].quantity > MIN_ITEMS
          then c[i].(quantity := c[i].quantity - 1)
          else c[i])
  }

  /** clearCart: whatever the cart held, the result is the empty cart. */
  function ClearCart<Id, P>(c: Cart<Id, P>): (r: Cart<Id, P>)
    ensures |r| == 0
    ensures Valid(r)
  {
    []
  }

  // ---------------------------------------------------------------------
  // addToCart, case by case
  // ---------------------------------------------------------------------

  /** An existing entry below MAX_ITEMS: only that entry changes, by one. */
  lemma AddToCartIncrements<Id, P>(c: Cart<Id, P>, item: Item<Id, P>, k: nat)
    requires k < |c| && c[k].id == item.id
    requires forall j :: 0 <= j < k ==> c[j].id != item.id
    requires c[k].quantity < MAX_ITEMS
    ensures AddToCart(c, item) == c[k := c[k].(quantity := c[k].quantity + 1)]
  {
  }

  /** An existing entry at MAX_ITEMS or above: the cart is unchanged. */
  lemma AddToCartSaturates<Id, P>(c: Cart<Id, P>, item: Item<Id, P>, k: nat)
    requires k < |c| && c[k].id == item.id
    requires forall j :: 0 <= j < k ==> c[j].id != item.id
    requires c[k].quantity >= MAX_ITEMS
    ensures AddToCart(c, item) == c
  {
  }

  /** With unique identifiers, adding an item already in the cart does what
      increaseQuantity does for its identifier. */
  lemma AddExistingIsIncrease<Id, P>(c: Cart<Id, P>, item: Item<Id, P>)
    requires UniqueIds(c)
    requires HasId(c, item.id)
    ensures AddToCart(c, item) == IncreaseQuantity(c, item.id)
  {
  }

  /** `n` calls of addToCart with the same item, one after the other. */
  function AddRepeatedly<Id(==), P>(c: Cart<Id, P>, item: Item<Id, P>, n: nat): (r: Cart<Id, P>)
    ensures |r| <= |c| + 1
  {
    if n == 0 then c else AddToCart(AddRepeatedly(c, item, n - 1), item)
  }

  /** Adding one item `n` times to an empty cart yields a single entry whose
      quantity is `n` capped at MAX_ITEMS: never a second entry, never more
      than five. */
  lemma {:induction false} AddRepeatedlySaturates<Id, P>(item: Item<Id, P>, n: nat)
    requires n >= 1
    ensures AddRepeatedly([], item, n) ==
      [Entry(item.id, item.payload, if n < MAX_ITEMS then n else MAX_ITEMS)]
  {
    if n > 1 {
      AddRepeatedlySaturates(item, n - 1);
      var c := AddRepeatedly([], item, n - 1);
      AddToCartSubsequent(c, item);
    }
  }

  // A helper for AddRepeatedlySaturates: one more call on a one-entry cart.
  lemma AddToCartSubsequent<Id, P>(c: Cart<Id, P>, item: Item<Id, P>)
    requires |c| == 1 && c[0].id == item.id
    ensures AddToCart(c, item) ==
      [c[0].(quantity := if c[0].quantity < MAX_ITEMS then c[0].quantity + 1 else c[0].quantity)]
  {
  }

  // ---------------------------------------------------------------------
  // removeFromCart: order, idempotence
  // ---------------------------------------------------------------------

  /** The entries kept are exactly those of `c` with an identifier other
      than `x`, each as many times as it occurs in `c`. */
  lemma {:induction false} RemoveFromCartKeeps<Id, P>(c: Cart<Id, P>, x: Id)
    ensures forall i :: 0 <= i < |RemoveFromCart(c, x)| ==>
      RemoveFromCart(c, x)[i] in c && RemoveFromCart(c, x)[i].id != x
    ensures forall i :: 0 <= i < |c| && c[i].id != x ==> c[i] in RemoveFromCart(c, x)
    ensures forall e :: multiset(RemoveFromCart(c, x))[e] == if e.id == x then 0 else multiset(c)[e]
  {
    if |c| > 0 {
      RemoveFromCartKeeps(c[1..], x);
      assert c == [c[0]] + c[1..];
    }
  }

  /** Filtering distributes over concatenation: the kept entries of a cart
      appear in the order they had. */
  lemma {:induction false} RemoveFromCartAppend<Id, P>(a: Cart<Id, P>, b: Cart<Id, P>, x: Id)
    ensures RemoveFromCart(a + b, x) == RemoveFromCart(a, x) + RemoveFromCart(b, x)
  {
    if |a| > 0 {
      assert (a + b)[1..] == a[1..] + b;
      RemoveFromCartAppend(a[1..], b, x);
    } else {
      assert a + b == b;
    }
  }

  /** With unique identifiers, removing the identifier found at position `k`
      deletes exactly that entry and keeps the others in order. */
  lemma RemoveFromCartAt<Id, P>(c: Cart<Id, P>, k: nat)
    requires UniqueIds(c)
    requires k < |c|
    ensures RemoveFromCart(c, c[k].id) == c[..k] + c[k + 1..]
  {
    var x := c[k].id;
    RemoveFromCartAround(c, k, x);
    UniqueIdsAround(c, k);
    assert RemoveFromCart([c[k]], x) == [] by {
      assert [c[k]][1..] == [];
    }
  }

  // A helper for RemoveFromCartAt: filtering a cart split around position `k`.
  lemma RemoveFromCartAround<Id, P>(c: Cart<Id, P>, k: nat, x: Id)
    requires k < |c|
    ensures RemoveFromCart(c, x) ==
      RemoveFromCart(c[..k], x) + RemoveFromCart([c[k]], x) + RemoveFromCart(c[k + 1..], x)
  {
    SplitAt(c, k);
    RemoveFromCartAppend(c[..k], [c[k]] + c[k + 1..], x);
    RemoveFromCartAppend([c[k]], c[k + 1..], x);
  }

  // A helper for RemoveFromCartAround, kept apart from the cart functions.
  lemma SplitAt<T>(s: seq<T>, k: nat)
    requires k < |s|
    ensures s == s[..k] + ([s[k]] + s[k + 1..])
  {
    assert s[k..] == [s[k]] + s[k + 1..];
    assert s == s[..k] + s[k..];
  }

  // A helper for RemoveFromCartAt: the identifier at position `k` of a cart
  // with unique identifiers occurs neither before nor after it.
  lemma UniqueIdsAround<Id, P>(c: Cart<Id, P>, k: nat)
    requires UniqueIds(c)
    requires k < |c|
    ensures !HasId(c[..k], c[k].id) && !HasId(c[k + 1..], c[k].id)
  {
    var x, a, b := c[k].id, c[..k], c[k + 1..];
    forall i | 0 <= i < |a| ensures a[i].id != x {
      assert a[i] == c[i];
    }
    forall i | 0 <= i < |b| ensures b[i].id != x {
      assert b[i] == c[k + 1 + i];
    }
  }

  /** Removing the same identifier twice is the same as removing it once. */
  lemma RemoveFromCartIdempotent<Id, P>(c: Cart<Id, P>, x: Id)
    ensures RemoveFromCart(RemoveFromCart(c, x), x) == RemoveFromCart(c, x)
  {
  }

  // ---------------------------------------------------------------------
  // increaseQuantity and decreaseQuantity undo each other inside the bounds
  // ---------------------------------------------------------------------

  /** Increasing then decreasing restores the cart when every matching entry
      had room to grow and was at least MIN_ITEMS. */
  lemma DecreaseUndoesIncrease<Id, P>(c: Cart<Id, P>, x: Id)
    requires forall i :: 0 <= i < |c| && c[i].id == x ==> MIN_ITEMS <= c[i].quantity < MAX_ITEMS
    ensures DecreaseQuantity(IncreaseQuantity(c, x), x) == c
  {
  }

  /** Decreasing then increasing restores the cart when every matching entry
      was above MIN_ITEMS and at most MAX_ITEMS. */
  lemma IncreaseUndoesDecrease<Id, P>(c: Cart<Id, P>, x: Id)
    requires forall i :: 0 <= i < |c| && c[i].id == x ==> MIN_ITEMS < c[i].quantity <= MAX_ITEMS
    ensures IncreaseQuantity(DecreaseQuantity(c, x), x) == c
  {
  }

  /** An identifier that is not in the cart leaves every operation that takes
      an identifier without effect. */
  lemma AbsentIdIsNoOp<Id, P>(c: Cart<Id, P>, x: Id)
    requires !HasId(c, x)
    ensures RemoveFromCart(c, x) == c
    ensures IncreaseQuantity(c, x) == c
    ensures DecreaseQuantity(c, x) == c
  {
  }

  /** decreaseQuantity three times on a single entry of quantity 3 gives the
      quantities 2, 1, 1: it stops at MIN_ITEMS. */
  lemma DecreaseStopsAtMin<Id, P>(x: Id, p: P)
    ensures DecreaseQuantity([Entry(x, p, 3)], x) == [Entry(x, p, 2)]
    ensures DecreaseQuantity([Entry(x, p, 2)], x) == [Entry(x, p, 1)]
    ensures DecreaseQuantity([Entry(x, p, 1)], x) == [Entry(x, p, 1)]
  {
  }

  // ---------------------------------------------------------------------
  // Every operation preserves the cart invariant
  // ---------------------------------------------------------------------

  lemma AddToCartPreservesValid<Id, P>(c: Cart<Id, P>, item: Item<Id, P>)
    requires Valid(c)
    ensures Valid(AddToCart(c, item))
  {
  }

  lemma {:induction false} RemoveFromCartPreservesValid<Id, P>(c: Cart<Id, P>, x: Id)
    requires Valid(c)
    ensures Valid(RemoveFromCart(c, x))
  {
    if |c| > 0 {
      var t := c[1..];
      assert Valid(t) by {
        assert forall i :: 0 <= i < |t| ==> t[i] == c[i + 1];
      }
      RemoveFromCartPreservesValid(t, x);
      RemoveFromCartKeeps(t, x);
      var rt := RemoveFromCart(t, x);
      if c[0].id != x {
        var r := [c[0]] + rt;
        forall i | 0 < i < |r| ensures r[i].id != c[0].id {
          assert r[i] == rt[i - 1];
          var j :| 0 <= j < |t| && t[j] == r[i];
          assert t[j] == c[j + 1];
        }
        assert UniqueIds(r);
      }
    }
  }

  lemma IncreaseQuantityPreservesValid<Id, P>(c: Cart<Id, P>, x: Id)
    requires Valid(c)
    ensures Valid(IncreaseQuantity(c, x))
  {
  }

  lemma DecreaseQuantityPreservesValid<Id, P>(c: Cart<Id, P>, x: Id)
    requires Valid(c)
    ensures Valid(DecreaseQuantity(c, x))
  {
  }
}
