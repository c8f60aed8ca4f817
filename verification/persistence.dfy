/**
  The cart's persisted slot: what start-up reads back from it (with the
  repair-on-read of legacy or damaged records) and what every change writes
  to it.
 */
module Persistence {
  import opened Wrappers
  import opened CartStore

  /** One element of the stored array: the item's fields and the `quantity`
      field as found. `None` stands for a missing, null or undefined field;
      `Some(0)` is the one falsy number. */
  datatype StoredEntry<Id, P> = StoredEntry(id: Id, payload: P, quantity: Option<int>)

  /** What reading the slot at start-up yields. */
  datatype Slot<Id, P> =
    | Empty                                      // no value, or the empty string
    | Unparsable                                 // the text is not valid JSON
    | NotAnArray                                 // valid JSON, but not an array
    | Records(records: seq<StoredEntry<Id, P>>)  // a JSON array of objects

  /** JavaScript truthiness of a stored quantity. */
  predicate Truthy(q: Option<int>) {
    q.Some? && q.value != 0
  }

  /** A stored quantity the repair turns into one within the bounds. */
  predicate RepairsInRange(q: Option<int>) {
    q.None? || 0 <= q.value <= MAX_ITEMS
  }

  /** No two stored records share an identifier. */
  ghost predicate UniqueStoredIds<Id, P>(rs: seq<StoredEntry<Id, P>>) {
    forall i, j :: 0 <= i < j < |rs| ==> rs[i].id != rs[j].id
  }

  /** The repair of one record: a truthy quantity is kept as it is, a missing
      or falsy one becomes 1; every other field is copied. */
  function RepairEntry<Id, P>(s: StoredEntry<Id, P>): (e: Entry<Id, P>)
    ensures e.id == s.id && e.payload == s.payload
    ensures e.quantity != 0
    ensures Truthy(s.quantity) ==> Some(e.quantity) == s.quantity
    ensures !Truthy(s.quantity) ==> e.quantity == 1
  {
    Entry(s.id, s.payload, if Truthy(s.quantity) then s.quantity.value else 1)
  }

  /** The initial cart: empty when the slot is empty, does not parse or does
      not hold an array; otherwise every record, repaired, in stored order. */
  function Load<Id, P>(slot: Slot<Id, P>): (c: Cart<Id, P>)
    ensures !slot.Records? ==> c == []
    ensures slot.Records? ==> |c| == |slot.records|
    ensures slot.Records? ==> forall i :: 0 <= i < |c| ==>
      c[i].id == slot.records[i].id && c[i].payload == slot.records[i].payload
    ensures slot.Records? ==> forall i :: 0 <= i < |c| ==>
      if Truthy(slot.records[i].quantity) then Some(c[i].quantity) == slot.records[i].quantity
      else c[i].quantity == 1
    ensures forall i :: 0 <= i < |c| ==> c[i].quantity != 0
  {
    match slot
    case Records(rs) => seq(|rs|, i requires 0 <= i < |rs| => RepairEntry(rs[i]))
    case _ => []
  }

  /** What a change writes: the whole cart, every entry with its quantity. */
  function Save<Id, P>(c: Cart<Id, P>): (slot: Slot<Id, P>)
    ensures slot.Records? && |slot.records| == |c|
    ensures forall i :: 0 <= i < |c| ==>
      slot.records[i] == StoredEntry(c[i].id, c[i].payload, Some(c[i].quantity))
  {
    Records(seq(|c|, i requires 0 <= i < |c| => StoredEntry(c[i].id, c[i].payload, Some(c[i].quantity))))
  }

  /** Saving and loading gives back the very cart saved exactly when no
      quantity in it is the falsy 0, which the repair would turn into 1. */
  lemma LoadSaveRoundTrip<Id, P>(c: Cart<Id, P>)
    ensures Load(Save(c)) == c <==> forall i :: 0 <= i < |c| ==> c[i].quantity != 0
  {
  }

  /** In particular a cart that keeps the invariant survives a reload. */
  lemma LoadSaveValid<Id, P>(c: Cart<Id, P>)
    requires Valid(c)
    ensures Load(Save(c)) == c
  {
  }

  /** Whatever the slot held, once loaded and saved again it loads to the same
      cart: the repair need not be applied twice. */
  lemma LoadIsStable<Id, P>(slot: Slot<Id, P>)
    ensures Load(Save(Load(slot))) == Load(slot)
  {
  }

  /** The loaded cart keeps the invariant exactly when the stored identifiers
      are unique and every stored quantity is missing, 0, or within the
      bounds: the repair never clamps a truthy quantity such as 9 or -2. */
  lemma LoadValidIff<Id, P>(rs: seq<StoredEntry<Id, P>>)
    ensures Valid(Load(Records(rs))) <==>
      UniqueStoredIds(rs) && forall i :: 0 <= i < |rs| ==> RepairsInRange(rs[i].quantity)
  {
  }

  /** A legacy record without a quantity loads with quantity 1. */
  lemma LoadLegacyRecord()
    ensures Load(Records([StoredEntry(2, "X", None)])) == [Entry(2, "X", 1)]
  {
  }

  /** A stored quantity outside the bounds is loaded unchanged. */
  lemma LoadKeepsOutOfRange<Id, P>(x: Id, p: P)
    ensures Load(Records([StoredEntry(x, p, Some(9))])) == [Entry(x, p, 9)]
    ensures !Valid(Load(Records([StoredEntry(x, p, Some(9))])))
  {
    var c := Load(Records([StoredEntry(x, p, Some(9))]));
    assert !InRange(c[0].quantity);
  }
}
