/**
 * The id allocator (`getNextId`) as a function of the two storage slots it reads:
 * it returns the id to use and the counter value it writes back.
 */
module IdAllocator {
  import opened Wrappers
  import opened Numbers
  import opened Products

  /** The products slot as the allocator and the hydration see it. */
  datatype ProductsSlot =
    | Missing                       // no entry, or an empty string
    | Unparseable                   // JSON.parse throws
    | Stored(items: seq<Product>)   // a parsed list

  /** The id handed out and the text written to the counter slot. */
  datatype Allocation = Allocation(id: int, written: string)

  /**
   * `raw && !Number.isNaN(Number(raw))`: the counter slot holds non-empty text that reads
   * as a number, and this is that number.
   */
  function CounterValue(raw: Option<string>): Option<int> {
    if raw.Some? && raw.value != "" then NumberOf(raw.value) else None
  }

  function Max(a: int, b: int): int {
    if a < b then b else a
  }

  /**
   * `cats.reduce((m, c) => Math.max(m, Number(c.id) || 0), 0)`: the largest id, or 0 when
   * there is none above 0.
   */
  function MaxId(items: seq<Product>): (m: int)
    ensures m >= 0
    ensures forall i :: 0 <= i < |items| ==> items[i].id <= m
    ensures m == 0 || exists i :: 0 <= i < |items| && items[i].id == m
  {
    if items == [] then 0 else Max(MaxId(items[..|items| - 1]), items[|items| - 1].id)
  }

  /**
   * `getNextId()`: a readable counter is used as it is; otherwise the id is one above the
   * largest stored id; a products slot that is missing or unparseable makes the lookup throw
   * and gives 1. In every case the counter written back reads as the id plus one.
   */
  function NextId(counter: Option<string>, slot: ProductsSlot): (a: Allocation)
    ensures CounterValue(Some(a.written)) == Some(a.id + 1)
    ensures CounterValue(counter).Some? ==> a.id == CounterValue(counter).value
    ensures CounterValue(counter).None? && slot.Stored? ==>
              && a.id >= 1
              && (forall i :: 0 <= i < |slot.items| ==> slot.items[i].id < a.id)
              && (a.id == 1 || exists i :: 0 <= i < |slot.items| && slot.items[i].id == a.id - 1)
    ensures CounterValue(counter).None? && !slot.Stored? ==> a.id == 1
  {
    match CounterValue(counter)
    case Some(c) =>
      NumberOfDecimal(c + 1);
      Allocation(c, Decimal(c + 1))
    case None =>
      match slot
      case Stored(items) =>
        var next := MaxId(items) + 1;
        NumberOfDecimal(next + 1);
        Allocation(next, Decimal(next + 1))
      case _ =>
        NumberOfDecimal(2);
        Allocation(1, "2")
  }

  /** The counter is above every id in `items` (or absent). */
  predicate CounterAbove(counter: Option<string>, items: seq<Product>) {
    CounterValue(counter).Some? ==> forall i :: 0 <= i < |items| ==> items[i].id < CounterValue(counter).value
  }

  /**
   * With a counter that is above every stored id, or none, the id handed out is above every
   * id in the list, and the counter written back stays above the list with the new id in it.
   */
  lemma AllocationIsFresh(counter: Option<string>, items: seq<Product>, p: Product)
    requires CounterAbove(counter, items)
    requires p.id == NextId(counter, Stored(items)).id
    ensures forall i :: 0 <= i < |items| ==> items[i].id < p.id
    ensures CounterAbove(Some(NextId(counter, Stored(items)).written), [p] + items)
  {
  }

  /** Two calls in a row hand out consecutive ids, whatever the products slot then holds. */
  lemma ConsecutiveAllocations(counter: Option<string>, slot: ProductsSlot, slot': ProductsSlot)
    ensures NextId(Some(NextId(counter, slot).written), slot').id == NextId(counter, slot).id + 1
  {
  }

  /** A fresh session stores the two seeds before anything is added, so the first new id is 3. */
  lemma FirstIdAfterSeeds()
    ensures NextId(None, Stored(Seeds())).id == 3
  {
    assert Seeds()[..1][..0] == [];
    assert Seeds()[..|Seeds()| - 1] == Seeds()[..1];
  }

  /**
   * Were the products slot missing when the counter is missing too, the id handed out would
   * be 1, which the first seed already carries.
   */
  lemma MissingSlotReusesSeedId()
    ensures NextId(None, Missing).id == Seeds()[0].id
  {
  }

  /**
   * Until the first add writes a counter, the id comes from the largest id still listed:
   * deleting the second seed first makes the next id 2 again, and deleting both makes it 1.
   */
  lemma DeletedIdIsReused()
    ensures NextId(None, Stored([Seeds()[0]])).id == Seeds()[1].id
    ensures NextId(None, Stored([])).id == Seeds()[0].id
  {
    assert [Seeds()[0]][..0] == [];
  }
}
