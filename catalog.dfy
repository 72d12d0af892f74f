/**
 * The catalog component's state machine: the browser storage it persists to, and the
 * component state (record list, form fields, error map, edited id) with its handlers.
 */
module Catalog {
  import opened Wrappers
  import opened Numbers
  import opened Products
  import opened Validation
  import opened IdAllocator
  import opened RecordList

  /** The two storage entries the catalog uses: the id counter and the product list. */
  class LocalStorage {
    var counterSlot: Option<string>
    var productsSlot: ProductsSlot

    constructor (counter: Option<string>, products: ProductsSlot)
      ensures counterSlot == counter && productsSlot == products
    {
      counterSlot := counter;
      productsSlot := products;
    }

    /**
     * `getNextId()`: reads the counter (or, failing that, the stored list), writes the
     * counter back one above the id it returns, and never touches the list.
     */
    method GetNextId() returns (id: int)
      modifies this
      ensures var a := NextId(old(counterSlot), old(productsSlot));
              id == a.id && counterSlot == Some(a.written)
      ensures productsSlot == old(productsSlot)
    {
      var counter := CounterValue(counterSlot);
      if counter.Some? {
        id := counter.value;
        counterSlot := Some(Decimal(id + 1));
        return;
      }
      match productsSlot
      case Stored(items) =>
        var m := 0;
        var i := 0;
        while i < |items|
          invariant 0 <= i <= |items|
          invariant m == MaxId(items[..i])
        {
          assert items[..i + 1][..i] == items[..i];
          m := Max(m, items[i].id);
          i := i + 1;
        }
        assert items[..i] == items;
        id := m + 1;
        counterSlot := Some(Decimal(id + 1));
      case _ =>
        counterSlot := Some("2");
        id := 1;
    }

    /** The effect that writes the whole list after every change of it. */
    method SaveProducts(records: seq<Product>)
      modifies this
      ensures productsSlot == Stored(records) && counterSlot == old(counterSlot)
    {
      productsSlot := Stored(records);
    }
  }

  datatype Variant = Success | Danger

  /** The toast a handler raises. */
  datatype Notice = Notice(message: string, variant: Variant)

  const CheckInput := "Periksa kembali input Anda."
  const Added := "Produk berhasil ditambahkan."
  const Updated := "Produk berhasil diperbarui."
  const Deleted := "Produk berhasil dihapus."

  /** The catalog component: its state variables and its handlers. */
  class App {
    const storage: LocalStorage
    var records: seq<Product>
    var name: string
    var description: string
    var price: NumInput
    var category: string
    var releaseDate: string
    var stock: NumInput
    var active: bool
    var errors: map<Field, string>
    var editingId: Option<int>

    /** The form fields as one value. */
    function CurrentForm(): Form
      reads this
    {
      Form(name, description, price, category, releaseDate, stock, active)
    }

    /** The list in storage is the list on screen. */
    ghost predicate Persisted()
      reads this, storage
    {
      storage.productsSlot == Stored(records)
    }

    /**
     * The catalog's invariants: ids and names unique, every record passes the field rules,
     * and the stored counter (if any) lies above every id.
     */
    ghost predicate Sound()
      reads this, storage
    {
      && Distinct(records)
      && (forall i :: 0 <= i < |records| ==> WellFormed(records[i]))
      && CounterAbove(storage.counterSlot, records)
    }

    /**
     * Mounting the component: the list is the stored one, or the two seeds when storage has
     * none or cannot be parsed; the form starts with today's date text in the category box;
     * the list is then written back to storage.
     */
    constructor (storage: LocalStorage, today: string)
      modifies storage
      ensures this.storage == storage
      ensures records == (if old(storage.productsSlot).Stored? then old(storage.productsSlot).items else Seeds())
      ensures CurrentForm() == InitialForm(today) && errors == map[] && editingId == None
      ensures Persisted() && storage.counterSlot == old(storage.counterSlot)
      ensures CounterValue(old(storage.counterSlot)).None? && !old(storage.productsSlot).Stored? ==> Sound()
    {
      this.storage := storage;
      records := match storage.productsSlot
        case Stored(items) => items
        case _ => Seeds();
      name, description, price := "", "", Typed("");
      category, releaseDate := today, "";
      stock, active := Number(0), true;
      errors, editingId := map[], None;
      new;
      if !storage.productsSlot.Stored? {
        SeedsWellFormed();
        SeedsDistinct();
      }
      storage.SaveProducts(records);
    }

    /** `resetForm()`: back to Creating mode with every field cleared. */
    method ResetForm()
      modifies this
      ensures CurrentForm() == BlankForm() && errors == map[] && editingId == None
      ensures records == old(records)
    {
      name, description, price := "", "", Typed("");
      category, releaseDate := "", "";
      stock, active := Number(0), true;
      errors, editingId := map[], None;
    }

    /** `handleEdit(cat)`: Editing mode for `p`, with its fields loaded into the form. */
    method Edit(p: Product)
      modifies this
      ensures CurrentForm() == FormOf(p) && errors == map[] && editingId == Some(p.id)
      ensures records == old(records)
    {
      editingId := Some(p.id);
      name := p.name;
      description := p.description;
      price := Number(p.price);
      category := p.category;
      releaseDate := match p.releaseDate case None => "" case Some(d) => d;
      stock := Number(p.stock);
      active := p.active;
      errors := map[];
    }

    /**
     * `handleSubmit()`: a form that fails validation keeps everything but the error map and
     * raises a danger notice; in Creating mode a passing form puts a new record with a
     * freshly allocated id in front; in Editing mode it rewrites the record with the edited
     * id in place. Both successful paths save the list, reset the form and raise a success
     * notice.
     */
    method Submit(now: int) returns (notice: Notice)
      requires Persisted()
      modifies this, storage
      ensures Persisted()
      ensures old(Sound()) ==> Sound()
      ensures var v := old(Validate(CurrentForm(), records, editingId, now));
        if v != map[] then
          && errors == v && notice == Notice(CheckInput, Danger)
          && records == old(records) && CurrentForm() == old(CurrentForm()) && editingId == old(editingId)
          && storage.counterSlot == old(storage.counterSlot)
        else
          && CurrentForm() == BlankForm() && errors == map[] && editingId == None
          && if old(editingId).None? then
               var a := NextId(old(storage.counterSlot), old(storage.productsSlot));
               && records == [FromForm(a.id, old(CurrentForm()))] + old(records)
               && storage.counterSlot == Some(a.written)
               && notice == Notice(Added, Success)
             else
               && records == ReplaceById(old(records), old(editingId).value, old(CurrentForm()))
               && storage.counterSlot == old(storage.counterSlot)
               && notice == Notice(Updated, Success)
    {
      var form := CurrentForm();
      var v := Validate(form, records, editingId, now);
      errors := v;
      if v != map[] {
        notice := Notice(CheckInput, Danger);
        return;
      }
      ghost var sound := Sound();
      if editingId.None? {
        var id := storage.GetNextId();
        var p := FromForm(id, form);
        if sound {
          PassingFormIsWellFormed(id, form, records, editingId, now);
          AllocationIsFresh(old(storage.counterSlot), records, p);
          PrependKeepsDistinct(p, records);
        }
        records := [p] + records;
        storage.SaveProducts(records);
        ResetForm();
        notice := Notice(Added, Success);
      } else {
        var target := editingId.value;
        if sound {
          PassingFormIsWellFormed(target, form, records, editingId, now);
          ReplaceByIdKeepsDistinct(records, target, form);
        }
        records := ReplaceById(records, target, form);
        storage.SaveProducts(records);
        ResetForm();
        notice := Notice(Updated, Success);
      }
    }

    /**
     * `handleDelete(id)` with the confirmation answer as a parameter: an absent id or a
     * declined confirmation changes nothing and raises no notice; otherwise the records with
     * that id are dropped and the list saved, the form is reset when that id was being
     * edited, and a success notice is raised.
     */
    method Delete(id: int, confirmed: bool) returns (notice: Option<Notice>)
      requires Persisted()
      modifies this, storage
      ensures Persisted()
      ensures old(Sound()) ==> Sound()
      ensures storage.counterSlot == old(storage.counterSlot)
      ensures if !old(HasId(records, id)) || !confirmed then
                && notice == None && records == old(records)
                && CurrentForm() == old(CurrentForm()) && editingId == old(editingId) && errors == old(errors)
              else
                && notice == Some(Notice(Deleted, Success))
                && records == RemoveById(old(records), id)
                && if old(editingId) == Some(id) then
                     CurrentForm() == BlankForm() && editingId == None && errors == map[]
                   else
                     CurrentForm() == old(CurrentForm()) && editingId == old(editingId) && errors == old(errors)
    {
      if !HasId(records, id) || !confirmed {
        notice := None;
        return;
      }
      ghost var sound := Sound();
      if sound {
        RemoveByIdKeepsDistinct(records, id);
      }
      records := RemoveById(records, id);
      storage.SaveProducts(records);
      if editingId == Some(id) {
        ResetForm();
      }
      notice := Some(Notice(Deleted, Success));
    }
  }
}
