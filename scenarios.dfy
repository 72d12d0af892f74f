/**
 * Clients of the catalog that walk through sample sessions; each step's outcome follows
 * from the handlers' contracts alone.
 */
module Scenarios {
  import opened Wrappers
  import opened Text
  import opened Numbers
  import opened Products
  import opened Validation
  import opened IdAllocator
  import opened RecordList
  import opened Catalog

  /** The form of the "Snack Bar" scenario. */
  function SnackBar(): Form {
    Form("Snack Bar", "", Typed("5000"), "Makanan", "", Typed("10"), true)
  }

  lemma SnackBarNumbers()
    ensures NumericValue(SnackBar().price) == Some(5000) && NumericValue(SnackBar().stock) == Some(10)
  {
    assert NumberOf("5000") == Some(5000) by {
      assert NaturalText(5) == "5";
      assert NaturalText(50) == "50";
      assert NaturalText(500) == "500";
      assert Decimal(5000) == "5000";
      NumberOfDecimal(5000);
    }
    assert NumberOf("10") == Some(10) by {
      assert Decimal(10) == "10";
      NumberOfDecimal(10);
    }
  }

  lemma SnackBarNoClash()
    ensures !NameClash(Seeds(), ToLower("Snack Bar"), None)
  {
    var key := ToLower("Snack Bar");
    forall i | 0 <= i < |Seeds()| ensures ToLower(Seeds()[i].name) != key {
      assert |Seeds()[i].name| == 7;
    }
  }

  lemma SnackBarName()
    ensures Trim(SnackBar().name) == "Snack Bar"
    ensures NameError(SnackBar().name, Seeds(), None).None?
  {
    TrimmedIsFixpoint("Snack Bar");
    SnackBarNoClash();
  }

  lemma SnackBarPasses(now: int)
    ensures Validate(SnackBar(), Seeds(), None, now) == map[]
    ensures NumericValue(SnackBar().price) == Some(5000) && NumericValue(SnackBar().stock) == Some(10)
    ensures FromForm(3, SnackBar()).name == "Snack Bar"
  {
    var f := SnackBar();
    SnackBarNumbers();
    SnackBarName();
    assert forall k :: FieldError(k, f, Seeds(), None, now).None?;
    ValidIffNoRuleFails(f, Seeds(), None, now);
  }

  /** Fresh storage: the seeds appear, and adding "Snack Bar" puts a record with id 3 in front. */
  method AddToFreshCatalog(now: int) {
    var storage := new LocalStorage(None, Missing);
    var app := new App(storage, "2026-10-15");
    assert app.records == Seeds();
    app.name, app.price, app.category, app.stock := "Snack Bar", Typed("5000"), "Makanan", Typed("10");
    assert app.CurrentForm() == SnackBar() && app.records == Seeds() && app.editingId == None;
    assert storage.counterSlot == None && storage.productsSlot == Stored(Seeds());
    SnackBarPasses(now);
    FirstIdAfterSeeds();
    var notice := app.Submit(now);
    assert notice == Notice(Added, Success);
    assert |app.records| == 3 && app.records[0] == FromForm(3, SnackBar());
    assert app.records[0].name == "Snack Bar";
    assert app.editingId == None && app.CurrentForm() == BlankForm();
  }

  /** A name that a seed already has, in other letter case, fails the name rule. */
  lemma LowerCaseSeedNameTaken(f: Form, now: int)
    requires f.name == "makanan"
    ensures Name in Validate(f, Seeds(), None, now)
    ensures Validate(f, Seeds(), None, now)[Name] == NameTaken
  {
    TrimmedIsFixpoint("makanan");
    assert ToLower(Trim(f.name)) == ToLower(Seeds()[0].name);
  }

  /** A name that a seed already has is refused and the list is unchanged. */
  method AddDuplicateName(now: int) {
    var storage := new LocalStorage(None, Missing);
    var app := new App(storage, "2026-10-15");
    app.name := "makanan";
    assert app.records == Seeds() && app.editingId == None;
    LowerCaseSeedNameTaken(app.CurrentForm(), now);
    var notice := app.Submit(now);
    assert notice == Notice(CheckInput, Danger);
    assert app.errors[Name] == NameTaken;
    assert app.records == Seeds();
  }

  /** A price of -5 fails the price rule, whatever the other fields hold. */
  lemma NegativePriceRefused(f: Form, records: seq<Product>, editingId: Option<int>, now: int)
    requires f.price == Typed("-5")
    ensures Price in Validate(f, records, editingId, now)
    ensures Validate(f, records, editingId, now)[Price] == PriceNegative
  {
    assert NumberOf("-5") == Some(-5) by { NumberOfDecimal(-5); assert Decimal(-5) == "-5"; }
  }

  /** Editing record 1 with a negative price fails; the record and the entered values stay. */
  method EditWithNegativePrice(now: int) {
    var storage := new LocalStorage(None, Missing);
    var app := new App(storage, "2026-10-15");
    app.Edit(app.records[0]);
    app.price := Typed("-5");
    var entered := app.CurrentForm();
    NegativePriceRefused(entered, app.records, app.editingId, now);
    var notice := app.Submit(now);
    assert notice.variant == Danger && app.errors[Price] == PriceNegative;
    assert app.records == Seeds() && app.CurrentForm() == entered && app.editingId == Some(1);
  }

  /** Deleting record 2: declined, nothing happens; confirmed while editing it, the form resets. */
  method DeleteSecondSeed() {
    var storage := new LocalStorage(None, Missing);
    var app := new App(storage, "2026-10-15");
    assert HasId(app.records, 2) by { assert app.records[1].id == 2; }
    var declined := app.Delete(2, false);
    assert declined == None && app.records == Seeds();
    app.Edit(app.records[1]);
    var confirmed := app.Delete(2, true);
    assert confirmed == Some(Notice(Deleted, Success));
    assert app.records == RemoveById(Seeds(), 2);
    assert app.editingId == None && app.CurrentForm() == BlankForm();
  }

  lemma SecondSeedDeleted()
    ensures RemoveById(Seeds(), 2) == [Seeds()[0]]
  {
    assert Seeds() == [Seeds()[0]] + [Seeds()[1]];
    RemoveByIdAppend([Seeds()[0]], [Seeds()[1]], 2);
  }

  /**
   * Fresh storage holds no counter: after the second seed is deleted, the next id handed
   * out is 2 again, the id the deleted record had.
   */
  method DeleteThenAllocate() {
    var storage := new LocalStorage(None, Missing);
    var app := new App(storage, "2026-10-15");
    assert HasId(app.records, 2) by { assert app.records[1].id == 2; }
    var notice := app.Delete(2, true);
    SecondSeedDeleted();
    DeletedIdIsReused();
    var id := storage.GetNextId();
    assert id == 2;
  }
}
