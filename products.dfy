/**
 * The product record, the form that edits it, and the two conversions between them:
 * building a record from a submitted form and loading a record back into the form.
 */
module Products {
  import opened Wrappers
  import opened Text
  import opened Numbers

  /** One catalog entry as the list holds it; `releaseDate` is `None` where the source stores `null`. */
  datatype Product = Product(
    id: int,
    name: string,
    description: string,
    price: int,
    category: string,
    releaseDate: Option<string>,
    stock: int,
    active: bool)

  /**
   * What a number box holds: text the user typed, or a number the code put there
   * (the initial stock 0, or the price and stock copied from a record being edited).
   */
  datatype NumInput = Typed(text: string) | Number(n: int)

  /** `Number(x)` applied to a number box; `None` is NaN. */
  function NumericValue(x: NumInput): Option<int> {
    match x
    case Typed(s) => NumberOf(s)
    case Number(n) => Some(n)
  }

  /** The form fields of the component, exactly as the inputs hold them. */
  datatype Form = Form(
    name: string,
    description: string,
    price: NumInput,
    category: string,
    releaseDate: string,
    stock: NumInput,
    active: bool)

  /** The two records the catalog starts with when storage holds no list. */
  function Seeds(): seq<Product> {
    [ Product(1, "Makanan", "Produk makanan siap saji", 10000, "Makanan", Some("2024-01-01"), 10, true),
      Product(2, "Minuman", "Aneka minuman dingin & hangat", 8000, "Minuman", Some("2024-02-01"), 20, true) ]
  }

  /** The form right after mount: the category box holds today's date text. */
  function InitialForm(today: string): Form {
    Form("", "", Typed(""), today, "", Number(0), true)
  }

  /** The form after a reset: every field cleared, stock 0, active on. */
  function BlankForm(): Form {
    Form("", "", Typed(""), "", "", Number(0), true)
  }

  /** The release date as stored: an empty box becomes `null`. */
  function StoredDate(text: string): Option<string> {
    if text == "" then None else Some(text)
  }

  /**
   * The record a submitted form produces under id `id`: names trimmed, numbers coerced,
   * an empty date turned into `null`.
   */
  function FromForm(id: int, f: Form): (p: Product)
    requires NumericValue(f.price).Some? && NumericValue(f.stock).Some?
  {
    Product(id, Trim(f.name), Trim(f.description), NumericValue(f.price).value, f.category,
            StoredDate(f.releaseDate), NumericValue(f.stock).value, f.active)
  }

  /** The form that starting an edit of `p` fills in. */
  function FormOf(p: Product): (f: Form) {
    Form(p.name, p.description, Number(p.price), p.category,
         match p.releaseDate case None => "" case Some(d) => d,
         Number(p.stock), p.active)
  }

  /**
   * A record that the validator's field rules would let through, as it was written. The
   * release date is required to parse; that it is not after the current time is a fact about
   * the moment of saving, not about the record, and is not part of this predicate.
   */
  predicate WellFormed(p: Product) {
    && Trimmed(p.name) && 3 <= CodeUnits(p.name) <= 100
    && Trimmed(p.description) && (p.description == [] || 20 <= CodeUnits(p.description) <= 1000)
    && p.price >= 0
    && p.category != []
    && p.releaseDate != Some([])
    && (p.releaseDate.Some? ==> ParseIsoDate(p.releaseDate.value).Some?)
    && 0 <= p.stock <= 1_000_000
  }

  /** Starting an edit of a record and saving the unchanged form gives the record back. */
  lemma EditFormRoundTrip(p: Product)
    requires WellFormed(p)
    ensures NumericValue(FormOf(p).price).Some? && NumericValue(FormOf(p).stock).Some?
    ensures FromForm(p.id, FormOf(p)) == p
  {
    var f := FormOf(p);
    assert Trim(f.name) == p.name by { TrimmedIsFixpoint(p.name); }
    assert Trim(f.description) == p.description by { TrimmedIsFixpoint(p.description); }
    assert StoredDate(f.releaseDate) == p.releaseDate;
  }

  /** The seeds' release dates are texts a date box writes for real days, so they parse. */
  lemma SeedDatesParse()
    ensures ParseIsoDate("2024-01-01").Some?
    ensures ParseIsoDate("2024-02-01").Some?
  {
    assert IsoDateText(Date(2024, 1, 1)) == "2024-01-01";
    IsoDateRoundTrip(Date(2024, 1, 1));
    assert IsoDateText(Date(2024, 2, 1)) == "2024-02-01";
    IsoDateRoundTrip(Date(2024, 2, 1));
  }

  lemma FirstSeedTexts()
    ensures Trimmed(Seeds()[0].name) && 3 <= CodeUnits(Seeds()[0].name) <= 100
    ensures Trimmed(Seeds()[0].description) && 20 <= CodeUnits(Seeds()[0].description) <= 1000
  {
  }

  lemma FirstSeedWellFormed()
    ensures WellFormed(Seeds()[0])
  {
    FirstSeedTexts();
    SeedDatesParse();
  }

  lemma SecondSeedTexts()
    ensures Trimmed(Seeds()[1].name) && 3 <= CodeUnits(Seeds()[1].name) <= 100
    ensures Trimmed(Seeds()[1].description) && 20 <= CodeUnits(Seeds()[1].description) <= 1000
  {
  }

  lemma SecondSeedWellFormed()
    ensures WellFormed(Seeds()[1])
  {
    SecondSeedTexts();
    SeedDatesParse();
  }

  /** The seeds carry ids 1 and 2, distinct names, and pass every field rule. */
  lemma SeedsWellFormed()
    ensures |Seeds()| == 2 && Seeds()[0].id == 1 && Seeds()[1].id == 2
    ensures ToLower(Seeds()[0].name) != ToLower(Seeds()[1].name)
    ensures forall i :: 0 <= i < |Seeds()| ==> WellFormed(Seeds()[i])
  {
    assert ToLower(Seeds()[0].name)[2] == 'k';
    assert ToLower(Seeds()[1].name)[2] == 'n';
    FirstSeedWellFormed();
    SecondSeedWellFormed();
  }
}
