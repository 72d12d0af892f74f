/**
 * The form validator: each field has its own chain of rules, the first rule that fails
 * gives that field's message, and the result maps every failing field to its message.
 */
module Validation {
  import opened Wrappers
  import opened Text
  import opened Numbers
  import opened Products

  /** The keys of the error map. */
  datatype Field = Name | Description | Price | Category | ReleaseDate | Stock

  const NameRequired := "Nama Produk wajib diisi."
  const NameTooShort := "Minimal 3 karakter."
  const NameTooLong := "Maksimal 100 karakter."
  const NameTaken := "Nama Produk sudah ada."
  const DescriptionTooShort := "Deskripsi minimal 20 karakter."
  const DescriptionTooLong := "Deskripsi terlalu panjang."
  const PriceRequired := "Harga wajib diisi."
  const PriceNotNumeric := "Harga harus numerik."
  const PriceNegative := "Harga minimal 0."
  const CategoryRequired := "Kategori utama wajib dipilih."
  const DateInvalid := "Format tanggal tidak valid."
  const DateInFuture := "Tanggal rilis tidak boleh di masa depan."
  const StockNotNumeric := "Stok harus numerik."
  const StockNegative := "Stok minimal 0."
  const StockTooLarge := "Stok terlalu besar."

  const MaxStock := 1_000_000

  /** `c.id !== editingId`: the record is not the one being edited (always so in Creating mode). */
  predicate NotEditing(id: int, editingId: Option<int>) {
    editingId != Some(id)
  }

  /**
   * `records.some(c => c.name.toLowerCase() === key && c.id !== editingId)`:
   * some other record already carries the lower-cased name `key`.
   */
  function NameClash(records: seq<Product>, key: string, editingId: Option<int>): (b: bool)
    ensures b <==> exists i :: 0 <= i < |records| && ToLower(records[i].name) == key
                                && NotEditing(records[i].id, editingId)
  {
    if records == [] then false
    else (ToLower(records[0].name) == key && NotEditing(records[0].id, editingId))
         || NameClash(records[1..], key, editingId)
  }

  /**
   * The name rule: required, 3 to 100 UTF-16 code units after trimming, and no other record with
   * the same name up to letter case.
   */
  function NameError(name: string, records: seq<Product>, editingId: Option<int>): (e: Option<string>)
    ensures var t := Trim(name);
      && (e == Some(NameRequired) <==> t == [])
      && (e == Some(NameTooShort) <==> t != [] && CodeUnits(t) < 3)
      && (e == Some(NameTooLong) <==> CodeUnits(t) > 100)
      && (e == Some(NameTaken) <==>
            3 <= CodeUnits(t) <= 100 &&
            exists i :: 0 <= i < |records| && ToLower(records[i].name) == ToLower(t)
                        && NotEditing(records[i].id, editingId))
      && (e.None? <==>
            3 <= CodeUnits(t) <= 100 &&
            forall i :: 0 <= i < |records| && NotEditing(records[i].id, editingId)
                        ==> ToLower(records[i].name) != ToLower(t))
  {
    var t := Trim(name);
    if t == [] then Some(NameRequired)
    else if CodeUnits(t) < 3 then Some(NameTooShort)
    else if CodeUnits(t) > 100 then Some(NameTooLong)
    else if NameClash(records, ToLower(t), editingId) then Some(NameTaken)
    else None
  }

  /** The description rule: optional, but a non-empty trimmed description needs 20 to 1000 UTF-16 code units. */
  function DescriptionError(description: string): (e: Option<string>)
    ensures var t := Trim(description);
      && (e.None? <==> t == [] || 20 <= CodeUnits(t) <= 1000)
      && (e == Some(DescriptionTooShort) <==> t != [] && CodeUnits(t) < 20)
      && (e == Some(DescriptionTooLong) <==> CodeUnits(t) > 1000)
  {
    var t := Trim(description);
    var e := if t != [] && CodeUnits(t) < 20 then Some(DescriptionTooShort) else None;
    if t != [] && CodeUnits(t) > 1000 then Some(DescriptionTooLong) else e
  }

  /** `String(price).trim() === ""`: only typed text can be blank; a number never is. */
  predicate IsBlank(x: NumInput) {
    x.Typed? && Trim(x.text) == []
  }

  /** The price rule: required, numeric, at least 0. */
  function PriceError(price: NumInput): (e: Option<string>)
    ensures e == Some(PriceRequired) <==> IsBlank(price)
    ensures e == Some(PriceNotNumeric) <==> !IsBlank(price) && NumericValue(price).None?
    ensures e == Some(PriceNegative) <==> !IsBlank(price) && NumericValue(price).Some? && NumericValue(price).value < 0
    ensures e.None? <==> !IsBlank(price) && NumericValue(price).Some? && NumericValue(price).value >= 0
  {
    var parsed := if price == Typed("") then None else NumericValue(price);
    if IsBlank(price) then Some(PriceRequired)
    else if parsed.None? then Some(PriceNotNumeric)
    else if parsed.value < 0 then Some(PriceNegative)
    else None
  }

  /** The category rule: only an empty selection fails; the option list is not consulted. */
  function CategoryError(category: string): (e: Option<string>)
    ensures e.None? <==> category != []
    ensures e.Some? ==> e.value == CategoryRequired
  {
    if category == "" then Some(CategoryRequired) else None
  }

  /** The release-date rule: optional, but a given date must be a real date no later than `now`. */
  function ReleaseDateError(releaseDate: string, now: int): (e: Option<string>)
    ensures e.None? <==> releaseDate == [] || (ParseIsoDate(releaseDate).Some? && ParseIsoDate(releaseDate).value <= now)
    ensures e == Some(DateInvalid) <==> releaseDate != [] && ParseIsoDate(releaseDate).None?
    ensures e == Some(DateInFuture) <==> releaseDate != [] && ParseIsoDate(releaseDate).Some? && ParseIsoDate(releaseDate).value > now
  {
    if releaseDate != "" then
      var rd := ParseIsoDate(releaseDate);
      if rd.None? then Some(DateInvalid)
      else if rd.value > now then Some(DateInFuture)
      else None
    else None
  }

  /** The stock rule: numeric, at least 0 and at most 1,000,000; fractions are not ruled out. */
  function StockError(stock: NumInput): (e: Option<string>)
    ensures e.None? <==> NumericValue(stock).Some? && 0 <= NumericValue(stock).value <= MaxStock
    ensures e == Some(StockNotNumeric) <==> NumericValue(stock).None?
    ensures e == Some(StockNegative) <==> NumericValue(stock).Some? && NumericValue(stock).value < 0
    ensures e == Some(StockTooLarge) <==> NumericValue(stock).Some? && NumericValue(stock).value > MaxStock
  {
    var parsed := NumericValue(stock);
    if parsed.None? then Some(StockNotNumeric)
    else if parsed.value < 0 then Some(StockNegative)
    else if parsed.value > MaxStock then Some(StockTooLarge)
    else None
  }

  /** The outcome of one field's rule chain. */
  function FieldError(k: Field, f: Form, records: seq<Product>, editingId: Option<int>, now: int): Option<string> {
    match k
    case Name => NameError(f.name, records, editingId)
    case Description => DescriptionError(f.description)
    case Price => PriceError(f.price)
    case Category => CategoryError(f.category)
    case ReleaseDate => ReleaseDateError(f.releaseDate, now)
    case Stock => StockError(f.stock)
  }

  const AllFields: set<Field> := {Name, Description, Price, Category, ReleaseDate, Stock}

  /**
   * `validate()`: every field is checked on its own, and a field is in the result exactly
   * when its rule fails, with that rule's message.
   */
  function Validate(f: Form, records: seq<Product>, editingId: Option<int>, now: int): (errors: map<Field, string>)
    ensures forall k :: k in errors <==> FieldError(k, f, records, editingId, now).Some?
    ensures forall k :: k in errors ==> errors[k] == FieldError(k, f, records, editingId, now).value
    ensures errors == map[] ==> NumericValue(f.price).Some? && NumericValue(f.stock).Some?
  {
    assert FieldError(Price, f, records, editingId, now).None? ==> NumericValue(f.price).Some?;
    assert FieldError(Stock, f, records, editingId, now).None? ==> NumericValue(f.stock).Some?;
    map k | k in AllFields && FieldError(k, f, records, editingId, now).Some? :: FieldError(k, f, records, editingId, now).value
  }

  /** A form passes exactly when no field's rule fails. */
  lemma ValidIffNoRuleFails(f: Form, records: seq<Product>, editingId: Option<int>, now: int)
    ensures Validate(f, records, editingId, now) == map[]
            <==> forall k :: FieldError(k, f, records, editingId, now).None?
  {
    var errors := Validate(f, records, editingId, now);
    if forall k :: FieldError(k, f, records, editingId, now).None? {
      assert errors.Keys == {};
    }
  }

  /**
   * A form that passes yields a record that keeps the catalog's field rules, whose name no
   * other record shares up to letter case.
   */
  lemma PassingFormIsWellFormed(id: int, f: Form, records: seq<Product>, editingId: Option<int>, now: int)
    requires Validate(f, records, editingId, now) == map[]
    ensures NumericValue(f.price).Some? && NumericValue(f.stock).Some?
    ensures WellFormed(FromForm(id, f))
    ensures forall i :: 0 <= i < |records| && NotEditing(records[i].id, editingId)
                        ==> ToLower(records[i].name) != ToLower(FromForm(id, f).name)
    ensures f.releaseDate != [] ==> ParseIsoDate(f.releaseDate).Some? && ParseIsoDate(f.releaseDate).value <= now
  {
    ValidIffNoRuleFails(f, records, editingId, now);
    assert FieldError(Name, f, records, editingId, now).None?;
    assert FieldError(Description, f, records, editingId, now).None?;
    assert FieldError(Price, f, records, editingId, now).None?;
    assert FieldError(Category, f, records, editingId, now).None?;
    assert FieldError(ReleaseDate, f, records, editingId, now).None?;
    assert FieldError(Stock, f, records, editingId, now).None?;
    TrimIdempotent(f.name);
    TrimIdempotent(f.description);
    TrimmedIsFixpoint(Trim(f.name));
    TrimmedIsFixpoint(Trim(f.description));
  }

  /**
   * Length is counted in UTF-16 code units: a name of two emoji is four units long, so it
   * passes the length rules and is refused only if another record has the same name.
   */
  lemma TwoEmojiNameIsLongEnough(records: seq<Product>, editingId: Option<int>)
    ensures var e := NameError("\U{1F354}\U{1F354}", records, editingId);
      e == None || e == Some(NameTaken)
  {
    AstralCharacterCountsTwice();
    TrimmedIsFixpoint("\U{1F354}\U{1F354}");
  }

  /** A blank stock box reads as `Number("") == 0` and passes the stock rule. */
  lemma BlankStockPasses(text: string)
    requires Trim(text) == []
    ensures StockError(Typed(text)) == None
    ensures NumericValue(Typed(text)) == Some(0)
  {
  }
}
