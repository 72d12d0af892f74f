# Product catalog state machine

A model of the logic inside the point-of-sale product catalog (`src/App.jsx`): a single React
component that keeps a list of product records, a form that creates or edits one record, a
per-field validator, an id allocator backed by browser storage, and the add / update / delete
handlers that tie them together. The markup around it is not modelled.

The model is split by component:

- `wrappers.dfy` — `Option`, standing for `null`, absent storage entries and failed parses.
- `text.dfy` (`Text`) — `trim` with ECMAScript's white-space set, `length` in UTF-16 code units,
  and ASCII `toLowerCase`.
- `numbers.dfy` (`Numbers`) — `Number(text)` for decimal integers (blank text is 0), `String(n)`
  for integers and their round trip, and `new Date("YYYY-MM-DD")` as milliseconds at UTC midnight,
  with the calendar arithmetic shown to keep later dates later.
- `products.dfy` (`Products`) — the product record, the form (a number box holds either typed
  text or a number the code put there), the two seed records, building a record from a submitted
  form and loading a record back into the form.
- `validation.dfy` (`Validation`) — the six field rules and `validate`, with the error messages
  the component shows.
- `allocator.dfy` (`IdAllocator`) — `getNextId` as a function of the two storage entries.
- `records.dfy` (`RecordList`) — the update (`map`) and delete (`filter`) list transformations and
  the uniqueness invariant (ids and case-folded names).
- `catalog.dfy` (`Catalog`) — class `LocalStorage` (the counter entry and the product-list entry,
  with `getNextId` run against them) and class `App` (the component's state variables and
  handlers: mount, `resetForm`, `handleEdit`, `handleSubmit`, `handleDelete`).
- `scenarios.dfy` (`Scenarios`) — clients that walk through five sample sessions using the
  handlers' contracts alone: adding "Snack Bar" to fresh storage gets id 3 and goes in front; a
  name a seed already has is refused; editing record 1 with price -5 fails and keeps the entered
  values; deleting record 2 does nothing when declined and resets the form when confirmed while
  it is being edited; deleting record 2 on fresh storage and then allocating hands out 2 again.

`App` keeps an invariant `Sound()`: ids and case-folded names are unique, every record passes
the field rules (its release date, if any, parses as a date; that the date is not after the
current time holds at the moment of saving and, lacking a clock in the state, is not part of the
invariant), and a readable stored counter lies above every id. Mounting on empty storage
establishes it, and `Submit` and `Delete` preserve it; `Edit` and `ResetForm` touch neither the
list nor storage. `Persisted()` says the stored list is the list on screen; `Submit` and `Delete`
keep it.

Behaviour a reader may not expect, modelled as the code does it:

- The validator only requires `category` to be non-empty (src/App.jsx:149); the option list
  (src/App.jsx:256-263) is enforced by the drop-down alone. The form starts with today's date text
  in the category box (src/App.jsx:87-89), while a reset clears it to `""` (src/App.jsx:171).
- An update whose edited id matches no record leaves the list as it is but still resets the form
  and raises the success notice (src/App.jsx:208-226); `ReplaceById` is then the identity.
- When the counter is unreadable and the product-list entry is absent, `getNextId` refers to
  `initialProducts`, which is out of scope there; the error is caught and 1 is returned with "2"
  written back (src/App.jsx:29-30, 39-42). `MissingSlotReusesSeedId` shows 1 is the first seed's
  id. In the component this does not arise: mounting writes the list to storage before any add
  (src/App.jsx:103-109), so with both seeds still listed the first add gets 3
  (`FirstIdAfterSeeds`).
- Until the first add writes a counter, the id comes from the largest id still listed
  (src/App.jsx:28-38): deleting record 2 on fresh storage and then adding hands out 2 again, and
  deleting both seeds first hands out 1 (`DeletedIdIsReused`). Ids are unique among the records
  present, not over the catalog's history.
- A readable stored counter is used without comparing it to the stored ids (src/App.jsx:22-26);
  freshness of new ids therefore rests on the counter lying above them, which `Sound()` carries.
- `Number("")` is 0, so an empty stock box passes validation and stores 0 (`BlankStockPasses`).

## Model

| member | source | states |
|---|---|---|
| `Text.Trim` | src/App.jsx:113-114 | the trimmed text is empty exactly when the input is all white space, and otherwise neither starts nor ends with white space |
| `Text.TrimDropsOnlyOuterSpace` | src/App.jsx:113-114 | the trimmed text is a slice of the input with only white space before and after it, so (with `Trim`'s non-space ends) exactly the surrounding white space is removed |
| `Text.CodeUnits` | src/App.jsx:122-123 | `length` counts UTF-16 code units: at least one and at most two per character |
| `Text.CodeUnitsOfBasicPlane` | src/App.jsx:122-123 | the code-unit length equals the character count exactly when no character lies beyond U+FFFF |
| `Text.AstralCharacterCountsTwice` | src/App.jsx:136-138 | a string of two emoji is two characters but four code units long |
| `Text.ToLower` | src/App.jsx:128 | `toLowerCase` for ASCII letters; `Products.SeedsWellFormed` and `Scenarios.LowerCaseSeedNameTaken` use it to tell names apart and to find a clash in other letter case |
| `Text.TrimIdempotent` | src/App.jsx:197-198 | trimming a trimmed name or description changes nothing, so stored text needs no second trim |
| `Numbers.NumberOf` | src/App.jsx:117-118 | `Number(text)` of blank or all-space text is 0 |
| `Numbers.Decimal` | src/App.jsx:24 | `String(n)` for an integer; `NumberOfDecimal` shows `Number` reads it back as `n` |
| `Numbers.DaysFromCivil` | src/App.jsx:116 | the day count behind `new Date(text)`; `EpochIsZero` anchors 1970-01-01 at 0, `NextDayIsOneLater` makes each next day one more, so it counts days since 1970-01-01 |
| `Numbers.NumberOfDecimal` | src/App.jsx:22-24 | an integer written with `String` reads back as itself with `Number`, which is how the counter entry round-trips |
| `Numbers.EpochIsZero` | src/App.jsx:116 | the date-only text "1970-01-01" reads as time 0, midnight UTC |
| `Numbers.ParseIsoDate` | src/App.jsx:116 | a date-only text that parses lands on a midnight: its time is a whole number of days |
| `Numbers.NextDay` | src/App.jsx:153-155 | the day after a valid date is a valid date and comes after it |
| `Numbers.MarchToMarch` | src/App.jsx:153-155 | a year counted from 1 March has 366 days exactly when the February that ends it is in a leap year |
| `Numbers.FebruaryEndIsOneLater` | src/App.jsx:153-155 | 1 March is one day after the last day of February, 28 or 29 by the leap-year rule |
| `Numbers.MonthEndIsOneLater` | src/App.jsx:153-155 | the first of the next month (or 1 January of the next year) is one day after the last day of any month but February |
| `Numbers.NextDayIsOneLater` | src/App.jsx:153-155 | the day after a date is exactly one day later, including across the end of a month, of February in leap and common years, and of a year |
| `Numbers.NextDayIsAdjacent` | src/App.jsx:153-155 | no valid date lies strictly between a date and the day after it |
| `Numbers.LaterDateIsLater` | src/App.jsx:153-155 | a later calendar date has a strictly larger day count, so the comparison with the current time orders dates as the calendar does |
| `Numbers.IsoDateRoundTrip` | src/App.jsx:116 | reading the "YYYY-MM-DD" text of a valid date gives that day's midnight in milliseconds |
| `Numbers.LaterIsoDateIsLater` | src/App.jsx:153-155 | the texts of two valid dates both parse, and the later date reads as a strictly later time |
| `Products.EditFormRoundTrip` | src/App.jsx:230-240 | loading a valid record into the form and building a record from that unchanged form under the same id gives the record back |
| `Products.SeedsWellFormed` | src/App.jsx:47-71 | the two seed records have ids 1 and 2, different names up to letter case, and pass every field rule, their release dates parsing as real days (not being after now is left to the clock) |
| `Products.SeedDatesParse` | src/App.jsx:55-65 | the seeds' release dates "2024-01-01" and "2024-02-01" read as valid dates |
| `Products.Seeds` | src/App.jsx:47-71 | the two initial records; `SeedsWellFormed` and `RecordList.SeedsDistinct` show they satisfy the catalog's invariant |
| `Products.FromForm` | src/App.jsx:194-204 | the record a submit stores (trimmed name and description, `Number` of price and stock, empty date as `null`); `EditFormRoundTrip` shows it inverts `FormOf` on valid records and `PassingFormIsWellFormed` that a passing form gives a valid record |
| `Products.FormOf` | src/App.jsx:231-238 | the form `handleEdit` fills in; `EditFormRoundTrip` shows that saving it unchanged gives the record back |
| `Products.InitialForm` | src/App.jsx:83-91 | the form on mount, today's date text in the category box; `Catalog.App.constructor` establishes it |
| `Products.BlankForm` | src/App.jsx:168-174 | the form after a reset; `Catalog.App.ResetForm`, `Submit` and `Delete` establish it |
| `Validation.NameClash` | src/App.jsx:126-130 | true exactly when some record other than the edited one has the given lower-cased name |
| `Validation.NameError` | src/App.jsx:120-132 | trimmed name empty gives "required"; shorter than 3 code units gives "too short"; longer than 100 gives "too long"; otherwise an error exactly when another record (id not the edited id) has the same name up to letter case |
| `Validation.DescriptionError` | src/App.jsx:134-140 | no error exactly when the trimmed description is empty or 20 to 1000 UTF-16 code units long; below 20 and above 1000 give their own messages |
| `Validation.PriceError` | src/App.jsx:142-146 | blank gives "required", non-numeric gives "numeric", negative gives "minimum 0", and a value of at least 0 gives no error |
| `Validation.CategoryError` | src/App.jsx:148-149 | an error exactly when the category is empty |
| `Validation.ReleaseDateError` | src/App.jsx:151-157 | no error exactly when the date is empty or a valid date not after now; an invalid date and a future date give their own messages |
| `Validation.StockError` | src/App.jsx:159-162 | no error exactly when the stock is numeric and between 0 and 1,000,000; non-numeric, negative and too-large each give their own message |
| `Validation.Validate` | src/App.jsx:111-165 | a field is in the error map exactly when its own rule fails, with that rule's message; an empty map means price and stock are numeric |
| `Validation.ValidIffNoRuleFails` | src/App.jsx:187-189 | the error map is empty exactly when no field's rule fails |
| `Validation.PassingFormIsWellFormed` | src/App.jsx:185-207 | a form that passes builds a record satisfying every field rule whose name clashes, up to letter case, with no record other than the edited one |
| `Validation.TwoEmojiNameIsLongEnough` | src/App.jsx:120-132 | a name of two emoji (four code units) passes the length rules and can fail only because another record has the same name |
| `Validation.BlankStockPasses` | src/App.jsx:118 | a blank stock box reads as 0 and passes the stock rule |
| `IdAllocator.CounterValue` | src/App.jsx:22 | the counter is read only when it is non-empty text that `Number` parses; `NextId` uses it for its first branch and `ConsecutiveAllocations` shows a written counter reads back |
| `IdAllocator.MaxId` | src/App.jsx:31-34 | the fold is at least 0, at least every id, and is 0 or one of the ids |
| `IdAllocator.NextId` | src/App.jsx:17-44 | a readable counter c gives c; otherwise a stored list gives one more than its largest id (or 1), above every stored id; a missing or unparseable list gives 1; in every case the text written back reads as the id plus one |
| `IdAllocator.AllocationIsFresh` | src/App.jsx:22-38 | with a counter above every stored id (or none), the new id is above every stored id and the written counter stays above the list with the new record in front |
| `IdAllocator.ConsecutiveAllocations` | src/App.jsx:22-26 | a second call right after a first hands out the first id plus one |
| `IdAllocator.FirstIdAfterSeeds` | src/App.jsx:28-38 | with no counter and the two seeds stored, the id handed out is 3 |
| `IdAllocator.MissingSlotReusesSeedId` | src/App.jsx:39-42 | with no counter and no stored list, the id handed out equals the first seed's id |
| `IdAllocator.DeletedIdIsReused` | src/App.jsx:28-38 | with no counter, a list holding only the first seed yields id 2 (the deleted seed's id), and an empty list yields 1 |
| `RecordList.ReplaceById` | src/App.jsx:209-224 | same length and order; each record with the edited id becomes the form's record under that id; every other record is untouched |
| `RecordList.SeedsDistinct` | src/App.jsx:47-71 | the seeds start out with unique ids and case-folded names |
| `RecordList.RemoveById` | src/App.jsx:247 | the result holds exactly the records whose id differs; with no record carrying the id it is the list itself |
| `RecordList.RemoveByIdAppend` | src/App.jsx:247 | deleting from a concatenation deletes from each part, so the survivors keep their relative order |
| `RecordList.RemoveByIdRemovesOne` | src/App.jsx:243-247 | in a list with distinct ids, deleting a present id shortens the list by exactly one |
| `RecordList.RemoveByIdKeepsDistinct` | src/App.jsx:247 | a delete keeps ids and case-folded names unique |
| `RecordList.ReplaceByIdKeepsDistinct` | src/App.jsx:209-224 | an update whose new name clashes with no other record keeps ids and case-folded names unique |
| `RecordList.PrependKeepsDistinct` | src/App.jsx:194-205 | a new record in front with an id above all others and a non-clashing name keeps ids and names unique |
| `Catalog.LocalStorage.GetNextId` | src/App.jsx:17-44 | returns the allocator's id and writes its counter text, leaving the stored list alone; the largest-id fold is a loop |
| `Catalog.LocalStorage.SaveProducts` | src/App.jsx:103-109 | the list entry becomes the given list; the counter is untouched |
| `Catalog.App.constructor` | src/App.jsx:73-95 | the list is the stored one, or the seeds when there is none or it cannot be parsed; the form starts with today's date in the category box; the list is written back; on empty storage the invariant holds |
| `Catalog.App.ResetForm` | src/App.jsx:167-177 | all fields cleared (stock 0, active on), errors cleared, Creating mode, list unchanged |
| `Catalog.App.Edit` | src/App.jsx:230-240 | the form holds the record's fields, errors are cleared, Editing mode for its id, list unchanged |
| `Catalog.App.Submit` | src/App.jsx:185-228 | a failing form keeps list, form and mode, stores the error map and raises danger; in Creating mode a passing form puts the new record with the allocated id in front; in Editing mode it rewrites the edited record in place; both reset the form, raise success and keep the invariant |
| `Catalog.App.Delete` | src/App.jsx:242-250 | an absent id or a declined confirmation changes nothing and raises nothing; otherwise exactly the records with that id go, the form resets exactly when that id was being edited, and success is raised |

## Left out

- The markup, the react-bootstrap widgets, the calendar-icon reference and the description
  counter (src/App.jsx:252-552): presentation only.
- Toast display and auto-hide: a handler returns the message and variant of its notice instead.
- The per-keystroke `onChange` handlers that copy input values and clear one field's error: the
  scenarios assign the form fields directly.
- JSON serialisation: the list entry is modelled as already parsed (`Stored`), unparseable, or
  missing. Stored JSON that parses to something other than a list (such as `null`), and record
  fields beyond the eight the form edits, are not modelled; ids are integers, so the
  `Number(c.id) || 0` guard against non-numeric ids has nothing to filter.
- Storage write failures, which the component catches and logs (src/App.jsx:104-108): writes
  always succeed in the model.
- Floating point: prices and stock are integers. `Number(text)` accepts an optional sign and
  decimal digits around white space; fractions, exponents, hexadecimal and `Infinity`, which
  JavaScript reads as numbers, read as NaN here. Because of this the fact that stock is never
  checked to be a whole number has no counterpart in the model.
- `new Date(text)` for any form other than "YYYY-MM-DD", and any engine leniency for impossible
  days such as 30 February: the model accepts only real calendar dates in that form.
- `toLowerCase` beyond ASCII letters.
- IdAllocator.NextId: ids and the counter are exact integers here. In JavaScript they are
  doubles: `Number` rounds a counter text above 2^53, and `next + 1` stops growing at 2^53, so
  a counter of "9007199254740992" hands out 9007199254740992 twice. The model does not capture
  this limit.
- IdAllocator.ConsecutiveAllocations: holds in JavaScript only while the counter is below 2^53,
  for the reason above.
- IdAllocator.AllocationIsFresh: likewise holds only below 2^53; so does the freshness part of
  `Catalog.App.Submit`'s invariant `Sound()`.
- The clock and the confirmation dialog: `now` (milliseconds since the epoch), today's date text
  and the confirmation answer are parameters.
