/**
 * The two list transformations the controller applies: the update (`prev.map(...)`),
 * which rewrites the records carrying the edited id, and the delete (`prev.filter(...)`),
 * which drops the records carrying a given id. Also the catalog's uniqueness invariant.
 */
module RecordList {
  import opened Text
  import opened Products

  /** Some record in the list carries `id` (`categories.find(c => c.id === id)` succeeds). */
  predicate HasId(records: seq<Product>, id: int) {
    exists i :: 0 <= i < |records| && records[i].id == id
  }

  /**
   * No two records share an id or, up to letter case, a name: the catalog's uniqueness
   * invariant.
   */
  predicate Distinct(records: seq<Product>) {
    forall i, j :: 0 <= i < j < |records| ==>
      records[i].id != records[j].id && ToLower(records[i].name) != ToLower(records[j].name)
  }

  /** The two seeds already satisfy the uniqueness invariant. */
  lemma SeedsDistinct()
    ensures Distinct(Seeds())
  {
    SeedsWellFormed();
  }

  /**
   * The update: every record whose id is `id` gets the form's fields and keeps its own id;
   * every other record, and the order, stay as they were.
   */
  function ReplaceById(records: seq<Product>, id: int, f: Form): (r: seq<Product>)
    requires NumericValue(f.price).Some? && NumericValue(f.stock).Some?
    ensures |r| == |records|
    ensures forall i :: 0 <= i < |records| && records[i].id == id ==> r[i] == FromForm(id, f)
    ensures forall i :: 0 <= i < |records| && records[i].id != id ==> r[i] == records[i]
  {
    if records == [] then []
    else [if records[0].id == id then FromForm(records[0].id, f) else records[0]]
         + ReplaceById(records[1..], id, f)
  }

  /** The delete: the records whose id is not `id`, in their original order. */
  function RemoveById(records: seq<Product>, id: int): (r: seq<Product>)
    ensures forall p :: p in r <==> p in records && p.id != id
    ensures |r| <= |records|
    ensures !HasId(records, id) ==> r == records
  {
    if records == [] then []
    else (if records[0].id == id then [] else [records[0]]) + RemoveById(records[1..], id)
  }

  /** Deleting from a concatenation deletes from each part: the survivors keep their order. */
  lemma {:induction false} RemoveByIdAppend(a: seq<Product>, b: seq<Product>, id: int)
    ensures RemoveById(a + b, id) == RemoveById(a, id) + RemoveById(b, id)
  {
    if a == [] {
      assert a + b == b;
    } else {
      assert (a + b)[1..] == a[1..] + b;
      RemoveByIdAppend(a[1..], b, id);
    }
  }

  /** In a catalog with distinct ids, a delete of a present id removes exactly one record. */
  lemma {:induction false} RemoveByIdRemovesOne(records: seq<Product>, id: int)
    requires Distinct(records) && HasId(records, id)
    ensures |RemoveById(records, id)| == |records| - 1
  {
    if records[0].id == id {
      assert !HasId(records[1..], id) by {
        forall i | 0 <= i < |records[1..]| ensures records[1..][i].id != id {
          assert records[1..][i] == records[i + 1];
        }
      }
    } else {
      var k :| 0 <= k < |records| && records[k].id == id;
      assert records[1..][k - 1].id == id;
      RemoveByIdRemovesOne(records[1..], id);
    }
  }

  /** A delete keeps the uniqueness invariant. */
  lemma {:induction false} RemoveByIdKeepsDistinct(records: seq<Product>, id: int)
    requires Distinct(records)
    ensures Distinct(RemoveById(records, id))
  {
    if records != [] {
      var rest := RemoveById(records[1..], id);
      RemoveByIdKeepsDistinct(records[1..], id);
      if records[0].id != id {
        forall i | 0 <= i < |rest|
          ensures rest[i].id != records[0].id && ToLower(rest[i].name) != ToLower(records[0].name)
        {
          assert rest[i] in records[1..];
          var m :| 0 <= m < |records[1..]| && records[1..][m] == rest[i];
          assert records[m + 1] == rest[i];
        }
        ConsKeepsDistinct(records[0], rest);
      }
    }
  }

  /**
   * An update whose new name clashes with no other record keeps the uniqueness invariant:
   * the one record it rewrites keeps its id.
   */
  lemma ReplaceByIdKeepsDistinct(records: seq<Product>, id: int, f: Form)
    requires NumericValue(f.price).Some? && NumericValue(f.stock).Some?
    requires Distinct(records)
    requires forall i :: 0 <= i < |records| && records[i].id != id
               ==> ToLower(records[i].name) != ToLower(FromForm(id, f).name)
    ensures Distinct(ReplaceById(records, id, f))
  {
    var r := ReplaceById(records, id, f);
    forall i, j | 0 <= i < j < |r|
      ensures r[i].id != r[j].id && ToLower(r[i].name) != ToLower(r[j].name)
    {
      if records[i].id == id {
        assert r[j] == records[j];
      } else if records[j].id == id {
        assert r[i] == records[i];
      }
    }
  }

  /** A record in front of a list keeps the invariant when it shares no id and no name with the list. */
  lemma ConsKeepsDistinct(p: Product, records: seq<Product>)
    requires Distinct(records)
    requires forall i :: 0 <= i < |records| ==>
               records[i].id != p.id && ToLower(records[i].name) != ToLower(p.name)
    ensures Distinct([p] + records)
  {
    var r := [p] + records;
    forall i, j | 0 <= i < j < |r|
      ensures r[i].id != r[j].id && ToLower(r[i].name) != ToLower(r[j].name)
    {
      assert r[j] == records[j - 1];
      if i > 0 {
        assert r[i] == records[i - 1];
      }
    }
  }

  /**
   * Putting a new record in front keeps the uniqueness invariant when its id is above all
   * others and its name clashes with none.
   */
  lemma PrependKeepsDistinct(p: Product, records: seq<Product>)
    requires Distinct(records)
    requires forall i :: 0 <= i < |records| ==> records[i].id < p.id
    requires forall i :: 0 <= i < |records| ==> ToLower(records[i].name) != ToLower(p.name)
    ensures Distinct([p] + records)
  {
    ConsKeepsDistinct(p, records);
  }
}
