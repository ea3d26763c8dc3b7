/**
 The products page as a two-mode state machine. The page holds the
 collection and the pending-edit id (the hidden id field of the form):
 with no pending id a submit adds a record, with one it updates the
 record carrying that id. Each transition is a pure function of the page
 state; a refused transition leaves the page as it was.
 */
module Store {
  import opened Wrappers
  import opened Text
  import opened Products

  datatype Page = Page(products: seq<Product>, pending: Option<int>)

  /** Why the page refuses a submit or an edit click. */
  datatype Refusal =
    | MissingField  // the trimmed name or the trimmed price is empty
    | NotFound      // no record carries the requested id (the page's handler throws a TypeError using `find`'s undefined result)

  /** What an edit click produces: the page in edit mode and the record copied into the form. */
  datatype Selection = Selection(page: Page, loaded: Product)

  /** `after` is `before` with `p` appended and nothing else changed. */
  ghost predicate Appended(before: seq<Product>, after: seq<Product>, p: Product) {
    |after| == |before| + 1 && after[..|before|] == before && after[|before|] == p
  }

  /** `after` is `before` with the first record carrying `id` renamed and repriced, and nothing else changed. */
  ghost predicate UpdatedFirst(before: seq<Product>, after: seq<Product>, id: int, name: string, price: int) {
    && |after| == |before|
    && exists i :: 0 <= i < |before|
         && before[i].id == id
         && (forall j :: 0 <= j < i ==> before[j].id != id)
         && after[i] == Product(id, name, price)
         && (forall j :: 0 <= j < |before| && j != i ==> after[j] == before[j])
  }

  /** The add branch of the submit handler: `products.push(record)`. */
  function Append(ps: seq<Product>, p: Product): (r: seq<Product>)
    ensures Appended(ps, r, p)
  {
    ps + [p]
  }

  /** The update branch of the submit handler: the record at `i` gets the new name and price. */
  function Rewrite(ps: seq<Product>, i: nat, name: string, price: int): (r: seq<Product>)
    requires i < |ps| && forall j :: 0 <= j < i ==> ps[j].id != ps[i].id
    ensures UpdatedFirst(ps, r, ps[i].id, name, price)
    ensures forall j :: 0 <= j < |ps| ==> r[j].id == ps[j].id
  {
    var r := ps[i := Product(ps[i].id, name, price)];
    assert r[i] == Product(ps[i].id, name, price);
    r
  }

  /** The page's form-submit handler (add or update), with `parseInt` and `Date.now()` supplied by the caller. */
  function Submit(s: Page, nameText: string, priceText: string, price: int, now: int): (r: Result<Page, Refusal>)
    ensures r == Err(MissingField) <==> AllSpace(nameText) || AllSpace(priceText)
    ensures r == Err(NotFound) <==>
      && !AllSpace(nameText) && !AllSpace(priceText)
      && s.pending.Some? && !HasId(s.products, s.pending.value)
    ensures r.Ok? ==> r.value.pending.None?
    ensures r.Ok? && s.pending.None? ==>
      Appended(s.products, r.value.products, Product(now, Trim(nameText), price))
    ensures r.Ok? && s.pending.Some? ==>
      UpdatedFirst(s.products, r.value.products, s.pending.value, Trim(nameText), price)
  {
    var name := Trim(nameText);
    if name == [] || Trim(priceText) == [] then Err(MissingField)
    else match s.pending
      case None => Ok(Page(Append(s.products, Product(now, name, price)), None))
      case Some(id) =>
        match FindIndex(s.products, id)
        case None => Err(NotFound)
        case Some(i) => Ok(Page(Rewrite(s.products, i, name, price), None))
  }

  /** The confirmed delete of the list-click handler; the pending-edit id is not touched. */
  function Delete(s: Page, id: int): (r: Page)
    ensures forall p :: p in r.products <==> p in s.products && p.id != id
    ensures !HasId(r.products, id)
    ensures r.pending == s.pending
  {
    Page(WithoutId(s.products, id), s.pending)
  }

  /** The edit branch of the list-click handler: enter edit mode for the first record with that id. */
  function SelectEdit(s: Page, id: int): (r: Result<Selection, Refusal>)
    ensures r.Err? <==> !HasId(s.products, id)
    ensures r.Err? ==> r.error == NotFound
    ensures r.Ok? ==> r.value.page.products == s.products
    ensures r.Ok? ==> r.value.page.pending == Some(r.value.loaded.id) && r.value.loaded.id == id
    ensures r.Ok? ==> r.value.loaded in s.products
    ensures r.Ok? ==> FindIndex(s.products, id).Some? && r.value.loaded == s.products[FindIndex(s.products, id).value]
  {
    match FindIndex(s.products, id)
    case None => Err(NotFound)
    case Some(i) => Ok(Selection(Page(s.products, Some(s.products[i].id)), s.products[i]))
  }

  /** The reset button: leave edit mode. */
  function Reset(s: Page): (r: Page)
    ensures r.products == s.products
    ensures r.pending.None?
  {
    Page(s.products, None)
  }

  /** Deleting an id that is not present changes nothing. */
  lemma DeleteAbsent(s: Page, id: int)
    requires !HasId(s.products, id)
    ensures Delete(s, id) == s
  {
    WithoutAbsentId(s.products, id);
  }

  /** Deleting twice is deleting once. */
  lemma DeleteIdempotent(s: Page, id: int)
    ensures Delete(Delete(s, id), id) == Delete(s, id)
  {
    WithoutIdIdempotent(s.products, id);
  }

  /** With unique ids, a delete removes exactly one record and keeps the others in order. */
  lemma DeletePresent(s: Page, k: nat)
    requires UniqueIds(s.products) && k < |s.products|
    ensures Delete(s, s.products[k].id).products == s.products[..k] + s.products[k + 1..]
  {
    WithoutPresentId(s.products, k);
  }

  /** After a reset any valid submit adds a record at the end. */
  lemma ResetThenSubmitAdds(s: Page, nameText: string, priceText: string, price: int, now: int)
    requires !AllSpace(nameText) && !AllSpace(priceText)
    ensures Submit(Reset(s), nameText, priceText, price, now)
      == Ok(Page(s.products + [Product(now, Trim(nameText), price)], None))
  {
  }

  /** After an edit click a valid submit updates the selected record and leaves edit mode. */
  lemma SelectThenSubmitUpdates(s: Page, id: int, nameText: string, priceText: string, price: int, now: int)
    requires HasId(s.products, id)
    requires !AllSpace(nameText) && !AllSpace(priceText)
    ensures SelectEdit(s, id).Ok?
    ensures var r := Submit(SelectEdit(s, id).value.page, nameText, priceText, price, now);
      r.Ok? && r.value.pending.None? && UpdatedFirst(s.products, r.value.products, id, Trim(nameText), price)
  {
  }

  /**
   Deleting the record that is being edited leaves its id pending, so the
   next valid submit finds no record to update.
   */
  lemma DeleteWhileEditingStrands(s: Page, nameText: string, priceText: string, price: int, now: int)
    requires s.pending.Some?
    requires !AllSpace(nameText) && !AllSpace(priceText)
    ensures Submit(Delete(s, s.pending.value), nameText, priceText, price, now) == Err(NotFound)
  {
  }

  /** An update never changes any id, so it keeps them unique. */
  lemma UpdateKeepsUnique(s: Page, nameText: string, priceText: string, price: int, now: int)
    requires UniqueIds(s.products) && s.pending.Some? && HasId(s.products, s.pending.value)
    requires !AllSpace(nameText) && !AllSpace(priceText)
    ensures Submit(s, nameText, priceText, price, now).Ok?
    ensures UniqueIds(Submit(s, nameText, priceText, price, now).value.products)
  {
    var i := FindIndex(s.products, s.pending.value).value;
    SameIdsUnique(s.products, Rewrite(s.products, i, Trim(nameText), price));
  }

  lemma SameIdsUnique(ps: seq<Product>, qs: seq<Product>)
    requires UniqueIds(ps) && |qs| == |ps|
    requires forall j :: 0 <= j < |ps| ==> qs[j].id == ps[j].id
    ensures UniqueIds(qs)
  {
  }

  /** An add keeps ids unique exactly when the clock value is not already an id. */
  lemma AddKeepsUniqueIff(s: Page, nameText: string, priceText: string, price: int, now: int)
    requires UniqueIds(s.products) && s.pending.None?
    requires !AllSpace(nameText) && !AllSpace(priceText)
    ensures UniqueIds(Submit(s, nameText, priceText, price, now).value.products) <==> !HasId(s.products, now)
  {
    AppendUniqueIff(s.products, Product(now, Trim(nameText), price));
  }

  lemma AppendUniqueIff(ps: seq<Product>, p: Product)
    requires UniqueIds(ps)
    ensures UniqueIds(ps + [p]) <==> !HasId(ps, p.id)
  {
    var r := ps + [p];
    var n := |ps|;
    if HasId(ps, p.id) {
      var k :| 0 <= k < n && ps[k].id == p.id;
      assert r[k].id == r[n].id;
    } else {
      forall a, b | 0 <= a < b < |r| ensures r[a].id != r[b].id {
        assert r[a] == ps[a];
        if b < n {
          assert r[b] == ps[b];
        }
      }
    }
  }

  /** A delete keeps ids unique. */
  lemma DeleteKeepsUnique(s: Page, id: int)
    requires UniqueIds(s.products)
    ensures UniqueIds(Delete(s, id).products)
  {
    WithoutIdKeepsUnique(s.products, id);
  }
}
