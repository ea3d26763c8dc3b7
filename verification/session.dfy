/**
 One visit to the products page: the page state together with the value
 held under the storage key. Opening the page loads the stored
 collection and seeds it when empty; every event handler is one `Step`,
 and the handlers that change the collection write it back whole.
 */
module Session {
  import opened Wrappers
  import opened Text
  import opened Products
  import opened Store

  /** `saved` is the stored collection, `None` when the storage key is absent or empty. */
  datatype Visit = Visit(page: Page, saved: Option<seq<Product>>)

  /** `loadData`: a missing stored value reads as the empty collection. */
  function Load(saved: Option<seq<Product>>): seq<Product> {
    match saved
    case None => []
    case Some(ps) => ps
  }

  /** `saveData`: the whole collection replaces the stored value. */
  function Save(ps: seq<Product>): Option<seq<Product>> {
    Some(ps)
  }

  /** Nothing stored reads as an empty collection, and a saved collection reads back as itself. */
  lemma LoadSave(ps: seq<Product>)
    ensures Load(None) == []
    ensures Load(Save(ps)) == ps
  {
  }

  /** Storage holds exactly the collection on screen. */
  predicate Synced(s: Visit) {
    s.saved == Some(s.page.products)
  }

  /** Opening the products page: load, seed-if-empty (saving the seed), start outside edit mode. */
  function Open(saved: Option<seq<Product>>): (r: Visit)
    ensures r.page.pending.None?
    ensures Synced(r)
    ensures Load(saved) == [] ==> r.page.products == Defaults
    ensures Load(saved) != [] ==> r.page.products == saved.value && r.saved == saved
  {
    var ps := Load(saved);
    if |ps| == 0 then Visit(Page(Defaults, None), Save(Defaults))
    else Visit(Page(ps, None), saved)
  }

  datatype Event =
    | Submitted(nameText: string, priceText: string, price: int, now: int)
    | DeleteConfirmed(id: int)
    | EditClicked(id: int)
    | ResetClicked

  /** One event handler of the products page. */
  function Step(s: Visit, e: Event): (r: Visit)
    ensures Synced(s) ==> Synced(r)
    ensures r.page.products != s.page.products ==> r.saved == Some(r.page.products)
    ensures e.Submitted? && (AllSpace(e.nameText) || AllSpace(e.priceText)) ==> r == s
    ensures e.Submitted? && Submit(s.page, e.nameText, e.priceText, e.price, e.now).Err? ==> r == s
    ensures e.EditClicked? && !HasId(s.page.products, e.id) ==> r == s
    ensures e.EditClicked? || e.ResetClicked? ==> r.page.products == s.page.products && r.saved == s.saved
    ensures e.ResetClicked? ==> r.page.pending.None?
    ensures e.DeleteConfirmed? ==> r.page.pending == s.page.pending && !HasId(r.page.products, e.id)
    ensures e.DeleteConfirmed? ==> r.page == Delete(s.page, e.id) && r.saved == Some(r.page.products)
  {
    match e
    case Submitted(nameText, priceText, price, now) =>
      (match Submit(s.page, nameText, priceText, price, now)
       case Ok(st) => Visit(st, Save(st.products))
       case Err(_) => s)
    case DeleteConfirmed(id) =>
      var st := Delete(s.page, id);
      Visit(st, Save(st.products))
    case EditClicked(id) =>
      (match SelectEdit(s.page, id)
       case Ok(sel) => Visit(sel.page, s.saved)
       case Err(_) => s)
    case ResetClicked =>
      Visit(Reset(s.page), s.saved)
  }

  /** A sequence of events handled in order. */
  function Run(s: Visit, es: seq<Event>): Visit
    decreases |es|
  {
    if es == [] then s else Run(Step(s, es[0]), es[1..])
  }

  /** Storage and screen agree after every run that starts from an opened page. */
  lemma {:induction false} RunKeepsSynced(s: Visit, es: seq<Event>)
    requires Synced(s)
    ensures Synced(Run(s, es))
    decreases |es|
  {
    if es != [] {
      RunKeepsSynced(Step(s, es[0]), es[1..]);
    }
  }

  /** Reopening the page after any run shows the same collection, or the defaults if it was emptied. */
  lemma ReopenRestores(saved: Option<seq<Product>>, es: seq<Event>)
    ensures var s := Run(Open(saved), es);
      Open(s.saved).page.products == SeedIfEmpty(s.page.products)
  {
    RunKeepsSynced(Open(saved), es);
  }

  /** Whether an event is a valid add that would reuse an existing id as the clock value of the new record. */
  predicate ClockCollides(s: Visit, e: Event) {
    && e.Submitted? && !AllSpace(e.nameText) && !AllSpace(e.priceText)
    && s.page.pending.None? && HasId(s.page.products, e.now)
  }

  /** Every handler keeps ids unique unless an add takes an existing id from the clock. */
  lemma StepKeepsUnique(s: Visit, e: Event)
    requires UniqueIds(s.page.products)
    requires !ClockCollides(s, e)
    ensures UniqueIds(Step(s, e).page.products)
  {
    match e
    case Submitted(nameText, priceText, price, now) =>
      var r := Submit(s.page, nameText, priceText, price, now);
      if r.Ok? {
        if s.page.pending.Some? {
          assert HasId(s.page.products, s.page.pending.value);
          UpdateKeepsUnique(s.page, nameText, priceText, price, now);
        } else {
          AddKeepsUniqueIff(s.page, nameText, priceText, price, now);
        }
      }
    case DeleteConfirmed(id) =>
      DeleteKeepsUnique(s.page, id);
    case EditClicked(id) =>
    case ResetClicked =>
  }

  /** Ids stay unique over a whole run as long as no add takes an existing id from the clock. */
  lemma {:induction false} RunKeepsUnique(s: Visit, es: seq<Event>)
    requires UniqueIds(s.page.products)
    requires forall k :: 0 <= k < |es| ==> !ClockCollides(Run(s, es[..k]), es[k])
    ensures UniqueIds(Run(s, es).page.products)
    decreases |es|
  {
    if es != [] {
      var t := Step(s, es[0]);
      assert es[..0] == [];
      StepKeepsUnique(s, es[0]);
      forall k | 0 <= k < |es| - 1
        ensures !ClockCollides(Run(t, es[1..][..k]), es[1..][k])
      {
        assert es[..k + 1][0] == es[0];
        assert es[..k + 1][1..] == es[1..][..k];
        assert !ClockCollides(Run(s, es[..k + 1]), es[k + 1]);
      }
      RunKeepsUnique(t, es[1..]);
    }
  }

  /** A valid submit outside edit mode appends the record and writes the collection. */
  lemma StepAdds(s: Visit, nameText: string, priceText: string, price: int, now: int)
    requires s.page.pending.None?
    requires !AllSpace(nameText) && !AllSpace(priceText)
    ensures var ps := s.page.products + [Product(now, Trim(nameText), price)];
      Step(s, Submitted(nameText, priceText, price, now)) == Visit(Page(ps, None), Some(ps))
  {
  }

  /** A valid submit in edit mode rewrites the edited record in place and writes the collection. */
  lemma StepUpdates(s: Visit, k: nat, nameText: string, priceText: string, price: int, now: int)
    requires k < |s.page.products| && forall j :: 0 <= j < k ==> s.page.products[j].id != s.page.products[k].id
    requires s.page.pending == Some(s.page.products[k].id)
    requires !AllSpace(nameText) && !AllSpace(priceText)
    ensures var ps := s.page.products[k := Product(s.page.products[k].id, Trim(nameText), price)];
      Step(s, Submitted(nameText, priceText, price, now)) == Visit(Page(ps, None), Some(ps))
  {
    FindIndexFirst(s.page.products, k);
  }

  /** An edit click on a listed record enters edit mode for its id and writes nothing. */
  lemma StepSelects(s: Visit, k: nat)
    requires k < |s.page.products|
    ensures Step(s, EditClicked(s.page.products[k].id))
      == Visit(Page(s.page.products, Some(s.page.products[k].id)), s.saved)
  {
  }

  /** The page is in edit mode for an id that no record carries any more. */
  predicate Stranded(s: Visit) {
    s.page.pending.Some? && !HasId(s.page.products, s.page.pending.value)
  }

  /** Neither a submit nor a delete gets a stranded page out of edit mode. */
  predicate KeepsEditMode(e: Event) {
    e.Submitted? || e.DeleteConfirmed?
  }

  /**
   Once the edited record is gone, submits and deletes leave the page
   stranded, so every valid submit among them is refused and changes
   nothing; only a reset or an edit click on a listed record ends it.
   */
  lemma {:induction false} RunStaysStranded(s: Visit, es: seq<Event>)
    requires Stranded(s)
    requires forall k :: 0 <= k < |es| ==> KeepsEditMode(es[k])
    ensures Stranded(Run(s, es))
    ensures Run(s, es).page.pending == s.page.pending
    ensures forall nameText, priceText, price, now ::
      !AllSpace(nameText) && !AllSpace(priceText) ==>
        Step(Run(s, es), Submitted(nameText, priceText, price, now)) == Run(s, es)
    decreases |es|
  {
    if es != [] {
      var t := Step(s, es[0]);
      assert KeepsEditMode(es[0]);
      assert t.page.pending == s.page.pending;
      assert Stranded(t);
      RunStaysStranded(t, es[1..]);
    }
  }
}
