/**
 A worked visit: open the page on empty storage, add a helmet, rename and
 reprice it, delete it, and read the dashboard after each write.
 */
module Scenario {
  import opened Wrappers
  import opened Text
  import opened Products
  import opened Store
  import opened Session
  import opened Dashboard

  /** A clock value in milliseconds, as `Date.now()` returns it, for the new record's id. */
  const Clock: int := 1700000000000

  const WithHelmet: seq<Product> := Defaults + [Product(Clock, "Helm", 150000)]
  const WithHelmetSni: seq<Product> := Defaults + [Product(Clock, "Helm SNI", 175000)]

  /** A page showing `ps` outside edit mode, with `ps` stored. */
  function Shown(ps: seq<Product>): Visit {
    Visit(Page(ps, None), Some(ps))
  }

  /** Facts about the form text of the worked visit: name "Helm", price " 150000 ", then name "Helm SNI", price "175000". */
  lemma HelmName()
    ensures Trim("Helm") == "Helm"
  {
    TrimOfUnpadded("Helm");
  }

  lemma HelmSniName()
    ensures Trim("Helm SNI") == "Helm SNI"
  {
    TrimOfUnpadded("Helm SNI");
  }

  lemma PaddedPrice()
    ensures !AllSpace(" 150000 ")
  {
    assert !IsSpace(" 150000 "[1]);
  }

  lemma PlainPrice()
    ensures !AllSpace("175000")
  {
    assert !IsSpace("175000"[0]);
  }

  lemma AddStage(s0: Visit, s1: Visit, nameText: string, priceText: string)
    requires Trim(nameText) == "Helm" && !AllSpace(priceText)
    requires s0 == Shown(Defaults) && s1 == Step(s0, Submitted(nameText, priceText, 150000, Clock))
    ensures s1 == Shown(WithHelmet)
  {
    StepAdds(s0, nameText, priceText, 150000, Clock);
  }

  lemma EditStage(s1: Visit, s2: Visit)
    requires s1 == Shown(WithHelmet) && s2 == Step(s1, EditClicked(Clock))
    ensures s2 == Visit(Page(WithHelmet, Some(Clock)), Some(WithHelmet))
  {
    HelmetIds();
    StepSelects(s1, 3);
  }

  lemma SaveStage(s2: Visit, s3: Visit, nameText: string, priceText: string)
    requires Trim(nameText) == "Helm SNI" && !AllSpace(priceText)
    requires s2 == Visit(Page(WithHelmet, Some(Clock)), Some(WithHelmet))
    requires s3 == Step(s2, Submitted(nameText, priceText, 175000, Clock + 1))
    ensures s3 == Shown(WithHelmetSni)
  {
    HelmetIds();
    StepUpdates(s2, 3, nameText, priceText, 175000, Clock + 1);
    RenamedHelmet();
  }

  lemma HelmetIds()
    ensures UniqueIds(WithHelmet) && WithHelmet[3].id == Clock
  {
  }

  lemma RenamedHelmet()
    ensures WithHelmet[3 := Product(Clock, "Helm SNI", 175000)] == WithHelmetSni
  {
  }

  lemma DeleteStage(s3: Visit, s4: Visit)
    requires s3 == Shown(WithHelmetSni) && s4 == Step(s3, DeleteConfirmed(Clock))
    ensures s4 == Shown(Defaults)
  {
    assert UniqueIds(WithHelmetSni);
    WithoutPresentId(WithHelmetSni, 3);
    assert WithHelmetSni[..3] + WithHelmetSni[4..] == Defaults;
  }

  lemma Figures()
    ensures Summary(Some(Defaults)) == Stats(3, 6, 105000)
    ensures Summary(Some(WithHelmet)) == Stats(4, 8, 255000)
    ensures Summary(Some(WithHelmetSni)) == Stats(4, 8, 280000)
  {
    TotalConcat(Defaults, [Product(Clock, "Helm", 150000)]);
    TotalConcat(Defaults, [Product(Clock, "Helm SNI", 175000)]);
  }

  /**
   Empty storage opens on the three defaults (3 products, 6 sales, revenue
   105000); adding the helmet appends it (revenue 255000); editing it
   renames and reprices it in place (revenue 280000); deleting it leaves
   the defaults (revenue 105000). The form text may carry any padding:
   only its trimmed value matters.
   */
  lemma HelmetVisit(name1: string, price1: string, name2: string, price2: string,
                    s0: Visit, s1: Visit, s2: Visit, s3: Visit, s4: Visit)
    requires Trim(name1) == "Helm" && !AllSpace(price1)
    requires Trim(name2) == "Helm SNI" && !AllSpace(price2)
    requires s0 == Open(None)
    requires s1 == Step(s0, Submitted(name1, price1, 150000, Clock))
    requires s2 == Step(s1, EditClicked(Clock))
    requires s3 == Step(s2, Submitted(name2, price2, 175000, Clock + 1))
    requires s4 == Step(s3, DeleteConfirmed(Clock))
    ensures s0.page.products == Defaults && Summary(s0.saved) == Stats(3, 6, 105000)
    ensures s1.page.products == WithHelmet && Summary(s1.saved) == Stats(4, 8, 255000)
    ensures s2.page.pending == Some(Clock)
    ensures s3.page.products == WithHelmetSni && Summary(s3.saved) == Stats(4, 8, 280000)
    ensures s4.page.products == Defaults && Summary(s4.saved) == Stats(3, 6, 105000)
  {
    assert s0 == Shown(Defaults);
    AddStage(s0, s1, name1, price1);
    EditStage(s1, s2);
    SaveStage(s2, s3, name2, price2);
    DeleteStage(s3, s4);
    Figures();
  }

  /** The worked visit with the literal form text, the first price typed with padding around it. */
  lemma HelmetVisitTyped()
    ensures var s0 := Open(None);
      var s1 := Step(s0, Submitted("Helm", " 150000 ", 150000, Clock));
      var s2 := Step(s1, EditClicked(Clock));
      var s3 := Step(s2, Submitted("Helm SNI", "175000", 175000, Clock + 1));
      var s4 := Step(s3, DeleteConfirmed(Clock));
      && Summary(s1.saved) == Stats(4, 8, 255000)
      && Summary(s3.saved) == Stats(4, 8, 280000)
      && Summary(s4.saved) == Stats(3, 6, 105000)
  {
    HelmName();
    HelmSniName();
    PaddedPrice();
    PlainPrice();
    var s0 := Open(None);
    var s1 := Step(s0, Submitted("Helm", " 150000 ", 150000, Clock));
    var s2 := Step(s1, EditClicked(Clock));
    var s3 := Step(s2, Submitted("Helm SNI", "175000", 175000, Clock + 1));
    var s4 := Step(s3, DeleteConfirmed(Clock));
    HelmetVisit("Helm", " 150000 ", "Helm SNI", "175000", s0, s1, s2, s3, s4);
  }
}
