/**
 The dashboard figures: the number of products, a "sales" figure shown
 as twice that number, and the revenue, the sum of all prices, all read
 from storage when the dashboard opens.
 */
module Dashboard {
  import opened Wrappers
  import opened Text
  import opened Products
  import opened Store
  import opened Session

  datatype Stats = Stats(productCount: nat, sales: nat, revenue: int)

  /** The three figures computed from what is stored. */
  function Summary(saved: Option<seq<Product>>): (r: Stats)
    ensures r.productCount == |Load(saved)|
    ensures r.sales == 2 * r.productCount
    ensures r.revenue == Total(Load(saved))
  {
    var ps := Load(saved);
    ReduceIsTotal(ps, 0);
    Stats(|ps|, |ps| * 2, Reduce(ps, 0))
  }

  /** The dashboard of a page that has been left in sync shows that page's collection. */
  lemma SummaryOfSynced(s: Visit)
    requires Synced(s)
    ensures Summary(s.saved).productCount == |s.page.products|
    ensures Summary(s.saved).revenue == Total(s.page.products)
  {
  }

  lemma {:induction false} TotalUpdate(ps: seq<Product>, i: nat, p: Product)
    requires i < |ps|
    ensures Total(ps[i := p]) == Total(ps) - ps[i].price + p.price
  {
    if i > 0 {
      assert ps[i := p][1..] == ps[1..][i - 1 := p];
      TotalUpdate(ps[1..], i - 1, p);
    }
  }

  /** An add raises the revenue by the new price. */
  lemma AddRevenue(s: Page, nameText: string, priceText: string, price: int, now: int)
    requires s.pending.None?
    requires !AllSpace(nameText) && !AllSpace(priceText)
    ensures Total(Submit(s, nameText, priceText, price, now).value.products) == Total(s.products) + price
  {
    var after := Submit(s, nameText, priceText, price, now).value.products;
    assert after == s.products + [Product(now, Trim(nameText), price)];
    TotalConcat(s.products, [Product(now, Trim(nameText), price)]);
  }

  /** An update replaces the old price of the edited record by the new one in the revenue. */
  lemma UpdateRevenue(s: Page, k: nat, nameText: string, priceText: string, price: int, now: int)
    requires k < |s.products| && forall j :: 0 <= j < k ==> s.products[j].id != s.products[k].id
    requires s.pending == Some(s.products[k].id)
    requires !AllSpace(nameText) && !AllSpace(priceText)
    ensures Submit(s, nameText, priceText, price, now).Ok?
    ensures Total(Submit(s, nameText, priceText, price, now).value.products)
      == Total(s.products) - s.products[k].price + price
  {
    FindIndexFirst(s.products, k);
    var after := Submit(s, nameText, priceText, price, now).value.products;
    assert after == s.products[k := Product(s.products[k].id, Trim(nameText), price)];
    TotalUpdate(s.products, k, Product(s.products[k].id, Trim(nameText), price));
  }

  /** With unique ids, a delete lowers the revenue by the deleted record's price. */
  lemma DeleteRevenue(s: Page, k: nat)
    requires UniqueIds(s.products) && k < |s.products|
    ensures Total(Delete(s, s.products[k].id).products) == Total(s.products) - s.products[k].price
  {
    TotalWithoutPresent(s.products, k);
  }

  lemma TotalWithoutPresent(ps: seq<Product>, k: nat)
    requires UniqueIds(ps) && k < |ps|
    ensures Total(WithoutId(ps, ps[k].id)) == Total(ps) - ps[k].price
  {
    var a, c := ps[..k], ps[k + 1..];
    var m := [ps[k]] + c;
    assert m[1..] == c;
    assert Total(m) == ps[k].price + Total(c);
    assert ps == a + m;
    TotalConcat(a, m);
    TotalConcat(a, c);
    WithoutPresentId(ps, k);
  }
}
