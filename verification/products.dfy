/**
 The product collection of the products page: an ordered sequence of
 `(id, name, price)` records whose order is the display order, and the
 sequence operations the page performs on it (find, filter, seed, sum).
 */
module Products {
  import opened Wrappers

  datatype Product = Product(id: int, name: string, price: int)

  /** Some record of the collection carries `id`. */
  predicate HasId(ps: seq<Product>, id: int) {
    exists i :: 0 <= i < |ps| && ps[i].id == id
  }

  /** The collection invariant the page relies on: no two records share an id. */
  predicate UniqueIds(ps: seq<Product>) {
    forall i, j :: 0 <= i < j < |ps| ==> ps[i].id != ps[j].id
  }

  /** `products.find(x => x.id == id)`, as the position of the first record with that id. */
  function FindIndex(ps: seq<Product>, id: int): (r: Option<nat>)
    ensures r.Some? ==> r.value < |ps| && ps[r.value].id == id
    ensures r.Some? ==> forall j :: 0 <= j < r.value ==> ps[j].id != id
    ensures r.None? <==> !HasId(ps, id)
  {
    if ps == [] then None
    else if ps[0].id == id then Some(0)
    else match FindIndex(ps[1..], id)
      case None => None
      case Some(k) => Some(k + 1)
  }

  /** A position no earlier record shares its id with is what `find` reports for that id. */
  lemma FindIndexFirst(ps: seq<Product>, k: nat)
    requires k < |ps| && forall j :: 0 <= j < k ==> ps[j].id != ps[k].id
    ensures FindIndex(ps, ps[k].id) == Some(k)
  {
  }

  /** With unique ids the first match is the only match. */
  lemma FindIndexUnique(ps: seq<Product>, k: nat)
    requires UniqueIds(ps) && k < |ps|
    ensures FindIndex(ps, ps[k].id) == Some(k)
  {
  }

  /** `products.filter(p => p.id != id)`. */
  function WithoutId(ps: seq<Product>, id: int): (r: seq<Product>)
    ensures forall p :: p in r <==> p in ps && p.id != id
    ensures |r| <= |ps|
    ensures !HasId(r, id)
  {
    if ps == [] then []
    else if ps[0].id != id then [ps[0]] + WithoutId(ps[1..], id)
    else WithoutId(ps[1..], id)
  }

  /** Filtering keeps the surviving records in their original order: it distributes over concatenation. */
  lemma {:induction false} WithoutIdConcat(a: seq<Product>, b: seq<Product>, id: int)
    ensures WithoutId(a + b, id) == WithoutId(a, id) + WithoutId(b, id)
  {
    if a == [] {
      assert a + b == b;
    } else {
      assert (a + b)[1..] == a[1..] + b;
      WithoutIdConcat(a[1..], b, id);
    }
  }

  /** Filtering out an id that no record carries returns the collection unchanged. */
  lemma {:induction false} WithoutAbsentId(ps: seq<Product>, id: int)
    requires !HasId(ps, id)
    ensures WithoutId(ps, id) == ps
  {
    if ps != [] {
      assert ps[0].id != id;
      assert !HasId(ps[1..], id) by {
        forall j | 0 <= j < |ps| - 1 ensures ps[1..][j].id != id {
          assert ps[1..][j] == ps[j + 1];
        }
      }
      WithoutAbsentId(ps[1..], id);
      assert [ps[0]] + ps[1..] == ps;
    }
  }

  /** Filtering twice by the same id is filtering once. */
  lemma WithoutIdIdempotent(ps: seq<Product>, id: int)
    ensures WithoutId(WithoutId(ps, id), id) == WithoutId(ps, id)
  {
    WithoutAbsentId(WithoutId(ps, id), id);
  }

  /** In a collection with unique ids, filtering removes exactly the one record at that id's position. */
  lemma WithoutPresentId(ps: seq<Product>, k: nat)
    requires UniqueIds(ps) && k < |ps|
    ensures WithoutId(ps, ps[k].id) == ps[..k] + ps[k + 1..]
  {
    OnlyAt(ps, k);
    SplitAt(ps, k);
    WithoutSingle(ps[..k], ps[k], ps[k + 1..]);
  }

  lemma SplitAt<T>(xs: seq<T>, k: nat)
    requires k < |xs|
    ensures xs == xs[..k] + ([xs[k]] + xs[k + 1..])
  {
  }

  /** Filtering out the id of a record that is the only one carrying it removes just that record. */
  lemma WithoutSingle(a: seq<Product>, x: Product, c: seq<Product>)
    requires !HasId(a, x.id) && !HasId(c, x.id)
    ensures WithoutId(a + ([x] + c), x.id) == a + c
  {
    calc {
      WithoutId(a + ([x] + c), x.id);
      { WithoutIdConcat(a, [x] + c, x.id); }
      WithoutId(a, x.id) + WithoutId([x] + c, x.id);
      { WithoutIdConcat([x], c, x.id); }
      WithoutId(a, x.id) + (WithoutId([x], x.id) + WithoutId(c, x.id));
      { WithoutAbsentId(a, x.id); WithoutAbsentId(c, x.id); }
      a + (WithoutId([x], x.id) + c);
      { assert WithoutId([x], x.id) == []; }
      a + c;
    }
  }

  /** With unique ids, no record before or after position `k` carries the id at `k`. */
  lemma OnlyAt(ps: seq<Product>, k: nat)
    requires UniqueIds(ps) && k < |ps|
    ensures !HasId(ps[..k], ps[k].id) && !HasId(ps[k + 1..], ps[k].id)
  {
    var a, c := ps[..k], ps[k + 1..];
    forall j | 0 <= j < |a| ensures a[j].id != ps[k].id {
      assert a[j] == ps[j];
    }
    forall j | 0 <= j < |c| ensures c[j].id != ps[k].id {
      assert c[j] == ps[k + 1 + j];
    }
  }

  /** Filtering never creates a duplicate id. */
  lemma {:induction false} WithoutIdKeepsUnique(ps: seq<Product>, id: int)
    requires UniqueIds(ps)
    ensures UniqueIds(WithoutId(ps, id))
  {
    if ps != [] {
      var rest := WithoutId(ps[1..], id);
      TailUnique(ps);
      WithoutIdKeepsUnique(ps[1..], id);
      if ps[0].id != id {
        HeadIdFresh(ps);
        NoIdInPart(rest, ps[1..], ps[0].id);
        ConsUnique(ps[0], rest);
      }
    }
  }

  lemma TailUnique(ps: seq<Product>)
    requires UniqueIds(ps) && ps != []
    ensures UniqueIds(ps[1..])
  {
    var t := ps[1..];
    forall i, j | 0 <= i < j < |t| ensures t[i].id != t[j].id {
      assert t[i] == ps[i + 1] && t[j] == ps[j + 1];
    }
  }

  lemma HeadIdFresh(ps: seq<Product>)
    requires UniqueIds(ps) && ps != []
    ensures !HasId(ps[1..], ps[0].id)
  {
    forall j | 0 <= j < |ps| - 1 ensures ps[1..][j].id != ps[0].id {
      assert ps[1..][j] == ps[j + 1];
    }
  }

  /** An id absent from a collection is absent from any part of it. */
  lemma NoIdInPart(part: seq<Product>, whole: seq<Product>, id: int)
    requires forall p :: p in part ==> p in whole
    requires !HasId(whole, id)
    ensures !HasId(part, id)
  {
    forall i | 0 <= i < |part| ensures part[i].id != id {
      assert part[i] in whole;
    }
  }

  lemma ConsUnique(x: Product, rest: seq<Product>)
    requires UniqueIds(rest) && !HasId(rest, x.id)
    ensures UniqueIds([x] + rest)
  {
    var r := [x] + rest;
    forall i, j | 0 <= i < j < |r| ensures r[i].id != r[j].id {
      assert r[j] == rest[j - 1];
      if i > 0 {
        assert r[i] == rest[i - 1];
      }
    }
  }

  /** The three records the products page stores when it finds the collection empty. */
  const Defaults: seq<Product> := [
    Product(1, "Oli Mesin", 35000),
    Product(2, "Kampas Rem", 45000),
    Product(3, "Busi Motor", 25000)
  ]

  /** Seed-if-empty: an empty collection becomes the defaults, any other is kept. */
  function SeedIfEmpty(ps: seq<Product>): (r: seq<Product>)
    ensures |ps| == 0 ==> |r| == 3 && forall i :: 0 <= i < 3 ==> r[i].id == i + 1
    ensures |ps| == 0 ==> r[0].name == "Oli Mesin" && r[0].price == 35000
    ensures |ps| == 0 ==> r[1].name == "Kampas Rem" && r[1].price == 45000
    ensures |ps| == 0 ==> r[2].name == "Busi Motor" && r[2].price == 25000
    ensures |ps| > 0 ==> r == ps
    ensures r != []
    ensures UniqueIds(ps) ==> UniqueIds(r)
  {
    if |ps| == 0 then Defaults else ps
  }

  /** Seeding is done once: seeding a seeded collection changes nothing. */
  lemma SeedIfEmptyIdempotent(ps: seq<Product>)
    ensures SeedIfEmpty(SeedIfEmpty(ps)) == SeedIfEmpty(ps)
  {
  }

  /** The sum of all prices, first record first. */
  function Total(ps: seq<Product>): int {
    if ps == [] then 0 else ps[0].price + Total(ps[1..])
  }

  lemma {:induction false} TotalConcat(a: seq<Product>, b: seq<Product>)
    ensures Total(a + b) == Total(a) + Total(b)
  {
    if a == [] {
      assert a + b == b;
    } else {
      assert (a + b)[1..] == a[1..] + b;
      TotalConcat(a[1..], b);
    }
  }

  /** `products.reduce((t, p) => t + p.price, acc)`: a left fold. */
  function Reduce(ps: seq<Product>, acc: int): int {
    if ps == [] then acc else Reduce(ps[1..], acc + ps[0].price)
  }

  /** The left fold of the dashboard computes the price total. */
  lemma {:induction false} ReduceIsTotal(ps: seq<Product>, acc: int)
    ensures Reduce(ps, acc) == acc + Total(ps)
  {
    if ps != [] {
      ReduceIsTotal(ps[1..], acc + ps[0].price);
    }
  }
}
