/**
 * The product catalogue and the queries the chat bot makes of it: the
 * name lookups (`buscar_produto` and the inline pandas filters) and the
 * cart total.
 */
module Catalog {
  import opened Wrappers
  import opened Text

  /** One catalogue row; prices are integer cents. */
  datatype Product = Product(name: string, price: nat, stock: nat, specification: string)

  /**
   * How a row's name is compared with a key. `fold` compares the lower-cased
   * name with the key (`catalogo["Produto"].str.lower() == key`); otherwise
   * the name itself is compared (`catalogo["Produto"] == key`).
   */
  predicate NameMatches(p: Product, key: string, fold: bool) {
    if fold then Lower(p.name) == key else p.name == key
  }

  /** The first row at or after `from` whose name matches `key` (what `.iloc[0]` picks). */
  function FirstMatchFrom(catalog: seq<Product>, key: string, fold: bool, from: nat): (r: Option<nat>)
    requires from <= |catalog|
    ensures r.Some? ==> from <= r.value < |catalog| && NameMatches(catalog[r.value], key, fold)
    ensures r.Some? ==> forall j :: from <= j < r.value ==> !NameMatches(catalog[j], key, fold)
    ensures r.None? <==> forall j :: from <= j < |catalog| ==> !NameMatches(catalog[j], key, fold)
    decreases |catalog| - from
  {
    if from == |catalog| then None
    else if NameMatches(catalog[from], key, fold) then Some(from)
    else FirstMatchFrom(catalog, key, fold, from + 1)
  }

  /** The first matching row of the whole catalogue, if any. */
  function Lookup(catalog: seq<Product>, key: string, fold: bool): (r: Option<Product>)
    ensures r.Some? ==> exists i :: 0 <= i < |catalog| && catalog[i] == r.value && NameMatches(r.value, key, fold)
                                   && forall j :: 0 <= j < i ==> !NameMatches(catalog[j], key, fold)
    ensures r.None? <==> forall j :: 0 <= j < |catalog| ==> !NameMatches(catalog[j], key, fold)
  {
    match FirstMatchFrom(catalog, key, fold, 0)
    case Some(i) => Some(catalog[i])
    case None => None
  }

  /**
   * `buscar_produto`: a case-insensitive comparison of the whole name with
   * the whole query (both sides lower-cased).
   */
  function LookupProduct(catalog: seq<Product>, query: string): (r: Option<Product>)
    ensures r.Some? ==> r.value in catalog && Lower(r.value.name) == Lower(query)
    ensures r.None? <==> forall j :: 0 <= j < |catalog| ==> Lower(catalog[j].name) != Lower(query)
  {
    Lookup(catalog, Lower(query), true)
  }

  /** Names are unique in the catalogue, even up to case. */
  predicate UniqueNames(catalog: seq<Product>) {
    forall i, j :: 0 <= i < j < |catalog| ==> Lower(catalog[i].name) != Lower(catalog[j].name)
  }

  /** No two rows carry exactly the same name. */
  predicate DistinctNames(catalog: seq<Product>) {
    forall i, j :: 0 <= i < j < |catalog| ==> catalog[i].name != catalog[j].name
  }

  /** Names unique up to case are unique. */
  lemma UniqueNamesDistinct(catalog: seq<Product>)
    requires UniqueNames(catalog)
    ensures DistinctNames(catalog)
  {
    forall i, j | 0 <= i < j < |catalog| ensures catalog[i].name != catalog[j].name {
      assert Lower(catalog[i].name) != Lower(catalog[j].name);
    }
  }

  /** The name occurs (exactly) as a catalogue name. */
  predicate IsCatalogName(catalog: seq<Product>, name: string) {
    exists i :: 0 <= i < |catalog| && catalog[i].name == name
  }

  /** Queries that lower-case to the same text find the same product. */
  lemma LookupProductIgnoresCase(catalog: seq<Product>, q1: string, q2: string)
    requires Lower(q1) == Lower(q2)
    ensures LookupProduct(catalog, q1) == LookupProduct(catalog, q2)
  {
  }

  /**
   * On lower-case text the inline filter (only the catalogue side lower-cased)
   * and `buscar_produto` (both sides lower-cased) agree.
   */
  lemma InlineLookupAgrees(catalog: seq<Product>, msg: string)
    requires Lower(msg) == msg
    ensures Lookup(catalog, msg, true) == LookupProduct(catalog, msg)
  {
  }

  /** With unique names, every product is found by any spelling of its name. */
  lemma LookupFindsEveryProduct(catalog: seq<Product>, i: nat, query: string)
    requires UniqueNames(catalog)
    requires i < |catalog| && Lower(query) == Lower(catalog[i].name)
    ensures LookupProduct(catalog, query) == Some(catalog[i])
  {
    var r := FirstMatchFrom(catalog, Lower(query), true, 0);
    assert NameMatches(catalog[i], Lower(query), true);
    assert r.Some?;
  }

  /** An exact-name hit is that very name; a folded hit lower-cases to the key. */
  lemma LookupHitName(catalog: seq<Product>, key: string, fold: bool)
    requires Lookup(catalog, key, fold).Some?
    ensures IsCatalogName(catalog, Lookup(catalog, key, fold).value.name)
    ensures fold ==> Lower(Lookup(catalog, key, fold).value.name) == key
    ensures !fold ==> Lookup(catalog, key, fold).value.name == key
  {
  }

  /**
   * `sum(catalogo[catalogo["Produto"].isin(cart)]["Preço"])`: the price of
   * every catalogue row whose name is in the cart, each row counted once
   * however often its name occurs in the cart.
   */
  function Total(catalog: seq<Product>, cart: seq<string>): nat {
    if catalog == [] then 0
    else (if catalog[0].name in cart then catalog[0].price else 0) + Total(catalog[1..], cart)
  }

  /** The total depends only on which names are in the cart, not on order or repetition. */
  lemma {:induction false} TotalSetSemantics(catalog: seq<Product>, c1: seq<string>, c2: seq<string>)
    requires forall x :: x in c1 <==> x in c2
    ensures Total(catalog, c1) == Total(catalog, c2)
  {
    if catalog != [] {
      TotalSetSemantics(catalog[1..], c1, c2);
    }
  }

  /** Adding a name that is already in the cart leaves the total unchanged. */
  lemma TotalDuplicate(catalog: seq<Product>, cart: seq<string>, x: string)
    requires x in cart
    ensures Total(catalog, cart + [x]) == Total(catalog, cart)
  {
    TotalSetSemantics(catalog, cart + [x], cart);
  }

  /** Adding a name that no row carries leaves the total unchanged. */
  lemma {:induction false} TotalForeignName(catalog: seq<Product>, cart: seq<string>, x: string)
    requires !IsCatalogName(catalog, x)
    ensures Total(catalog, cart + [x]) == Total(catalog, cart)
  {
    if catalog != [] {
      assert catalog[0].name != x;
      assert !IsCatalogName(catalog[1..], x) by {
        forall i | 0 <= i < |catalog[1..]| ensures catalog[1..][i].name != x {
          assert catalog[1..][i] == catalog[i + 1];
        }
      }
      TotalForeignName(catalog[1..], cart, x);
    }
  }

  /** With distinct names, a new product adds exactly its own price. */
  lemma {:induction false} TotalAddNew(catalog: seq<Product>, cart: seq<string>, i: nat)
    requires DistinctNames(catalog)
    requires i < |catalog| && catalog[i].name !in cart
    ensures Total(catalog, cart + [catalog[i].name]) == Total(catalog, cart) + catalog[i].price
  {
    var x := catalog[i].name;
    assert DistinctNames(catalog[1..]) by {
      forall a, b | 0 <= a < b < |catalog[1..]|
        ensures catalog[1..][a].name != catalog[1..][b].name
      {
        assert catalog[1..][a] == catalog[a + 1] && catalog[1..][b] == catalog[b + 1];
      }
    }
    if i == 0 {
      assert !IsCatalogName(catalog[1..], x) by {
        forall k | 0 <= k < |catalog[1..]| ensures catalog[1..][k].name != x {
          assert catalog[1..][k] == catalog[k + 1];
          assert catalog[0].name != catalog[k + 1].name;
        }
      }
      TotalForeignName(catalog[1..], cart, x);
    } else {
      assert catalog[0].name != x;
      assert catalog[1..][i - 1] == catalog[i];
      TotalAddNew(catalog[1..], cart, i - 1);
    }
  }

  /** With distinct names, a one-product cart costs that product's price. */
  lemma TotalSingle(catalog: seq<Product>, i: nat)
    requires DistinctNames(catalog) && i < |catalog|
    ensures Total(catalog, [catalog[i].name]) == catalog[i].price
  {
    TotalAddNew(catalog, [], i);
    TotalEmpty(catalog);
    assert [] + [catalog[i].name] == [catalog[i].name];
  }

  /** With distinct names, two entries of different rows cost both prices. */
  lemma TotalPairDistinct(catalog: seq<Product>, i: nat, k: nat)
    requires DistinctNames(catalog) && i < |catalog| && k < |catalog| && i != k
    ensures Total(catalog, [catalog[i].name, catalog[k].name]) == catalog[i].price + catalog[k].price
  {
    var a, b := catalog[i].name, catalog[k].name;
    assert [a] + [b] == [a, b];
    assert a != b;
    TotalSingle(catalog, i);
    TotalAddNew(catalog, [a], k);
  }

  /**
   * With distinct names, a one-product cart plus one more product costs both
   * prices, or one price when the second product is the first again.
   */
  lemma TotalAddSecond(catalog: seq<Product>, p: Product, u: Product)
    requires DistinctNames(catalog) && p in catalog && u in catalog
    ensures Total(catalog, [p.name] + [u.name]) == if u.name == p.name then p.price else p.price + u.price
  {
    var i :| 0 <= i < |catalog| && catalog[i] == p;
    var k :| 0 <= k < |catalog| && catalog[k] == u;
    assert [p.name] + [u.name] == [catalog[i].name, catalog[k].name];
    if u.name == p.name {
      RepeatChargedOnce(catalog, i);
    } else {
      TotalPairDistinct(catalog, i, k);
    }
  }

  /** An empty cart costs nothing. */
  lemma {:induction false} TotalEmpty(catalog: seq<Product>)
    ensures Total(catalog, []) == 0
  {
    if catalog != [] {
      TotalEmpty(catalog[1..]);
    }
  }

  /** The price of the row carrying exactly this name, or nothing for a foreign name. */
  function PriceOf(catalog: seq<Product>, name: string): nat {
    match Lookup(catalog, name, false)
    case Some(p) => p.price
    case None => 0
  }

  /**
   * A reference total that charges every cart entry once per occurrence,
   * the reading under which a repeated entry would be paid twice.
   */
  function OccurrenceTotal(catalog: seq<Product>, cart: seq<string>): nat {
    if cart == [] then 0
    else OccurrenceTotal(catalog, cart[..|cart| - 1]) + PriceOf(catalog, cart[|cart| - 1])
  }

  /** No name appears twice in the cart. */
  predicate NoRepeats(cart: seq<string>) {
    forall i, j :: 0 <= i < j < |cart| ==> cart[i] != cart[j]
  }

  /** On a cart without repeated names the two totals agree. */
  lemma {:induction false} TotalMatchesOccurrenceTotal(catalog: seq<Product>, cart: seq<string>)
    requires DistinctNames(catalog) && NoRepeats(cart)
    ensures Total(catalog, cart) == OccurrenceTotal(catalog, cart)
  {
    if cart == [] {
      TotalEmpty(catalog);
    } else {
      var init, x := cart[..|cart| - 1], cart[|cart| - 1];
      assert cart == init + [x];
      assert NoRepeats(init);
      assert x !in init;
      TotalMatchesOccurrenceTotal(catalog, init);
      if IsCatalogName(catalog, x) {
        var i :| 0 <= i < |catalog| && catalog[i].name == x;
        ExactLookupFinds(catalog, i);
        TotalAddNew(catalog, init, i);
      } else {
        TotalForeignName(catalog, init, x);
      }
    }
  }

  /** A repeated entry is charged once: two of the same product cost one price. */
  lemma RepeatChargedOnce(catalog: seq<Product>, i: nat)
    requires DistinctNames(catalog) && i < |catalog|
    ensures Total(catalog, [catalog[i].name, catalog[i].name]) == catalog[i].price
    ensures OccurrenceTotal(catalog, [catalog[i].name, catalog[i].name]) == 2 * catalog[i].price
  {
    var n := catalog[i].name;
    var one, two := [n], [n, n];
    assert one + [n] == two;
    TotalSingle(catalog, i);
    TotalDuplicate(catalog, one, n);
    ExactLookupFinds(catalog, i);
    assert two[..1] == one && one[..0] == [];
    assert OccurrenceTotal(catalog, one) == OccurrenceTotal(catalog, []) + PriceOf(catalog, n);
    assert OccurrenceTotal(catalog, two) == OccurrenceTotal(catalog, one) + PriceOf(catalog, n);
  }

  /** With distinct names, the exact-name filter finds each row by its own name. */
  lemma ExactLookupFinds(catalog: seq<Product>, i: nat)
    requires DistinctNames(catalog) && i < |catalog|
    ensures Lookup(catalog, catalog[i].name, false) == Some(catalog[i])
    ensures PriceOf(catalog, catalog[i].name) == catalog[i].price
  {
    assert NameMatches(catalog[i], catalog[i].name, false);
  }
}
