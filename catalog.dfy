/**
 * The product catalog of app/domain/models/product.py: a fixed, ordered
 * table from product name to unit price, and the price lookup that rejects
 * names outside it. Prices are integer cents.
 */
module Catalog {
  import opened Wrappers

  /** The string enumeration `ProductEnum`. */
  datatype ProductEnum = Pizza | Burger | Salad | Soda | Fries {
    /** The enumeration member's string value. */
    function Value(): string {
      match this
      case Pizza => "Pizza"
      case Burger => "Hamburguesa"
      case Salad => "Ensalada"
      case Soda => "Refresco"
      case Fries => "Papas fritas"
    }
  }

  /** One catalog entry: a product name and its unit price in cents. */
  datatype Entry = Entry(name: string, price: nat)

  /** `PRODUCT_PRICES`, in the dictionary's insertion order. */
  const ProductPrices: seq<Entry> := [
    Entry("Pizza", 1099),
    Entry("Hamburguesa", 899),
    Entry("Ensalada", 799),
    Entry("Refresco", 199),
    Entry("Papas fritas", 399)
  ]

  /** The `ValueError` raised for a name that is not a catalog key. */
  datatype CatalogError = UnknownProduct(name: string)

  /** The names of a list of entries. */
  function Names(entries: seq<Entry>): set<string> {
    set i | 0 <= i < |entries| :: entries[i].name
  }

  /** The catalog's key set. */
  function Keys(): set<string> {
    Names(ProductPrices)
  }

  /** No two entries share a name (a dictionary has unique keys). */
  ghost predicate UniqueNames(entries: seq<Entry>) {
    forall i, j | 0 <= i < j < |entries| :: entries[i].name != entries[j].name
  }

  /** Dictionary lookup `entries[name]`: the price of the first entry with that name. */
  function Find(entries: seq<Entry>, name: string): (r: Option<nat>)
    ensures r.None? <==> name !in Names(entries)
    ensures r.Some? ==> Entry(name, r.value) in entries
  {
    if entries == [] then None
    else if entries[0].name == name then Some(entries[0].price)
    else Find(entries[1..], name)
  }

  /** `get_product_price`: the unit price of a catalog product, or the error for any other name.
      The test is an exact, case-sensitive string match against the keys. */
  function GetProductPrice(product: string): (r: Result<nat, CatalogError>)
    ensures r.Ok? <==> product in Keys()
    ensures r.Ok? ==> Entry(product, r.value) in ProductPrices
    ensures r.Err? ==> r.error == UnknownProduct(product)
  {
    match Find(ProductPrices, product)
    case Some(price) => Ok(price)
    case None => Err(UnknownProduct(product))
  }

  /** Every catalog key is priced exactly as `PRODUCT_PRICES` says. */
  lemma PriceOfEveryEntry(i: nat)
    requires i < |ProductPrices|
    ensures GetProductPrice(ProductPrices[i].name) == Ok(ProductPrices[i].price)
  {
  }

  /** The catalog has five distinct keys and every price is positive. */
  lemma CatalogShape()
    ensures |ProductPrices| == 5 && UniqueNames(ProductPrices)
    ensures forall i | 0 <= i < |ProductPrices| :: ProductPrices[i].price > 0
  {
  }

  /** The lookup is case-sensitive: "Pizza" is accepted, "pizza" is not. */
  lemma LookupIsCaseSensitive()
    ensures GetProductPrice("Pizza") == Ok(1099)
    ensures GetProductPrice("pizza") == Err(UnknownProduct("pizza"))
  {
  }

  /** The values of `ProductEnum` are exactly the catalog's keys. */
  lemma EnumMatchesCatalog(name: string)
    ensures name in Keys() <==> exists p: ProductEnum :: p.Value() == name
  {
    if name in Keys() {
      var i :| 0 <= i < |ProductPrices| && ProductPrices[i].name == name;
      if i == 0 { assert Pizza.Value() == name; }
      else if i == 1 { assert Burger.Value() == name; }
      else if i == 2 { assert Salad.Value() == name; }
      else if i == 3 { assert Soda.Value() == name; }
      else { assert Fries.Value() == name; }
    }
    if exists p: ProductEnum :: p.Value() == name {
      var p: ProductEnum :| p.Value() == name;
      match p
      case Pizza => assert ProductPrices[0].name == name;
      case Burger => assert ProductPrices[1].name == name;
      case Salad => assert ProductPrices[2].name == name;
      case Soda => assert ProductPrices[3].name == name;
      case Fries => assert ProductPrices[4].name == name;
    }
  }
}
