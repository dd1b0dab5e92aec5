/**
 * The product catalog fetched once per session and read-only afterwards,
 * and the two queries the storefront makes of it: the product with a given
 * id, and the list of categories offered in the category drop-down.
 */
module Catalog {
  import opened Wrappers
  import opened Seqs

  /** A product as served by the remote catalog; `price` is in cents. */
  datatype Product = Product(
    id: int,
    title: string,
    price: nat,
    image: string,
    category: string,
    description: string)

  function HasProductId(id: int): Product -> bool
  {
    (p: Product) => p.id == id
  }

  /** The first product of the catalog with this id, or None: the lookup `addToCart` makes (app.js:185). */
  function FindProduct(catalog: seq<Product>, id: int): (r: Option<Product>)
    ensures r.None? <==> forall j :: 0 <= j < |catalog| ==> catalog[j].id != id
    ensures r.Some? ==> exists i :: 0 <= i < |catalog| && catalog[i] == r.value && r.value.id == id
                          && forall j :: 0 <= j < i ==> catalog[j].id != id
  {
    var i := FindIndex(catalog, HasProductId(id));
    if i.None? then None else Some(catalog[i.value])
  }

  /** The category of each catalog product, position by position (app.js:156). */
  function Categories(catalog: seq<Product>): (r: seq<string>)
    ensures |r| == |catalog|
    ensures forall i :: 0 <= i < |catalog| ==> r[i] == catalog[i].category
  {
    if catalog == [] then [] else [catalog[0].category] + Categories(catalog[1..])
  }

  /** The category options: each product's category, duplicates dropped, in catalog order (app.js:156). */
  function UniqueCategories(catalog: seq<Product>): (r: seq<string>)
  {
    Distinct(Categories(catalog))
  }

  /**
   * Every category of the catalog is offered exactly once, nothing else is
   * offered, and the options appear in the order in which their categories
   * first occur in the catalog.
   */
  lemma UniqueCategoriesSpec(catalog: seq<Product>)
    ensures forall c :: c in UniqueCategories(catalog) <==> exists p :: p in catalog && p.category == c
    ensures forall i, j :: 0 <= i < j < |UniqueCategories(catalog)| ==>
              UniqueCategories(catalog)[i] != UniqueCategories(catalog)[j]
    ensures forall i, j :: 0 <= i < j < |UniqueCategories(catalog)| ==>
              IndexOf(Categories(catalog), UniqueCategories(catalog)[i])
                < IndexOf(Categories(catalog), UniqueCategories(catalog)[j])
  {
    var cs := Categories(catalog);
    DistinctFirstAppearance(cs);
    forall c ensures c in cs <==> exists p :: p in catalog && p.category == c {
      if c in cs {
        var i :| 0 <= i < |cs| && cs[i] == c;
        assert catalog[i] in catalog;
      }
      if exists p :: p in catalog && p.category == c {
        var p :| p in catalog && p.category == c;
        var i :| 0 <= i < |catalog| && catalog[i] == p;
        assert cs[i] == c;
      }
    }
  }
}
