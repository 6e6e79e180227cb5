/** Category and product CRUD of the data-access layer (DataService.js),
    including the sequential numeric product ids. */
module Catalog {
  import opened Wrappers
  import opened Model
  import opened Text
  import opened Seqs

  /** The fields an admin form submits for a new category. */
  datatype CategoryData = CategoryData(name: string)

  /** The keys a `{ ...category, ...patch }` spread may overwrite. */
  datatype CategoryPatch = CategoryPatch(id: Option<Id>, name: Option<string>)

  function MergeCategory(c: Category, p: CategoryPatch): Category {
    Category(p.id.GetOr(c.id), p.name.GetOr(c.name))
  }

  /** Only the category list differs between the two stores. */
  predicate SameExceptCategories(s: Store, t: Store) {
    s.users == t.users && s.products == t.products
    && s.transactions == t.transactions && s.carts == t.carts
  }

  /** Only the product list differs between the two stores. */
  predicate SameExceptProducts(s: Store, t: Store) {
    s.users == t.users && s.categories == t.categories
    && s.transactions == t.transactions && s.carts == t.carts
  }

  /** `addCategory`: appends the category under a fresh id. */
  function AddCategory(s: Store, data: CategoryData, freshId: Id): (r: Step<Category>)
    ensures SameExceptCategories(s, r.store)
    ensures r.store.categories == s.categories + [r.out]
    ensures r.out.id == freshId && r.out.name == data.name
  {
    var c := Category(freshId, data.name);
    Step(s.(categories := s.categories + [c]), c)
  }

  function CategoryIndex(categories: seq<Category>, id: Id): Option<nat> {
    FirstWhere(categories, (c: Category) => c.id == id)
  }

  /** `updateCategory`: merges the patch into the first category with that id,
      or returns `null` and writes nothing. */
  function UpdateCategory(s: Store, categoryId: Id, patch: CategoryPatch): (r: Step<Option<Category>>)
    ensures r.out.None? <==> forall i :: 0 <= i < |s.categories| ==> s.categories[i].id != categoryId
    ensures r.out.None? ==> r.store == s
    ensures r.out.Some? ==>
      && SameExceptCategories(s, r.store)
      && exists i :: 0 <= i < |s.categories|
           && s.categories[i].id == categoryId
           && (forall j :: 0 <= j < i ==> s.categories[j].id != categoryId)
           && r.store.categories == s.categories[i := r.out.value]
           && r.out.value == MergeCategory(s.categories[i], patch)
  {
    match CategoryIndex(s.categories, categoryId)
    case None => Step(s, None)
    case Some(i) =>
      var merged := MergeCategory(s.categories[i], patch);
      Step(s.(categories := s.categories[i := merged]), Some(merged))
  }

  /** A new category is what the screens' `categoryMap` shows for its id:
      appended last, it wins the lookup. */
  lemma AddCategoryThenLookup(s: Store, data: CategoryData, freshId: Id)
    ensures LookupCategoryName(AddCategory(s, data, freshId).store.categories, freshId) == Some(data.name)
  {
    var cs := AddCategory(s, data, freshId).store.categories;
    assert cs[|cs| - 1].id == freshId;
  }

  /** An update whose result keeps the id is read back: the category now
      first found under that id is the merged one. */
  lemma UpdateCategoryReadBack(s: Store, categoryId: Id, patch: CategoryPatch)
    ensures var r := UpdateCategory(s, categoryId, patch);
      r.out.Some? && r.out.value.id == categoryId ==>
        && CategoryIndex(r.store.categories, categoryId).Some?
        && r.store.categories[CategoryIndex(r.store.categories, categoryId).value] == r.out.value
  {
    var r := UpdateCategory(s, categoryId, patch);
    if r.out.Some? && r.out.value.id == categoryId {
      var i := CategoryIndex(s.categories, categoryId).value;
      var cs := r.store.categories;
      assert cs[i].id == categoryId;
      assert forall j :: 0 <= j < i ==> cs[j] == s.categories[j];
      assert CategoryIndex(cs, categoryId) == Some(i);
    }
  }

  /** `deleteCategory`: drops every category with that id, keeping the rest in
      order; it returns the id it was given, deleted or not. */
  function DeleteCategory(s: Store, categoryId: Id): (r: Step<Id>)
    ensures SameExceptCategories(s, r.store)
    ensures r.out == categoryId
    ensures IsSubsequence(r.store.categories, s.categories)
    ensures forall c :: c in r.store.categories <==> c in s.categories && c.id != categoryId
    ensures forall c :: multiset(r.store.categories)[c] == if c.id != categoryId then multiset(s.categories)[c] else 0
  {
    var kept := Filter(s.categories, (c: Category) => c.id != categoryId);
    forall c ensures c in kept <==> c in s.categories && c.id != categoryId {
      FilterMembership(s.categories, (c: Category) => c.id != categoryId, c);
    }
    forall c ensures multiset(kept)[c] == if c.id != categoryId then multiset(s.categories)[c] else 0 {
      FilterMultiplicity(s.categories, (c: Category) => c.id != categoryId, c);
    }
    Step(s.(categories := kept), categoryId)
  }

  /** The fields an admin form submits for a product. */
  datatype ProductData = ProductData(
    name: string,
    description: string,
    price: Cents,
    categoryId: Id,
    image: string)

  /** The keys a `{ ...product, ...patch }` spread may overwrite. */
  datatype ProductPatch = ProductPatch(
    id: Option<Id>,
    name: Option<string>,
    description: Option<string>,
    price: Option<Cents>,
    categoryId: Option<Id>,
    image: Option<string>,
    createdAt: Option<string>)

  function MergeProduct(p: Product, q: ProductPatch): Product {
    Product(q.id.GetOr(p.id), q.name.GetOr(p.name), q.description.GetOr(p.description),
            q.price.GetOr(p.price), q.categoryId.GetOr(p.categoryId), q.image.GetOr(p.image),
            q.createdAt.GetOr(p.createdAt))
  }

  /** The numeric value of an id, counted only when it raises the running
      maximum: `parseInt` failures (`NaN`) and non-positive values leave it. */
  function NumericIdAbove(id: Id, highest: nat): (r: nat)
    ensures r >= highest
  {
    match ParseInt(id)
    case Some(n) => if n > highest then n else highest
    case None => highest
  }

  /** The highest numeric product id, starting from 0 (the scan in `addProduct`). */
  function HighestNumericId(products: seq<Product>): nat {
    if products == [] then 0
    else NumericIdAbove(products[|products| - 1].id, HighestNumericId(products[..|products| - 1]))
  }

  /** No numeric id in the catalogue exceeds the maximum. */
  lemma {:induction false} HighestNumericIdBound(products: seq<Product>, i: nat)
    requires i < |products| && ParseInt(products[i].id).Some?
    ensures ParseInt(products[i].id).value <= HighestNumericId(products)
  {
    var prefix := products[..|products| - 1];
    if i < |prefix| {
      assert prefix[i] == products[i];
      HighestNumericIdBound(prefix, i);
    }
  }

  /** The maximum is attained: unless it is the starting 0, some product's
      id parses to it. */
  lemma {:induction false} HighestNumericIdAttained(products: seq<Product>)
    ensures var h := HighestNumericId(products);
      h == 0 || exists i :: 0 <= i < |products| && ParseInt(products[i].id) == Some(h)
  {
    if products != [] {
      var prefix := products[..|products| - 1];
      HighestNumericIdAttained(prefix);
      var h := HighestNumericId(prefix);
      if HighestNumericId(products) != h {
        assert ParseInt(products[|products| - 1].id) == Some(HighestNumericId(products));
      } else if h != 0 {
        var i :| 0 <= i < |prefix| && ParseInt(prefix[i].id) == Some(h);
        assert products[i] == prefix[i];
      }
    }
  }

  /** `String(highestId + 1)`: the id `addProduct` assigns. */
  function NextProductId(products: seq<Product>): Id {
    NatToString(HighestNumericId(products) + 1)
  }

  /** The assigned id parses to a number above every numeric id in use, so it
      differs from every id in the catalogue. */
  lemma NextProductIdFresh(products: seq<Product>)
    ensures ParseInt(NextProductId(products)) == Some(HighestNumericId(products) + 1)
    ensures forall i :: 0 <= i < |products| && ParseInt(products[i].id).Some? ==>
      ParseInt(products[i].id).value < ParseInt(NextProductId(products)).value
    ensures forall i :: 0 <= i < |products| ==> products[i].id != NextProductId(products)
  {
    var h := HighestNumericId(products);
    var next := NatToString(h + 1);
    ParseIntNatToString(h + 1);
    forall i | 0 <= i < |products| && ParseInt(products[i].id).Some?
      ensures ParseInt(products[i].id).value < ParseInt(next).value
    {
      HighestNumericIdBound(products, i);
    }
  }

  /** `addProduct`: appends the product under the next sequential id with the
      given creation time. */
  function AddProduct(s: Store, data: ProductData, now: string): (r: Step<Product>)
    ensures SameExceptProducts(s, r.store)
    ensures r.store.products == s.products + [r.out]
    ensures r.out == Product(NextProductId(s.products), data.name, data.description,
                             data.price, data.categoryId, data.image, now)
    ensures forall p :: p in s.products ==> p.id != r.out.id
  {
    NextProductIdFresh(s.products);
    var p := Product(NextProductId(s.products), data.name, data.description,
                     data.price, data.categoryId, data.image, now);
    Step(s.(products := s.products + [p]), p)
  }

  /** `getProductById` finds the new product under its id. */
  lemma AddProductThenFind(s: Store, data: ProductData, now: string)
    ensures var r := AddProduct(s, data, now);
      FindProduct(r.store.products, r.out.id) == Some(r.out)
  {
    var r := AddProduct(s, data, now);
    var ps := r.store.products;
    assert forall j :: 0 <= j < |s.products| ==> ps[j] == s.products[j] && ps[j].id != r.out.id;
    assert ps[|s.products|] == r.out;
  }

  /** No two products share an id. */
  predicate UniqueProductIds(products: seq<Product>) {
    forall i, j :: 0 <= i < j < |products| ==> products[i].id != products[j].id
  }

  /** Adding a product keeps product ids unique. */
  lemma AddProductKeepsIdsUnique(s: Store, data: ProductData, now: string)
    requires UniqueProductIds(s.products)
    ensures UniqueProductIds(AddProduct(s, data, now).store.products)
  {
    var ps := AddProduct(s, data, now).store.products;
    forall i, j | 0 <= i < j < |ps| ensures ps[i].id != ps[j].id {
      if j == |s.products| {
        assert ps[i] in s.products;
      }
    }
  }

  /** `updateProduct`: merges the patch into the first product with that id,
      or returns `null` and writes nothing. */
  function UpdateProduct(s: Store, productId: Id, patch: ProductPatch): (r: Step<Option<Product>>)
    ensures r.out.None? <==> FindProduct(s.products, productId).None?
    ensures r.out.None? ==> r.store == s
    ensures r.out.Some? ==>
      && SameExceptProducts(s, r.store)
      && exists i :: 0 <= i < |s.products|
           && s.products[i] == FindProduct(s.products, productId).value
           && (forall j :: 0 <= j < i ==> s.products[j].id != productId)
           && r.store.products == s.products[i := r.out.value]
           && r.out.value == MergeProduct(s.products[i], patch)
  {
    match ProductIndex(s.products, productId)
    case None => Step(s, None)
    case Some(i) =>
      var merged := MergeProduct(s.products[i], patch);
      Step(s.(products := s.products[i := merged]), Some(merged))
  }

  /** An update whose result keeps the id is read back by `getProductById`. */
  lemma UpdateProductReadBack(s: Store, productId: Id, patch: ProductPatch)
    ensures var r := UpdateProduct(s, productId, patch);
      r.out.Some? && r.out.value.id == productId ==> FindProduct(r.store.products, productId) == r.out
  {
    var r := UpdateProduct(s, productId, patch);
    if r.out.Some? && r.out.value.id == productId {
      var i := ProductIndex(s.products, productId).value;
      var ps := r.store.products;
      assert ps[i].id == productId;
      assert forall j :: 0 <= j < i ==> ps[j] == s.products[j];
      assert ProductIndex(ps, productId) == Some(i);
    }
  }

  /** `deleteProduct`: drops every product with that id, keeping the rest in
      order; it returns the id it was given. */
  function DeleteProduct(s: Store, productId: Id): (r: Step<Id>)
    ensures SameExceptProducts(s, r.store)
    ensures r.out == productId
    ensures IsSubsequence(r.store.products, s.products)
    ensures forall p :: p in r.store.products <==> p in s.products && p.id != productId
    ensures forall p :: multiset(r.store.products)[p] == if p.id != productId then multiset(s.products)[p] else 0
    ensures FindProduct(r.store.products, productId).None?
  {
    var kept := Filter(s.products, (p: Product) => p.id != productId);
    forall p ensures p in kept <==> p in s.products && p.id != productId {
      FilterMembership(s.products, (p: Product) => p.id != productId, p);
    }
    forall p ensures multiset(kept)[p] == if p.id != productId then multiset(s.products)[p] else 0 {
      FilterMultiplicity(s.products, (p: Product) => p.id != productId, p);
    }
    Step(s.(products := kept), productId)
  }
}
