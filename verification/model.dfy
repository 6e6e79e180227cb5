/** The wallet's persisted collections as one immutable record, with the
    look-ups the data-access layer performs on them. Money is held in integer
    cents; identifiers, timestamps and other strings are `seq<char>`. */
module Model {
  import opened Wrappers

  type Id = string

  /** An amount of money in cents (the source stores dollars as floating
      point numbers rounded to two decimals). */
  type Cents = int

  datatype User = User(
    id: Id,
    username: string,
    password: string,
    fullName: string,
    email: string,
    isAdmin: bool,
    balance: Cents,
    createdAt: string)

  datatype Category = Category(id: Id, name: string)

  /** A catalogue entry; an absent `categoryId` or `createdAt` is "". */
  datatype Product = Product(
    id: Id,
    name: string,
    description: string,
    price: Cents,
    categoryId: Id,
    image: string,
    createdAt: string)

  /** One ledger entry. `kind` is the free-form `type` string of the source
      ("purchase", "replenishment", ...); the optional fields are absent
      (`null` or missing) unless the creating operation sets them. */
  datatype Transaction = Transaction(
    id: Id,
    userId: Id,
    amount: Cents,
    kind: string,
    description: string,
    productId: Option<Id>,
    productName: Option<string>,
    categoryId: Option<Id>,
    productIds: Option<seq<Id>>,
    timestamp: string)

  datatype CartItem = CartItem(id: Id, productId: Id, quantity: int, addedAt: string)

  /** Every collection the application keeps in local storage. */
  datatype Store = Store(
    users: seq<User>,
    categories: seq<Category>,
    products: seq<Product>,
    transactions: seq<Transaction>,
    carts: map<Id, seq<CartItem>>)

  /** The store after an operation, with the value the operation returns. */
  datatype Step<T> = Step(store: Store, out: T)

  const Purchase: string := "purchase"
  const Replenishment: string := "replenishment"

  /** JavaScript truthiness of an optional identifier: present and non-empty. */
  predicate Truthy(id: Option<Id>) {
    id.Some? && id.value != ""
  }

  function Abs(x: int): (r: nat)
    ensures r == x || r == -x
  {
    if x < 0 then -x else x
  }

  /** The index of the first element satisfying `p` (`Array.prototype.findIndex`). */
  function FirstWhere<T>(s: seq<T>, p: T -> bool): (r: Option<nat>)
    ensures r.Some? ==> r.value < |s| && p(s[r.value])
    ensures r.Some? ==> forall j :: 0 <= j < r.value ==> !p(s[j])
    ensures r.None? ==> forall j :: 0 <= j < |s| ==> !p(s[j])
  {
    if s == [] then None
    else if p(s[0]) then Some(0)
    else match FirstWhere(s[1..], p)
      case None => None
      case Some(i) => Some(i + 1)
  }

  /** The index of the last element satisfying `p`: the entry that survives
      when a lookup object is built by assigning every element in order. */
  function LastWhere<T>(s: seq<T>, p: T -> bool): (r: Option<nat>)
    ensures r.Some? ==> r.value < |s| && p(s[r.value])
    ensures r.Some? ==> forall j :: r.value < j < |s| ==> !p(s[j])
    ensures r.None? ==> forall j :: 0 <= j < |s| ==> !p(s[j])
  {
    if s == [] then None
    else if p(s[|s| - 1]) then Some(|s| - 1)
    else LastWhere(s[..|s| - 1], p)
  }

  function UserIndex(users: seq<User>, id: Id): Option<nat> {
    FirstWhere(users, (u: User) => u.id == id)
  }

  /** `getUserById`: the first user with that id. */
  function FindUser(s: Store, id: Id): (r: Option<User>)
    ensures r.Some? <==> exists i :: 0 <= i < |s.users| && s.users[i].id == id
    ensures r.Some? ==> r.value in s.users && r.value.id == id
    ensures r.Some? ==> UserIndex(s.users, id).Some? && r.value == s.users[UserIndex(s.users, id).value]
    ensures r.Some? ==> exists i :: 0 <= i < |s.users| && s.users[i] == r.value
                                    && forall j :: 0 <= j < i ==> s.users[j].id != id
  {
    match UserIndex(s.users, id)
    case None => None
    case Some(i) => Some(s.users[i])
  }

  function ProductIndex(products: seq<Product>, id: Id): Option<nat> {
    FirstWhere(products, (p: Product) => p.id == id)
  }

  /** `getProductById`: the first product with that id. */
  function FindProduct(products: seq<Product>, id: Id): (r: Option<Product>)
    ensures r.Some? <==> exists i :: 0 <= i < |products| && products[i].id == id
    ensures r.Some? ==> r.value in products && r.value.id == id
    ensures r.Some? ==> ProductIndex(products, id).Some? && r.value == products[ProductIndex(products, id).value]
    ensures r.Some? ==> exists i :: 0 <= i < |products| && products[i] == r.value
                                    && forall j :: 0 <= j < i ==> products[j].id != id
  {
    match ProductIndex(products, id)
    case None => None
    case Some(i) => Some(products[i])
  }

  /** A lookup in the `{ [product.id]: product }` object the components build
      with `forEach`: the last product with that id wins. */
  function LookupProduct(products: seq<Product>, id: Id): (r: Option<Product>)
    ensures r.Some? <==> exists i :: 0 <= i < |products| && products[i].id == id
    ensures r.Some? ==> r.value in products && r.value.id == id
    ensures r.Some? ==> exists i :: 0 <= i < |products| && products[i] == r.value
                                    && forall j :: i < j < |products| ==> products[j].id != id
  {
    match LastWhere(products, (p: Product) => p.id == id)
    case None => None
    case Some(i) => Some(products[i])
  }

  /** A lookup in the `{ [category.id]: category.name }` object: last wins. */
  function LookupCategoryName(categories: seq<Category>, id: Id): (r: Option<string>)
    ensures r.Some? <==> exists i :: 0 <= i < |categories| && categories[i].id == id
    ensures r.Some? ==> exists i :: 0 <= i < |categories| && categories[i].id == id
                                    && categories[i].name == r.value
                                    && forall j :: i < j < |categories| ==> categories[j].id != id
  {
    match LastWhere(categories, (c: Category) => c.id == id)
    case None => None
    case Some(i) => Some(categories[i].name)
  }

  /** `carts[userId] || []`: a user without a stored cart has an empty one. */
  function GetCart(s: Store, userId: Id): (r: seq<CartItem>)
    ensures userId in s.carts ==> r == s.carts[userId]
    ensures userId !in s.carts ==> r == []
  {
    if userId in s.carts then s.carts[userId] else []
  }

  /** Writing one user's cart is read back for that user and leaves every
      other user's cart as it was. */
  lemma GetCartAfterWrite(s: Store, u: Id, c: seq<CartItem>, v: Id)
    ensures GetCart(s.(carts := s.carts[u := c]), v) == if v == u then c else GetCart(s, v)
  {
  }

  /** The balance of the first user with that id, if any. */
  function BalanceOf(s: Store, id: Id): Option<Cents> {
    match FindUser(s, id)
    case None => None
    case Some(u) => Some(u.balance)
  }

  const InitialCategories: seq<Category> := [
    Category("1", "Electronics"),
    Category("2", "Clothing"),
    Category("3", "Books"),
    Category("4", "Food"),
    Category("5", "Software")
  ]

  const InitialProducts: seq<Product> := [
    Product("1", "Laptop", "Powerful laptop for professionals", 120000, "1", "https://placehold.co/150", ""),
    Product("2", "Smartphone", "Latest model with great camera", 80000, "1", "https://placehold.co/150", ""),
    Product("3", "T-shirt", "Cotton t-shirt, very comfortable", 2500, "2", "https://placehold.co/150", ""),
    Product("4", "Novel", "Bestselling fiction novel", 1500, "3", "https://placehold.co/150", ""),
    Product("5", "Pizza", "Delicious pepperoni pizza", 1200, "4", "https://placehold.co/150", ""),
    Product("6", "IDE License", "Professional IDE for development", 9900, "5", "https://placehold.co/150", "")
  ]

  /** The store on first use: the catalogue is seeded, while the user list
      starts empty (the seeded users of the source are never stored, since
      `getUsers` falls back to an empty list). */
  const InitialStore: Store := Store([], InitialCategories, InitialProducts, [], map[])
}
