/** The shopping-cart page (Cart.jsx): the running cart total, the quantity
    decrement control and the checkout protocol, which composes the ledger
    and cart operations into one transition of the store. */
module Checkout {
  import opened Wrappers
  import opened Model
  import Text
  import Users
  import Ledger
  import Carts

  /** What one cart line contributes: its price times its quantity when the
      product id resolves in the `productMap` lookup (built by `forEach`, so
      the last product with that id wins); nothing otherwise. */
  function LineTotal(item: CartItem, products: seq<Product>): int {
    match LookupProduct(products, item.productId)
    case Some(p) => p.price * item.quantity
    case None => 0
  }

  /** The sum of the line totals, line by line in cart order. */
  function CartTotal(cart: seq<CartItem>, products: seq<Product>): int {
    if cart == [] then 0
    else CartTotal(cart[..|cart| - 1], products) + LineTotal(cart[|cart| - 1], products)
  }

  /** The cart-total effect: `sum += product.price * item.quantity` for every
      line whose product resolves. */
  method ComputeCartTotal(cart: seq<CartItem>, products: seq<Product>) returns (sum: int)
    ensures sum == CartTotal(cart, products)
  {
    sum := 0;
    var i := 0;
    while i < |cart|
      invariant 0 <= i <= |cart|
      invariant sum == CartTotal(cart[..i], products)
    {
      var product := LookupProduct(products, cart[i].productId);
      if product.Some? {
        sum := sum + product.value.price * cart[i].quantity;
      }
      assert cart[..i + 1][..i] == cart[..i];
      i := i + 1;
    }
    assert cart[..i] == cart;
  }

  /** The total of a cart split in two is the sum of the totals of its parts. */
  lemma {:induction false} CartTotalAppend(a: seq<CartItem>, b: seq<CartItem>, products: seq<Product>)
    ensures CartTotal(a + b, products) == CartTotal(a, products) + CartTotal(b, products)
    decreases |b|
  {
    if b == [] {
      assert a + b == a;
    } else {
      var b' := b[..|b| - 1];
      assert (a + b)[..|a + b| - 1] == a + b';
      CartTotalAppend(a, b', products);
    }
  }

  /** A one-line cart totals its price times quantity, or nothing when the
      product does not resolve. */
  lemma CartTotalSingle(item: CartItem, products: seq<Product>)
    ensures LookupProduct(products, item.productId).None? ==> CartTotal([item], products) == 0
    ensures LookupProduct(products, item.productId).Some? ==>
      CartTotal([item], products) == LookupProduct(products, item.productId).value.price * item.quantity
  {
    assert [item][..0] == [];
  }

  lemma MulNonNegative(a: int, b: int)
    requires a >= 0 && b >= 0
    ensures a * b >= 0
  {
  }

  /** With prices that are never negative, a well-formed cart never totals
      less than zero. */
  lemma {:induction false} CartTotalNonNegative(cart: seq<CartItem>, products: seq<Product>)
    requires forall i :: 0 <= i < |products| ==> products[i].price >= 0
    requires Carts.WellFormedCart(cart)
    ensures CartTotal(cart, products) >= 0
    decreases |cart|
  {
    if cart != [] {
      var prefix := cart[..|cart| - 1];
      var last := cart[|cart| - 1];
      assert forall k :: 0 <= k < |prefix| ==> prefix[k] == cart[k];
      CartTotalNonNegative(prefix, products);
      match LookupProduct(products, last.productId)
      case None =>
      case Some(p) =>
        MulNonNegative(p.price, last.quantity);
    }
  }

  /** `cartItems.map(item => item.productId)`. */
  function ProductIdsOf(cart: seq<CartItem>): (ids: seq<Id>)
    ensures |ids| == |cart|
  {
    seq(|cart|, i requires 0 <= i < |cart| => cart[i].productId)
  }

  /** `Purchase of ${n} ${n === 1 ? 'item' : 'items'}`: `n` counts cart
      lines, not units. */
  function PurchaseDescription(n: nat): string {
    "Purchase of " + Text.NatToString(n) + (if n == 1 then " item" else " items")
  }

  /** The count is recoverable from the description: `parseInt` of the text
      after "Purchase of " gives it back, and the noun is singular exactly for
      one line. */
  lemma PurchaseDescriptionCount(n: nat)
    ensures Text.ParseInt(PurchaseDescription(n)[12..]) == Some(n)
    ensures PurchaseDescription(n)[|PurchaseDescription(n)| - 1] == 's' <==> n != 1
  {
    var suffix := if n == 1 then " item" else " items";
    assert PurchaseDescription(n)[12..] == Text.NatToString(n) + suffix;
    Text.ParseIntNatToStringThen(n, suffix);
  }

  /** Different line counts give different descriptions. */
  lemma PurchaseDescriptionInjective(m: nat, n: nat)
    requires PurchaseDescription(m) == PurchaseDescription(n)
    ensures m == n
  {
    PurchaseDescriptionCount(m);
    PurchaseDescriptionCount(n);
  }

  /** The decrement button: `Math.max(1, item.quantity - 1)`. */
  function DecrementQuantity(q: int): (r: int)
    ensures r >= 1
    ensures r <= q || q < 1
    ensures q >= 2 ==> r == q - 1
    ensures q < 2 ==> r == 1
  {
    if q - 1 > 1 then q - 1 else 1
  }

  /** Decrementing keeps the line: the requested quantity is always positive,
      so `updateCartItem` sets it rather than removing the line, and the cart
      keeps its length and shape. */
  lemma DecrementKeepsLine(s: Store, userId: Id, itemId: Id, q: int)
    requires Carts.WellFormedCart(GetCart(s, userId))
    ensures var after := GetCart(Carts.UpdateCartItem(s, userId, itemId, DecrementQuantity(q)).store, userId);
      && |after| == |GetCart(s, userId)|
      && (forall i :: 0 <= i < |after| ==> after[i].id == GetCart(s, userId)[i].id)
      && Carts.WellFormedCart(after)
  {
    Carts.UpdateCartItemKeepsWellFormed(s, userId, itemId, DecrementQuantity(q));
    if userId in s.carts {
      var cart := s.carts[userId];
      match FirstWhere(cart, (item: CartItem) => item.id == itemId)
      case None =>
      case Some(i) =>
    }
  }

  /** Whether the page has a signed-in user with a truthy id. */
  predicate SignedIn(session: Option<Id>) {
    session.Some? && session.value != ""
  }

  /** The purchase entry checkout logs: the cart total as a debit, a
      description counting the lines, the product of a one-line cart, the
      category `createTransaction` derives and every line's product id. */
  function CheckoutEntry(s: Store, userId: Id, freshId: Id, now: string): Transaction {
    var cart := GetCart(s, userId);
    var total := CartTotal(cart, s.products);
    Transaction(freshId, userId, -(Abs(total) as int), Purchase, PurchaseDescription(|cart|),
                if |cart| == 1 then Some(cart[0].productId) else None,
                None,
                Ledger.DirectCategory(s, Purchase, ProductIdsOf(cart)),
                if |cart| > 0 then Some(ProductIdsOf(cart)) else None,
                now)
  }

  /** `t` is `s` after `userId` paid for the cart: the catalogue is kept, the
      checkout entry is appended, the user (the first with that id) alone is
      debited the cart total and is what `getUserById` reads back, and only
      that user's cart is emptied. */
  ghost predicate Settled(s: Store, t: Store, userId: Id, freshId: Id, now: string) {
    && UserIndex(s.users, userId).Some?
    && var i := UserIndex(s.users, userId).value;
       && t.categories == s.categories && t.products == s.products
       && Ledger.Appended(s, t, CheckoutEntry(s, userId, freshId, now))
       && Users.UsersAgreeExcept(s, t, i)
       && t.users[i] == s.users[i].(balance := s.users[i].balance - Abs(CartTotal(GetCart(s, userId), s.products)))
       && FindUser(t, userId) == Some(t.users[i])
       && GetCart(t, userId) == []
       && (forall u :: u != userId ==> GetCart(t, u) == GetCart(s, u))
  }

  /** The successful end of `handleCheckout`: record the purchase through
      `createTransaction`, clear the cart and read the user back. The
      `createTransaction` failure branch is kept as written, though it cannot
      be taken for a user that was just found. */
  function Settle(s: Store, current: User, freshId: Id, now: string): (r: Step<Result<Option<User>>>)
    requires FindUser(s, current.id) == Some(current)
    ensures r.out.Ok? && Settled(s, r.store, current.id, freshId, now)
    ensures r.out.value == FindUser(r.store, current.id)
  {
    var cart := GetCart(s, current.id);
    var total := CartTotal(cart, s.products);
    var created := Ledger.CreateTransaction(s, current.id, total, Purchase, PurchaseDescription(|cart|),
                                            ProductIdsOf(cart), freshId, now);
    match created.out
    case None => Step(created.store, Err("Failed to create transaction"))
    case Some(entry) =>
      assert entry == CheckoutEntry(s, current.id, freshId, now);
      var cleared := Carts.ClearCart(created.store, current.id);
      var i := UserIndex(s.users, current.id).value;
      var t := cleared.store;
      Users.ReadBackUser(s, t, current.id, i);
      assert t.users == created.store.users && t.transactions == created.store.transactions;
      assert Ledger.Appended(s, t, entry);
      assert Users.UsersAgreeExcept(s, t, i);
      assert forall u :: u != current.id ==> GetCart(t, u) == GetCart(s, u);
      Step(t, Ok(FindUser(t, current.id)))
  }

  /** `handleCheckout`. The page's cart lines and total are those of the
      stored cart and catalogue. Every failure leaves the store as it was;
      success settles the cart and returns the user as read back. */
  function Checkout(s: Store, session: Option<Id>, freshId: Id, now: string): (r: Step<Result<Option<User>>>)
    ensures !SignedIn(session) ==> r == Step(s, Err("User not authenticated"))
    ensures SignedIn(session) && FindUser(s, session.value).None? ==> r == Step(s, Err("User not found"))
    ensures SignedIn(session) && FindUser(s, session.value).Some?
            && FindUser(s, session.value).value.balance < CartTotal(GetCart(s, session.value), s.products) ==>
      r == Step(s, Err("Insufficient funds"))
    ensures r.out.Ok? <==>
      SignedIn(session) && FindUser(s, session.value).Some?
      && FindUser(s, session.value).value.balance >= CartTotal(GetCart(s, session.value), s.products)
    ensures r.out.Err? ==> r.store == s
    ensures r.out.Ok? ==>
      Settled(s, r.store, session.value, freshId, now) && r.out.value == FindUser(r.store, session.value)
  {
    if !SignedIn(session) then Step(s, Err("User not authenticated"))
    else
      var userId := session.value;
      var total := CartTotal(GetCart(s, userId), s.products);
      match FindUser(s, userId)
      case None => Step(s, Err("User not found"))
      case Some(current) =>
        if current.balance < total then Step(s, Err("Insufficient funds"))
        else Settle(s, current, freshId, now)
  }

  /** With a well-formed cart and prices that are never negative, a
      successful checkout debits exactly the cart total. */
  lemma CheckoutDebitsTotal(s: Store, userId: Id, freshId: Id, now: string)
    requires forall i :: 0 <= i < |s.products| ==> s.products[i].price >= 0
    requires Carts.WellFormedCart(GetCart(s, userId))
    requires Checkout(s, Some(userId), freshId, now).out.Ok?
    ensures var i := UserIndex(s.users, userId).value;
      Checkout(s, Some(userId), freshId, now).store.users[i].balance
        == s.users[i].balance - CartTotal(GetCart(s, userId), s.products)
  {
    CartTotalNonNegative(GetCart(s, userId), s.products);
    assert Settled(s, Checkout(s, Some(userId), freshId, now).store, userId, freshId, now);
  }
}
