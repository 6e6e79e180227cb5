/** Per-user shopping carts of DataService.js (`getCart`, `addToCart`,
    `updateCartItem`, `removeFromCart`, `clearCart`). */
module Carts {
  import opened Wrappers
  import opened Model

  /** The two stores differ at most in the cart of `userId`. */
  ghost predicate OnlyCartOf(s: Store, t: Store, userId: Id) {
    && s.users == t.users && s.categories == t.categories
    && s.products == t.products && s.transactions == t.transactions
    && forall u :: u != userId ==> GetCart(t, u) == GetCart(s, u)
  }

  /** The shape the cart operations maintain: at most one line per product and
      every quantity at least 1. */
  predicate WellFormedCart(cart: seq<CartItem>) {
    && (forall i, j :: 0 <= i < j < |cart| ==> cart[i].productId != cart[j].productId)
    && (forall i :: 0 <= i < |cart| ==> cart[i].quantity >= 1)
  }

  predicate HasProduct(cart: seq<CartItem>, productId: Id) {
    exists i :: 0 <= i < |cart| && cart[i].productId == productId
  }

  /** `addToCart`: a product already in the cart has its first line's quantity
      raised by `quantity`; otherwise one new line is appended. */
  function AddToCart(s: Store, userId: Id, productId: Id, quantity: int,
                     freshItemId: Id, now: string): (r: Step<seq<CartItem>>)
    ensures OnlyCartOf(s, r.store, userId)
    ensures GetCart(r.store, userId) == r.out
    ensures HasProduct(GetCart(s, userId), productId) ==> |r.out| == |GetCart(s, userId)|
    ensures var cart := GetCart(s, userId);
      forall i :: 0 <= i < |cart| && cart[i].productId == productId
                  && (forall j :: 0 <= j < i ==> cart[j].productId != productId) ==>
        r.out == cart[i := cart[i].(quantity := cart[i].quantity + quantity)]
    ensures !HasProduct(GetCart(s, userId), productId) ==>
      r.out == GetCart(s, userId) + [CartItem(freshItemId, productId, quantity, now)]
  {
    var cart := GetCart(s, userId);
    var first := FirstWhere(cart, (item: CartItem) => item.productId == productId);
    var updated :=
      if first.Some? then
        var i := first.value;
        cart[i := cart[i].(quantity := cart[i].quantity + quantity)]
      else
        assert !HasProduct(cart, productId);
        cart + [CartItem(freshItemId, productId, quantity, now)];
    Step(s.(carts := s.carts[userId := updated]), updated)
  }

  /** Adding a positive quantity keeps a well-formed cart well-formed. */
  lemma AddToCartKeepsWellFormed(s: Store, userId: Id, productId: Id, quantity: int,
                                 freshItemId: Id, now: string)
    requires WellFormedCart(GetCart(s, userId))
    requires quantity >= 1
    ensures WellFormedCart(AddToCart(s, userId, productId, quantity, freshItemId, now).out)
  {
    var cart := GetCart(s, userId);
    var r := AddToCart(s, userId, productId, quantity, freshItemId, now).out;
    if !HasProduct(cart, productId) {
      forall i, j | 0 <= i < j < |r| ensures r[i].productId != r[j].productId {
        if j == |cart| {
          assert r[i] == cart[i];
        }
      }
    }
  }

  /** Adding a product twice yields one line holding both quantities. */
  lemma AddToCartMerges(s: Store, userId: Id, productId: Id, q1: int, q2: int,
                        id1: Id, id2: Id, t1: string, t2: string)
    requires !HasProduct(GetCart(s, userId), productId)
    ensures var s1 := AddToCart(s, userId, productId, q1, id1, t1).store;
            var cart := AddToCart(s1, userId, productId, q2, id2, t2).out;
            && |cart| == |GetCart(s, userId)| + 1
            && cart[|cart| - 1] == CartItem(id1, productId, q1 + q2, t1)
  {
    var s1 := AddToCart(s, userId, productId, q1, id1, t1).store;
    var c1 := GetCart(s1, userId);
    assert c1[|c1| - 1].productId == productId;
    var i := FirstWhere(c1, (item: CartItem) => item.productId == productId).value;
    assert i == |c1| - 1 by {
      assert forall j :: 0 <= j < |c1| - 1 ==> c1[j] == GetCart(s, userId)[j];
    }
  }

  /** `updateCartItem`: for the first line with that item id, a positive
      quantity replaces its quantity and any other removes the line. A user
      without a stored cart gets `[]`; an unknown item id changes nothing. */
  function UpdateCartItem(s: Store, userId: Id, itemId: Id, newQuantity: int): (r: Step<seq<CartItem>>)
    ensures OnlyCartOf(s, r.store, userId)
    ensures userId !in s.carts ==> r.store == s && r.out == []
    ensures userId in s.carts ==> r.out == GetCart(r.store, userId)
    ensures |r.out| <= |GetCart(s, userId)|
    ensures newQuantity > 0 ==> |r.out| == |GetCart(s, userId)|
    ensures (forall i :: 0 <= i < |GetCart(s, userId)| ==> GetCart(s, userId)[i].id != itemId) ==>
      r.store == s
    ensures userId in s.carts ==>
      var cart := s.carts[userId];
      forall i :: 0 <= i < |cart| && cart[i].id == itemId
                  && (forall j :: 0 <= j < i ==> cart[j].id != itemId) ==>
        r.out == if newQuantity > 0 then cart[i := cart[i].(quantity := newQuantity)]
                 else cart[..i] + cart[i + 1..]
  {
    if userId !in s.carts then Step(s, [])
    else
      var cart := s.carts[userId];
      match FirstWhere(cart, (item: CartItem) => item.id == itemId)
      case None => Step(s, cart)
      case Some(i) =>
        assert GetCart(s, userId)[i].id == itemId;
        var updated := if newQuantity > 0 then cart[i := cart[i].(quantity := newQuantity)]
                       else cart[..i] + cart[i + 1..];
        Step(s.(carts := s.carts[userId := updated]), updated)
  }

  /** Updating a line never breaks a well-formed cart. */
  lemma UpdateCartItemKeepsWellFormed(s: Store, userId: Id, itemId: Id, newQuantity: int)
    requires WellFormedCart(GetCart(s, userId))
    ensures WellFormedCart(GetCart(UpdateCartItem(s, userId, itemId, newQuantity).store, userId))
  {
    if userId in s.carts {
      var cart := s.carts[userId];
      match FirstWhere(cart, (item: CartItem) => item.id == itemId)
      case None =>
      case Some(i) =>
        if newQuantity <= 0 {
          DropLineKeepsWellFormed(cart, i);
        }
    }
  }

  /** Dropping one line of a well-formed cart leaves it well-formed. */
  lemma DropLineKeepsWellFormed(cart: seq<CartItem>, i: nat)
    requires WellFormedCart(cart) && i < |cart|
    ensures WellFormedCart(cart[..i] + cart[i + 1..])
  {
    var r := cart[..i] + cart[i + 1..];
    assert forall k :: 0 <= k < |r| ==> r[k] == cart[if k < i then k else k + 1];
  }

  /** `removeFromCart`: `updateCartItem` with quantity 0. */
  function RemoveFromCart(s: Store, userId: Id, itemId: Id): (r: Step<seq<CartItem>>)
    ensures OnlyCartOf(s, r.store, userId)
    ensures |r.out| <= |GetCart(s, userId)|
    ensures userId !in s.carts ==> r.store == s && r.out == []
    ensures (forall i :: 0 <= i < |GetCart(s, userId)| ==> GetCart(s, userId)[i].id != itemId) ==>
      r.store == s && r.out == GetCart(s, userId)
    ensures userId in s.carts ==>
      var cart := s.carts[userId];
      forall i :: 0 <= i < |cart| && cart[i].id == itemId
                  && (forall j :: 0 <= j < i ==> cart[j].id != itemId) ==>
        r.out == cart[..i] + cart[i + 1..]
  {
    UpdateCartItem(s, userId, itemId, 0)
  }

  /** Removing a line that is there drops exactly one line, the first with
      that item id, and nothing else. */
  lemma RemoveFromCartDropsOne(s: Store, userId: Id, itemId: Id)
    requires exists i :: 0 <= i < |GetCart(s, userId)| && GetCart(s, userId)[i].id == itemId
    ensures var cart := GetCart(s, userId);
      var out := RemoveFromCart(s, userId, itemId).out;
      && |out| == |cart| - 1
      && exists i :: 0 <= i < |cart| && cart[i].id == itemId
                     && multiset(out) + multiset{cart[i]} == multiset(cart)
  {
    var cart := GetCart(s, userId);
    assert userId in s.carts;
    var i := FirstWhere(cart, (item: CartItem) => item.id == itemId).value;
    assert RemoveFromCart(s, userId, itemId).out == cart[..i] + cart[i + 1..];
    DropLineMultiset(cart, i);
  }

  lemma DropLineMultiset(cart: seq<CartItem>, i: nat)
    requires i < |cart|
    ensures |cart[..i] + cart[i + 1..]| == |cart| - 1
    ensures multiset(cart[..i] + cart[i + 1..]) + multiset{cart[i]} == multiset(cart)
  {
    assert cart == cart[..i] + [cart[i]] + cart[i + 1..];
  }

  /** Removing a line keeps a well-formed cart well-formed. */
  lemma RemoveFromCartKeepsWellFormed(s: Store, userId: Id, itemId: Id)
    requires WellFormedCart(GetCart(s, userId))
    ensures WellFormedCart(GetCart(RemoveFromCart(s, userId, itemId).store, userId))
  {
    UpdateCartItemKeepsWellFormed(s, userId, itemId, 0);
  }

  /** `clearCart`: stores an empty cart for the user and returns it. */
  function ClearCart(s: Store, userId: Id): (r: Step<seq<CartItem>>)
    ensures OnlyCartOf(s, r.store, userId)
    ensures r.out == [] && GetCart(r.store, userId) == []
  {
    Step(s.(carts := s.carts[userId := []]), [])
  }

  /** A cleared cart is well formed, and the next product added to it is its
      only line. */
  lemma ClearThenAdd(s: Store, userId: Id, productId: Id, quantity: int, freshItemId: Id, now: string)
    ensures WellFormedCart(GetCart(ClearCart(s, userId).store, userId))
    ensures AddToCart(ClearCart(s, userId).store, userId, productId, quantity, freshItemId, now).out
         == [CartItem(freshItemId, productId, quantity, now)]
  {
    var t := ClearCart(s, userId).store;
    assert !HasProduct(GetCart(t, userId), productId);
  }
}
