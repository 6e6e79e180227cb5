/** How balances and the transaction log stay in step. A user's drift is the
    balance minus the sum of the amounts logged for that user. Buying a
    product, topping up the wallet, checking out and every cart operation leave
    every user's drift as it was, so the log accounts for every balance change
    they make. `createTransaction` keeps it only for the types it knows how to
    apply. */
module Audit {
  import opened Wrappers
  import opened Model
  import opened Seqs
  import Users
  import Ledger
  import Carts
  import Checkout
  import Wallet

  /** The sum of the amounts of a list of entries. */
  function SumAmounts(txs: seq<Transaction>): int {
    if txs == [] then 0 else SumAmounts(txs[..|txs| - 1]) + txs[|txs| - 1].amount
  }

  lemma SumAmountsAppend(txs: seq<Transaction>, t: Transaction)
    ensures SumAmounts(txs + [t]) == SumAmounts(txs) + t.amount
  {
    assert (txs + [t])[..|txs|] == txs;
  }

  /** The balance of the user with that id (the first, as `getUserById`) less
      the sum of the amounts logged for that id; `None` for an unknown id. */
  function Drift(s: Store, userId: Id): Option<int> {
    match FindUser(s, userId)
    case None => None
    case Some(u) => Some(u.balance - SumAmounts(Ledger.UserTransactions(s, userId)))
  }

  /** Appending an entry extends the log of its owner and no other. */
  lemma UserTransactionsAppend(s: Store, t: Store, entry: Transaction, userId: Id)
    requires Ledger.Appended(s, t, entry)
    ensures Ledger.UserTransactions(t, userId)
         == Ledger.UserTransactions(s, userId) + (if entry.userId == userId then [entry] else [])
  {
    FilterAppend(s.transactions, entry, Ledger.OwnedBy(userId));
  }

  /** Lists of users with the same ids, position by position, resolve every id
      to the same index. */
  lemma SameIdsSameIndex(a: seq<User>, b: seq<User>, v: Id)
    requires |a| == |b| && forall j :: 0 <= j < |a| ==> a[j].id == b[j].id
    ensures UserIndex(a, v) == UserIndex(b, v)
  {
    var x := UserIndex(a, v);
    var y := UserIndex(b, v);
    if x.Some? {
      assert b[x.value].id == v;
    }
    if y.Some? {
      assert a[y.value].id == v;
    }
  }

  /** One ledger step: the user at index `i` (the first with `userId`) has
      `delta` added to the balance, every other user is kept, and one entry of
      `userId` is appended. Every other user's drift is kept, and this user's
      moves by `delta` less the logged amount. */
  lemma LedgerStep(s: Store, t: Store, userId: Id, i: nat, delta: int, entry: Transaction, v: Id)
    requires UserIndex(s.users, userId) == Some(i)
    requires Users.UsersAgreeExcept(s, t, i)
    requires t.users[i] == s.users[i].(balance := s.users[i].balance + delta)
    requires Ledger.Appended(s, t, entry) && entry.userId == userId
    ensures v != userId ==> Drift(t, v) == Drift(s, v)
    ensures v == userId ==> Drift(s, v).Some? && Drift(t, v) == Some(Drift(s, v).value + delta - entry.amount)
    ensures delta == entry.amount ==> Drift(t, v) == Drift(s, v)
  {
    if v == userId {
      OwnerStep(s, t, userId, i, delta, entry);
    } else {
      OtherStep(s, t, userId, i, entry, v);
    }
  }

  /** The side of a ledger step seen by every other user. */
  lemma OtherStep(s: Store, t: Store, userId: Id, i: nat, entry: Transaction, v: Id)
    requires UserIndex(s.users, userId) == Some(i)
    requires Users.UsersAgreeExcept(s, t, i) && t.users[i].id == userId
    requires Ledger.Appended(s, t, entry) && entry.userId == userId
    requires v != userId
    ensures Drift(t, v) == Drift(s, v)
  {
    OtherUserKept(s, t, userId, i, v);
    UserTransactionsAppend(s, t, entry, v);
    assert Ledger.UserTransactions(s, v) + [] == Ledger.UserTransactions(s, v);
  }

  /** The owner's side of a ledger step. */
  lemma OwnerStep(s: Store, t: Store, userId: Id, i: nat, delta: int, entry: Transaction)
    requires UserIndex(s.users, userId) == Some(i)
    requires Users.UsersAgreeExcept(s, t, i)
    requires t.users[i] == s.users[i].(balance := s.users[i].balance + delta)
    requires Ledger.Appended(s, t, entry) && entry.userId == userId
    ensures Drift(s, userId).Some? && Drift(t, userId) == Some(Drift(s, userId).value + delta - entry.amount)
  {
    SameIdsSameIndex(s.users, t.users, userId);
    DriftAt(s, userId, i);
    DriftAt(t, userId, i);
    var before := Ledger.UserTransactions(s, userId);
    UserTransactionsAppend(s, t, entry, userId);
    SumAmountsAppend(before, entry);
    assert t.users[i].balance == s.users[i].balance + delta;
  }

  /** The drift of the user found at index `i`. */
  lemma DriftAt(s: Store, userId: Id, i: nat)
    requires UserIndex(s.users, userId) == Some(i)
    ensures Drift(s, userId) == Some(s.users[i].balance - SumAmounts(Ledger.UserTransactions(s, userId)))
  {
  }

  /** The write at index `i` leaves every other id resolving to the same user. */
  lemma OtherUserKept(s: Store, t: Store, userId: Id, i: nat, v: Id)
    requires UserIndex(s.users, userId) == Some(i)
    requires Users.UsersAgreeExcept(s, t, i) && t.users[i].id == userId
    requires v != userId
    ensures FindUser(t, v) == FindUser(s, v)
  {
    SameIdsSameIndex(s.users, t.users, v);
    assert s.users[i].id == userId;
    match UserIndex(s.users, v)
    case None =>
    case Some(j) =>
      assert s.users[j].id == v;
      assert t.users[j] == s.users[j];
  }

  /** Stores with the same users and log have the same drifts. */
  lemma DriftOfLedger(s: Store, t: Store, v: Id)
    requires s.users == t.users && s.transactions == t.transactions
    ensures Drift(t, v) == Drift(s, v)
  {
    assert Ledger.UserTransactions(t, v) == Ledger.UserTransactions(s, v);
  }

  lemma PurchaseProductKeepsDrift(s: Store, userId: Id, productId: Id, freshId: Id, now: string, v: Id)
    ensures Drift(Ledger.PurchaseProduct(s, userId, productId, freshId, now).store, v) == Drift(s, v)
  {
    var r := Ledger.PurchaseProduct(s, userId, productId, freshId, now);
    if r.out.success {
      var p := FindProduct(s.products, productId).value;
      LedgerStep(s, r.store, userId, UserIndex(s.users, userId).value, -p.price,
                 Transaction(freshId, userId, -p.price, Purchase, "Purchase of " + p.name,
                             Some(productId), Some(p.name), Some(p.categoryId), None, now), v);
    }
  }

  lemma ReplenishKeepsDrift(s: Store, userId: Id, amount: Cents, freshId: Id, now: string, v: Id)
    ensures Drift(Ledger.ReplenishWallet(s, userId, amount, freshId, now).store, v) == Drift(s, v)
  {
    var r := Ledger.ReplenishWallet(s, userId, amount, freshId, now);
    if r.out.Some? {
      var i := UserIndex(s.users, userId).value;
      var entry := Transaction(freshId, userId, amount, Replenishment, "Wallet replenishment",
                               None, None, None, None, now);
      assert Users.UsersAgreeExcept(s, r.store, i) && Ledger.Appended(s, r.store, entry);
      LedgerStep(s, r.store, userId, i, amount, entry, v);
    }
  }

  /** `createTransaction` keeps the books for purchases and for the type
      `"replenish"`, the two it applies to the balance. Any other type,
      `"replenishment"` included, logs a credit of |amount| without paying it,
      so the user's drift falls by |amount|. */
  lemma CreateTransactionDrift(s: Store, userId: Id, amount: Cents, kind: string, description: string,
                               productIds: seq<Id>, freshId: Id, now: string, v: Id)
    ensures var t := Ledger.CreateTransaction(s, userId, amount, kind, description, productIds, freshId, now).store;
      && (v != userId || FindUser(s, userId).None? ==> Drift(t, v) == Drift(s, v))
      && (v == userId && FindUser(s, userId).Some? ==>
            Drift(t, v) == Some(Drift(s, v).value
                                - (if kind == Purchase || kind == Ledger.Replenish then 0 else Abs(amount))))
  {
    var r := Ledger.CreateTransaction(s, userId, amount, kind, description, productIds, freshId, now);
    if r.out.Some? {
      var i := UserIndex(s.users, userId).value;
      LedgerStep(s, r.store, userId, i, Ledger.BalanceAfter(s.users[i].balance, kind, amount) - s.users[i].balance,
                 r.out.value, v);
    }
  }

  lemma CheckoutKeepsDrift(s: Store, session: Option<Id>, freshId: Id, now: string, v: Id)
    ensures Drift(Checkout.Checkout(s, session, freshId, now).store, v) == Drift(s, v)
  {
    var r := Checkout.Checkout(s, session, freshId, now);
    if r.out.Ok? {
      var userId := session.value;
      var entry := Checkout.CheckoutEntry(s, userId, freshId, now);
      assert Checkout.Settled(s, r.store, userId, freshId, now);
      LedgerStep(s, r.store, userId, UserIndex(s.users, userId).value, entry.amount, entry, v);
    }
  }

  /** The operations a signed-in shopper can perform. */
  datatype Op =
    | Buy(userId: Id, productId: Id, freshId: Id, now: string)
    | TopUp(userId: Id, amount: Option<Cents>, freshId: Id, now: string)
    | PayCart(session: Option<Id>, freshId: Id, now: string)
    | AddItem(userId: Id, productId: Id, quantity: int, freshId: Id, now: string)
    | SetQuantity(userId: Id, itemId: Id, quantity: int)
    | RemoveItem(userId: Id, itemId: Id)
    | EmptyCart(userId: Id)

  function Apply(s: Store, op: Op): Store {
    match op
    case Buy(u, p, id, now) => Ledger.PurchaseProduct(s, u, p, id, now).store
    case TopUp(u, a, id, now) => Wallet.ReplenishForm(s, u, a, id, now).store
    case PayCart(session, id, now) => Checkout.Checkout(s, session, id, now).store
    case AddItem(u, p, q, id, now) => Carts.AddToCart(s, u, p, q, id, now).store
    case SetQuantity(u, item, q) => Carts.UpdateCartItem(s, u, item, q).store
    case RemoveItem(u, item) => Carts.RemoveFromCart(s, u, item).store
    case EmptyCart(u) => Carts.ClearCart(s, u).store
  }

  function Run(s: Store, ops: seq<Op>): Store
    decreases |ops|
  {
    if ops == [] then s else Run(Apply(s, ops[0]), ops[1..])
  }

  lemma ApplyKeepsDrift(s: Store, op: Op, v: Id)
    ensures Drift(Apply(s, op), v) == Drift(s, v)
  {
    match op
    case Buy(u, p, id, now) => PurchaseProductKeepsDrift(s, u, p, id, now, v);
    case TopUp(u, a, id, now) =>
      if a.Some? && a.value > 0 {
        ReplenishKeepsDrift(s, u, a.value, id, now, v);
      }
    case PayCart(session, id, now) => CheckoutKeepsDrift(s, session, id, now, v);
    case AddItem(u, p, q, id, now) => DriftOfLedger(s, Apply(s, op), v);
    case SetQuantity(u, item, q) => DriftOfLedger(s, Apply(s, op), v);
    case RemoveItem(u, item) => DriftOfLedger(s, Apply(s, op), v);
    case EmptyCart(u) => DriftOfLedger(s, Apply(s, op), v);
  }

  /** Over any sequence of shopper operations, every user's balance moves by
      exactly the amounts logged for that user. */
  lemma {:induction false} RunKeepsDrift(s: Store, ops: seq<Op>, v: Id)
    ensures Drift(Run(s, ops), v) == Drift(s, v)
    decreases |ops|
  {
    if ops != [] {
      ApplyKeepsDrift(s, ops[0], v);
      RunKeepsDrift(Apply(s, ops[0]), ops[1..], v);
    }
  }

  /** A registered user starts with the starting balance and an empty log,
      when the fresh id is not in use; everyone else's drift is kept. */
  lemma RegisterDrift(s: Store, data: Users.Registration, freshId: Id, now: string, v: Id)
    requires FindUser(s, freshId).None? && Ledger.UserTransactions(s, freshId) == []
    requires Users.RegisterUser(s, data, freshId, now).out.Ok?
    ensures var t := Users.RegisterUser(s, data, freshId, now).store;
      && (v != freshId ==> Drift(t, v) == Drift(s, v))
      && Drift(t, freshId) == Some(Users.StartingBalance)
  {
    var t := Users.RegisterUser(s, data, freshId, now).store;
    var u := t.users[|s.users|];
    assert t.users == s.users + [u] && u.id == freshId;
    AppendUserIndex(s.users, u, v);
    assert Ledger.UserTransactions(t, v) == Ledger.UserTransactions(s, v);
    if v == freshId {
      assert FindUser(t, v) == Some(u);
    } else {
      assert FindUser(t, v) == FindUser(s, v);
    }
  }

  /** Appending a user leaves every id that already resolved where it was;
      the new user is found only for an id nobody had. */
  lemma AppendUserIndex(users: seq<User>, u: User, v: Id)
    ensures UserIndex(users + [u], v)
         == if UserIndex(users, v).Some? then UserIndex(users, v)
            else if u.id == v then Some(|users|) else None
  {
    var all := users + [u];
    assert forall j :: 0 <= j < |users| ==> all[j] == users[j];
    match UserIndex(users, v)
    case Some(k) =>
      assert all[k].id == v;
    case None =>
      if u.id == v {
        assert all[|users|].id == v;
      }
  }
}
