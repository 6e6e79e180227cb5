/** The wallet ledger of DataService.js: the append-only transaction log and
    the operations that move money (`createTransaction`, `purchaseProduct`,
    `replenishWallet`). */
module Ledger {
  import opened Wrappers
  import opened Model
  import opened Seqs
  import Users

  /** The transaction type `createTransaction` credits; note that it differs
      from the "replenishment" type `replenishWallet` records. */
  const Replenish: string := "replenish"

  /** Only the transaction log differs between the two stores. */
  predicate SameExceptTransactions(s: Store, t: Store) {
    s.users == t.users && s.categories == t.categories
    && s.products == t.products && s.carts == t.carts
  }

  /** The log of `t` is that of `s` with `entry` appended. */
  predicate Appended(s: Store, t: Store, entry: Transaction) {
    t.transactions == s.transactions + [entry]
  }

  /** `addTransaction`: stamps the entry with a fresh id and the current time
      and appends it to the log. */
  function AddTransaction(s: Store, entry: Transaction, freshId: Id, now: string): (r: Step<Transaction>)
    ensures SameExceptTransactions(s, r.store)
    ensures Appended(s, r.store, r.out)
    ensures r.out == entry.(id := freshId, timestamp := now)
  {
    var t := entry.(id := freshId, timestamp := now);
    Step(s.(transactions := s.transactions + [t]), t)
  }

  /** `getUserTransactions`: the user's entries in creation order. */
  function UserTransactions(s: Store, userId: Id): (r: seq<Transaction>)
    ensures IsSubsequence(r, s.transactions)
    ensures forall i :: 0 <= i < |r| ==> r[i].userId == userId
  {
    Filter(s.transactions, OwnedBy(userId))
  }

  /** The user's log holds exactly the entries of the log that are theirs. */
  lemma UserTransactionsMembership(s: Store, userId: Id, t: Transaction)
    ensures t in UserTransactions(s, userId) <==> t in s.transactions && t.userId == userId
  {
    FilterMembership(s.transactions, OwnedBy(userId), t);
  }

  /** The `getUserTransactions` filter callback. */
  function OwnedBy(userId: Id): Transaction -> bool {
    (t: Transaction) => t.userId == userId
  }

  /** The signed amount `createTransaction` records: purchases are debits,
      every other type a credit. */
  function SignedAmount(kind: string, amount: Cents): (a: Cents)
    ensures kind == Purchase ==> a <= 0 && Abs(a) == Abs(amount)
    ensures kind != Purchase ==> a >= 0 && Abs(a) == Abs(amount)
  {
    if kind == Purchase then 0 - Abs(amount) else Abs(amount)
  }

  /** The category a new transaction carries: that of the one product of a
      single-product purchase, when the product exists. */
  function DirectCategory(s: Store, kind: string, productIds: seq<Id>): (c: Option<Id>)
    ensures c.Some? <==>
      kind == Purchase && |productIds| == 1 && FindProduct(s.products, productIds[0]).Some?
    ensures c.Some? ==> c.value == FindProduct(s.products, productIds[0]).value.categoryId
  {
    if kind == Purchase && |productIds| == 1 then
      match FindProduct(s.products, productIds[0])
      case Some(p) => Some(p.categoryId)
      case None => None
    else None
  }

  /** The balance `createTransaction` writes back: purchases debit |amount|,
      the type "replenish" credits it, and any other type leaves it. */
  function BalanceAfter(balance: Cents, kind: string, amount: Cents): (b: Cents)
    ensures kind == Purchase ==> b == balance - Abs(amount)
    ensures kind == Replenish ==> b == balance + Abs(amount)
    ensures kind != Purchase && kind != Replenish ==> b == balance
    ensures kind == Purchase || kind == Replenish ==> b == balance + SignedAmount(kind, amount)
  {
    if kind == Purchase then balance - Abs(amount)
    else if kind == Replenish then balance + Abs(amount)
    else balance
  }

  /** `createTransaction`: for a known user, appends one entry and then writes
      the user back with the adjusted balance; for an unknown user it returns
      `null` and writes nothing. */
  function CreateTransaction(s: Store, userId: Id, amount: Cents, kind: string, description: string,
                             productIds: seq<Id>, freshId: Id, now: string): (r: Step<Option<Transaction>>)
    ensures r.out.None? <==> FindUser(s, userId).None?
    ensures r.out.None? ==> r.store == s
    ensures r.out.Some? ==>
      var t := r.out.value;
      && Appended(s, r.store, t)
      && t.id == freshId && t.userId == userId && t.kind == kind && t.description == description
      && t.amount == SignedAmount(kind, amount)
      && (t.productId.Some? <==> |productIds| == 1)
      && (t.productId.Some? ==> t.productId.value == productIds[0])
      && t.categoryId == DirectCategory(s, kind, productIds)
      && (t.productIds.Some? <==> |productIds| > 0)
      && (t.productIds.Some? ==> t.productIds.value == productIds)
      && t.productName.None? && t.timestamp == now
    ensures r.out.Some? ==>
      && r.store.categories == s.categories && r.store.products == s.products && r.store.carts == s.carts
      && var i := UserIndex(s.users, userId).value;
         Users.UsersAgreeExcept(s, r.store, i)
         && r.store.users[i] == s.users[i].(balance := BalanceAfter(s.users[i].balance, kind, amount))
  {
    match FindUser(s, userId)
    case None => Step(s, None)
    case Some(user) =>
      var entry := Transaction(
        "", userId, SignedAmount(kind, amount), kind, description,
        if |productIds| == 1 then Some(productIds[0]) else None,
        None,
        DirectCategory(s, kind, productIds),
        if |productIds| > 0 then Some(productIds) else None,
        now);
      var added := AddTransaction(s, entry, freshId, now);
      var written := Users.UpdateUser(added.store, userId,
                                      Users.WholeUser(user.(balance := BalanceAfter(user.balance, kind, amount))));
      Step(written.store, Some(added.out))
  }

  /** What `purchaseProduct` reports to its caller. */
  datatype PurchaseOutcome = PurchaseOutcome(success: bool, message: string, user: Option<User>)

  /** `purchaseProduct`: buys one unit of a product at its price. A missing
      user or product, or a balance below the price, changes nothing;
      otherwise the balance is debited and one purchase entry appended. */
  function PurchaseProduct(s: Store, userId: Id, productId: Id, freshId: Id, now: string): (r: Step<PurchaseOutcome>)
    ensures FindUser(s, userId).None? || FindProduct(s.products, productId).None? ==>
      r.store == s && r.out == PurchaseOutcome(false, "User or product not found", None)
    ensures FindUser(s, userId).Some? && FindProduct(s.products, productId).Some?
            && FindUser(s, userId).value.balance < FindProduct(s.products, productId).value.price ==>
      r.store == s && r.out == PurchaseOutcome(false, "Insufficient funds", None)
    ensures r.out.success ==>
      var p := FindProduct(s.products, productId).value;
      var i := UserIndex(s.users, userId).value;
      && FindUser(s, userId).value.balance >= p.price
      && r.store.categories == s.categories && r.store.products == s.products && r.store.carts == s.carts
      && Users.UsersAgreeExcept(s, r.store, i)
      && r.store.users[i] == s.users[i].(balance := s.users[i].balance - p.price)
      && Appended(s, r.store, Transaction(freshId, userId, -p.price, Purchase, "Purchase of " + p.name,
                                          Some(productId), Some(p.name), Some(p.categoryId), None, now))
      && r.out.user == Some(r.store.users[i])
    ensures !r.out.success ==> r.store == s
    ensures r.out.success <==>
      FindUser(s, userId).Some? && FindProduct(s.products, productId).Some?
      && FindUser(s, userId).value.balance >= FindProduct(s.products, productId).value.price
  {
    var user := FindUser(s, userId);
    var product := FindProduct(s.products, productId);
    if user.None? || product.None? then
      Step(s, PurchaseOutcome(false, "User or product not found", None))
    else if user.value.balance < product.value.price then
      Step(s, PurchaseOutcome(false, "Insufficient funds", None))
    else
      var p := product.value;
      var debited := Users.UpdateUserBalance(s, userId, -p.price);
      var entry := Transaction("", userId, -p.price, Purchase, "Purchase of " + p.name,
                               Some(productId), Some(p.name), Some(p.categoryId), None, now);
      var added := AddTransaction(debited.store, entry, freshId, now);
      assert added.out == Transaction(freshId, userId, -p.price, Purchase, "Purchase of " + p.name,
                                      Some(productId), Some(p.name), Some(p.categoryId), None, now);
      var i := UserIndex(s.users, userId).value;
      assert added.store.users == debited.store.users;
      Users.ReadBackUser(s, added.store, userId, i);
      Step(added.store, PurchaseOutcome(true, "Purchase successful", FindUser(added.store, userId)))
  }

  /** `replenishWallet`: credits a known user and appends one "replenishment"
      entry of the same amount; an unknown user gets `null` and nothing is
      written. */
  function ReplenishWallet(s: Store, userId: Id, amount: Cents, freshId: Id, now: string): (r: Step<Option<User>>)
    ensures r.out.None? <==> FindUser(s, userId).None?
    ensures r.out.None? ==> r.store == s
    ensures r.out.Some? ==>
      var i := UserIndex(s.users, userId).value;
      && r.store.categories == s.categories && r.store.products == s.products && r.store.carts == s.carts
      && Users.UsersAgreeExcept(s, r.store, i)
      && r.store.users[i] == r.out.value == s.users[i].(balance := s.users[i].balance + amount)
      && Appended(s, r.store, Transaction(freshId, userId, amount, Replenishment, "Wallet replenishment",
                                          None, None, None, None, now))
  {
    var credited := Users.UpdateUserBalance(s, userId, amount);
    match credited.out
    case None => Step(s, None)
    case Some(u) =>
      var entry := Transaction("", userId, amount, Replenishment, "Wallet replenishment",
                               None, None, None, None, now);
      Step(AddTransaction(credited.store, entry, freshId, now).store, Some(u))
  }
}
