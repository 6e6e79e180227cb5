/** The top-up form of the wallet page (Wallet.jsx): it refuses an amount
    that is not a positive number before `replenishWallet` is reached. */
module Wallet {
  import opened Wrappers
  import opened Model
  import Users
  import Ledger

  const InvalidAmount: string := "Please enter a valid amount"
  const Replenished: string := "Wallet replenished successfully"

  /** `handleReplenish`. The typed amount is `None` when `parseFloat` gives
      `NaN`. A missing or non-positive amount is refused with the store
      untouched; any other is passed to `replenishWallet`, and the page reports
      success whatever that returned. */
  function ReplenishForm(s: Store, userId: Id, amount: Option<Cents>, freshId: Id, now: string): (r: Step<string>)
    ensures amount.None? || amount.value <= 0 ==> r == Step(s, InvalidAmount)
    ensures amount.Some? && amount.value > 0 ==>
      r.out == Replenished && r.store == Ledger.ReplenishWallet(s, userId, amount.value, freshId, now).store
    ensures amount.Some? && amount.value > 0 && FindUser(s, userId).Some? ==>
      var i := UserIndex(s.users, userId).value;
      r.store.users[i].balance > s.users[i].balance
  {
    if amount.None? || amount.value <= 0 then Step(s, InvalidAmount)
    else Step(Ledger.ReplenishWallet(s, userId, amount.value, freshId, now).store, Replenished)
  }

  /** Through the form, no balance ever goes down. */
  lemma ReplenishFormNeverDebits(s: Store, userId: Id, amount: Option<Cents>, freshId: Id, now: string, j: nat)
    requires j < |s.users|
    ensures var t := ReplenishForm(s, userId, amount, freshId, now).store;
      |t.users| == |s.users| && t.users[j].balance >= s.users[j].balance
  {
  }
}
