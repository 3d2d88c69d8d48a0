/** The Wallet document: one per user, holding a balance that is never negative. */
module Wallets {
  import Money

  type UserId = nat

  datatype Wallet = Wallet(
    user: UserId,
    balance: int,
    currency: string,
    isActive: bool,
    lastTransaction: int)

  /** The schema's `min: 0` on balance, checked whenever a wallet is saved. */
  predicate BalanceAllowed(w: Wallet) {
    w.balance >= 0
  }

  /** `hasSufficientFunds(amount)`: the balance covers the amount. */
  predicate HasSufficientFunds(w: Wallet, amount: int) {
    w.balance >= amount
  }

  /** The wallet `Wallet.create({ user })` stores: every field at its default. */
  function NewWallet(user: UserId, now: int): (w: Wallet)
    ensures w.user == user && BalanceAllowed(w)
    ensures w.balance == Money.StartingBalance
    ensures w.currency == "USD" && w.isActive
  {
    Wallet(user, Money.StartingBalance, "USD", true, now)
  }
}
