/**
 * The Transaction document and the constraints its schema enforces when a
 * document is created: the type enum, the minimum amount, the trimmed and
 * length-limited description, and the defaults for category and status.
 */
module TransactionModel {
  import opened Outcomes
  import opened Constants
  import Text
  import Money

  type UserId = nat
  type TxId = nat

  /** Longest description the schema accepts, after trimming. */
  const MaxDescription: nat := 200

  /**
   * A stored transaction. `wallet` names the owner's wallet by the owning
   * user, since a user has exactly one wallet.
   */
  datatype Tx = Tx(
    wallet: UserId,
    user: UserId,
    txType: TxType,
    amount: int,
    description: string,
    category: Category,
    relatedTransaction: Option<TxId>,
    relatedUser: Option<UserId>,
    balanceAfter: int,
    status: TxStatus,
    createdAt: int)

  /** The fields handed to `Transaction.create`, before casting and validation. */
  datatype Draft = Draft(
    wallet: UserId,
    user: UserId,
    txType: string,
    amount: int,
    description: string,
    category: Option<Category>,
    relatedTransaction: Option<TxId>,
    relatedUser: Option<UserId>,
    balanceAfter: int,
    status: Option<TxStatus>)

  /** The schema validators that can reject a draft. */
  datatype Violation = TypeNotInEnum | AmountBelowMinimum | DescriptionTooLong

  /** The constraints every stored transaction satisfies. */
  predicate WellFormed(t: Tx) {
    && t.amount >= Money.MinAmount
    && Text.Utf16Length(t.description) <= MaxDescription
    && Text.Trimmed(t.description)
  }

  /** Every validator of the schema that rejects the draft. */
  function Violations(d: Draft): (v: set<Violation>)
    ensures TypeNotInEnum in v <==> ParseType(d.txType).None?
    ensures AmountBelowMinimum in v <==> d.amount < Money.MinAmount
    ensures DescriptionTooLong in v <==> Text.Utf16Length(Text.Trim(d.description)) > MaxDescription
  {
    var badType := ParseType(d.txType).None?;
    var badAmount := d.amount < Money.MinAmount;
    var badDescription := Text.Utf16Length(Text.Trim(d.description)) > MaxDescription;
    (if badType then {TypeNotInEnum} else {})
    + (if badAmount then {AmountBelowMinimum} else {})
    + (if badDescription then {DescriptionTooLong} else {})
  }

  /**
   * `Transaction.create(draft)` at time `now`: fails with every violated
   * constraint, or yields the stored document: the type cast to the enum, the
   * description trimmed, category defaulting to 'other', status defaulting
   * to 'completed', and `createdAt` stamped.
   */
  function Create(d: Draft, now: int): (r: Result<Tx, set<Violation>>)
    ensures r.Err? <==> Violations(d) != {}
    ensures r.Err? ==> r.error == Violations(d)
    ensures r.Ok? ==>
      && Some(r.value.txType) == ParseType(d.txType)
      && r.value.amount == d.amount
      && r.value.description == Text.Trim(d.description)
      && r.value.category == GetOr(d.category, Other)
      && r.value.status == GetOr(d.status, Completed)
      && r.value.wallet == d.wallet && r.value.user == d.user
      && r.value.relatedTransaction == d.relatedTransaction
      && r.value.relatedUser == d.relatedUser
      && r.value.balanceAfter == d.balanceAfter
      && r.value.createdAt == now
      && WellFormed(r.value)
  {
    var v := Violations(d);
    if v != {} then Err(v)
    else
      var t := ParseType(d.txType).value;
      Ok(Tx(d.wallet, d.user, t, d.amount, Text.Trim(d.description),
            GetOr(d.category, Other), d.relatedTransaction, d.relatedUser,
            d.balanceAfter, GetOr(d.status, Completed), now))
  }
}
