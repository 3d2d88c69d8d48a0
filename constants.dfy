/** The enumerations of the ledger: transaction types, statuses and categories. */
module Constants {
  import opened Outcomes

  datatype TxType = Deposit | Withdrawal | TransferIn | TransferOut

  datatype TxStatus = Pending | Completed | Failed

  datatype Category = Income | Expense | Transfer | Other

  /** The stored spelling of each transaction type. */
  function TypeName(t: TxType): string {
    match t
    case Deposit => "deposit"
    case Withdrawal => "withdrawal"
    case TransferIn => "transfer_in"
    case TransferOut => "transfer_out"
  }

  function StatusName(s: TxStatus): string {
    match s
    case Pending => "pending"
    case Completed => "completed"
    case Failed => "failed"
  }

  function CategoryName(c: Category): string {
    match c
    case Income => "income"
    case Expense => "expense"
    case Transfer => "transfer"
    case Other => "other"
  }

  /** Membership of a string in the type enum: the string names exactly the type returned. */
  function ParseType(s: string): (r: Option<TxType>)
    ensures r.Some? ==> TypeName(r.value) == s
  {
    if s == "deposit" then Some(Deposit)
    else if s == "withdrawal" then Some(Withdrawal)
    else if s == "transfer_in" then Some(TransferIn)
    else if s == "transfer_out" then Some(TransferOut)
    else None
  }

  /** Every type's stored name parses back to that type. */
  lemma TypeNameRoundTrip(t: TxType)
    ensures ParseType(TypeName(t)) == Some(t)
  {
  }

  /** Nothing is returned exactly for a string that names no type. */
  lemma ParseTypeRejects(s: string)
    ensures ParseType(s).None? <==> forall t: TxType :: TypeName(t) != s
  {
    if ParseType(s).None? {
      forall t: TxType
        ensures TypeName(t) != s
      {
        TypeNameRoundTrip(t);
      }
    }
  }
}
