/**
 * The wallet ledger as a value: users, one wallet per user, and an
 * append-only sequence of transaction records. Every request handler of the
 * transaction, wallet and test controllers is specified here as a function
 * from the database before the request to the reply and the database after
 * it, and the lemmas say what those replies and writes amount to. The
 * handlers themselves, which work step by step on loaded documents, are in
 * module Handlers and are proved to compute exactly these functions.
 */
module Ledger {
  import opened Outcomes
  import C = Constants
  import opened TransactionModel
  import W = Wallets
  import Text
  import Money

  /** A registered user. Users are numbered in order of creation. */
  datatype User = User(name: string, email: string)

  /** Why a handler answered with an error status. */
  datatype Reason =
    | InvalidAmount
    | WalletNotFound
    | InsufficientFunds
    | MissingRecipientOrAmount
    | SelfTransfer
    | RecipientNotFound
    | SenderWalletNotFound
    | RecipientWalletNotFound
    | UserNotFound
    | UserExists
    | InvalidCurrency
    | Rejected(violations: set<Violation>)
    | NegativeBalance
    | NegativeSkip

  /** The `message` each error reply carries. */
  function Message(r: Reason): string {
    match r
    case InvalidAmount => "Please provide a valid amount"
    case WalletNotFound => "Wallet not found"
    case InsufficientFunds => "Insufficient funds"
    case MissingRecipientOrAmount => "Please provide recipient email and valid amount"
    case SelfTransfer => "Cannot transfer to yourself"
    case RecipientNotFound => "Recipient not found"
    case SenderWalletNotFound => "Your wallet not found"
    case RecipientWalletNotFound => "Recipient wallet not found"
    case UserNotFound => "User not found"
    case UserExists => "User with this email already exists"
    case InvalidCurrency => "Please provide a valid 3-letter currency code (e.g., USD, EUR)"
    case Rejected(_) => "Transaction validation failed"
    case NegativeBalance => "Wallet validation failed: balance: Balance cannot be negative"
    case NegativeSkip => "skip value must be non-negative"
  }

  /** An HTTP reply: a success status with its data, or an error status with its reason. */
  datatype Outcome<+T> = Done(status: nat, value: T) | Failed(status: nat, reason: Reason)

  /** The data of a deposit or withdrawal reply: the new record and the wallet's balance after the update. */
  datatype Posted = Posted(record: TxId, newBalance: int)

  /** The data of a transfer reply: the sender's record, the recipient, and the sender document's balance. */
  datatype Sent = Sent(record: TxId, recipient: User, newBalance: int)

  /** The whole database: users by id, wallets filed under their owner, records by id. */
  datatype Db = Db(users: seq<User>, wallets: map<UserId, W.Wallet>, txs: seq<Tx>)

  /** A handler's reply together with the database it leaves behind. */
  datatype Step<+T> = Step(reply: Outcome<T>, db: Db)

  /** `User.findOne({ email })`: the first user whose stored email is exactly `email`. */
  function FindByEmail(users: seq<User>, email: string): (r: Option<UserId>)
    ensures r.Some? ==> r.value < |users| && users[r.value].email == email
    ensures r.Some? ==> forall k :: 0 <= k < r.value ==> users[k].email != email
    ensures r.None? <==> forall k :: 0 <= k < |users| ==> users[k].email != email
  {
    if users == [] then None
    else if users[0].email == email then Some(0)
    else
      match FindByEmail(users[1..], email)
      case None => None
      case Some(k) => Some(k + 1)
  }

  // ---------------------------------------------------------------- invariants

  /** Every wallet belongs to an existing user, is filed under that user, and is not negative. */
  ghost predicate WalletsOk(userCount: nat, wallets: map<UserId, W.Wallet>) {
    forall u :: u in wallets ==> u < userCount && wallets[u].user == u && W.BalanceAllowed(wallets[u])
  }

  ghost predicate EmailsUnique(users: seq<User>) {
    forall i, j :: 0 <= i < j < |users| ==> users[i].email != users[j].email
  }

  /** With unique emails, a user's stored email finds that user. */
  lemma FindStoredEmail(users: seq<User>, i: nat)
    requires EmailsUnique(users) && i < |users|
    ensures FindByEmail(users, users[i].email) == Some(i)
  {
  }

  /** A stored record: schema-valid, owned by an existing user through that user's wallet. */
  ghost predicate RecordOk(t: Tx, userCount: nat) {
    && WellFormed(t)
    && t.user < userCount
    && t.wallet == t.user
    && (t.relatedUser.Some? ==> t.relatedUser.value < userCount)
  }

  ghost predicate RecordOkAt(txs: seq<Tx>, i: nat, userCount: nat)
    requires i < |txs|
  {
    RecordOk(txs[i], userCount)
  }

  ghost predicate RecordsOk(txs: seq<Tx>, userCount: nat) {
    forall i :: 0 <= i < |txs| ==> RecordOkAt(txs, i, userCount)
  }

  /**
   * Records `i` and `j` are the two halves of one transfer: each names the
   * other, they carry the same amount, one is transfer_out and the other
   * transfer_in, and each names the other's owner as the related user.
   */
  ghost predicate LinkedPair(a: Tx, i: TxId, b: Tx, j: TxId) {
    && i != j
    && a.relatedTransaction == Some(j)
    && b.relatedTransaction == Some(i)
    && a.amount == b.amount
    && a.relatedUser == Some(b.user)
    && b.relatedUser == Some(a.user)
    && ((a.txType == C.TransferOut && b.txType == C.TransferIn) || (a.txType == C.TransferIn && b.txType == C.TransferOut))
  }

  /** Record `i`, if it links to another record, is one half of a linked pair with it. */
  ghost predicate LinkOk(txs: seq<Tx>, i: nat)
    requires i < |txs|
  {
    txs[i].relatedTransaction.Some? ==>
      var j := txs[i].relatedTransaction.value;
      j < |txs| && LinkedPair(txs[i], i, txs[j], j)
  }

  /** Every link between records is one half of a linked pair. */
  ghost predicate LinksOk(txs: seq<Tx>) {
    forall i :: 0 <= i < |txs| ==> LinkOk(txs, i)
  }

  /** What every handler keeps true of the database. */
  ghost predicate Inv(db: Db) {
    && WalletsOk(|db.users|, db.wallets)
    && EmailsUnique(db.users)
    && RecordsOk(db.txs, |db.users|)
    && LinksOk(db.txs)
  }

  /** Appending a record with no link keeps the records valid and every link paired. */
  lemma AppendUnlinked(txs: seq<Tx>, t: Tx, userCount: nat)
    requires RecordsOk(txs, userCount) && LinksOk(txs)
    requires RecordOk(t, userCount) && t.relatedTransaction.None?
    ensures RecordsOk(txs + [t], userCount) && LinksOk(txs + [t])
  {
    var s := txs + [t];
    forall i | 0 <= i < |s|
      ensures RecordOkAt(s, i, userCount) && LinkOk(s, i)
    {
      if i < |txs| {
        assert RecordOkAt(txs, i, userCount) && LinkOk(txs, i);
      }
    }
  }

  /** Appending the two halves of a transfer, linked to each other, keeps every link paired. */
  lemma AppendPair(txs: seq<Tx>, o: Tx, t: Tx, userCount: nat)
    requires RecordsOk(txs, userCount) && LinksOk(txs)
    requires RecordOk(o, userCount) && RecordOk(t, userCount)
    requires LinkedPair(o, |txs|, t, |txs| + 1)
    ensures RecordsOk(txs + [o, t], userCount) && LinksOk(txs + [o, t])
  {
    var s := txs + [o, t];
    forall i | 0 <= i < |s|
      ensures RecordOkAt(s, i, userCount) && LinkOk(s, i)
    {
      if i < |txs| {
        assert RecordOkAt(txs, i, userCount) && LinkOk(txs, i);
      }
    }
  }

  lemma RecordsOkWithMoreUsers(txs: seq<Tx>, n: nat, m: nat)
    requires RecordsOk(txs, n) && n <= m
    ensures RecordsOk(txs, m)
  {
    forall i | 0 <= i < |txs|
      ensures RecordOkAt(txs, i, m)
    {
      assert RecordOkAt(txs, i, n);
    }
  }

  // ---------------------------------------------------------------- wallet writes

  /**
   * A wallet after `updateBalance(delta)` at time `now`. The method rounds
   * the new balance to cents, which on a balance held in whole cents changes
   * nothing (Money.ExactCentsUnchanged).
   */
  function Moved(w: W.Wallet, delta: int, now: int): W.Wallet {
    w.(balance := w.balance + delta, lastTransaction := now)
  }

  /** What `Transaction.create(d)` followed by `updateBalance(delta)` on the wallet document `w` left behind. */
  datatype Posting = Posting(created: Result<TxId, set<Violation>>, saved: bool, db: Db)

  /**
   * The writes shared by a deposit, a withdrawal and the test route: the
   * record is created from `d`, then the wallet is moved by `delta` and
   * saved. If the schema refuses the record nothing is written; if it refuses
   * the wallet (a negative balance) the record stays.
   */
  function PostOf(db: Db, d: Draft, w: W.Wallet, delta: int, now: int): Posting {
    match Create(d, now)
    case Err(v) => Posting(Err(v), false, db)
    case Ok(t) =>
      var moved := Moved(w, delta, now);
      var saved := W.BalanceAllowed(moved);
      Posting(Ok(|db.txs|), saved,
              db.(txs := db.txs + [t], wallets := if saved then db.wallets[w.user := moved] else db.wallets))
  }

  /** The reply to a posting: 201 with the record and the new balance, or the caught error as `failStatus`. */
  function PostReply(p: Posting, failStatus: nat, newBalance: int): Step<Posted> {
    if p.created.Err? then Step(Failed(failStatus, Rejected(p.created.error)), p.db)
    else if !p.saved then Step(Failed(failStatus, NegativeBalance), p.db)
    else Step(Done(201, Posted(p.created.value, newBalance)), p.db)
  }

  /** A posting by the owner of an existing wallet keeps the invariant. */
  lemma PostKeepsInv(db: Db, d: Draft, w: W.Wallet, delta: int, now: int)
    requires Inv(db) && w.user < |db.users|
    requires d.wallet == w.user && d.user == w.user && d.relatedTransaction.None? && d.relatedUser.None?
    ensures Inv(PostOf(db, d, w, delta, now).db)
  {
    var c := Create(d, now);
    if c.Ok? {
      AppendUnlinked(db.txs, c.value, |db.users|);
    }
  }

  // ---------------------------------------------------------------- deposit and withdrawal

  /** The fields a deposit hands to `Transaction.create`. */
  function DepositDraft(caller: UserId, a: int, description: string, newBalance: int): Draft {
    Draft(caller, caller, C.TypeName(C.Deposit), a, Text.OrDefault(description, "Deposit"),
          Some(C.Income), None, None, newBalance, Some(C.Completed))
  }

  /**
   * POST /transactions/deposit: a missing or non-positive amount is refused
   * with 400 before any lookup, a missing wallet with 404; otherwise the
   * record is created with the balance it leads to and the wallet credited.
   * Anything thrown on the way answers 500.
   */
  function DepositStep(db: Db, caller: UserId, amount: Option<int>, description: string, now: int): Step<Posted> {
    if amount.None? || amount.value <= 0 then Step(Failed(400, InvalidAmount), db)
    else if caller !in db.wallets then Step(Failed(404, WalletNotFound), db)
    else
      var a, w := amount.value, db.wallets[caller];
      PostReply(PostOf(db, DepositDraft(caller, a, description, w.balance + a), w, a, now), 500, w.balance + a)
  }

  /** The write path of a deposit to an existing wallet. */
  lemma DepositPosts(db: Db, caller: UserId, a: int, description: string, now: int)
    requires a > 0 && caller in db.wallets
    ensures var w := db.wallets[caller];
      DepositStep(db, caller, Some(a), description, now)
      == PostReply(PostOf(db, DepositDraft(caller, a, description, w.balance + a), w, a, now), 500, w.balance + a)
  {
  }

  /**
   * A deposit is refused exactly when the amount is missing or not positive,
   * the wallet is missing, or the description is too long, and a refused
   * deposit writes nothing. A completed one appends exactly one deposit record
   * and credits exactly the caller's wallet.
   */
  lemma DepositReply(db: Db, caller: UserId, amount: Option<int>, description: string, now: int)
    requires Inv(db)
    ensures var s := DepositStep(db, caller, amount, description, now);
      && (amount.None? || amount.value <= 0 ==> s.reply == Failed(400, InvalidAmount))
      && (amount.Some? && amount.value > 0 && caller !in db.wallets ==> s.reply == Failed(404, WalletNotFound))
      && (s.reply.Failed? ==> s.db == db)
      && (s.reply.Done? <==>
            amount.Some? && amount.value > 0 && caller in db.wallets
            && Text.Utf16Length(Text.Trim(Text.OrDefault(description, "Deposit"))) <= MaxDescription)
      && (s.reply.Done? ==>
            var a, w := amount.value, db.wallets[caller];
            && s.reply == Done(201, Posted(|db.txs|, w.balance + a))
            && s.db.users == db.users
            && s.db.txs == db.txs + [Tx(caller, caller, C.Deposit, a, Text.Trim(Text.OrDefault(description, "Deposit")),
                                        C.Income, None, None, w.balance + a, C.Completed, now)]
            && s.db.wallets == db.wallets[caller := w.(balance := w.balance + a, lastTransaction := now)])
  {
    if amount.Some? && amount.value > 0 && caller in db.wallets {
      DepositWrites(db, caller, amount.value, description, now);
    }
  }

  /** The write path of a deposit completes exactly when the description fits, and then writes exactly this. */
  lemma DepositWrites(db: Db, caller: UserId, a: int, description: string, now: int)
    requires Inv(db) && a > 0 && caller in db.wallets
    ensures var s, w := DepositStep(db, caller, Some(a), description, now), db.wallets[caller];
      && (s.reply.Failed? ==> s.db == db)
      && (s.reply.Done? <==> Text.Utf16Length(Text.Trim(Text.OrDefault(description, "Deposit"))) <= MaxDescription)
      && (s.reply.Done? ==>
            && s.reply == Done(201, Posted(|db.txs|, w.balance + a))
            && s.db.users == db.users
            && s.db.txs == db.txs + [Tx(caller, caller, C.Deposit, a, Text.Trim(Text.OrDefault(description, "Deposit")),
                                        C.Income, None, None, w.balance + a, C.Completed, now)]
            && s.db.wallets == db.wallets[caller := w.(balance := w.balance + a, lastTransaction := now)])
  {
    C.TypeNameRoundTrip(C.Deposit);
    DepositPosts(db, caller, a, description, now);
  }

  lemma DepositKeepsInv(db: Db, caller: UserId, amount: Option<int>, description: string, now: int)
    requires Inv(db) && caller < |db.users|
    ensures Inv(DepositStep(db, caller, amount, description, now).db)
  {
    if amount.Some? && amount.value > 0 && caller in db.wallets {
      var a, w := amount.value, db.wallets[caller];
      DepositPosts(db, caller, a, description, now);
      PostKeepsInv(db, DepositDraft(caller, a, description, w.balance + a), w, a, now);
    }
  }

  /** The fields a withdrawal hands to `Transaction.create`. */
  function WithdrawalDraft(caller: UserId, a: int, description: string, newBalance: int): Draft {
    Draft(caller, caller, C.TypeName(C.Withdrawal), a, Text.OrDefault(description, "Withdrawal"),
          Some(C.Expense), None, None, newBalance, Some(C.Completed))
  }

  /**
   * POST /transactions/withdraw: as a deposit, but a balance below the amount
   * is refused with 400 before anything is written, and the wallet is debited.
   */
  function WithdrawStep(db: Db, caller: UserId, amount: Option<int>, description: string, now: int): Step<Posted> {
    if amount.None? || amount.value <= 0 then Step(Failed(400, InvalidAmount), db)
    else if caller !in db.wallets then Step(Failed(404, WalletNotFound), db)
    else
      var a, w := amount.value, db.wallets[caller];
      if !W.HasSufficientFunds(w, a) then Step(Failed(400, InsufficientFunds), db)
      else PostReply(PostOf(db, WithdrawalDraft(caller, a, description, w.balance - a), w, -a, now), 500, w.balance - a)
  }

  /** The write path of a withdrawal the balance covers. */
  lemma WithdrawPosts(db: Db, caller: UserId, a: int, description: string, now: int)
    requires a > 0 && caller in db.wallets && W.HasSufficientFunds(db.wallets[caller], a)
    ensures var w := db.wallets[caller];
      WithdrawStep(db, caller, Some(a), description, now)
      == PostReply(PostOf(db, WithdrawalDraft(caller, a, description, w.balance - a), w, -a, now), 500, w.balance - a)
  {
  }

  /**
   * A withdrawal is refused exactly when the amount is missing or not
   * positive, the wallet is missing, the balance does not cover the amount
   * (a balance equal to it does), or the description is too long; a refused
   * withdrawal writes nothing, and a completed one never leaves the balance
   * negative.
   */
  lemma WithdrawReply(db: Db, caller: UserId, amount: Option<int>, description: string, now: int)
    requires Inv(db)
    ensures var s := WithdrawStep(db, caller, amount, description, now);
      && (amount.None? || amount.value <= 0 ==> s.reply == Failed(400, InvalidAmount))
      && (amount.Some? && amount.value > 0 && caller !in db.wallets ==> s.reply == Failed(404, WalletNotFound))
      && (amount.Some? && amount.value > 0 && caller in db.wallets && db.wallets[caller].balance < amount.value
          ==> s.reply == Failed(400, InsufficientFunds))
      && (s.reply.Failed? ==> s.db == db)
      && (s.reply.Done? <==>
            amount.Some? && amount.value > 0 && caller in db.wallets && db.wallets[caller].balance >= amount.value
            && Text.Utf16Length(Text.Trim(Text.OrDefault(description, "Withdrawal"))) <= MaxDescription)
      && (s.reply.Done? ==>
            var a, w := amount.value, db.wallets[caller];
            && s.reply == Done(201, Posted(|db.txs|, w.balance - a))
            && s.db.users == db.users
            && s.db.txs == db.txs + [Tx(caller, caller, C.Withdrawal, a, Text.Trim(Text.OrDefault(description, "Withdrawal")),
                                        C.Expense, None, None, w.balance - a, C.Completed, now)]
            && s.db.wallets == db.wallets[caller := w.(balance := w.balance - a, lastTransaction := now)]
            && s.db.wallets[caller].balance >= 0)
  {
    if amount.Some? && amount.value > 0 && caller in db.wallets && W.HasSufficientFunds(db.wallets[caller], amount.value) {
      WithdrawWrites(db, caller, amount.value, description, now);
    }
  }

  /** The write path of a covered withdrawal completes exactly when the description fits, and then writes exactly this. */
  lemma WithdrawWrites(db: Db, caller: UserId, a: int, description: string, now: int)
    requires Inv(db) && a > 0 && caller in db.wallets && W.HasSufficientFunds(db.wallets[caller], a)
    ensures var s, w := WithdrawStep(db, caller, Some(a), description, now), db.wallets[caller];
      && (s.reply.Failed? ==> s.db == db)
      && (s.reply.Done? <==> Text.Utf16Length(Text.Trim(Text.OrDefault(description, "Withdrawal"))) <= MaxDescription)
      && (s.reply.Done? ==>
            && s.reply == Done(201, Posted(|db.txs|, w.balance - a))
            && s.db.users == db.users
            && s.db.txs == db.txs + [Tx(caller, caller, C.Withdrawal, a, Text.Trim(Text.OrDefault(description, "Withdrawal")),
                                        C.Expense, None, None, w.balance - a, C.Completed, now)]
            && s.db.wallets == db.wallets[caller := w.(balance := w.balance - a, lastTransaction := now)]
            && s.db.wallets[caller].balance >= 0)
  {
    C.TypeNameRoundTrip(C.Withdrawal);
    WithdrawPosts(db, caller, a, description, now);
  }

  lemma WithdrawKeepsInv(db: Db, caller: UserId, amount: Option<int>, description: string, now: int)
    requires Inv(db) && caller < |db.users|
    ensures Inv(WithdrawStep(db, caller, amount, description, now).db)
  {
    var s := WithdrawStep(db, caller, amount, description, now);
    if amount.Some? && amount.value > 0 && caller in db.wallets && W.HasSufficientFunds(db.wallets[caller], amount.value) {
      var a, w := amount.value, db.wallets[caller];
      var p := PostOf(db, WithdrawalDraft(caller, a, description, w.balance - a), w, -a, now);
      assert Inv(p.db) by {
        PostKeepsInv(db, WithdrawalDraft(caller, a, description, w.balance - a), w, -a, now);
      }
      assert s.db == p.db by {
        WithdrawPosts(db, caller, a, description, now);
      }
    } else {
      assert s.db == db;
    }
  }

  // ---------------------------------------------------------------- the test route

  /** The balance the test route records: moved for a deposit or a withdrawal, unchanged for any other type. */
  function TestBalanceAfter(balance: int, amount: int, txType: string): int {
    if txType == C.TypeName(C.Deposit) then balance + amount
    else if txType == C.TypeName(C.Withdrawal) then balance - amount
    else balance
  }

  /** The test route credits the wallet for a deposit and debits it for every other type. */
  function TestDelta(amount: int, txType: string): int {
    if txType == C.TypeName(C.Deposit) then amount else -amount
  }

  /** The fields the test route hands to `Transaction.create`: no category and no status, so both default. */
  function TestDraft(userId: UserId, amount: int, txType: string, description: string, newBalance: int): Draft {
    Draft(userId, userId, txType, amount, description, None, None, None, newBalance, None)
  }

  /**
   * POST /test/transaction: 404 for an unknown user or a missing wallet; a
   * withdrawal the balance does not cover is refused with 400; otherwise the
   * record is created and the wallet moved. Every thrown error answers 400.
   */
  function TestTransactionStep(db: Db, userId: nat, amount: int, txType: string, description: string, now: int)
    : Step<Posted>
  {
    if userId >= |db.users| then Step(Failed(404, UserNotFound), db)
    else if userId !in db.wallets then Step(Failed(404, WalletNotFound), db)
    else
      var w := db.wallets[userId];
      if txType == C.TypeName(C.Withdrawal) && !W.HasSufficientFunds(w, amount) then Step(Failed(400, InsufficientFunds), db)
      else
        var delta := TestDelta(amount, txType);
        PostReply(PostOf(db, TestDraft(userId, amount, txType, description, TestBalanceAfter(w.balance, amount, txType)),
                         w, delta, now), 400, w.balance + delta)
  }

  /**
   * The test route's replies: only 400 and 404 as errors; a request
   * completes exactly when the user and wallet exist, a withdrawal is
   * covered, the schema accepts the record and the moved balance is not
   * negative; a refused wallet
   * save (the balance would go negative, possible for a transfer type)
   * leaves the record behind with the wallet untouched; a completed request
   * appends one record whose type is the parsed `txType` and whose
   * `balanceAfter` disagrees with the wallet's new balance for every type
   * other than deposit and withdrawal.
   */
  lemma TestTransactionReply(db: Db, userId: nat, amount: int, txType: string, description: string, now: int)
    requires Inv(db)
    ensures var s := TestTransactionStep(db, userId, amount, txType, description, now);
      && (userId >= |db.users| ==> s.reply == Failed(404, UserNotFound))
      && (userId < |db.users| && userId !in db.wallets ==> s.reply == Failed(404, WalletNotFound))
      && (userId in db.wallets && txType == C.TypeName(C.Withdrawal) && db.wallets[userId].balance < amount
          ==> s.reply == Failed(400, InsufficientFunds))
      && (s.reply.Failed? ==> s.reply.status == 400 || s.reply.status == 404)
      && (s.reply.Done? <==>
            && userId < |db.users| && userId in db.wallets
            && !(txType == C.TypeName(C.Withdrawal) && db.wallets[userId].balance < amount)
            && C.ParseType(txType).Some? && amount >= Money.MinAmount
            && Text.Utf16Length(Text.Trim(description)) <= MaxDescription
            && db.wallets[userId].balance + TestDelta(amount, txType) >= 0)
      && (s.reply.Failed? ==> s.db.wallets == db.wallets && s.db.users == db.users)
      && (s.reply.Failed? && s.reply.reason != NegativeBalance ==> s.db.txs == db.txs)
      && (s.reply.Failed? && s.reply.reason == NegativeBalance ==>
            && userId in db.wallets && |s.db.txs| == |db.txs| + 1 && s.db.txs[..|db.txs|] == db.txs
            && db.wallets[userId].balance - amount < 0)
      && (s.reply.Done? ==>
            var w := db.wallets[userId];
            var delta := TestDelta(amount, txType);
            && userId in db.wallets
            && C.ParseType(txType).Some?
            && s.reply == Done(201, Posted(|db.txs|, w.balance + delta))
            && s.db.users == db.users
            && s.db.txs == db.txs + [Tx(userId, userId, C.ParseType(txType).value, amount, Text.Trim(description),
                                        C.Other, None, None, TestBalanceAfter(w.balance, amount, txType), C.Completed, now)]
            && s.db.wallets == db.wallets[userId := w.(balance := w.balance + delta, lastTransaction := now)]
            && (C.ParseType(txType).value in {C.TransferIn, C.TransferOut} ==> s.db.txs[|db.txs|].balanceAfter == w.balance))
  {
    var s := TestTransactionStep(db, userId, amount, txType, description, now);
    if s.reply.Failed? && s.reply.reason == NegativeBalance {
      assert s.db.txs[..|db.txs|] == db.txs;
    }
  }

  lemma TestTransactionKeepsInv(db: Db, userId: nat, amount: int, txType: string, description: string, now: int)
    requires Inv(db)
    ensures Inv(TestTransactionStep(db, userId, amount, txType, description, now).db)
  {
    if userId < |db.users| && userId in db.wallets {
      var w := db.wallets[userId];
      if !(txType == C.TypeName(C.Withdrawal) && !W.HasSufficientFunds(w, amount)) {
        var d := TestDraft(userId, amount, txType, description, TestBalanceAfter(w.balance, amount, txType));
        var p := PostOf(db, d, w, TestDelta(amount, txType), now);
        assert TestTransactionStep(db, userId, amount, txType, description, now)
               == PostReply(p, 400, w.balance + TestDelta(amount, txType));
        PostKeepsInv(db, d, w, TestDelta(amount, txType), now);
      }
    }
  }

  // ---------------------------------------------------------------- transfers

  /** The descriptions of both transfer records fit the schema's limit. */
  predicate DescriptionsFit(description: string, recipientEmail: string, senderEmail: string) {
    && Text.Utf16Length(Text.Trim(Text.OrDefault(description, "Transfer to " + recipientEmail))) <= MaxDescription
    && Text.Utf16Length(Text.Trim(Text.OrDefault(description, "Transfer from " + senderEmail))) <= MaxDescription
  }

  /** A description of at most half the limit in characters fits, whatever its characters. */
  lemma ShortDescriptionFits(s: string)
    requires 2 * |s| <= MaxDescription
    ensures Text.Utf16Length(Text.Trim(s)) <= MaxDescription
  {
    Text.Utf16LengthBounds(Text.Trim(s));
  }

  /** The fields of the sender's transfer_out record; `balance` is the sender's balance. */
  function OutDraft(caller: UserId, rid: UserId, recipientEmail: string, a: int, description: string, balance: int): Draft {
    Draft(caller, caller, C.TypeName(C.TransferOut), a, Text.OrDefault(description, "Transfer to " + recipientEmail),
          Some(C.Transfer), None, Some(rid), balance - a, Some(C.Completed))
  }

  /** The fields of the recipient's transfer_in record, linked to record `out`; `balance` is the recipient's balance. */
  function InDraft(caller: UserId, senderEmail: string, rid: UserId, a: int, description: string, balance: int,
                   out: TxId): Draft
  {
    Draft(rid, rid, C.TypeName(C.TransferIn), a, Text.OrDefault(description, "Transfer from " + senderEmail),
          Some(C.Transfer), Some(out), Some(caller), balance + a, Some(C.Completed))
  }

  /** The sender's transfer_out record as stored, before its link is back-filled. */
  function OutRecord(caller: UserId, rid: UserId, recipientEmail: string, a: int, description: string,
                     balance: int, now: int): Tx
  {
    Tx(caller, caller, C.TransferOut, a, Text.Trim(Text.OrDefault(description, "Transfer to " + recipientEmail)),
       C.Transfer, None, Some(rid), balance - a, C.Completed, now)
  }

  /** The recipient's transfer_in record as stored. */
  function InRecord(caller: UserId, senderEmail: string, rid: UserId, a: int, description: string,
                    balance: int, out: TxId, now: int): Tx
  {
    Tx(rid, rid, C.TransferIn, a, Text.Trim(Text.OrDefault(description, "Transfer from " + senderEmail)),
       C.Transfer, Some(out), Some(caller), balance + a, C.Completed, now)
  }

  /** The record writes of a transfer: the first record's id (or the refusal) and the records afterwards. */
  datatype Recorded = Recorded(out: Result<TxId, set<Violation>>, txs: seq<Tx>)

  /**
   * The sender's record is created, then the recipient's record linked to
   * it, then the sender's record is given the link back and saved. Either
   * creation can be refused; when only the second is, the first stays.
   */
  function RecordsOf(txs: seq<Tx>, caller: UserId, senderEmail: string, rid: UserId, recipientEmail: string,
                     a: int, description: string, senderBalance: int, recipientBalance: int, now: int): Recorded
  {
    var n := |txs|;
    match Create(OutDraft(caller, rid, recipientEmail, a, description, senderBalance), now)
    case Err(v) => Recorded(Err(v), txs)
    case Ok(o) =>
      match Create(InDraft(caller, senderEmail, rid, a, description, recipientBalance, n), now)
      case Err(v) => Recorded(Err(v), txs + [o])
      case Ok(i) => Recorded(Ok(n), (txs + [o] + [i])[n := o.(relatedTransaction := Some(n + 1))])
  }

  /**
   * Both records are written exactly when both descriptions fit; they are
   * the transfer_out and transfer_in records, each linked to the other.
   * Otherwise at most the unlinked transfer_out record is left behind.
   */
  lemma RecordsWritten(txs: seq<Tx>, caller: UserId, senderEmail: string, rid: UserId, recipientEmail: string,
                       a: int, description: string, senderBalance: int, recipientBalance: int, now: int)
    requires a > 0
    ensures var rec := RecordsOf(txs, caller, senderEmail, rid, recipientEmail, a, description,
                                 senderBalance, recipientBalance, now);
      var n := |txs|;
      && (rec.out.Ok? <==> DescriptionsFit(description, recipientEmail, senderEmail))
      && (rec.out.Ok? ==>
            && rec.out.value == n
            && rec.txs == txs + [OutRecord(caller, rid, recipientEmail, a, description, senderBalance, now)
                                   .(relatedTransaction := Some(n + 1)),
                                 InRecord(caller, senderEmail, rid, a, description, recipientBalance, n, now)])
      && (rec.out.Err? ==>
            || rec.txs == txs
            || rec.txs == txs + [OutRecord(caller, rid, recipientEmail, a, description, senderBalance, now)])
  {
    var n := |txs|;
    C.TypeNameRoundTrip(C.TransferOut);
    C.TypeNameRoundTrip(C.TransferIn);
    var o := OutRecord(caller, rid, recipientEmail, a, description, senderBalance, now);
    var i := InRecord(caller, senderEmail, rid, a, description, recipientBalance, n, now);
    var co := Create(OutDraft(caller, rid, recipientEmail, a, description, senderBalance), now);
    var ci := Create(InDraft(caller, senderEmail, rid, a, description, recipientBalance, n), now);
    if co.Ok? {
      assert co.value == o;
      if ci.Ok? {
        assert ci.value == i;
        assert (txs + [o] + [i])[n := o.(relatedTransaction := Some(n + 1))]
               == txs + [o.(relatedTransaction := Some(n + 1)), i];
      }
    }
  }

  lemma RecordsKeepInv(txs: seq<Tx>, userCount: nat, caller: UserId, senderEmail: string, rid: UserId,
                       recipientEmail: string, a: int, description: string, senderBalance: int,
                       recipientBalance: int, now: int)
    requires RecordsOk(txs, userCount) && LinksOk(txs)
    requires caller < userCount && rid < userCount && a > 0
    ensures var rec := RecordsOf(txs, caller, senderEmail, rid, recipientEmail, a, description,
                                 senderBalance, recipientBalance, now);
      RecordsOk(rec.txs, userCount) && LinksOk(rec.txs)
  {
    RecordsWritten(txs, caller, senderEmail, rid, recipientEmail, a, description, senderBalance, recipientBalance, now);
    var n := |txs|;
    var o := OutRecord(caller, rid, recipientEmail, a, description, senderBalance, now);
    var i := InRecord(caller, senderEmail, rid, a, description, recipientBalance, n, now);
    var rec := RecordsOf(txs, caller, senderEmail, rid, recipientEmail, a, description,
                         senderBalance, recipientBalance, now);
    if rec.out.Ok? {
      AppendPair(txs, o.(relatedTransaction := Some(n + 1)), i, userCount);
    } else if rec.txs != txs {
      AppendUnlinked(txs, o, userCount);
    }
  }

  /** Everything a transfer from `caller` to `rid` needs once the recipient is known. */
  predicate TransferReady(db: Db, caller: UserId, rid: UserId, recipientEmail: string, a: int, description: string)
    requires caller < |db.users|
  {
    && caller in db.wallets
    && rid in db.wallets
    && W.HasSufficientFunds(db.wallets[caller], a)
    && DescriptionsFit(description, recipientEmail, db.users[caller].email)
  }

  /**
   * The part of POST /transactions/transfer after the recipient `rid` is
   * known: the sender's wallet, then the recipient's, must exist (404) and
   * the sender's must cover `a` (400), all before any write; then the
   * records, and the two wallet documents — each loaded BEFORE either was
   * saved — are moved and saved, the sender's first. A refused write answers
   * 500 and keeps what was already written.
   */
  function ExecuteStep(db: Db, caller: UserId, rid: UserId, recipientEmail: string, a: int, description: string,
                       now: int): Step<Sent>
    requires caller < |db.users| && rid < |db.users|
  {
    if caller !in db.wallets then Step(Failed(404, SenderWalletNotFound), db)
    else if rid !in db.wallets then Step(Failed(404, RecipientWalletNotFound), db)
    else
      var sw, rw := db.wallets[caller], db.wallets[rid];
      if !W.HasSufficientFunds(sw, a) then Step(Failed(400, InsufficientFunds), db)
      else
        var rec := RecordsOf(db.txs, caller, db.users[caller].email, rid, recipientEmail, a, description,
                             sw.balance, rw.balance, now);
        if rec.out.Err? then Step(Failed(500, Rejected(rec.out.error)), db.(txs := rec.txs))
        else
          var debited := db.wallets[caller := Moved(sw, -a, now)];
          if !W.BalanceAllowed(Moved(rw, a, now)) then
            Step(Failed(500, NegativeBalance), db.(txs := rec.txs, wallets := debited))
          else
            Step(Done(201, Sent(rec.out.value, db.users[rid], sw.balance - a)),
                 db.(txs := rec.txs, wallets := debited[rid := Moved(rw, a, now)]))
  }

  /**
   * What a completed transfer of `a` from `caller` to `rid` wrote, from `db`
   * to `db1`: a transfer_out record on the sender and a transfer_in record on
   * the recipient, linked to each other; the sender's wallet saved at its old
   * balance minus `a`, then the recipient's wallet saved at ITS old balance
   * plus `a`.
   */
  predicate TransferWritten(db: Db, db1: Db, caller: UserId, rid: UserId, recipientEmail: string, a: int,
                            description: string, now: int, sent: Sent)
    requires caller < |db.users| && rid < |db.users|
  {
    var n := |db.txs|;
    && caller in db.wallets && rid in db.wallets
    && var sw, rw := db.wallets[caller], db.wallets[rid];
    && db1.users == db.users
    && db1.txs == db.txs + [OutRecord(caller, rid, recipientEmail, a, description, sw.balance, now)
                              .(relatedTransaction := Some(n + 1)),
                            InRecord(caller, db.users[caller].email, rid, a, description, rw.balance, n, now)]
    && db1.wallets == db.wallets[caller := sw.(balance := sw.balance - a, lastTransaction := now)]
                                [rid := rw.(balance := rw.balance + a, lastTransaction := now)]
    && sent == Sent(n, db.users[rid], sw.balance - a)
  }

  /**
   * Once the recipient is known, a transfer completes exactly when both
   * wallets exist, the sender's covers the amount and both descriptions fit,
   * and then writes exactly TransferWritten. The 404 and 400 refusals write
   * nothing; a 500 changes no wallet and leaves at most the unlinked
   * transfer_out record.
   */
  lemma ExecuteReply(db: Db, caller: UserId, rid: UserId, recipientEmail: string, a: int, description: string, now: int)
    requires Inv(db) && caller < |db.users| && rid < |db.users| && a > 0
    ensures var s := ExecuteStep(db, caller, rid, recipientEmail, a, description, now);
      && (caller !in db.wallets ==> s.reply == Failed(404, SenderWalletNotFound))
      && (caller in db.wallets && rid !in db.wallets ==> s.reply == Failed(404, RecipientWalletNotFound))
      && (caller in db.wallets && rid in db.wallets && db.wallets[caller].balance < a
          ==> s.reply == Failed(400, InsufficientFunds))
      && (s.reply.Failed? && s.reply.status != 500 ==> s.db == db)
      && (s.reply.Failed? && s.reply.status == 500 ==>
            && s.db.users == db.users && s.db.wallets == db.wallets
            && (|| s.db.txs == db.txs
                || s.db.txs == db.txs + [OutRecord(caller, rid, recipientEmail, a, description,
                                                   db.wallets[caller].balance, now)]))
      && (s.reply.Done? <==> TransferReady(db, caller, rid, recipientEmail, a, description))
      && (s.reply.Done? ==>
            s.reply.status == 201 && TransferWritten(db, s.db, caller, rid, recipientEmail, a, description, now, s.reply.value))
  {
    if caller in db.wallets && rid in db.wallets && W.HasSufficientFunds(db.wallets[caller], a) {
      var sw, rw := db.wallets[caller], db.wallets[rid];
      RecordsWritten(db.txs, caller, db.users[caller].email, rid, recipientEmail, a, description,
                     sw.balance, rw.balance, now);
      assert W.BalanceAllowed(Moved(rw, a, now));
    }
  }

  lemma ExecuteKeepsInv(db: Db, caller: UserId, rid: UserId, recipientEmail: string, a: int, description: string,
                        now: int)
    requires Inv(db) && caller < |db.users| && rid < |db.users| && a > 0
    ensures Inv(ExecuteStep(db, caller, rid, recipientEmail, a, description, now).db)
  {
    if caller in db.wallets && rid in db.wallets && W.HasSufficientFunds(db.wallets[caller], a) {
      var sw, rw := db.wallets[caller], db.wallets[rid];
      RecordsKeepInv(db.txs, |db.users|, caller, db.users[caller].email, rid, recipientEmail, a, description,
                     sw.balance, rw.balance, now);
    }
  }

  /**
   * POST /transactions/transfer, as written: the self-transfer guard compares
   * the email exactly as given, but the recipient is looked up by the
   * lower-cased email, so a case variant of the caller's own email passes
   * the guard and resolves to the caller.
   */
  function TransferStep(db: Db, caller: UserId, recipientEmail: string, amount: Option<int>, description: string,
                        now: int): Step<Sent>
    requires caller < |db.users|
  {
    if recipientEmail == "" || amount.None? || amount.value <= 0 then Step(Failed(400, MissingRecipientOrAmount), db)
    else if recipientEmail == db.users[caller].email then Step(Failed(400, SelfTransfer), db)
    else
      match FindByEmail(db.users, Text.ToLower(recipientEmail))
      case None => Step(Failed(404, RecipientNotFound), db)
      case Some(rid) => ExecuteStep(db, caller, rid, recipientEmail, amount.value, description, now)
  }

  /**
   * The transfer's replies before the recipient is known, and when it
   * completes: the recipient is the user whose stored email is the
   * lower-cased `recipientEmail`, which need not differ from the caller.
   */
  lemma TransferReply(db: Db, caller: UserId, recipientEmail: string, amount: Option<int>, description: string, now: int)
    requires Inv(db) && caller < |db.users|
    ensures var s := TransferStep(db, caller, recipientEmail, amount, description, now);
      var found := FindByEmail(db.users, Text.ToLower(recipientEmail));
      && (recipientEmail == "" || amount.None? || amount.value <= 0 ==> s.reply == Failed(400, MissingRecipientOrAmount))
      && (recipientEmail != "" && amount.Some? && amount.value > 0 && recipientEmail == db.users[caller].email
          ==> s.reply == Failed(400, SelfTransfer))
      && (recipientEmail != "" && amount.Some? && amount.value > 0 && recipientEmail != db.users[caller].email && found.None?
          ==> s.reply == Failed(404, RecipientNotFound))
      && (s.reply.Failed? ==> s.db.wallets == db.wallets && s.db.users == db.users)
      && (s.reply.Failed? && s.reply.status != 500 ==> s.db == db)
      && (s.reply.Done? <==>
            && recipientEmail != "" && amount.Some? && amount.value > 0 && recipientEmail != db.users[caller].email
            && found.Some? && TransferReady(db, caller, found.value, recipientEmail, amount.value, description))
      && (s.reply.Done? ==>
            && found.Some?
            && TransferWritten(db, s.db, caller, found.value, recipientEmail, amount.value, description, now, s.reply.value))
  {
    if recipientEmail != "" && amount.Some? && amount.value > 0 && recipientEmail != db.users[caller].email {
      var found := FindByEmail(db.users, Text.ToLower(recipientEmail));
      if found.Some? {
        ExecuteReply(db, caller, found.value, recipientEmail, amount.value, description, now);
      }
    }
  }

  lemma TransferKeepsInv(db: Db, caller: UserId, recipientEmail: string, amount: Option<int>, description: string,
                         now: int)
    requires Inv(db) && caller < |db.users|
    ensures Inv(TransferStep(db, caller, recipientEmail, amount, description, now).db)
  {
    if recipientEmail != "" && amount.Some? && amount.value > 0 && recipientEmail != db.users[caller].email {
      var found := FindByEmail(db.users, Text.ToLower(recipientEmail));
      if found.Some? {
        ExecuteKeepsInv(db, caller, found.value, recipientEmail, amount.value, description, now);
      }
    }
  }

  /**
   * Between two different users a completed transfer conserves money: the
   * two balances move by `a` in opposite directions, no other wallet
   * changes, and the two new records are linked halves of one transfer.
   */
  lemma TransferConserves(db: Db, caller: UserId, rid: UserId, recipientEmail: string, a: int, description: string,
                          now: int)
    requires Inv(db) && caller < |db.users| && rid < |db.users| && caller != rid && a > 0
    requires ExecuteStep(db, caller, rid, recipientEmail, a, description, now).reply.Done?
    ensures var db1 := ExecuteStep(db, caller, rid, recipientEmail, a, description, now).db;
      && db1.wallets[caller].balance == db.wallets[caller].balance - a
      && db1.wallets[rid].balance == db.wallets[rid].balance + a
      && db1.wallets[caller].balance + db1.wallets[rid].balance == db.wallets[caller].balance + db.wallets[rid].balance
      && (forall u :: u in db.wallets && u != caller && u != rid ==> u in db1.wallets && db1.wallets[u] == db.wallets[u])
      && |db1.txs| == |db.txs| + 2
      && LinkedPair(db1.txs[|db.txs|], |db.txs|, db1.txs[|db.txs| + 1], |db.txs| + 1)
  {
    ExecuteReply(db, caller, rid, recipientEmail, a, description, now);
  }

  /**
   * When the recipient is the caller, the second save overwrites the first:
   * the wallet ends at its old balance PLUS the amount, though a
   * transfer_out of the amount is recorded against it.
   */
  lemma SelfTransferCredits(db: Db, caller: UserId, recipientEmail: string, amount: Option<int>, description: string,
                            now: int)
    requires Inv(db) && caller < |db.users|
    requires FindByEmail(db.users, Text.ToLower(recipientEmail)) == Some(caller)
    requires TransferStep(db, caller, recipientEmail, amount, description, now).reply.Done?
    ensures var db1 := TransferStep(db, caller, recipientEmail, amount, description, now).db;
      && amount.Some? && amount.value > 0
      && caller in db.wallets && caller in db1.wallets
      && db1.wallets[caller].balance == db.wallets[caller].balance + amount.value
      && |db1.txs| == |db.txs| + 2
      && db1.txs[|db.txs|].txType == C.TransferOut && db1.txs[|db.txs|].user == caller
      && db1.txs[|db.txs|].amount == amount.value
  {
    TransferReply(db, caller, recipientEmail, amount, description, now);
  }

  /**
   * Which requests reach that case: any case variant of the caller's own
   * stored email that is not the stored spelling itself, with an amount the
   * balance covers and descriptions that fit, completes as a transfer to the
   * caller and raises the caller's balance by the amount.
   */
  lemma CaseVariantSelfTransfer(db: Db, caller: UserId, recipientEmail: string, a: int, description: string, now: int)
    requires Inv(db) && caller < |db.users| && caller in db.wallets
    requires recipientEmail != db.users[caller].email && Text.ToLower(recipientEmail) == db.users[caller].email
    requires 0 < a <= db.wallets[caller].balance
    requires DescriptionsFit(description, recipientEmail, db.users[caller].email)
    ensures var s := TransferStep(db, caller, recipientEmail, Some(a), description, now);
      && s.reply.Done? && s.reply.value.recipient == db.users[caller]
      && caller in s.db.wallets && s.db.wallets[caller].balance == db.wallets[caller].balance + a
  {
    FindStoredEmail(db.users, caller);
    TransferReply(db, caller, recipientEmail, Some(a), description, now);
    SelfTransferCredits(db, caller, recipientEmail, Some(a), description, now);
  }

  /**
   * POST /transactions/transfer, corrected: after the lookup, a recipient who
   * is the caller is refused with 400 before any write.
   */
  function TransferCheckedStep(db: Db, caller: UserId, recipientEmail: string, amount: Option<int>,
                               description: string, now: int): Step<Sent>
    requires caller < |db.users|
  {
    if recipientEmail == "" || amount.None? || amount.value <= 0 then Step(Failed(400, MissingRecipientOrAmount), db)
    else if recipientEmail == db.users[caller].email then Step(Failed(400, SelfTransfer), db)
    else
      match FindByEmail(db.users, Text.ToLower(recipientEmail))
      case None => Step(Failed(404, RecipientNotFound), db)
      case Some(rid) =>
        if rid == caller then Step(Failed(400, SelfTransfer), db)
        else ExecuteStep(db, caller, rid, recipientEmail, amount.value, description, now)
  }

  /**
   * With the corrected guard a recipient resolving to the caller is refused,
   * and every completed transfer is between two different users and
   * conserves the sum of their balances, leaving every other wallet as it was.
   */
  lemma TransferCheckedConserves(db: Db, caller: UserId, recipientEmail: string, amount: Option<int>,
                                 description: string, now: int)
    requires Inv(db) && caller < |db.users|
    ensures var s := TransferCheckedStep(db, caller, recipientEmail, amount, description, now);
      var found := FindByEmail(db.users, Text.ToLower(recipientEmail));
      && (recipientEmail != "" && amount.Some? && amount.value > 0 && found == Some(caller)
          ==> s.reply == Failed(400, SelfTransfer) && s.db == db)
      && (s.reply.Done? ==>
            && amount.Some? && found.Some? && found.value != caller
            && var rid := found.value;
            && TransferWritten(db, s.db, caller, rid, recipientEmail, amount.value, description, now, s.reply.value)
            && s.db.wallets[caller].balance + s.db.wallets[rid].balance
               == db.wallets[caller].balance + db.wallets[rid].balance
            && (forall u :: u in db.wallets && u != caller && u != rid ==> u in s.db.wallets && s.db.wallets[u] == db.wallets[u]))
  {
    var s := TransferCheckedStep(db, caller, recipientEmail, amount, description, now);
    if s.reply.Done? {
      var rid := FindByEmail(db.users, Text.ToLower(recipientEmail)).value;
      ExecuteReply(db, caller, rid, recipientEmail, amount.value, description, now);
      TransferConserves(db, caller, rid, recipientEmail, amount.value, description, now);
    }
  }

  lemma TransferCheckedKeepsInv(db: Db, caller: UserId, recipientEmail: string, amount: Option<int>,
                                description: string, now: int)
    requires Inv(db) && caller < |db.users|
    ensures Inv(TransferCheckedStep(db, caller, recipientEmail, amount, description, now).db)
  {
    if recipientEmail != "" && amount.Some? && amount.value > 0 && recipientEmail != db.users[caller].email {
      var found := FindByEmail(db.users, Text.ToLower(recipientEmail));
      if found.Some? && found.value != caller {
        ExecuteKeepsInv(db, caller, found.value, recipientEmail, amount.value, description, now);
      }
    }
  }

  // ---------------------------------------------------------------- users and wallets

  /**
   * POST /test/create-user: an email already stored (compared exactly) is
   * refused with 400; otherwise the user is created with its wallet at every
   * default.
   */
  function CreateUserStep(db: Db, name: string, email: string, now: int): Step<UserId> {
    if FindByEmail(db.users, email).Some? then Step(Failed(400, UserExists), db)
    else
      var id := |db.users|;
      Step(Done(201, id), db.(users := db.users + [User(name, email)], wallets := db.wallets[id := W.NewWallet(id, now)]))
  }

  /**
   * A user is created exactly when no stored email equals `email`; the new
   * user gets the next id and exactly one wallet, holding the starting
   * balance, and no record is written either way.
   */
  lemma CreateUserReply(db: Db, name: string, email: string, now: int)
    requires Inv(db)
    ensures var s := CreateUserStep(db, name, email, now);
      && s.db.txs == db.txs
      && (s.reply.Done? <==> forall k :: 0 <= k < |db.users| ==> db.users[k].email != email)
      && (s.reply.Failed? ==> s.reply == Failed(400, UserExists) && s.db == db)
      && (s.reply.Done? ==>
            && s.reply == Done(201, |db.users|)
            && s.db.users == db.users + [User(name, email)]
            && |db.users| !in db.wallets
            && s.db.wallets == db.wallets[|db.users| := W.NewWallet(|db.users|, now)]
            && s.db.wallets[|db.users|].balance == Money.StartingBalance)
  {
    assert |db.users| !in db.wallets;
  }

  lemma CreateUserKeepsInv(db: Db, name: string, email: string, now: int)
    requires Inv(db)
    ensures Inv(CreateUserStep(db, name, email, now).db)
  {
    var s := CreateUserStep(db, name, email, now);
    if s.reply.Done? {
      RecordsOkWithMoreUsers(db.txs, |db.users|, |s.db.users|);
    }
  }

  /**
   * PUT /wallets/currency: a code whose length is not 3 (the empty string
   * included) is refused with 400 before any lookup, a missing wallet with
   * 404; otherwise the currency is upper-cased and the wallet saved.
   */
  function UpdateCurrencyStep(db: Db, caller: UserId, currency: string): Step<W.Wallet> {
    if currency == "" || Text.Utf16Length(currency) != 3 then Step(Failed(400, InvalidCurrency), db)
    else if caller !in db.wallets then Step(Failed(404, WalletNotFound), db)
    else
      var w := db.wallets[caller].(currency := Text.ToUpper(currency));
      // The save's balance validator: dead under Inv, which keeps every
      // stored balance allowed, and a change of currency leaves it as it is.
      if !W.BalanceAllowed(w) then Step(Failed(500, NegativeBalance), db)
      else Step(Done(200, w), db.(wallets := db.wallets[caller := w]))
  }

  /**
   * A currency update changes exactly the caller's currency, to the
   * upper-cased code, and nothing else; repeating it changes nothing more.
   */
  lemma UpdateCurrencyReply(db: Db, caller: UserId, currency: string)
    requires Inv(db)
    ensures var s := UpdateCurrencyStep(db, caller, currency);
      && s.db.users == db.users && s.db.txs == db.txs
      && (Text.Utf16Length(currency) != 3 ==> s.reply == Failed(400, InvalidCurrency) && s.db == db)
      && (Text.Utf16Length(currency) == 3 && caller !in db.wallets ==> s.reply == Failed(404, WalletNotFound) && s.db == db)
      && (Text.Utf16Length(currency) == 3 && caller in db.wallets ==>
            && s.reply == Done(200, db.wallets[caller].(currency := Text.ToUpper(currency)))
            && s.db.wallets == db.wallets[caller := s.reply.value]
            && UpdateCurrencyStep(s.db, caller, currency) == Step(Done(200, s.reply.value), s.db))
  {
    if Text.Utf16Length(currency) == 3 && caller in db.wallets {
      var w := db.wallets[caller].(currency := Text.ToUpper(currency));
      assert db.wallets[caller := w][caller := w] == db.wallets[caller := w];
    }
  }

  /** "𝔘SD" is three characters but four UTF-16 code units, so it is refused. */
  lemma AstralCurrencyRefused(db: Db, caller: UserId)
    ensures UpdateCurrencyStep(db, caller, "\U{1D518}SD") == Step(Failed(400, InvalidCurrency), db)
  {
    var code := "\U{1D518}SD";
    assert Text.AstralPositions(code) == {0} by {
      forall i: nat | i in Text.AstralPositions(code)
        ensures i == 0
      {
        assert code[1] == 'S' && code[2] == 'D';
      }
    }
  }

  lemma UpdateCurrencyKeepsInv(db: Db, caller: UserId, currency: string)
    requires Inv(db)
    ensures Inv(UpdateCurrencyStep(db, caller, currency).db)
  {
  }
}
