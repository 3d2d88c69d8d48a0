/**
 * The request handlers of the transaction, wallet and test controllers as
 * they run: each loads wallet documents, checks, and writes in the source's
 * order (create the record(s), back-fill the link, update and save the
 * balance(s)). Each handler is proved to reply and write exactly what its
 * specification in module Ledger says, and to keep the ledger's invariant.
 */
module Handlers {
  import opened Outcomes
  import C = Constants
  import opened TransactionModel
  import W = Wallets
  import Text
  import Money
  import Q = Queries
  import opened Ledger

  /** The data of a history reply. */
  datatype Listing = Listing(
    transactions: seq<Tx>,
    page: int,
    limit: int,
    total: nat,
    pages: Option<int>,
    currentBalance: int)

  /** The data of a summary reply. */
  datatype Report = Report(summary: Q.Summary, currentBalance: int)

  /**
   * A wallet document as `Wallet.findOne` returns it: a copy of the stored
   * wallet, changed in memory and written back by `save`.
   */
  class WalletDoc {
    const user: UserId
    var balance: int
    var currency: string
    var isActive: bool
    var lastTransaction: int

    function Value(): W.Wallet
      reads this
    {
      W.Wallet(user, balance, currency, isActive, lastTransaction)
    }

    constructor Load(w: W.Wallet)
      ensures Value() == w
    {
      user := w.user;
      balance := w.balance;
      currency := w.currency;
      isActive := w.isActive;
      lastTransaction := w.lastTransaction;
    }

    /**
     * `updateBalance(amount)`: the document's balance becomes the rounded sum,
     * `lastTransaction` is stamped, and the document is saved. There is no
     * sufficiency check here; only the schema minimum can refuse the save,
     * leaving the store as it was while the document keeps its new balance.
     */
    method UpdateBalance(amount: int, now: int, store: Store) returns (saved: bool)
      modifies this, store
      ensures Value() == Moved(old(Value()), amount, now)
      ensures saved <==> W.BalanceAllowed(Value())
      ensures store.State() == old(store.State()).(wallets := if saved then old(store.wallets)[user := Value()]
                                                              else old(store.wallets))
    {
      Money.ExactCentsUnchanged(balance + amount);
      balance := Money.RoundToCents(balance + amount, 100);
      lastTransaction := now;
      saved := store.SaveWallet(this);
    }
  }

  /** The database behind the handlers. */
  class Store {
    var users: seq<User>
    var wallets: map<UserId, W.Wallet>
    var txs: seq<Tx>

    function State(): Db
      reads this
    {
      Db(users, wallets, txs)
    }

    ghost predicate Valid()
      reads this
    {
      Inv(State())
    }

    constructor ()
      ensures Valid() && State() == Db([], map[], [])
    {
      users := [];
      wallets := map[];
      txs := [];
    }

    /** `save()` on a wallet document: the schema refuses a negative balance; otherwise the document is stored. */
    method SaveWallet(doc: WalletDoc) returns (saved: bool)
      modifies this
      ensures saved <==> W.BalanceAllowed(doc.Value())
      ensures State() == old(State()).(wallets := if saved then old(wallets)[doc.user := doc.Value()] else old(wallets))
    {
      saved := doc.balance >= 0;
      if saved {
        wallets := wallets[doc.user := doc.Value()];
      }
    }

    /** `Transaction.create(d)`: appends the validated record, or fails with every violation and writes nothing. */
    method CreateRecord(d: Draft, now: int) returns (r: Result<TxId, set<Violation>>)
      modifies this
      ensures r == if Create(d, now).Ok? then Ok(|old(txs)|) else Err(Create(d, now).error)
      ensures State() == old(State()).(txs := if Create(d, now).Ok? then old(txs) + [Create(d, now).value] else old(txs))
    {
      var c := Create(d, now);
      if c.Err? {
        return Err(c.error);
      }
      r := Ok(|txs|);
      txs := txs + [c.value];
    }

    /**
     * The writes shared by a deposit, a withdrawal and the test route: the
     * record is created from `d`, then the wallet document is moved by
     * `delta` and saved.
     */
    method PostRecord(wallet: WalletDoc, d: Draft, delta: int, now: int)
      returns (created: Result<TxId, set<Violation>>, saved: bool)
      modifies this, wallet
      ensures Posting(created, saved, State()) == PostOf(old(State()), d, old(wallet.Value()), delta, now)
      ensures created.Ok? ==> wallet.Value() == Moved(old(wallet.Value()), delta, now)
    {
      saved := false;
      created := CreateRecord(d, now);
      if created.Err? {
        return;
      }
      saved := wallet.UpdateBalance(delta, now, this);
    }

    /** Setting `relatedTransaction` on a stored record and saving it. */
    method LinkRecord(i: TxId, j: TxId)
      requires i < |txs|
      modifies this
      ensures State() == old(State()).(txs := old(txs)[i := old(txs)[i].(relatedTransaction := Some(j))])
    {
      txs := txs[i := txs[i].(relatedTransaction := Some(j))];
    }

    /** POST /test/create-user. */
    method CreateUser(name: string, email: string, now: int) returns (r: Outcome<UserId>)
      requires Valid()
      modifies this
      ensures Valid()
      ensures Step(r, State()) == CreateUserStep(old(State()), name, email, now)
    {
      if FindByEmail(users, email).Some? {
        return Failed(400, UserExists);
      }
      var id := |users|;
      users := users + [User(name, email)];
      wallets := wallets[id := W.NewWallet(id, now)];
      r := Done(201, id);
      CreateUserKeepsInv(old(State()), name, email, now);
    }

    /** GET /wallets/my-wallet: the caller's wallet, or 404 when there is none. */
    function MyWallet(caller: UserId): (r: Outcome<W.Wallet>)
      reads this
      ensures r.Done? <==> caller in wallets
      ensures r.Done? ==> r == Done(200, wallets[caller])
      ensures r.Failed? ==> r == Failed(404, WalletNotFound)
    {
      if caller in wallets then Done(200, wallets[caller]) else Failed(404, WalletNotFound)
    }

    /** POST /transactions/deposit. */
    method Deposit(caller: UserId, amount: Option<int>, description: string, now: int) returns (r: Outcome<Posted>)
      requires Valid() && caller < |users|
      modifies this
      ensures Valid()
      ensures Step(r, State()) == DepositStep(old(State()), caller, amount, description, now)
    {
      if amount.None? || amount.value <= 0 {
        return Failed(400, InvalidAmount);
      }
      var a := amount.value;
      if caller !in wallets {
        return Failed(404, WalletNotFound);
      }
      var wallet := new WalletDoc.Load(wallets[caller]);
      var newBalance := wallet.balance + a;
      var created, saved := PostRecord(wallet, DepositDraft(caller, a, description, newBalance), a, now);
      if created.Err? {
        r := Failed(500, Rejected(created.error));
      } else if !saved {
        // a valid balance plus a positive amount is never refused
        assert false;
      } else {
        r := Done(201, Posted(created.value, wallet.balance));
      }
      assert Step(r, State()) == DepositStep(old(State()), caller, amount, description, now);
      DepositKeepsInv(old(State()), caller, amount, description, now);
    }

    /** POST /transactions/withdraw. */
    method Withdraw(caller: UserId, amount: Option<int>, description: string, now: int) returns (r: Outcome<Posted>)
      requires Valid() && caller < |users|
      modifies this
      ensures Valid()
      ensures Step(r, State()) == WithdrawStep(old(State()), caller, amount, description, now)
    {
      if amount.None? || amount.value <= 0 {
        return Failed(400, InvalidAmount);
      }
      var a := amount.value;
      if caller !in wallets {
        return Failed(404, WalletNotFound);
      }
      var wallet := new WalletDoc.Load(wallets[caller]);
      if !W.HasSufficientFunds(wallet.Value(), a) {
        return Failed(400, InsufficientFunds);
      }
      var newBalance := wallet.balance - a;
      var created, saved := PostRecord(wallet, WithdrawalDraft(caller, a, description, newBalance), -a, now);
      if created.Err? {
        r := Failed(500, Rejected(created.error));
      } else if !saved {
        // a sufficient balance minus the amount is never refused
        assert false;
      } else {
        r := Done(201, Posted(created.value, wallet.balance));
      }
      assert Step(r, State()) == WithdrawStep(old(State()), caller, amount, description, now);
      WithdrawKeepsInv(old(State()), caller, amount, description, now);
    }

    /** The record writes of a transfer: sender's record, recipient's record, back-filled link. */
    method RecordTransfer(caller: UserId, senderEmail: string, rid: UserId, recipientEmail: string, a: int,
                          description: string, senderBalance: int, recipientBalance: int, now: int)
      returns (r: Result<TxId, set<Violation>>)
      modifies this
      ensures Recorded(r, txs) == RecordsOf(old(txs), caller, senderEmail, rid, recipientEmail, a, description,
                                            senderBalance, recipientBalance, now)
      ensures users == old(users) && wallets == old(wallets)
    {
      var n := |txs|;
      var sent := CreateRecord(OutDraft(caller, rid, recipientEmail, a, description, senderBalance), now);
      if sent.Err? {
        return Err(sent.error);
      }
      var received := CreateRecord(InDraft(caller, senderEmail, rid, a, description, recipientBalance, sent.value), now);
      if received.Err? {
        return Err(received.error);
      }
      // back-fill the link on the sender's record and save it
      LinkRecord(sent.value, received.value);
      r := Ok(n);
    }

    /**
     * The balance updates of a transfer: the sender's document is debited and
     * saved, then the recipient's document is credited and saved. Each
     * document carries the balance it was loaded with, so when both are
     * copies of the same wallet the second save overwrites the first.
     */
    method SettleTransfer(sender: WalletDoc, recipient: WalletDoc, a: int, now: int) returns (saved: bool)
      requires sender != recipient
      requires W.BalanceAllowed(Moved(sender.Value(), -a, now))
      modifies this, sender, recipient
      ensures sender.Value() == Moved(old(sender.Value()), -a, now)
      ensures saved <==> W.BalanceAllowed(Moved(old(recipient.Value()), a, now))
      ensures State() == old(State()).(wallets :=
        var debited := old(wallets)[sender.user := Moved(old(sender.Value()), -a, now)];
        if saved then debited[recipient.user := Moved(old(recipient.Value()), a, now)] else debited)
    {
      var senderSaved := sender.UpdateBalance(-a, now, this);
      assert senderSaved;
      saved := recipient.UpdateBalance(a, now, this);
    }

    /** The part of POST /transactions/transfer after the recipient `rid` is known. */
    method ExecuteTransfer(caller: UserId, rid: UserId, recipientEmail: string, a: int, description: string, now: int)
      returns (r: Outcome<Sent>)
      requires Valid() && caller < |users| && rid < |users|
      modifies this
      ensures Step(r, State()) == ExecuteStep(old(State()), caller, rid, recipientEmail, a, description, now)
    {
      if caller !in wallets {
        return Failed(404, SenderWalletNotFound);
      }
      var senderWallet := new WalletDoc.Load(wallets[caller]);
      if rid !in wallets {
        return Failed(404, RecipientWalletNotFound);
      }
      var recipientWallet := new WalletDoc.Load(wallets[rid]);
      if !W.HasSufficientFunds(senderWallet.Value(), a) {
        return Failed(400, InsufficientFunds);
      }
      var out := RecordTransfer(caller, users[caller].email, rid, recipientEmail, a, description,
                                senderWallet.balance, recipientWallet.balance, now);
      if out.Err? {
        return Failed(500, Rejected(out.error));
      }
      var saved := SettleTransfer(senderWallet, recipientWallet, a, now);
      if !saved {
        // the records were accepted, so the amount is positive and the credit keeps a valid balance
        assert false;
      }
      r := Done(201, Sent(out.value, users[rid], senderWallet.balance));
    }

    /** POST /transactions/transfer, as written. */
    method Transfer(caller: UserId, recipientEmail: string, amount: Option<int>, description: string, now: int)
      returns (r: Outcome<Sent>)
      requires Valid() && caller < |users|
      modifies this
      ensures Valid()
      ensures Step(r, State()) == TransferStep(old(State()), caller, recipientEmail, amount, description, now)
    {
      if recipientEmail == "" || amount.None? || amount.value <= 0 {
        return Failed(400, MissingRecipientOrAmount);
      }
      if recipientEmail == users[caller].email {
        return Failed(400, SelfTransfer);
      }
      var recipient := FindByEmail(users, Text.ToLower(recipientEmail));
      if recipient.None? {
        return Failed(404, RecipientNotFound);
      }
      r := ExecuteTransfer(caller, recipient.value, recipientEmail, amount.value, description, now);
      TransferKeepsInv(old(State()), caller, recipientEmail, amount, description, now);
    }

    /** POST /transactions/transfer, corrected: a recipient who is the caller is refused after the lookup. */
    method TransferChecked(caller: UserId, recipientEmail: string, amount: Option<int>, description: string, now: int)
      returns (r: Outcome<Sent>)
      requires Valid() && caller < |users|
      modifies this
      ensures Valid()
      ensures Step(r, State()) == TransferCheckedStep(old(State()), caller, recipientEmail, amount, description, now)
    {
      if recipientEmail == "" || amount.None? || amount.value <= 0 {
        return Failed(400, MissingRecipientOrAmount);
      }
      if recipientEmail == users[caller].email {
        return Failed(400, SelfTransfer);
      }
      var recipient := FindByEmail(users, Text.ToLower(recipientEmail));
      if recipient.None? {
        return Failed(404, RecipientNotFound);
      }
      if recipient.value == caller {
        return Failed(400, SelfTransfer);
      }
      r := ExecuteTransfer(caller, recipient.value, recipientEmail, amount.value, description, now);
      TransferCheckedKeepsInv(old(State()), caller, recipientEmail, amount, description, now);
    }

    /** POST /test/transaction. */
    method CreateTestTransaction(userId: nat, amount: int, txType: string, description: string, now: int)
      returns (r: Outcome<Posted>)
      requires Valid()
      modifies this
      ensures Valid()
      ensures Step(r, State()) == TestTransactionStep(old(State()), userId, amount, txType, description, now)
    {
      if userId >= |users| {
        return Failed(404, UserNotFound);
      }
      if userId !in wallets {
        return Failed(404, WalletNotFound);
      }
      var wallet := new WalletDoc.Load(wallets[userId]);
      var newBalance := TestBalanceAfter(wallet.balance, amount, txType);
      if txType == C.TypeName(C.Withdrawal) && !W.HasSufficientFunds(wallet.Value(), amount) {
        return Failed(400, InsufficientFunds);
      }
      var created, saved := PostRecord(wallet, TestDraft(userId, amount, txType, description, newBalance),
                                       TestDelta(amount, txType), now);
      if created.Err? {
        r := Failed(400, Rejected(created.error));
      } else if !saved {
        r := Failed(400, NegativeBalance);
      } else {
        r := Done(201, Posted(created.value, wallet.balance));
      }
      assert Step(r, State()) == TestTransactionStep(old(State()), userId, amount, txType, description, now);
      TestTransactionKeepsInv(old(State()), userId, amount, txType, description, now);
    }

    /**
     * PUT /wallets/currency. The schema's `uppercase` setter upper-cases the
     * code once more on assignment, which changes nothing
     * (Text.ToUpperIdempotent).
     */
    method UpdateCurrency(caller: UserId, currency: string) returns (r: Outcome<W.Wallet>)
      requires Valid()
      modifies this
      ensures Valid()
      ensures Step(r, State()) == UpdateCurrencyStep(old(State()), caller, currency)
    {
      if currency == "" || Text.Utf16Length(currency) != 3 {
        return Failed(400, InvalidCurrency);
      }
      if caller !in wallets {
        return Failed(404, WalletNotFound);
      }
      var wallet := new WalletDoc.Load(wallets[caller]);
      wallet.currency := Text.ToUpper(currency);
      var saved := SaveWallet(wallet);
      if !saved {
        // the balance of a valid wallet is not changed here
        assert false;
      }
      r := Done(200, wallet.Value());
      UpdateCurrencyKeepsInv(old(State()), caller, currency);
    }

    /**
     * GET /transactions: the caller's records matching the type and date
     * filters, newest first, from offset (page - 1) * limit and at most
     * |limit| of them (page 1 and limit 10 by default); a negative offset is
     * refused by the database and answers 500.
     */
    function History(caller: UserId, typeParam: string, startDate: Option<int>, endDate: Option<int>,
                     page: Option<int>, limit: Option<int>): (r: Outcome<Listing>)
      reads this
      ensures var p, l := GetOr(page, 1), GetOr(limit, 10);
        && (r.Failed? <==> (p - 1) * l < 0)
        && (r.Failed? ==> r == Failed(500, NegativeSkip))
        && (r.Done? ==>
              var q := Q.BuildQuery(caller, typeParam, startDate, endDate);
              var all := Q.NewestFirst(txs, q);
              && r.status == 200
              && r.value.page == p && r.value.limit == l
              && (forall t :: t in r.value.transactions ==> t in txs && t.user == caller && Q.Matches(t, q))
              && Q.SortedNewestFirst(r.value.transactions)
              && var skip := (p - 1) * l;
              && |r.value.transactions|
                 == (if skip >= |all| then 0 else if l == 0 then |all| - skip else Q.Min(Q.Abs(l), |all| - skip))
              && (forall k :: 0 <= k < |r.value.transactions| ==> r.value.transactions[k] == all[skip + k])
              && r.value.total == |all|
              && r.value.pages == Q.PageCount(|all|, l)
              && r.value.currentBalance == (if caller in wallets then wallets[caller].balance else 0))
    {
      var p, l := GetOr(page, 1), GetOr(limit, 10);
      var skip := (p - 1) * l;
      if skip < 0 then Failed(500, NegativeSkip)
      else
        var q := Q.BuildQuery(caller, typeParam, startDate, endDate);
        var all := Q.NewestFirst(txs, q);
        var shown := Q.Window(all, skip, l);
        Q.ListingPage(txs, q, skip, l);
        Done(200, Listing(shown, p, l, |all|, Q.PageCount(|all|, l),
                          if caller in wallets then wallets[caller].balance else 0))
    }

    /**
     * GET /transactions/summary: the caller's records within the date range,
     * grouped by type; deposits and withdrawals report their own count and
     * sum, and transfers the counts and sums of both directions added.
     */
    method Summary(caller: UserId, startDate: Option<int>, endDate: Option<int>) returns (r: Outcome<Report>)
      ensures r.Done? && r.status == 200
      ensures var recs := Q.Selected(txs, caller, startDate, endDate);
        && r.value.summary.deposits == Q.BucketOf(recs, C.Deposit)
        && r.value.summary.withdrawals == Q.BucketOf(recs, C.Withdrawal)
        && r.value.summary.transfers == Q.Plus(Q.BucketOf(recs, C.TransferIn), Q.BucketOf(recs, C.TransferOut))
      ensures r.value.currentBalance == if caller in wallets then wallets[caller].balance else 0
    {
      var recs := Q.Selected(txs, caller, startDate, endDate);
      var groups := Q.Aggregate(recs);
      Q.AggregateIsGrouping(recs);
      var s := Q.FormatSummary(groups);
      Q.SummaryOfGrouping(groups, recs);
      r := Done(200, Report(s, if caller in wallets then wallets[caller].balance else 0));
    }
  }
}
