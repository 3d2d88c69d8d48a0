/**
 * The self-transfer scenario of POST /transactions/transfer: a user whose
 * stored email is `ann@x.io` sends 50.00 to `Ann@x.io`. The guard compares
 * the email as typed and lets it through; the lookup lower-cases it and finds
 * the sender; the two wallet documents are both copies of the sender's
 * wallet, and the second save (the credit) overwrites the first (the debit).
 */
module SelfTransfer {
  import opened Outcomes
  import W = Wallets
  import Text
  import opened Ledger

  /** One user, Ann, with 1000.00 in the wallet, and no records yet. */
  function AnnOnly(): (db: Db)
    ensures Inv(db) && |db.users| == 1 && db.users[0].email == "ann@x.io"
    ensures 0 in db.wallets && db.wallets[0].balance == 100000
  {
    Db([User("Ann", "ann@x.io")], map[0 := W.Wallet(0, 100000, "USD", true, 0)], [])
  }

  /** `Ann@x.io` is a case variant of Ann's stored email, not the stored spelling. */
  lemma CaseVariant()
    ensures Text.ToLower("Ann@x.io") == "ann@x.io" != "Ann@x.io"
  {
  }

  /**
   * As written: the transfer to `Ann@x.io` completes and Ann's balance rises
   * from 1000.00 to 1050.00 although no money came in.
   */
  lemma SelfTransferInflates()
    ensures var s := TransferStep(AnnOnly(), 0, "Ann@x.io", Some(5000), "gift", 1);
      && s.reply.Done?
      && 0 in s.db.wallets && s.db.wallets[0].balance == 105000
  {
    CaseVariant();
    ShortDescriptionFits(Text.OrDefault("gift", "Transfer to Ann@x.io"));
    ShortDescriptionFits(Text.OrDefault("gift", "Transfer from ann@x.io"));
    CaseVariantSelfTransfer(AnnOnly(), 0, "Ann@x.io", 5000, "gift", 1);
  }

  /** Corrected: the same request is refused with 400 and writes nothing. */
  lemma SelfTransferRefused()
    ensures var db := AnnOnly();
      TransferCheckedStep(db, 0, "Ann@x.io", Some(5000), "gift", 1) == Step(Failed(400, SelfTransfer), db)
  {
    CaseVariant();
  }
}
