/**
 * One row of the transaction list: its icon, colour, type label, signed
 * amount and relative date.
 */
module TransactionItem {
  import opened Outcomes
  import Text
  import C = Constants

  datatype Icon = ShoppingBag | Coffee | Home | Car | Heart | Gift | TrendingUp

  datatype Color = Emerald | Red | Gold | Gray

  /** `getIcon`: switched on the lower-cased category; no category, or an unknown one, gives TrendingUp. */
  function GetIcon(category: Option<string>): Icon {
    if category.None? then TrendingUp
    else
      var c := Text.ToLower(category.value);
      if c == "shopping" then ShoppingBag
      else if c == "food" || c == "dining" then Coffee
      else if c == "housing" || c == "rent" then Home
      else if c == "transportation" || c == "travel" then Car
      else if c == "health" || c == "medical" then Heart
      else if c == "entertainment" || c == "gift" then Gift
      else TrendingUp
  }

  /** The icon ignores letter case. */
  lemma IconIgnoresCase(category: string)
    ensures GetIcon(Some(Text.ToLower(category))) == GetIcon(Some(category))
  {
    Text.ToLowerIdempotent(category);
  }

  /** Every category the ledger stores (income, expense, transfer, other) is drawn with TrendingUp. */
  lemma LedgerCategoriesIcon(k: C.Category)
    ensures GetIcon(Some(C.CategoryName(k))) == TrendingUp
  {
  }

  /** `getColor`. */
  function GetColor(kind: string): Color {
    if kind == "deposit" || kind == "transfer_in" then Emerald
    else if kind == "withdrawal" || kind == "transfer_out" then Red
    else if kind == "payment" then Gold
    else Gray
  }

  /** `getTypeLabel`: the four ledger types get a label; any other type is shown as it is. */
  function GetTypeLabel(kind: string): string {
    if kind == "deposit" then "Deposit"
    else if kind == "withdrawal" then "Withdrawal"
    else if kind == "transfer_in" then "Received"
    else if kind == "transfer_out" then "Sent"
    else kind
  }

  /** `isPositive`: the type is deposit or transfer_in. */
  predicate IsPositive(kind: string) {
    kind == "deposit" || kind == "transfer_in"
  }

  /**
   * For the ledger's types the row is green and signed '+' exactly for the
   * types that credit the wallet, red and signed '-' otherwise, and distinct
   * types get distinct labels; a type outside the ledger's is labelled with
   * itself and drawn gold ('payment') or gray.
   */
  lemma LedgerTypesDisplay(t: C.TxType, u: C.TxType, other: string)
    ensures IsPositive(C.TypeName(t)) <==> t == C.Deposit || t == C.TransferIn
    ensures GetColor(C.TypeName(t)) == (if IsPositive(C.TypeName(t)) then Emerald else Red)
    ensures t != u ==> GetTypeLabel(C.TypeName(t)) != GetTypeLabel(C.TypeName(u))
    ensures C.ParseType(other).None? ==> GetTypeLabel(other) == other && GetColor(other) in {Gold, Gray}
  {
    if C.ParseType(other).None? {
      C.ParseTypeRejects(other);
      assert other != C.TypeName(C.Deposit) && other != C.TypeName(C.Withdrawal);
      assert other != C.TypeName(C.TransferIn) && other != C.TypeName(C.TransferOut);
    }
  }

  /** The amount as shown: '+' or '-', then '$', then the magnitude. */
  function AmountText(kind: string, amount: int): (r: string) {
    (if IsPositive(kind) then "+" else "-") + "$" + Text.CentsToString(if amount < 0 then -amount else amount)
  }

  /** The sign follows the type alone: a negative amount on a credit type still shows '+'. */
  lemma AmountSignFollowsType(kind: string, amount: int)
    ensures AmountText(kind, amount)[0] == (if IsPositive(kind) then '+' else '-')
    ensures AmountText(kind, amount) == AmountText(kind, -amount)
  {
  }

  /** The relative date a row shows. */
  datatype Ago = MinutesAgo(n: int) | HoursAgo(n: int) | DaysAgo(n: int) | CalendarDate

  const MinuteMs := 60000
  const HourMs := 3600000
  const DayMs := 86400000

  /**
   * `formatDate` on the gap `now - createdAt` in milliseconds: whole minutes,
   * hours and days by floor division, then the first bucket that applies.
   * A date in the future gives a negative gap and a negative minute count.
   */
  function FormatDate(diffMs: int): Ago {
    var mins, hours, days := diffMs / MinuteMs, diffMs / HourMs, diffMs / DayMs;
    if mins < 60 then MinutesAgo(mins)
    else if hours < 24 then HoursAgo(hours)
    else if days < 7 then DaysAgo(days)
    else CalendarDate
  }

  /**
   * The buckets are the gap ranges [.., 1 h), [1 h, 1 d), [1 d, 7 d) and
   * [7 d, ..), and each count is the whole number of its unit in the gap:
   * minutes below 60, hours 1 to 23, days 1 to 6.
   */
  lemma FormatDateBuckets(diffMs: int)
    ensures var r := FormatDate(diffMs);
      && (r.MinutesAgo? <==> diffMs < HourMs)
      && (r.HoursAgo? <==> HourMs <= diffMs < DayMs)
      && (r.DaysAgo? <==> DayMs <= diffMs < 7 * DayMs)
      && (r.CalendarDate? <==> 7 * DayMs <= diffMs)
      && (r.MinutesAgo? ==> r.n * MinuteMs <= diffMs < (r.n + 1) * MinuteMs && r.n < 60)
      && (r.HoursAgo? ==> r.n * HourMs <= diffMs < (r.n + 1) * HourMs && 1 <= r.n <= 23)
      && (r.DaysAgo? ==> r.n * DayMs <= diffMs < (r.n + 1) * DayMs && 1 <= r.n <= 6)
  {
    var mins, hours, days := diffMs / MinuteMs, diffMs / HourMs, diffMs / DayMs;
    assert mins < 60 <==> diffMs < HourMs;
    assert hours < 24 <==> diffMs < DayMs;
    assert days < 7 <==> diffMs < 7 * DayMs;
  }

  /** The text of a relative date: "N min ago", "N hour ago" / "N hours ago", "N day ago" / "N days ago". */
  function AgoText(a: Ago): Option<string> {
    match a
    case MinutesAgo(n) => Some(Text.IntToString(n) + " min ago")
    case HoursAgo(n) => Some(Text.IntToString(n) + " hour" + (if n > 1 then "s" else "") + " ago")
    case DaysAgo(n) => Some(Text.IntToString(n) + " day" + (if n > 1 then "s" else "") + " ago")
    case CalendarDate => None
  }

  /** An hour or day count is pluralised exactly when it exceeds 1; minutes never are. */
  lemma PluralOnlyAboveOne(diffMs: int)
    ensures var a := FormatDate(diffMs);
      && (a.HoursAgo? ==> AgoText(a) == Some(Text.IntToString(a.n) + (if a.n == 1 then " hour ago" else " hours ago")))
      && (a.DaysAgo? ==> AgoText(a) == Some(Text.IntToString(a.n) + (if a.n == 1 then " day ago" else " days ago")))
      && (a.MinutesAgo? ==> AgoText(a) == Some(Text.IntToString(a.n) + " min ago"))
      && (a.CalendarDate? <==> AgoText(a).None?)
  {
    var a := FormatDate(diffMs);
    if !a.CalendarDate? {
      var digits := Text.IntToString(a.n);
      assert digits + " hour" + "" + " ago" == digits + " hour ago";
      assert digits + " hour" + "s" + " ago" == digits + " hours ago";
      assert digits + " day" + "" + " ago" == digits + " day ago";
      assert digits + " day" + "s" + " ago" == digits + " days ago";
    }
  }
}
