/** The transaction-history screen (History.jsx): the user's log, newest
    first, narrowed by the filter form. */
module History {
  import opened Wrappers
  import opened Model
  import opened Seqs
  import Text
  import Ledger

  /** The filter form, without its date range. `"all"` disables the type and
      category filters; an amount bound is `None` when its field is empty or
      does not parse as a number; the empty search term disables search. */
  datatype Filters = Filters(
    kind: string,
    category: string,
    amountMin: Option<Cents>,
    amountMax: Option<Cents>,
    searchTerm: string)

  /** The form's initial state and what `resetFilters` restores. */
  const DefaultFilters: Filters := Filters("all", "all", None, None, "")

  predicate TypeFilter(f: Filters, t: Transaction) {
    f.kind == "all" || t.kind == f.kind
  }

  /** A set category filter rejects purchases of any other (or no) category;
      other transactions pass it. */
  predicate CategoryFilter(f: Filters, t: Transaction) {
    !(f.category != "all" && t.kind == Purchase && t.categoryId != Some(f.category))
  }

  predicate AmountFilter(f: Filters, t: Transaction) {
    && !(f.amountMin.Some? && Abs(t.amount) < f.amountMin.value)
    && !(f.amountMax.Some? && Abs(t.amount) > f.amountMax.value)
  }

  /** `String(cents / 100)`: JavaScript's rendering of an amount held to the
      cent, with no trailing zeros in the fraction and no fraction at all for
      whole amounts. */
  function AmountText(cents: int): string {
    (if cents < 0 then "-" else "") + UnsignedText(Abs(cents))
  }

  function UnsignedText(m: nat): string {
    Text.NatToString(m / 100) + FractionText(m % 100)
  }

  function FractionText(f: nat): (s: string)
    requires f < 100
    ensures s == [] || s[0] == '.'
  {
    if f == 0 then ""
    else if f % 10 == 0 then "." + [Text.DigitChar(f / 10)]
    else "." + [Text.DigitChar(f / 10), Text.DigitChar(f % 10)]
  }

  /** A reader for the amount texts: an optional minus, whole units, and an
      optional fraction of one or two digits, in cents. */
  function ParseAmount(s: string): Option<int> {
    if |s| > 0 && s[0] == '-' then
      match ParseUnsigned(s[1..])
      case None => None
      case Some(v) => Some(0 - v as int)
    else
      match ParseUnsigned(s)
      case None => None
      case Some(v) => Some(v)
  }

  function ParseUnsigned(u: string): Option<nat> {
    var k := Text.LeadingDigits(u);
    if k == 0 then None
    else
      match ParseFraction(u[k..])
      case None => None
      case Some(f) => Some(Text.DigitsValue(u[..k]) * 100 + f)
  }

  function ParseFraction(s: string): Option<nat> {
    if s == [] then Some(0)
    else if |s| == 2 && s[0] == '.' && Text.IsDigit(s[1]) then Some(Text.DigitValue(s[1]) * 10)
    else if |s| == 3 && s[0] == '.' && Text.IsDigit(s[1]) && Text.IsDigit(s[2]) then
      Some(Text.DigitValue(s[1]) * 10 + Text.DigitValue(s[2]))
    else None
  }

  lemma FractionRoundTrip(f: nat)
    requires f < 100
    ensures ParseFraction(FractionText(f)) == Some(f)
  {
  }

  /** The amount text determines the amount: reading it back gives the cents. */
  lemma AmountTextRoundTrip(cents: int)
    ensures ParseAmount(AmountText(cents)) == Some(cents)
  {
    var u := UnsignedText(Abs(cents));
    var s := AmountText(cents);
    UnsignedTextRoundTrip(Abs(cents));
    if cents < 0 {
      assert s[0] == '-' && s[1..] == u;
    } else {
      assert s == u;
    }
  }

  lemma UnsignedTextRoundTrip(m: nat)
    ensures ParseUnsigned(UnsignedText(m)) == Some(m) && UnsignedText(m)[0] != '-'
  {
    UnsignedRoundTrip(m / 100, m % 100);
  }

  /** Reading back the text of a non-negative amount. */
  lemma UnsignedRoundTrip(q: nat, f: nat)
    requires f < 100
    ensures var u := Text.NatToString(q) + FractionText(f);
      ParseUnsigned(u) == Some(q * 100 + f) && u[0] != '-'
  {
    var digits := Text.NatToString(q);
    var frac := FractionText(f);
    var u := digits + frac;
    assert u[0] == digits[0];
    Text.LeadingDigitsThen(digits, frac);
    assert u[..|digits|] == digits && u[|digits|..] == frac;
    Text.NatToStringValue(q);
    FractionRoundTrip(f);
  }

  /** Different amounts render differently. */
  lemma AmountTextInjective(a: int, b: int)
    requires AmountText(a) == AmountText(b)
    ensures a == b
  {
    AmountTextRoundTrip(a);
    AmountTextRoundTrip(b);
  }

  /** The name the `productMap` lookup gives a transaction's product; only a
      truthy product id is looked up. */
  function ProductNameOf(s: Store, t: Transaction): Option<string> {
    if Truthy(t.productId) then
      match LookupProduct(s.products, t.productId.value)
      case Some(p) => Some(p.name)
      case None => None
    else None
  }

  /** The name the `categoryMap` lookup gives a transaction's category; an
      empty name counts as missing, as it is falsy. */
  function CategoryNameOf(s: Store, t: Transaction): Option<string> {
    if Truthy(t.categoryId) then
      match LookupCategoryName(s.categories, t.categoryId.value)
      case Some(n) => if n != "" then Some(n) else None
      case None => None
    else None
  }

  /** The search filter: the lower-cased term must occur in the lower-cased
      description or type, in the amount text as it is, or, for purchases
      only, in the lower-cased product or category name. */
  predicate SearchFilter(s: Store, f: Filters, t: Transaction) {
    var term := Text.ToLower(f.searchTerm);
    f.searchTerm == ""
    || Text.Includes(Text.ToLower(t.description), term)
    || Text.Includes(Text.ToLower(t.kind), term)
    || Text.Includes(AmountText(t.amount), term)
    || (t.kind == Purchase && ProductNameOf(s, t).Some?
        && Text.Includes(Text.ToLower(ProductNameOf(s, t).value), term))
    || (t.kind == Purchase && CategoryNameOf(s, t).Some?
        && Text.Includes(Text.ToLower(CategoryNameOf(s, t).value), term))
  }

  /** The body of the `transactions.filter` callback. */
  predicate Passes(s: Store, f: Filters, t: Transaction) {
    TypeFilter(f, t) && CategoryFilter(f, t) && AmountFilter(f, t) && SearchFilter(s, f, t)
  }

  /** `filteredTransactions`: the user's log, reversed, kept in that order
      and narrowed by every filter of the form. */
  function FilteredTransactions(s: Store, userId: Id, f: Filters): (r: seq<Transaction>)
    ensures IsSubsequence(r, Reverse(Ledger.UserTransactions(s, userId)))
    ensures forall t :: t in r <==> t in s.transactions && t.userId == userId && Passes(s, f, t)
    ensures forall i :: 0 <= i < |r| && f.kind != "all" ==> r[i].kind == f.kind
    ensures forall i :: 0 <= i < |r| && f.category != "all" && r[i].kind == Purchase ==>
      r[i].categoryId == Some(f.category)
    ensures forall i :: 0 <= i < |r| && f.amountMin.Some? ==> Abs(r[i].amount) >= f.amountMin.value
    ensures forall i :: 0 <= i < |r| && f.amountMax.Some? ==> Abs(r[i].amount) <= f.amountMax.value
  {
    var log := Reverse(Ledger.UserTransactions(s, userId));
    var r := Filter(log, (t: Transaction) => Passes(s, f, t));
    forall t ensures t in r <==> t in s.transactions && t.userId == userId && Passes(s, f, t) {
      FilterMembership(log, (t: Transaction) => Passes(s, f, t), t);
      ReverseMembership(Ledger.UserTransactions(s, userId), t);
      Ledger.UserTransactionsMembership(s, userId, t);
    }
    r
  }

  /** The category filter only ever looks at purchases: for any other
      transaction its value makes no difference. */
  lemma CategoryIgnoredUnlessPurchase(s: Store, f: Filters, t: Transaction, category: string)
    requires t.kind != Purchase
    ensures Passes(s, f.(category := category), t) == Passes(s, f, t)
  {
  }

  /** Empty amount bounds constrain nothing, and set bounds are inclusive. */
  lemma AmountBoundsInclusive(f: Filters, t: Transaction)
    ensures f.amountMin.None? && f.amountMax.None? ==> AmountFilter(f, t)
    ensures AmountFilter(f, t) <==>
      (f.amountMin.None? || f.amountMin.value <= Abs(t.amount))
      && (f.amountMax.None? || Abs(t.amount) <= f.amountMax.value)
  {
  }

  /** The search filter in terms of occurrences: with a non-empty term, a
      transaction passes exactly when the lower-cased term occurs at some
      offset of one of the searched texts. */
  lemma SearchMeansOccurrence(s: Store, f: Filters, t: Transaction)
    requires f.searchTerm != ""
    ensures var term := Text.ToLower(f.searchTerm);
      SearchFilter(s, f, t) <==>
        || Text.Occurs(Text.ToLower(t.description), term)
        || Text.Occurs(Text.ToLower(t.kind), term)
        || Text.Occurs(AmountText(t.amount), term)
        || (t.kind == Purchase && ProductNameOf(s, t).Some?
            && Text.Occurs(Text.ToLower(ProductNameOf(s, t).value), term))
        || (t.kind == Purchase && CategoryNameOf(s, t).Some?
            && Text.Occurs(Text.ToLower(CategoryNameOf(s, t).value), term))
  {
    var term := Text.ToLower(f.searchTerm);
    Text.IncludesOccurrence(Text.ToLower(t.description), term);
    Text.IncludesOccurrence(Text.ToLower(t.kind), term);
    Text.IncludesOccurrence(AmountText(t.amount), term);
    if ProductNameOf(s, t).Some? {
      Text.IncludesOccurrence(Text.ToLower(ProductNameOf(s, t).value), term);
    }
    if CategoryNameOf(s, t).Some? {
      Text.IncludesOccurrence(Text.ToLower(CategoryNameOf(s, t).value), term);
    }
  }

  /** The case of the typed term does not matter: searching for its
      lower-cased form keeps the same transactions. */
  lemma SearchIgnoresTermCase(s: Store, f: Filters, t: Transaction)
    ensures SearchFilter(s, f.(searchTerm := Text.ToLower(f.searchTerm)), t) == SearchFilter(s, f, t)
  {
    Text.ToLowerIdempotent(f.searchTerm);
  }

  /** Every transaction passes the default filters. */
  lemma DefaultsPassAll(s: Store, t: Transaction)
    ensures Passes(s, DefaultFilters, t)
  {
  }

  /** After `resetFilters` the screen lists the user's whole log, newest
      first. */
  lemma ResetShowsWholeLog(s: Store, userId: Id)
    ensures FilteredTransactions(s, userId, DefaultFilters) == Reverse(Ledger.UserTransactions(s, userId))
  {
    var log := Reverse(Ledger.UserTransactions(s, userId));
    FilterAll(log, (t: Transaction) => Passes(s, DefaultFilters, t));
  }
}
