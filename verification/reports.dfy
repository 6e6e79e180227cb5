/** `getCategorySpendingReport` (DataService.js): per-category spend derived
    from a user's transaction log and the catalogue. Totals are exact reals,
    so the even split of a multi-product purchase needs no rounding. */
module Reports {
  import opened Wrappers
  import opened Model
  import opened Seqs
  import Ledger

  datatype ReportEntry = ReportEntry(categoryId: Id, categoryName: string, totalSpent: real)

  /** The category an entry reports on. */
  function Label(e: ReportEntry): Category {
    Category(e.categoryId, e.categoryName)
  }

  /** The categories a report covers, entry by entry. */
  function Labels(r: seq<ReportEntry>): seq<Category> {
    seq(|r|, i requires 0 <= i < |r| => Label(r[i]))
  }

  /** One zero entry per category, in catalogue order. */
  function InitialReport(categories: seq<Category>): (r: seq<ReportEntry>)
    ensures Labels(r) == categories
    ensures forall i :: 0 <= i < |r| ==> r[i].totalSpent == 0.0
  {
    if categories == [] then []
    else [ReportEntry(categories[0].id, categories[0].name, 0.0)] + InitialReport(categories[1..])
  }

  predicate HasEntry(r: seq<ReportEntry>, c: Id) {
    exists i :: 0 <= i < |r| && r[i].categoryId == c
  }

  /** The sum of all totals of a report. */
  function Total(r: seq<ReportEntry>): real {
    if r == [] then 0.0 else r[0].totalSpent + Total(r[1..])
  }

  predicate NonNegative(r: seq<ReportEntry>) {
    forall i :: 0 <= i < |r| ==> r[i].totalSpent >= 0.0
  }

  /** The `report.find` callback for category `c`. */
  function EntryFor(c: Id): ReportEntry -> bool {
    (e: ReportEntry) => e.categoryId == c
  }

  /** The index of the first entry of category `c`. */
  function EntryIndex(r: seq<ReportEntry>, c: Id): Option<nat> {
    FirstWhere(r, EntryFor(c))
  }

  /** `report.find(item => item.categoryId === c)` followed by `+= x`: the
      first entry of that category is credited; an unknown category is
      ignored. */
  function Credit(r: seq<ReportEntry>, c: Id, x: real): (r': seq<ReportEntry>)
    ensures Labels(r') == Labels(r)
    ensures HasEntry(r, c) ==> Total(r') == Total(r) + x
    ensures !HasEntry(r, c) ==> r' == r
    ensures HasEntry(r, c) ==>
      EntryIndex(r, c).Some?
      && var i := EntryIndex(r, c).value;
         && r'[i].totalSpent == r[i].totalSpent + x
         && forall j :: 0 <= j < |r| && j != i ==> r'[j] == r[j]
    ensures NonNegative(r) && x >= 0.0 ==> NonNegative(r')
  {
    match EntryIndex(r, c)
    case None => r
    case Some(i) =>
      var r' := r[i := r[i].(totalSpent := r[i].totalSpent + x)];
      TotalUpdate(r, i, x);
      LabelsEqual(r, r');
      r'
  }

  lemma {:induction false} TotalUpdate(r: seq<ReportEntry>, i: nat, x: real)
    requires i < |r|
    ensures Total(r[i := r[i].(totalSpent := r[i].totalSpent + x)]) == Total(r) + x
  {
    if i > 0 {
      TotalUpdate(r[1..], i - 1, x);
      assert r[i := r[i].(totalSpent := r[i].totalSpent + x)][1..]
          == r[1..][i - 1 := r[1..][i - 1].(totalSpent := r[1..][i - 1].totalSpent + x)];
    }
  }

  lemma LabelsEqual(r: seq<ReportEntry>, r': seq<ReportEntry>)
    requires |r| == |r'|
    requires forall i :: 0 <= i < |r| ==> Label(r[i]) == Label(r'[i])
    ensures Labels(r) == Labels(r')
  {
  }

  /** The `productCategories` object of the source: category ids in the order
      they were first counted, each with its count. */
  type Tally = seq<(Id, nat)>

  /** `productCategories[c] = (productCategories[c] || 0) + 1`. */
  function Bump(tally: Tally, c: Id): (t': Tally)
    ensures TallySize(t') == TallySize(tally) + 1
  {
    if tally == [] then [(c, 1)]
    else if tally[0].0 == c then [(c, tally[0].1 + 1)] + tally[1..]
    else [tally[0]] + Bump(tally[1..], c)
  }

  /** The number of products a tally counts. */
  function TallySize(tally: Tally): nat {
    if tally == [] then 0 else tally[0].1 + TallySize(tally[1..])
  }

  /** Whether the product id resolves (first match, as `getProductById`) to a
      product with a truthy category id. */
  predicate Categorised(products: seq<Product>, pid: Id) {
    FindProduct(products, pid).Some? && FindProduct(products, pid).value.categoryId != ""
  }

  /** How many of the ids resolve to a categorised product. */
  function CategorisedCount(products: seq<Product>, pids: seq<Id>): (n: nat)
    ensures n <= |pids|
  {
    if pids == [] then 0
    else CategorisedCount(products, pids[..|pids| - 1]) + (if Categorised(products, pids[|pids| - 1]) then 1 else 0)
  }

  /** Counting the categories of the purchased products, in `forEach` order. */
  function CountCategories(products: seq<Product>, pids: seq<Id>): (tally: Tally)
    ensures TallySize(tally) == CategorisedCount(products, pids)
  {
    if pids == [] then []
    else
      var tally := CountCategories(products, pids[..|pids| - 1]);
      var last := pids[|pids| - 1];
      if Categorised(products, last) then Bump(tally, FindProduct(products, last).value.categoryId)
      else tally
  }

  /** The ids a tally counts. */
  function Keys(tally: Tally): set<Id> {
    set k | 0 <= k < |tally| :: tally[k].0
  }

  /** Bumping counts `c` and nothing new besides. */
  lemma {:induction false} BumpKeys(tally: Tally, c: Id)
    ensures Keys(Bump(tally, c)) <= Keys(tally) + {c}
  {
    if tally != [] && tally[0].0 != c {
      BumpKeys(tally[1..], c);
      var t' := Bump(tally, c);
      forall x | x in Keys(t') ensures x in Keys(tally) + {c} {
        var k :| 0 <= k < |t'| && t'[k].0 == x;
        if k > 0 {
          assert Bump(tally[1..], c)[k - 1].0 == x;
          assert x in Keys(Bump(tally[1..], c));
          if x != c {
            var m :| 0 <= m < |tally[1..]| && tally[1..][m].0 == x;
            assert tally[m + 1].0 == x;
          }
        } else {
          assert tally[0].0 == x;
        }
      }
    }
  }

  /** The categories of the ids that resolve to a categorised product. */
  function CategoriesOf(products: seq<Product>, pids: seq<Id>): set<Id> {
    set j | 0 <= j < |pids| && Categorised(products, pids[j]) :: FindProduct(products, pids[j]).value.categoryId
  }

  /** A tally counts only categories of the purchased products. */
  lemma {:induction false} CountCategoriesKeys(products: seq<Product>, pids: seq<Id>)
    ensures Keys(CountCategories(products, pids)) <= CategoriesOf(products, pids)
  {
    if pids != [] {
      var prefix := pids[..|pids| - 1];
      var last := pids[|pids| - 1];
      CountCategoriesKeys(products, prefix);
      assert CategoriesOf(products, prefix) <= CategoriesOf(products, pids) by {
        forall x | x in CategoriesOf(products, prefix) ensures x in CategoriesOf(products, pids) {
          var j :| 0 <= j < |prefix| && Categorised(products, prefix[j])
                   && FindProduct(products, prefix[j]).value.categoryId == x;
          assert prefix[j] == pids[j];
        }
      }
      if Categorised(products, last) {
        var c := FindProduct(products, last).value.categoryId;
        BumpKeys(CountCategories(products, prefix), c);
        assert c in CategoriesOf(products, pids) by {
          assert pids[|pids| - 1] == last;
        }
      }
    }
  }

  /** The counted products whose category has a report entry. */
  function CreditedSize(tally: Tally, r: seq<ReportEntry>): (n: nat)
    ensures n <= TallySize(tally)
    ensures (forall k :: 0 <= k < |tally| ==> HasEntry(r, tally[k].0)) ==> n == TallySize(tally)
  {
    if tally == [] then 0
    else (if HasEntry(r, tally[0].0) then tally[0].1 else 0) + CreditedSize(tally[1..], r)
  }

  /** The `Object.entries(productCategories).forEach` loop: each category is
      credited `amountPerProduct * count`, written `Scaled(per, count)`,
      which `ScaledIsProduct` proves to be the same real. */
  function Distribute(r: seq<ReportEntry>, tally: Tally, per: real): (r': seq<ReportEntry>)
    requires per >= 0.0
    ensures Labels(r') == Labels(r)
    ensures NonNegative(r) ==> NonNegative(r')
    decreases |tally|
  {
    if tally == [] then r
    else
      Distribute(Credit(r, tally[0].0, Scaled(per, tally[0].1)), tally[1..], per)
  }

  /** What a distribution credits: `per` added once per product of every
      category the report lists. */
  function CreditedAmount(tally: Tally, r: seq<ReportEntry>, per: real): real {
    if tally == [] then 0.0
    else (if HasEntry(r, tally[0].0) then Scaled(per, tally[0].1) else 0.0)
         + CreditedAmount(tally[1..], r, per)
  }

  /** Distribution raises the report's total by exactly what it credits. */
  lemma {:induction false} DistributeTotal(r: seq<ReportEntry>, tally: Tally, per: real)
    requires per >= 0.0
    ensures Total(Distribute(r, tally, per)) == Total(r) + CreditedAmount(tally, r, per)
    decreases |tally|
  {
    if tally != [] {
      var r1 := Credit(r, tally[0].0, Scaled(per, tally[0].1));
      DistributeTotal(r1, tally[1..], per);
      SameLabelsSameEntries(r, r1, tally[1..], per);
    }
  }

  /** `per` added `count` times. It equals the product `per * count`
      (`ScaledIsProduct`); the report credits it in this form so that the
      bounds below stay linear. */
  function Scaled(per: real, count: nat): (x: real)
    ensures per >= 0.0 ==> x >= 0.0
  {
    if count == 0 then 0.0 else per + Scaled(per, count - 1)
  }

  lemma {:induction false} ScaledIsProduct(per: real, count: nat)
    ensures Scaled(per, count) == per * (count as real)
  {
    if count > 0 {
      ScaledIsProduct(per, count - 1);
      assert per * (count as real) == per + per * ((count - 1) as real);
    }
  }

  lemma {:induction false} ScaledAdd(per: real, a: nat, b: nat)
    ensures Scaled(per, a + b) == Scaled(per, a) + Scaled(per, b)
  {
    if b > 0 {
      ScaledAdd(per, a, b - 1);
    }
  }

  lemma {:induction false} ScaledMono(per: real, a: nat, b: nat)
    requires per >= 0.0 && a <= b
    ensures Scaled(per, a) <= Scaled(per, b)
    decreases b
  {
    if a < b {
      ScaledMono(per, a, b - 1);
    }
  }

  /** What a distribution credits is `per` once for every credited product. */
  lemma {:induction false} CreditedAmountIsScaled(tally: Tally, r: seq<ReportEntry>, per: real)
    ensures CreditedAmount(tally, r, per) == Scaled(per, CreditedSize(tally, r))
  {
    if tally != [] {
      CreditedAmountIsScaled(tally[1..], r, per);
      var a := tally[0].1;
      var m := CreditedSize(tally[1..], r);
      if HasEntry(r, tally[0].0) {
        ScaledAdd(per, a, m);
      }
    }
  }

  /** Reports with the same labels credit the same tallies. */
  lemma {:induction false} SameLabelsSameEntries(r: seq<ReportEntry>, r1: seq<ReportEntry>, tally: Tally, per: real)
    requires Labels(r) == Labels(r1)
    ensures CreditedSize(tally, r) == CreditedSize(tally, r1)
    ensures CreditedAmount(tally, r, per) == CreditedAmount(tally, r1, per)
  {
    forall c ensures HasEntry(r, c) <==> HasEntry(r1, c) {
      if HasEntry(r, c) {
        var i :| 0 <= i < |r| && r[i].categoryId == c;
        assert Labels(r1)[i] == Labels(r)[i];
      }
      if HasEntry(r1, c) {
        var i :| 0 <= i < |r1| && r1[i].categoryId == c;
        assert Labels(r1)[i] == Labels(r)[i];
      }
    }
    if tally != [] {
      SameLabelsSameEntries(r, r1, tally[1..], per);
    }
  }

  /** The share of a transaction each product receives: its absolute amount
      divided evenly over all listed products, resolvable or not. */
  function PerProduct(t: Transaction): (per: real)
    requires t.productIds.Some? && |t.productIds.value| > 0
    ensures per >= 0.0
    ensures Scaled(per, |t.productIds.value|) == Abs(t.amount) as real
  {
    var per := (Abs(t.amount) as real) / (|t.productIds.value| as real);
    ScaledIsProduct(per, |t.productIds.value|);
    per
  }

  /** A purchase listing several products and no truthy category id. */
  predicate IsSplit(t: Transaction) {
    !Truthy(t.categoryId) && t.productIds.Some? && |t.productIds.value| > 1
  }

  /** The effect of one transaction on the report (the body of the
      `transactions.forEach` loop). */
  function Accumulate(r: seq<ReportEntry>, t: Transaction, products: seq<Product>): (r': seq<ReportEntry>)
    ensures Labels(r') == Labels(r)
    ensures NonNegative(r) ==> NonNegative(r')
  {
    if t.kind != Purchase then r
    else if Truthy(t.categoryId) then Credit(r, t.categoryId.value, Abs(t.amount) as real)
    else if t.productIds.Some? && |t.productIds.value| > 1 then
      Distribute(r, CountCategories(products, t.productIds.value), PerProduct(t))
    else r
  }

  /** Every product of a split purchase resolves to a category the report
      lists. */
  predicate FullyAttributable(r: seq<ReportEntry>, t: Transaction, products: seq<Product>)
    requires IsSplit(t)
  {
    forall k :: 0 <= k < |t.productIds.value| ==>
      Categorised(products, t.productIds.value[k])
      && HasEntry(r, FindProduct(products, t.productIds.value[k]).value.categoryId)
  }

  /** How much one transaction adds to the report's total: only purchases
      count; a truthy category id takes the whole absolute amount when the
      category is listed; a split purchase attributes at most its absolute
      amount, all of it when every product resolves to a listed category; any
      other transaction adds nothing. */
  lemma AccumulateTotal(r: seq<ReportEntry>, t: Transaction, products: seq<Product>)
    ensures t.kind != Purchase ==> Accumulate(r, t, products) == r
    ensures t.kind == Purchase && Truthy(t.categoryId) ==>
      Total(Accumulate(r, t, products))
        == Total(r) + (if HasEntry(r, t.categoryId.value) then Abs(t.amount) as real else 0.0)
    ensures t.kind == Purchase && IsSplit(t) ==>
      && Total(r) <= Total(Accumulate(r, t, products)) <= Total(r) + Abs(t.amount) as real
      && (FullyAttributable(r, t, products) ==>
            Total(Accumulate(r, t, products)) == Total(r) + Abs(t.amount) as real)
    ensures t.kind == Purchase && !Truthy(t.categoryId) && !IsSplit(t) ==> Accumulate(r, t, products) == r
  {
    if t.kind == Purchase && IsSplit(t) {
      SplitTotal(r, t, products);
    }
  }

  /** The split case of `AccumulateTotal`. */
  lemma SplitTotal(r: seq<ReportEntry>, t: Transaction, products: seq<Product>)
    requires t.kind == Purchase && IsSplit(t)
    ensures Total(r) <= Total(Accumulate(r, t, products)) <= Total(r) + Abs(t.amount) as real
    ensures FullyAttributable(r, t, products) ==>
      Total(Accumulate(r, t, products)) == Total(r) + Abs(t.amount) as real
  {
    var pids := t.productIds.value;
    var per := PerProduct(t);
    var amount := Abs(t.amount) as real;
    DistributeBound(r, products, pids, per, amount);
    assert Accumulate(r, t, products) == Distribute(r, CountCategories(products, pids), per);
  }

  /** Spreading `amount` evenly over the listed products credits at most
      `amount`, and all of it when every product lands in a listed category. */
  lemma DistributeBound(r: seq<ReportEntry>, products: seq<Product>, pids: seq<Id>, per: real, amount: real)
    requires per >= 0.0 && Scaled(per, |pids|) == amount
    ensures Total(r) <= Total(Distribute(r, CountCategories(products, pids), per)) <= Total(r) + amount
    ensures (forall k :: 0 <= k < |pids| ==>
               Categorised(products, pids[k]) && HasEntry(r, FindProduct(products, pids[k]).value.categoryId)) ==>
      Total(Distribute(r, CountCategories(products, pids), per)) == Total(r) + amount
  {
    var tally := CountCategories(products, pids);
    var n := CreditedSize(tally, r);
    CreditedSizeBound(r, products, pids);
    ScaledMono(per, n, |pids|);
    DistributeCredits(r, tally, per);
  }

  /** Distribution adds `per` once for every counted product whose category
      the report lists. */
  lemma DistributeCredits(r: seq<ReportEntry>, tally: Tally, per: real)
    requires per >= 0.0
    ensures Total(Distribute(r, tally, per)) == Total(r) + Scaled(per, CreditedSize(tally, r))
  {
    DistributeTotal(r, tally, per);
    CreditedAmountIsScaled(tally, r, per);
  }

  /** At most every listed product is credited, and every one of them when
      each resolves to a category the report lists. */
  lemma CreditedSizeBound(r: seq<ReportEntry>, products: seq<Product>, pids: seq<Id>)
    ensures CreditedSize(CountCategories(products, pids), r) <= |pids|
    ensures (forall k :: 0 <= k < |pids| ==>
               Categorised(products, pids[k]) && HasEntry(r, FindProduct(products, pids[k]).value.categoryId)) ==>
      CreditedSize(CountCategories(products, pids), r) == |pids|
  {
    var tally := CountCategories(products, pids);
    if forall k :: 0 <= k < |pids| ==>
         Categorised(products, pids[k]) && HasEntry(r, FindProduct(products, pids[k]).value.categoryId) {
      AllCategorised(products, pids);
      CountCategoriesKeys(products, pids);
      forall k | 0 <= k < |tally| ensures HasEntry(r, tally[k].0) {
        assert tally[k].0 in Keys(tally);
        var j :| 0 <= j < |pids| && Categorised(products, pids[j])
                 && FindProduct(products, pids[j]).value.categoryId == tally[k].0;
      }
    }
  }

  lemma {:induction false} AllCategorised(products: seq<Product>, pids: seq<Id>)
    requires forall k :: 0 <= k < |pids| ==> Categorised(products, pids[k])
    ensures CategorisedCount(products, pids) == |pids|
  {
    if pids != [] {
      AllCategorised(products, pids[..|pids| - 1]);
    }
  }

  /** The `transactions.forEach` loop over the log, in order. */
  function Fold(r: seq<ReportEntry>, txs: seq<Transaction>, products: seq<Product>): (r': seq<ReportEntry>)
    ensures Labels(r') == Labels(r)
    ensures NonNegative(r) ==> NonNegative(r')
    decreases |txs|
  {
    if txs == [] then r else Fold(Accumulate(r, txs[0], products), txs[1..], products)
  }

  /** Only purchases matter: folding the whole log gives the same report as
      folding its purchases alone. */
  lemma {:induction false} FoldOnlyPurchases(r: seq<ReportEntry>, txs: seq<Transaction>, products: seq<Product>)
    ensures Fold(r, txs, products) == Fold(r, Filter(txs, (t: Transaction) => t.kind == Purchase), products)
    decreases |txs|
  {
    if txs != [] {
      var isPurchase := (t: Transaction) => t.kind == Purchase;
      var rest := Filter(txs[1..], isPurchase);
      if txs[0].kind == Purchase {
        FoldOnlyPurchases(Accumulate(r, txs[0], products), txs[1..], products);
        assert Filter(txs, isPurchase) == [txs[0]] + rest;
        assert ([txs[0]] + rest)[1..] == rest;
      } else {
        FoldOnlyPurchases(r, txs[1..], products);
        assert Filter(txs, isPurchase) == rest;
      }
    }
  }

  /** The absolute amount of a purchase; nothing for other transactions. */
  function Volume(t: Transaction): real {
    if t.kind == Purchase then Abs(t.amount) as real else 0.0
  }

  /** The absolute amounts of all purchases in a log. */
  function PurchaseVolume(txs: seq<Transaction>): real {
    if txs == [] then 0.0 else Volume(txs[0]) + PurchaseVolume(txs[1..])
  }

  /** One transaction adds between nothing and its purchase volume. */
  lemma AccumulateBounded(r: seq<ReportEntry>, t: Transaction, products: seq<Product>)
    ensures Total(r) <= Total(Accumulate(r, t, products)) <= Total(r) + Volume(t)
  {
    AccumulateTotal(r, t, products);
    if t.kind == Purchase {
      if Truthy(t.categoryId) {
      } else if IsSplit(t) {
      } else {
        assert Accumulate(r, t, products) == r;
      }
    }
  }

  /** The report never attributes more than the purchases spent. */
  lemma {:induction false} FoldTotalBounded(r: seq<ReportEntry>, txs: seq<Transaction>, products: seq<Product>)
    ensures Total(Fold(r, txs, products)) <= Total(r) + PurchaseVolume(txs)
    decreases |txs|
  {
    if txs != [] {
      var r1 := Accumulate(r, txs[0], products);
      AccumulateBounded(r, txs[0], products);
      FoldTotalBounded(r1, txs[1..], products);
      assert PurchaseVolume(txs) == Volume(txs[0]) + PurchaseVolume(txs[1..]);
    }
  }

  /** Entries in descending order of total. */
  predicate SortedDescending(r: seq<ReportEntry>) {
    forall i, j :: 0 <= i < j < |r| ==> r[i].totalSpent >= r[j].totalSpent
  }

  /** Inserts `e` before the first entry whose total is not larger than its
      own. Applied from the back of the list, this puts each entry before the
      later ones of equal total, so entries with equal totals keep their
      order. */
  function Insert(e: ReportEntry, r: seq<ReportEntry>): (r': seq<ReportEntry>)
    requires SortedDescending(r)
    ensures SortedDescending(r')
    ensures |r'| == |r| + 1 && (r'[0] == e || (r != [] && r'[0] == r[0]))
  {
    if r == [] || e.totalSpent >= r[0].totalSpent then [e] + r
    else
      var rest := Insert(e, r[1..]);
      assert r[0].totalSpent >= rest[0].totalSpent;
      PrependSorted(r[0], rest);
      [r[0]] + rest
  }

  /** Insertion adds `e` and loses nothing. */
  lemma {:induction false} InsertPermutes(e: ReportEntry, r: seq<ReportEntry>)
    requires SortedDescending(r)
    ensures multiset(Insert(e, r)) == multiset(r) + multiset{e}
  {
    if !(r == [] || e.totalSpent >= r[0].totalSpent) {
      InsertPermutes(e, r[1..]);
      assert r == [r[0]] + r[1..];
    }
  }

  lemma PrependSorted(x: ReportEntry, r: seq<ReportEntry>)
    requires SortedDescending(r) && (r == [] || x.totalSpent >= r[0].totalSpent)
    ensures SortedDescending([x] + r)
  {
    forall i, j | 0 <= i < j < |r| + 1 ensures ([x] + r)[i].totalSpent >= ([x] + r)[j].totalSpent {
      if i == 0 && j > 1 {
        assert r[0].totalSpent >= r[j - 1].totalSpent;
      }
    }
  }

  /** Reordering entries reorders their labels alike. */
  lemma {:induction false} LabelsOfPermutation(a: seq<ReportEntry>, b: seq<ReportEntry>)
    requires multiset(a) == multiset(b)
    ensures multiset(Labels(a)) == multiset(Labels(b))
    decreases |a|
  {
    if a != [] {
      assert a[0] in multiset(b);
      var k :| 0 <= k < |b| && b[k] == a[0];
      var b' := b[..k] + b[k + 1..];
      RemoveFromBoth(a, b, k);
      LabelsOfPermutation(a[1..], b');
      assert Labels(a) == [Label(a[0])] + Labels(a[1..]);
      assert Labels(b) == Labels(b[..k]) + [Label(b[k])] + Labels(b[k + 1..]);
      assert Labels(b') == Labels(b[..k]) + Labels(b[k + 1..]);
    }
  }

  /** `report.sort((a, b) => b.totalSpent - a.totalSpent)`: a stable sort by
      descending total. */
  function SortByTotal(r: seq<ReportEntry>): (r': seq<ReportEntry>)
    ensures SortedDescending(r')
    ensures multiset(r') == multiset(r)
  {
    if r == [] then []
    else
      assert r == [r[0]] + r[1..];
      InsertPermutes(r[0], SortByTotal(r[1..]));
      Insert(r[0], SortByTotal(r[1..]))
  }

  /** `getCategorySpendingReport`: one entry per category of the catalogue,
      none negative, sorted by descending spend, totalling no more than the
      user's purchases. */
  function CategorySpendingReport(s: Store, userId: Id): (r: seq<ReportEntry>)
    ensures multiset(Labels(r)) == multiset(s.categories)
    ensures |r| == |s.categories|
    ensures NonNegative(r)
    ensures SortedDescending(r)
    ensures Total(r) <= PurchaseVolume(Ledger.UserTransactions(s, userId))
  {
    var initial := InitialReport(s.categories);
    var txs := Ledger.UserTransactions(s, userId);
    var folded := Fold(initial, txs, s.products);
    var sorted := SortByTotal(folded);
    FoldTotalBounded(initial, txs, s.products);
    assert Total(initial) == 0.0 by { TotalZero(initial); }
    SortKeepsTotal(folded);
    SortKeepsNonNegative(folded);
    LabelsOfPermutation(sorted, folded);
    assert |Labels(sorted)| == |multiset(Labels(sorted))|;
    sorted
  }

  lemma {:induction false} TotalZero(r: seq<ReportEntry>)
    requires forall i :: 0 <= i < |r| ==> r[i].totalSpent == 0.0
    ensures Total(r) == 0.0
  {
    if r != [] {
      TotalZero(r[1..]);
    }
  }

  lemma SortKeepsNonNegative(r: seq<ReportEntry>)
    requires NonNegative(r)
    ensures NonNegative(SortByTotal(r))
  {
    var r' := SortByTotal(r);
    forall i | 0 <= i < |r'| ensures r'[i].totalSpent >= 0.0 {
      assert r'[i] in multiset(r);
    }
  }

  lemma SortKeepsTotal(r: seq<ReportEntry>)
    ensures Total(SortByTotal(r)) == Total(r)
  {
    TotalOfPermutation(SortByTotal(r), r);
  }

  /** Reordering entries does not change the total. */
  lemma {:induction false} TotalOfPermutation(a: seq<ReportEntry>, b: seq<ReportEntry>)
    requires multiset(a) == multiset(b)
    ensures Total(a) == Total(b)
    decreases |a|
  {
    if a != [] {
      assert a[0] in multiset(b);
      var k :| 0 <= k < |b| && b[k] == a[0];
      RemoveFromBoth(a, b, k);
      TotalOfPermutation(a[1..], b[..k] + b[k + 1..]);
      TotalRemove(b, k);
      assert Total(a) == a[0].totalSpent + Total(a[1..]);
    }
  }

  lemma RemoveFromBoth(a: seq<ReportEntry>, b: seq<ReportEntry>, k: nat)
    requires multiset(a) == multiset(b) && a != [] && k < |b| && b[k] == a[0]
    ensures multiset(a[1..]) == multiset(b[..k] + b[k + 1..])
  {
    assert b == b[..k] + [b[k]] + b[k + 1..];
    assert a == [a[0]] + a[1..];
    assert multiset(a[1..]) == multiset(a) - multiset{a[0]};
    assert multiset(b[..k] + b[k + 1..]) == multiset(b) - multiset{b[k]};
  }

  lemma {:induction false} TotalRemove(b: seq<ReportEntry>, k: nat)
    requires k < |b|
    ensures Total(b) == b[k].totalSpent + Total(b[..k] + b[k + 1..])
  {
    if k > 0 {
      TotalRemove(b[1..], k - 1);
      assert (b[..k] + b[k + 1..])[1..] == b[1..][..k - 1] + b[1..][k..];
    } else {
      assert b[..k] + b[k + 1..] == b[1..];
    }
  }

  // Per-category attribution.

  /** What the report shows for category `d`: the total of its first entry,
      or nothing when no entry has that category. */
  function Spent(r: seq<ReportEntry>, d: Id): real {
    match EntryIndex(r, d)
    case None => 0.0
    case Some(i) => r[i].totalSpent
  }

  lemma HasEntryIndex(r: seq<ReportEntry>, d: Id)
    ensures HasEntry(r, d) <==> EntryIndex(r, d).Some?
  {
    if HasEntry(r, d) {
      var i :| 0 <= i < |r| && r[i].categoryId == d;
      assert EntryFor(d)(r[i]);
    }
  }

  /** Reports with the same labels find every category at the same index. */
  lemma SameLabelsSameIndex(r: seq<ReportEntry>, r1: seq<ReportEntry>, d: Id)
    requires Labels(r) == Labels(r1)
    ensures EntryIndex(r, d) == EntryIndex(r1, d)
    ensures HasEntry(r, d) <==> HasEntry(r1, d)
  {
    assert |r| == |Labels(r)| == |r1|;
    assert forall j :: 0 <= j < |r| ==> r[j].categoryId == Labels(r)[j].id == r1[j].categoryId;
    var x := EntryIndex(r, d);
    var y := EntryIndex(r1, d);
    if x.Some? {
      assert EntryFor(d)(r1[x.value]);
    }
    if y.Some? {
      assert EntryFor(d)(r[y.value]);
    }
    HasEntryIndex(r, d);
    HasEntryIndex(r1, d);
  }

  /** Crediting category `c` raises what the report shows for `c`, when the
      report lists it, and for no other category. */
  lemma CreditSpent(r: seq<ReportEntry>, c: Id, x: real, d: Id)
    ensures Spent(Credit(r, c, x), d) == Spent(r, d) + (if d == c && HasEntry(r, c) then x else 0.0)
  {
    var r' := Credit(r, c, x);
    SameLabelsSameIndex(r, r', d);
    HasEntryIndex(r, c);
    if HasEntry(r, c) {
      var i := EntryIndex(r, c).value;
      match EntryIndex(r, d)
      case None =>
        assert d != c;
      case Some(j) =>
        if j == i {
          assert d == c;
        } else {
          assert r'[j] == r[j];
          if d == c {
            assert false;
          }
        }
    }
  }

  /** How many products a tally counts under category `d`. */
  function Count(tally: Tally, d: Id): nat {
    if tally == [] then 0
    else (if tally[0].0 == d then tally[0].1 else 0) + Count(tally[1..], d)
  }

  lemma {:induction false} BumpCount(tally: Tally, c: Id, d: Id)
    ensures Count(Bump(tally, c), d) == Count(tally, d) + (if c == d then 1 else 0)
  {
    if tally == [] {
      assert Bump(tally, c) == [(c, 1)];
      assert Bump(tally, c)[1..] == [];
    } else if tally[0].0 == c {
      assert Bump(tally, c)[1..] == tally[1..];
    } else {
      BumpCount(tally[1..], c, d);
      assert Bump(tally, c)[1..] == Bump(tally[1..], c);
    }
  }

  /** How many of the purchased product ids resolve (first match) to a
      product of category `d`; defined on the ids alone. */
  function CountIn(products: seq<Product>, pids: seq<Id>, d: Id): nat {
    if pids == [] then 0
    else
      var last := pids[|pids| - 1];
      CountIn(products, pids[..|pids| - 1], d)
      + (if Categorised(products, last) && FindProduct(products, last).value.categoryId == d then 1 else 0)
  }

  /** The `productCategories` tally counts, under every category, exactly
      the purchased products of that category. */
  lemma {:induction false} CountCategoriesCount(products: seq<Product>, pids: seq<Id>, d: Id)
    ensures Count(CountCategories(products, pids), d) == CountIn(products, pids, d)
  {
    if pids != [] {
      var prefix := pids[..|pids| - 1];
      var last := pids[|pids| - 1];
      CountCategoriesCount(products, prefix, d);
      if Categorised(products, last) {
        BumpCount(CountCategories(products, prefix), FindProduct(products, last).value.categoryId, d);
      }
    }
  }

  /** Distribution credits category `d`, when the report lists it, the share
      `per` once for every product the tally counts under `d`, and leaves
      what it shows for other categories to their own counts. */
  lemma {:induction false} DistributeSpent(r: seq<ReportEntry>, tally: Tally, per: real, d: Id)
    requires per >= 0.0
    ensures Spent(Distribute(r, tally, per), d)
         == Spent(r, d) + (if HasEntry(r, d) then Scaled(per, Count(tally, d)) else 0.0)
    decreases |tally|
  {
    if tally != [] {
      var c := tally[0].0;
      var x := Scaled(per, tally[0].1);
      var r1 := Credit(r, c, x);
      DistributeUnfold(r, tally, per);
      DistributeSpent(r1, tally[1..], per, d);
      CreditStep(r, c, x, d);
      CountStep(tally, per, d);
    }
  }

  lemma DistributeUnfold(r: seq<ReportEntry>, tally: Tally, per: real)
    requires per >= 0.0 && tally != []
    ensures Distribute(r, tally, per)
         == Distribute(Credit(r, tally[0].0, Scaled(per, tally[0].1)), tally[1..], per)
  {
  }

  /** `CreditSpent` together with the fact that crediting keeps the labels. */
  lemma CreditStep(r: seq<ReportEntry>, c: Id, x: real, d: Id)
    ensures Spent(Credit(r, c, x), d) == Spent(r, d) + (if d == c && HasEntry(r, d) then x else 0.0)
    ensures HasEntry(Credit(r, c, x), d) == HasEntry(r, d)
  {
    CreditSpent(r, c, x, d);
    SameLabelsSameIndex(r, Credit(r, c, x), d);
  }

  /** The scaled count of `d`, split at the tally's first row. */
  lemma CountStep(tally: Tally, per: real, d: Id)
    requires tally != []
    ensures Scaled(per, Count(tally, d))
         == (if tally[0].0 == d then Scaled(per, tally[0].1) else 0.0) + Scaled(per, Count(tally[1..], d))
  {
    if tally[0].0 == d {
      ScaledAdd(per, tally[0].1, Count(tally[1..], d));
    }
  }

  /** The part of transaction `t` that belongs to category `d`, defined from
      the transaction and the catalogue alone: all of a purchase's absolute
      amount for its own truthy category id; for a split purchase, its
      absolute amount divided by the number of listed products, times the
      number of them in category `d`; nothing otherwise. */
  function Share(t: Transaction, products: seq<Product>, d: Id): real {
    if t.kind != Purchase then 0.0
    else if Truthy(t.categoryId) then (if t.categoryId.value == d then Abs(t.amount) as real else 0.0)
    else if IsSplit(t) then
      var pids := t.productIds.value;
      (Abs(t.amount) as real) / (|pids| as real) * (CountIn(products, pids, d) as real)
    else 0.0
  }

  /** One transaction raises what the report shows for each listed category
      by that category's share. */
  lemma AccumulateSpent(r: seq<ReportEntry>, t: Transaction, products: seq<Product>, d: Id)
    ensures Spent(Accumulate(r, t, products), d)
         == Spent(r, d) + (if HasEntry(r, d) then Share(t, products, d) else 0.0)
  {
    if t.kind == Purchase {
      if Truthy(t.categoryId) {
        CreditSpent(r, t.categoryId.value, Abs(t.amount) as real, d);
      } else if IsSplit(t) {
        SplitSpent(r, t, products, d);
      }
    }
  }

  lemma SplitSpent(r: seq<ReportEntry>, t: Transaction, products: seq<Product>, d: Id)
    requires t.kind == Purchase && IsSplit(t)
    ensures Spent(Accumulate(r, t, products), d)
         == Spent(r, d) + (if HasEntry(r, d) then Share(t, products, d) else 0.0)
  {
    var pids := t.productIds.value;
    var per := PerProduct(t);
    var tally := CountCategories(products, pids);
    assert Accumulate(r, t, products) == Distribute(r, tally, per);
    DistributeSpent(r, tally, per, d);
    CountCategoriesCount(products, pids, d);
    ShareOfSplit(t, products, d);
  }

  /** A split purchase's share of `d` is the per-product share credited once
      for every product of `d`. */
  lemma ShareOfSplit(t: Transaction, products: seq<Product>, d: Id)
    requires t.kind == Purchase && IsSplit(t)
    ensures Share(t, products, d) == Scaled(PerProduct(t), CountIn(products, t.productIds.value, d))
  {
    var n := CountIn(products, t.productIds.value, d);
    ScaledIsProduct(PerProduct(t), n);
  }

  /** The shares of category `d` over a log. */
  function Shares(txs: seq<Transaction>, products: seq<Product>, d: Id): real {
    if txs == [] then 0.0 else Share(txs[0], products, d) + Shares(txs[1..], products, d)
  }

  /** Folding a log raises what the report shows for each listed category by
      the sum of that category's shares. */
  lemma {:induction false} FoldSpent(r: seq<ReportEntry>, txs: seq<Transaction>, products: seq<Product>, d: Id)
    ensures Spent(Fold(r, txs, products), d)
         == Spent(r, d) + (if HasEntry(r, d) then Shares(txs, products, d) else 0.0)
    decreases |txs|
  {
    if txs != [] {
      var r1 := Accumulate(r, txs[0], products);
      AccumulateSpent(r, txs[0], products, d);
      FoldSpent(r1, txs[1..], products, d);
      SameLabelsSameIndex(r, r1, d);
    }
  }

  /** The initial report lists every category of the catalogue, at zero. */
  lemma {:induction false} InitialEntry(categories: seq<Category>, d: Id, k: nat)
    requires k < |categories| && categories[k].id == d
    ensures HasEntry(InitialReport(categories), d)
    ensures EntryIndex(InitialReport(categories), d).Some?
    ensures Spent(InitialReport(categories), d) == 0.0
  {
    var initial := InitialReport(categories);
    assert Labels(initial)[k].id == d;
    assert initial[k].categoryId == d;
    HasEntryIndex(initial, d);
  }

  /** The unsorted report shows, for every category of the catalogue, the
      sum of that category's shares of the user's log. */
  lemma FoldedSpent(s: Store, userId: Id, d: Id)
    requires exists k :: 0 <= k < |s.categories| && s.categories[k].id == d
    ensures var folded := Fold(InitialReport(s.categories), Ledger.UserTransactions(s, userId), s.products);
      && EntryIndex(folded, d).Some?
      && folded[EntryIndex(folded, d).value].totalSpent == Shares(Ledger.UserTransactions(s, userId), s.products, d)
  {
    var initial := InitialReport(s.categories);
    var txs := Ledger.UserTransactions(s, userId);
    var folded := Fold(initial, txs, s.products);
    var k :| 0 <= k < |s.categories| && s.categories[k].id == d;
    InitialEntry(s.categories, d, k);
    FoldSpent(initial, txs, s.products, d);
    SameLabelsSameIndex(initial, folded, d);
  }

  /** Every element of a sequence turns up in any permutation of it. */
  lemma PermutedHas(a: seq<ReportEntry>, b: seq<ReportEntry>, k: nat)
    requires multiset(a) == multiset(b) && k < |a|
    ensures exists i :: 0 <= i < |b| && b[i] == a[k]
  {
    assert a[k] in multiset(a);
    assert a[k] in multiset(b);
  }

  /** When `d` labels only entry `k0` of `a`, every entry of a permutation of
      `a` labelled `d` is that entry. */
  lemma PermutedOnly(a: seq<ReportEntry>, b: seq<ReportEntry>, d: Id, k0: nat)
    requires multiset(a) == multiset(b)
    requires k0 < |a| && a[k0].categoryId == d
    requires forall k, m :: 0 <= k < m < |a| && a[k].categoryId == d ==> a[m].categoryId != d
    ensures forall i :: 0 <= i < |b| && b[i].categoryId == d ==> b[i] == a[k0]
  {
    forall i | 0 <= i < |b| && b[i].categoryId == d
      ensures b[i] == a[k0]
    {
      assert b[i] in multiset(b);
      assert b[i] in multiset(a);
      var j :| 0 <= j < |a| && a[j] == b[i];
      assert a[j].categoryId == d;
      assert j == k0;
    }
  }

  /** Distinct category ids in the catalogue are distinct labels in a report
      built on it. */
  lemma UniqueLabels(categories: seq<Category>, r: seq<ReportEntry>, d: Id)
    requires Labels(r) == categories
    requires forall k, m :: 0 <= k < m < |categories| && categories[k].id == d ==> categories[m].id != d
    ensures forall k, m :: 0 <= k < m < |r| && r[k].categoryId == d ==> r[m].categoryId != d
  {
    forall k, m | 0 <= k < m < |r| && r[k].categoryId == d
      ensures r[m].categoryId != d
    {
      assert Labels(r)[k].id == r[k].categoryId;
      assert Labels(r)[m].id == r[m].categoryId;
    }
  }

  /** `getCategorySpendingReport` attributes each category its own spend: for
      a category of the catalogue, some entry of that category carries the
      sum of its shares of the user's purchases, and when the category id is
      unique every entry of that category does. */
  lemma CategorySpend(s: Store, userId: Id, d: Id)
    requires exists k :: 0 <= k < |s.categories| && s.categories[k].id == d
    ensures var r := CategorySpendingReport(s, userId);
      var spend := Shares(Ledger.UserTransactions(s, userId), s.products, d);
      exists i :: 0 <= i < |r| && r[i].categoryId == d && r[i].totalSpent == spend
    ensures var r := CategorySpendingReport(s, userId);
      var spend := Shares(Ledger.UserTransactions(s, userId), s.products, d);
      (forall k, m :: 0 <= k < m < |s.categories| && s.categories[k].id == d ==> s.categories[m].id != d) ==>
        forall i :: 0 <= i < |r| && r[i].categoryId == d ==> r[i].totalSpent == spend
  {
    var txs := Ledger.UserTransactions(s, userId);
    var folded := Fold(InitialReport(s.categories), txs, s.products);
    var r := CategorySpendingReport(s, userId);
    assert r == SortByTotal(folded);
    FoldedSpent(s, userId, d);
    var k0 := EntryIndex(folded, d).value;
    assert EntryFor(d)(folded[k0]);
    PermutedHas(folded, r, k0);
    if forall k, m :: 0 <= k < m < |s.categories| && s.categories[k].id == d ==> s.categories[m].id != d {
      UniqueLabels(s.categories, folded, d);
      PermutedOnly(folded, r, d, k0);
    }
  }
}
