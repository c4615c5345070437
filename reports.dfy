/**
 * What the ledger's read-only queries compute, as functions of the transaction records in list
 * order: the balance, the monthly summary, the filter, and the category clearing of a deletion.
 */
module Reports {
  import opened Options
  import opened Calendar
  import opened Sequences
  import opened Categories
  import opened Transactions

  /** Sum of the amounts, accumulated front to back as the ledger's loops do. */
  function Total(recs: seq<TransactionRecord>): real {
    if recs == [] then 0.0 else Total(recs[..|recs| - 1]) + recs[|recs| - 1].amount
  }

  lemma {:induction false} TotalConcat(a: seq<TransactionRecord>, b: seq<TransactionRecord>)
    ensures Total(a + b) == Total(a) + Total(b)
  {
    if b != [] {
      TotalConcat(a, b[..|b| - 1]);
      assert (a + b)[..|a + b| - 1] == a + b[..|b| - 1];
    } else {
      assert a + b == a;
    }
  }

  function IsIncome(): TransactionRecord -> bool {
    (r: TransactionRecord) => r.kind.Income?
  }

  /** The `else` of the income test: every transaction that is not INCOME. */
  function IsExpense(): TransactionRecord -> bool {
    (r: TransactionRecord) => !r.kind.Income?
  }

  function TotalIncome(recs: seq<TransactionRecord>): real {
    Total(Filter(recs, IsIncome()))
  }

  function TotalExpenses(recs: seq<TransactionRecord>): real {
    Total(Filter(recs, IsExpense()))
  }

  /** Income minus expenses over the whole history (getCurrentBalance). */
  function Balance(recs: seq<TransactionRecord>): real {
    TotalIncome(recs) - TotalExpenses(recs)
  }

  /** What one transaction contributes to the balance. */
  function Signed(r: TransactionRecord): real {
    if r.kind.Income? then r.amount else -r.amount
  }

  /** The balance is additive over any split of the list. */
  lemma BalanceConcat(a: seq<TransactionRecord>, b: seq<TransactionRecord>)
    ensures Balance(a + b) == Balance(a) + Balance(b)
  {
    SelectConcat(a, a, b, b, IsIncome());
    SelectConcat(a, a, b, b, IsExpense());
    TotalConcat(Filter(a, IsIncome()), Filter(b, IsIncome()));
    TotalConcat(Filter(a, IsExpense()), Filter(b, IsExpense()));
  }

  lemma BalanceSingle(r: TransactionRecord)
    ensures Balance([r]) == Signed(r)
  {
    SelectSnoc([], [], r, r, IsIncome());
    SelectSnoc([], [], r, r, IsExpense());
    assert [] + [r] == [r];
    assert Total([r]) == r.amount by { assert [r][..0] == []; }
  }

  /** Removing the transaction at position k takes exactly its contribution off the balance. */
  lemma BalanceRemoveAt(recs: seq<TransactionRecord>, k: nat)
    requires k < |recs|
    ensures Balance(RemoveAt(recs, k)) == Balance(recs) - Signed(recs[k])
  {
    var a, b := recs[..k], recs[k + 1..];
    assert recs == a + [recs[k]] + b;
    BalanceConcat(a + [recs[k]], b);
    BalanceConcat(a, [recs[k]]);
    BalanceConcat(a, b);
    BalanceSingle(recs[k]);
  }

  /** recs are the records of the transactions ts: the same object always has the same record. */
  predicate Consistent(ts: seq<Transaction>, recs: seq<TransactionRecord>) {
    |ts| == |recs| && forall i, j :: 0 <= i < |ts| && 0 <= j < |ts| && ts[i] == ts[j] ==> recs[i] == recs[j]
  }

  /**
   * addTransaction(t) followed by removeTransaction(t) restores the balance, also when t was in
   * the list already (then an earlier occurrence of t is the one removed).
   */
  lemma AddThenRemoveRestoresBalance(
    ts: seq<Transaction>, recs: seq<TransactionRecord>, t: Transaction, r: TransactionRecord)
    requires Consistent(ts + [t], recs + [r])
    ensures Balance(RemoveAt(recs + [r], FirstIndex(ts + [t], t))) == Balance(recs)
  {
    var k := FirstIndex(ts + [t], t);
    assert (ts + [t])[|ts|] == t;
    assert (recs + [r])[k] == r;
    BalanceRemoveAt(recs + [r], k);
    BalanceConcat(recs, [r]);
    BalanceSingle(r);
  }

  /** What the balance loop of getCurrentBalance adds for the transaction at position i. */
  lemma BalanceStep(recs: seq<TransactionRecord>, i: nat)
    requires i < |recs|
    ensures TotalIncome(recs[..i + 1]) == TotalIncome(recs[..i]) + (if recs[i].kind.Income? then recs[i].amount else 0.0)
    ensures TotalExpenses(recs[..i + 1]) == TotalExpenses(recs[..i]) + (if recs[i].kind.Income? then 0.0 else recs[i].amount)
  {
    assert recs[..i + 1] == recs[..i] + [recs[i]];
    TotalsSnoc(recs[..i], recs[i]);
  }

  // ----- Monthly summary

  function DatedIn(m: YearMonth): TransactionRecord -> bool {
    (r: TransactionRecord) => MonthOf(r.date) == m
  }

  /** The transactions dated in month m, in list order. */
  function InMonth(recs: seq<TransactionRecord>, m: YearMonth): seq<TransactionRecord> {
    Filter(recs, DatedIn(m))
  }

  /** `map.getOrDefault(c, 0.0)`. */
  function GetOrZero(b: map<Category?, real>, c: Category?): real {
    if c in b then b[c] else 0.0
  }

  lemma InMonthSnoc(recs: seq<TransactionRecord>, r: TransactionRecord, m: YearMonth)
    ensures InMonth(recs + [r], m) == InMonth(recs, m) + (if MonthOf(r.date) == m then [r] else [])
  {
    SelectSnoc(recs, recs, r, r, DatedIn(m));
  }

  /** The category-breakdown map, built by `put(cat, getOrDefault(cat, 0.0) + amount)` in list order. */
  function Breakdown(recs: seq<TransactionRecord>): map<Category?, real> {
    if recs == [] then map[]
    else
      var b, r := Breakdown(recs[..|recs| - 1]), recs[|recs| - 1];
      b[r.category := GetOrZero(b, r.category) + r.amount]
  }

  /** The running totals of the month loop of getMonthlySummary. */
  datatype Tally = Tally(income: real, expenses: real, breakdown: map<Category?, real>)

  /** What the month loop has accumulated after the transactions recs, front to back. */
  function MonthTally(recs: seq<TransactionRecord>, m: YearMonth): Tally {
    if recs == [] then Tally(0.0, 0.0, map[])
    else
      var t, r := MonthTally(recs[..|recs| - 1], m), recs[|recs| - 1];
      if MonthOf(r.date) != m then t
      else Tally(
        t.income + (if r.kind.Income? then r.amount else 0.0),
        t.expenses + (if r.kind.Income? then 0.0 else r.amount),
        t.breakdown[r.category := GetOrZero(t.breakdown, r.category) + r.amount])
  }

  /** The tally is the month's total income, total expenses and category breakdown. */
  lemma MonthTallyMeaning(recs: seq<TransactionRecord>, m: YearMonth)
    ensures MonthTally(recs, m).income == TotalIncome(InMonth(recs, m))
    ensures MonthTally(recs, m).expenses == TotalExpenses(InMonth(recs, m))
    ensures MonthTally(recs, m).breakdown == Breakdown(InMonth(recs, m))
  {
    MonthTallyIncome(recs, m);
    MonthTallyExpenses(recs, m);
    MonthTallyBreakdown(recs, m);
  }

  lemma {:induction false} MonthTallyIncome(recs: seq<TransactionRecord>, m: YearMonth)
    ensures MonthTally(recs, m).income == TotalIncome(InMonth(recs, m))
  {
    if recs != [] {
      var init, r := recs[..|recs| - 1], recs[|recs| - 1];
      MonthTallyIncome(init, m);
      assert recs == init + [r];
      InMonthSnoc(init, r, m);
      var before := InMonth(init, m);
      if MonthOf(r.date) == m {
        assert InMonth(recs, m) == before + [r];
        TotalsSnoc(before, r);
      } else {
        assert InMonth(recs, m) == before;
      }
    }
  }

  lemma {:induction false} MonthTallyExpenses(recs: seq<TransactionRecord>, m: YearMonth)
    ensures MonthTally(recs, m).expenses == TotalExpenses(InMonth(recs, m))
  {
    if recs != [] {
      var init, r := recs[..|recs| - 1], recs[|recs| - 1];
      MonthTallyExpenses(init, m);
      assert recs == init + [r];
      InMonthSnoc(init, r, m);
      var before := InMonth(init, m);
      if MonthOf(r.date) == m {
        assert InMonth(recs, m) == before + [r];
        TotalsSnoc(before, r);
      } else {
        assert InMonth(recs, m) == before;
      }
    }
  }

  lemma {:induction false} MonthTallyBreakdown(recs: seq<TransactionRecord>, m: YearMonth)
    ensures MonthTally(recs, m).breakdown == Breakdown(InMonth(recs, m))
  {
    if recs != [] {
      var init, r := recs[..|recs| - 1], recs[|recs| - 1];
      MonthTallyBreakdown(init, m);
      assert recs == init + [r];
      InMonthSnoc(init, r, m);
      var before := InMonth(init, m);
      if MonthOf(r.date) == m {
        assert InMonth(recs, m) == before + [r];
        BreakdownSnoc(before, r);
      } else {
        assert InMonth(recs, m) == before;
      }
    }
  }

  lemma MonthTallyStep(recs: seq<TransactionRecord>, i: nat, m: YearMonth)
    requires i < |recs|
    ensures var t, r := MonthTally(recs[..i], m), recs[i];
      MonthTally(recs[..i + 1], m) ==
        if MonthOf(r.date) != m then t
        else Tally(
          t.income + (if r.kind.Income? then r.amount else 0.0),
          t.expenses + (if r.kind.Income? then 0.0 else r.amount),
          t.breakdown[r.category := GetOrZero(t.breakdown, r.category) + r.amount])
  {
    assert recs[..i + 1][..i] == recs[..i];
  }

  function HasCategory(c: Category?): TransactionRecord -> bool {
    (r: TransactionRecord) => r.category == c
  }

  /** The breakdown has a key for every category that occurs, the null category included. */
  lemma {:induction false} BreakdownKeys(recs: seq<TransactionRecord>)
    ensures Breakdown(recs).Keys == set r | r in recs :: r.category
  {
    if recs != [] {
      var init, last := recs[..|recs| - 1], recs[|recs| - 1];
      BreakdownKeys(init);
      assert recs == init + [last];
      assert (set r | r in recs :: r.category) == (set r | r in init :: r.category) + {last.category};
    }
  }

  /** The breakdown maps each category to the total of its amounts, income and expense alike. */
  lemma {:induction false} BreakdownSums(recs: seq<TransactionRecord>, c: Category?)
    ensures GetOrZero(Breakdown(recs), c) == Total(Filter(recs, HasCategory(c)))
  {
    if recs != [] {
      var init, last := recs[..|recs| - 1], recs[|recs| - 1];
      BreakdownSums(init, c);
      assert recs == init + [last];
      SelectSnoc(init, init, last, last, HasCategory(c));
      var before := Filter(init, HasCategory(c));
      if last.category == c {
        assert (before + [last])[..|before|] == before;
      } else {
        assert before + [] == before;
      }
    }
  }

  lemma TotalSnoc(recs: seq<TransactionRecord>, r: TransactionRecord)
    ensures Total(recs + [r]) == Total(recs) + r.amount
  {
    assert (recs + [r])[..|recs|] == recs;
  }

  lemma BreakdownSnoc(recs: seq<TransactionRecord>, r: TransactionRecord)
    ensures Breakdown(recs + [r]) == Breakdown(recs)[r.category := GetOrZero(Breakdown(recs), r.category) + r.amount]
  {
    assert (recs + [r])[..|recs|] == recs;
  }

  /** One more transaction adds its amount to exactly one of the two totals. */
  lemma TotalsSnoc(recs: seq<TransactionRecord>, r: TransactionRecord)
    ensures TotalIncome(recs + [r]) == TotalIncome(recs) + (if r.kind.Income? then r.amount else 0.0)
    ensures TotalExpenses(recs + [r]) == TotalExpenses(recs) + (if r.kind.Income? then 0.0 else r.amount)
  {
    SelectSnoc(recs, recs, r, r, IsIncome());
    SelectSnoc(recs, recs, r, r, IsExpense());
    var inc, exp := Filter(recs, IsIncome()), Filter(recs, IsExpense());
    if r.kind.Income? {
      TotalSnoc(inc, r);
      assert exp + [] == exp;
    } else {
      TotalSnoc(exp, r);
      assert inc + [] == inc;
    }
  }

  // ----- Filter

  /**
   * The inRange and inCategory tests of filterTransactions; a null bound is None and a null
   * category filter is null. A transaction without a category fails a category filter.
   */
  function Matches(r: TransactionRecord, start: Option<Date>, end: Option<Date>, cat: Category?): (b: bool)
    ensures b <==>
      (start.None? || OnOrBefore(start.value, r.date)) &&
      (end.None? || OnOrBefore(r.date, end.value)) &&
      (cat == null || r.category == cat)
  {
    var inRange :=
      if start.Some? && end.Some? then OnOrBefore(start.value, r.date) && OnOrBefore(r.date, end.value)
      else if start.Some? then OnOrBefore(start.value, r.date)
      else if end.Some? then OnOrBefore(r.date, end.value)
      else true;
    var inCategory := cat == null || (r.category != null && r.category == cat);
    inRange && inCategory
  }

  function MatchesAll(start: Option<Date>, end: Option<Date>, cat: Category?): TransactionRecord -> bool {
    (r: TransactionRecord) => Matches(r, start, end, cat)
  }

  /** With no bounds and no category, the filter returns every transaction in order. */
  lemma FilterWithoutCriteria(ts: seq<Transaction>, recs: seq<TransactionRecord>)
    requires |ts| == |recs|
    ensures Select(ts, recs, MatchesAll(None, None, null)) == ts
  {
    SelectAll(ts, recs, MatchesAll(None, None, null));
  }

  /** t is in the filtered list exactly when some position holds t with a matching record. */
  lemma FilterMembership(
    ts: seq<Transaction>, recs: seq<TransactionRecord>, start: Option<Date>, end: Option<Date>,
    cat: Category?, t: Transaction)
    requires |ts| == |recs|
    ensures t in Select(ts, recs, MatchesAll(start, end, cat)) <==>
      exists i :: 0 <= i < |ts| && ts[i] == t && Matches(recs[i], start, end, cat)
  {
    SelectMembership(ts, recs, MatchesAll(start, end, cat), t);
  }

  // ----- Category deletion

  /** One transaction after deleteCategory(c): its category is nulled when it is c. */
  function Cleared(r: TransactionRecord, c: Category): TransactionRecord {
    if r.category == c then r.(category := null) else r
  }

  function ClearCategory(recs: seq<TransactionRecord>, c: Category): seq<TransactionRecord> {
    seq(|recs|, i requires 0 <= i < |recs| => Cleared(recs[i], c))
  }

  /**
   * After clearing, no transaction refers to c; exactly those that did lose their category,
   * and every other transaction is unchanged.
   */
  lemma ClearCategoryEffect(recs: seq<TransactionRecord>, c: Category)
    ensures |ClearCategory(recs, c)| == |recs|
    ensures forall i :: 0 <= i < |recs| ==> ClearCategory(recs, c)[i].category != c
    ensures forall i :: 0 <= i < |recs| && recs[i].category == c ==>
      ClearCategory(recs, c)[i] == recs[i].(category := null)
    ensures forall i :: 0 <= i < |recs| && recs[i].category != c ==> ClearCategory(recs, c)[i] == recs[i]
  {
  }

  /**
   * The transaction loop of deleteCategory as written, over the objects in list order:
   * `t.getCategory().equals(category)` dereferences the category the object has at that moment,
   * so the loop throws (None) at the first object whose category is then null. That is an object
   * that had none from the start, or one the loop itself cleared at an earlier position of the
   * list; `nulled` holds the objects cleared so far. Otherwise the result is what every position
   * holds once the loop is done.
   */
  function DeletionLoop(ts: seq<Transaction>, c: Category, nulled: set<Transaction>): Option<seq<TransactionRecord>>
    reads ts
  {
    if ts == [] then Some([])
    else if ts[0] in nulled || ts[0].category == null then None
    else
      var nulled' := if ts[0].category == c then nulled + {ts[0]} else nulled;
      match DeletionLoop(ts[1..], c, nulled')
      case None => None
      case Some(rest) => Some([Cleared(ts[0].Snapshot(), c)] + rest)
  }

  function ClearCategoryAsWritten(ts: seq<Transaction>, c: Category): Option<seq<TransactionRecord>>
    reads ts
  {
    DeletionLoop(ts, c, {})
  }

  /**
   * Position i gets through the loop as written: its object was not cleared earlier, has a
   * category, and, when that category is c, is met here for the first time.
   */
  predicate Survives(ts: seq<Transaction>, c: Category, nulled: set<Transaction>, i: int)
    requires 0 <= i < |ts|
    reads ts
  {
    ts[i] !in nulled && ts[i].category != null && (ts[i].category == c ==> ts[i] !in ts[..i])
  }

  /** The loop as written completes iff every position survives, and then clears like ClearCategory. */
  lemma {:induction false} DeletionLoopOutcome(ts: seq<Transaction>, c: Category, nulled: set<Transaction>)
    ensures DeletionLoop(ts, c, nulled).Some? <==> forall i :: 0 <= i < |ts| ==> Survives(ts, c, nulled, i)
    ensures DeletionLoop(ts, c, nulled).Some? ==>
      |DeletionLoop(ts, c, nulled).value| == |ts| &&
      forall i :: 0 <= i < |ts| ==> DeletionLoop(ts, c, nulled).value[i] == Cleared(ts[i].Snapshot(), c)
  {
    if ts != [] && ts[0] !in nulled && ts[0].category != null {
      var nulled' := if ts[0].category == c then nulled + {ts[0]} else nulled;
      DeletionLoopOutcome(ts[1..], c, nulled');
      forall k | 0 <= k < |ts| - 1
        ensures Survives(ts, c, nulled, k + 1) <==> Survives(ts[1..], c, nulled', k)
      {
        assert ts[..k + 1] == [ts[0]] + ts[1..][..k];
      }
      if forall k :: 0 <= k < |ts[1..]| ==> Survives(ts[1..], c, nulled', k) {
        forall i | 0 <= i < |ts| ensures Survives(ts, c, nulled, i) {
          if i > 0 {
            assert Survives(ts[1..], c, nulled', i - 1);
          }
        }
      } else {
        var k :| 0 <= k < |ts[1..]| && !Survives(ts[1..], c, nulled', k);
        assert !Survives(ts, c, nulled, k + 1);
      }
    } else if ts != [] {
      assert !Survives(ts, c, nulled, 0);
    }
  }

  /**
   * As written, deleteCategory's loop throws exactly when some transaction has no category, or
   * an object of the deleted category occurs twice (its first visit nulls it for the second);
   * otherwise it clears exactly like ClearCategory.
   */
  lemma ClearCategoryAsWrittenOutcome(ts: seq<Transaction>, c: Category)
    ensures ClearCategoryAsWritten(ts, c).None? <==>
      exists i :: 0 <= i < |ts| && (ts[i].category == null || (ts[i].category == c && ts[i] in ts[..i]))
    ensures ClearCategoryAsWritten(ts, c).Some? ==>
      |ClearCategoryAsWritten(ts, c).value| == |ts| &&
      forall i :: 0 <= i < |ts| ==> ClearCategoryAsWritten(ts, c).value[i] == Cleared(ts[i].Snapshot(), c)
  {
    DeletionLoopOutcome(ts, c, {});
    if ClearCategoryAsWritten(ts, c).None? {
      var i :| 0 <= i < |ts| && !Survives(ts, c, {}, i);
      assert ts[i].category == null || (ts[i].category == c && ts[i] in ts[..i]);
    }
    if i :| 0 <= i < |ts| && (ts[i].category == null || (ts[i].category == c && ts[i] in ts[..i])) {
      assert !Survives(ts, c, {}, i);
    }
  }

  /**
   * One transaction object of category c listed twice: the loop as written clears it at its
   * first position and throws at its second, where the corrected loop only clears it.
   */
  lemma RepeatedObjectThrows(t: Transaction, c: Category)
    requires t.category == c
    ensures ClearCategoryAsWritten([t], c) == Some([t.Snapshot().(category := null)])
    ensures ClearCategoryAsWritten([t, t], c).None?
  {
    assert [t][1..] == [] && [t, t][1..] == [t];
    var none: set<Transaction> := {};
    assert none + {t} == {t};
    assert DeletionLoop([t][1..], c, none + {t}) == Some([]);
    var r := Cleared(t.Snapshot(), c);
    assert [r] + [] == [r];
    assert DeletionLoop([t], c, none) == Some([r]);
    assert DeletionLoop([t], c, {t}).None?;
  }
}
