/**
 * The spending-limit bookkeeping of the ledger as functions of limit records: the incremental
 * update on add/remove, set and remove, the month recomputation and its warnings.
 */
module LimitRules {
  import opened Options
  import opened Calendar
  import opened Sequences
  import opened Categories
  import opened Transactions
  import opened SpendingLimits
  import opened Reports

  // ----- Incremental update (updateSpendingLimit)

  /** One limit after updateSpendingLimit(r, add): only an EXPENSE of the limit's own category counts. */
  function Adjusted(l: LimitRecord, r: TransactionRecord, add: bool): LimitRecord {
    if r.kind.Expense? && l.category == r.category then
      l.(currentSpent := if add then l.currentSpent + r.amount else l.currentSpent - r.amount)
    else l
  }

  function UpdateSpent(ls: seq<LimitRecord>, r: TransactionRecord, add: bool): seq<LimitRecord> {
    seq(|ls|, i requires 0 <= i < |ls| => Adjusted(ls[i], r, add))
  }

  /**
   * Adding moves currentSpent up by the amount on every limit of the transaction's category,
   * whatever the transaction's date; removing moves it down; nothing else changes, and an
   * INCOME transaction changes nothing at all.
   */
  lemma UpdateSpentEffect(ls: seq<LimitRecord>, r: TransactionRecord, add: bool)
    ensures |UpdateSpent(ls, r, add)| == |ls|
    ensures forall i :: 0 <= i < |ls| ==>
      var l' := UpdateSpent(ls, r, add)[i];
      l'.category == ls[i].category && l'.monthlyLimit == ls[i].monthlyLimit &&
      l'.currentSpent == ls[i].currentSpent +
        (if r.kind.Expense? && ls[i].category == r.category then (if add then r.amount else -r.amount) else 0.0)
    ensures r.kind.Income? ==> UpdateSpent(ls, r, add) == ls
  {
  }

  /** Removing a transaction undoes adding it, on every limit. */
  lemma UpdateSpentInverse(ls: seq<LimitRecord>, r: TransactionRecord)
    ensures UpdateSpent(UpdateSpent(ls, r, true), r, false) == ls
  {
    var once := UpdateSpent(ls, r, true);
    assert forall i :: 0 <= i < |ls| ==> Adjusted(once[i], r, false) == ls[i];
  }

  // ----- Limits by category

  function IsFor(c: Category?): LimitRecord -> bool {
    (l: LimitRecord) => l.category == c
  }

  function NotFor(c: Category?): LimitRecord -> bool {
    (l: LimitRecord) => l.category != c
  }

  /** The limits of category c, in list order. */
  function LimitsFor(ls: seq<LimitRecord>, c: Category?): seq<LimitRecord> {
    Filter(ls, IsFor(c))
  }

  /** `spendingLimits.removeIf(sl -> sl.getCategory().equals(c))`. */
  function WithoutLimitsFor(ls: seq<LimitRecord>, c: Category?): seq<LimitRecord> {
    Filter(ls, NotFor(c))
  }

  /** setSpendingLimit(c, limit): drop c's limits, then append a fresh one only when limit > 0. */
  function SetLimit(ls: seq<LimitRecord>, c: Category, limit: real): seq<LimitRecord> {
    WithoutLimitsFor(ls, c) + (if limit > 0.0 then [LimitRecord(c, limit, 0.0)] else [])
  }

  /** Removing c's limits leaves none for c and the limits of every other category as they were. */
  lemma WithoutLimitsForEffect(ls: seq<LimitRecord>, c: Category?, d: Category?)
    ensures LimitsFor(WithoutLimitsFor(ls, c), c) == []
    ensures d != c ==> LimitsFor(WithoutLimitsFor(ls, c), d) == LimitsFor(ls, d)
  {
    var rest := WithoutLimitsFor(ls, c);
    var mine := LimitsFor(rest, c);
    if mine != [] {
      SelectMembership(rest, rest, IsFor(c), mine[0]);
      SelectMembership(ls, ls, NotFor(c), mine[0]);
      assert false;
    }
    if d != c {
      FilterFilter(ls, NotFor(c), IsFor(d), IsFor(d));
    }
  }

  /**
   * After setSpendingLimit(c, limit) there is at most one limit for c: none when limit <= 0,
   * otherwise exactly one, last in the list, with that limit and nothing spent, whatever was
   * spent before. Limits of other categories keep their order and values.
   */
  lemma SetLimitEffect(ls: seq<LimitRecord>, c: Category, limit: real, d: Category?)
    ensures LimitsFor(SetLimit(ls, c, limit), c) == if limit > 0.0 then [LimitRecord(c, limit, 0.0)] else []
    ensures limit > 0.0 ==> SetLimit(ls, c, limit)[|SetLimit(ls, c, limit)| - 1] == LimitRecord(c, limit, 0.0)
    ensures d != c ==> LimitsFor(SetLimit(ls, c, limit), d) == LimitsFor(ls, d)
  {
    var rest := WithoutLimitsFor(ls, c);
    var added := if limit > 0.0 then [LimitRecord(c, limit, 0.0)] else [];
    WithoutLimitsForEffect(ls, c, d);
    SelectConcat(rest, rest, added, added, IsFor(c));
    SelectConcat(rest, rest, added, added, IsFor(d));
    if limit > 0.0 {
      SelectSnoc([], [], LimitRecord(c, limit, 0.0), LimitRecord(c, limit, 0.0), IsFor(c));
      SelectSnoc([], [], LimitRecord(c, limit, 0.0), LimitRecord(c, limit, 0.0), IsFor(d));
      assert [] + [LimitRecord(c, limit, 0.0)] == added;
    }
  }

  // ----- Recomputation for the current month (checkSpendingLimits)

  function ExpenseIn(m: YearMonth): TransactionRecord -> bool {
    (r: TransactionRecord) => r.kind.Expense? && MonthOf(r.date) == m
  }

  /** The monthlyExpenses map: EXPENSE amounts dated in m, added up per category in list order. */
  function SpentByCategory(recs: seq<TransactionRecord>, m: YearMonth): map<Category?, real> {
    if recs == [] then map[]
    else
      var spent, r := SpentByCategory(recs[..|recs| - 1], m), recs[|recs| - 1];
      if r.kind.Expense? && MonthOf(r.date) == m then spent[r.category := GetOrZero(spent, r.category) + r.amount]
      else spent
  }

  /** The map is the category breakdown of the EXPENSE transactions dated in m. */
  lemma {:induction false} SpentIsBreakdown(recs: seq<TransactionRecord>, m: YearMonth)
    ensures SpentByCategory(recs, m) == Breakdown(Filter(recs, ExpenseIn(m)))
  {
    if recs != [] {
      var init, r := recs[..|recs| - 1], recs[|recs| - 1];
      SpentIsBreakdown(init, m);
      assert recs == init + [r];
      SelectSnoc(init, init, r, r, ExpenseIn(m));
      var expenses := Filter(init, ExpenseIn(m));
      if r.kind.Expense? && MonthOf(r.date) == m {
        BreakdownSnoc(expenses, r);
      } else {
        assert expenses + [] == expenses;
      }
    }
  }

  /** What the expense loop of checkSpendingLimits adds for the transaction at position i. */
  lemma SpentStep(recs: seq<TransactionRecord>, i: nat, m: YearMonth)
    requires i < |recs|
    ensures recs[i].kind.Expense? && MonthOf(recs[i].date) == m ==>
      SpentByCategory(recs[..i + 1], m) ==
        SpentByCategory(recs[..i], m)[recs[i].category := GetOrZero(SpentByCategory(recs[..i], m), recs[i].category) + recs[i].amount]
    ensures !(recs[i].kind.Expense? && MonthOf(recs[i].date) == m) ==>
      SpentByCategory(recs[..i + 1], m) == SpentByCategory(recs[..i], m)
  {
    assert recs[..i + 1][..i] == recs[..i];
  }

  /** Every limit's currentSpent overwritten by its category's spend in month m, or 0. */
  function Recheck(ls: seq<LimitRecord>, recs: seq<TransactionRecord>, m: YearMonth): seq<LimitRecord> {
    Rechecked(ls, SpentByCategory(recs, m))
  }

  /** Each limit's currentSpent overwritten by its category's entry of spent (0 when absent). */
  function Rechecked(ls: seq<LimitRecord>, spent: map<Category?, real>): seq<LimitRecord> {
    seq(|ls|, i requires 0 <= i < |ls| => ls[i].(currentSpent := GetOrZero(spent, ls[i].category)))
  }

  function ExpenseOf(m: YearMonth, c: Category?): TransactionRecord -> bool {
    (r: TransactionRecord) => r.kind.Expense? && MonthOf(r.date) == m && r.category == c
  }

  /**
   * After the recheck each limit's currentSpent is the total of the EXPENSE transactions of its
   * category dated in month m (0 when there are none), and its category and limit are kept.
   */
  lemma RecheckSpent(ls: seq<LimitRecord>, recs: seq<TransactionRecord>, m: YearMonth, i: nat)
    requires i < |ls|
    ensures |Recheck(ls, recs, m)| == |ls|
    ensures Recheck(ls, recs, m)[i] == ls[i].(currentSpent := Total(Filter(recs, ExpenseOf(m, ls[i].category))))
  {
    var c := ls[i].category;
    SpentIsBreakdown(recs, m);
    BreakdownSums(Filter(recs, ExpenseIn(m)), c);
    FilterFilter(recs, ExpenseIn(m), HasCategory(c), ExpenseOf(m, c));
  }

  /** The recheck discards whatever the incremental updates accumulated. */
  lemma RecheckDiscardsIncrements(ls: seq<LimitRecord>, r: TransactionRecord, add: bool,
                                  recs: seq<TransactionRecord>, m: YearMonth)
    ensures Recheck(UpdateSpent(ls, r, add), recs, m) == Recheck(ls, recs, m)
  {
  }

  /** Rechecking twice in the same month with the same transactions changes nothing more. */
  lemma RecheckIdempotent(ls: seq<LimitRecord>, recs: seq<TransactionRecord>, m: YearMonth)
    ensures Recheck(Recheck(ls, recs, m), recs, m) == Recheck(ls, recs, m)
  {
  }

  // ----- Warnings

  datatype Severity = Exceeded | Approaching

  /** The advisory that checkSpendingLimits prints, as an event. */
  datatype LimitWarning = LimitWarning(severity: Severity, category: Category?, spent: real, limit: real)

  /** Only a positive limit warns: exceeded at or above it, approaching from 80% of it. */
  function Classify(spent: real, limit: real): (s: Option<Severity>)
    ensures s == Some(Exceeded) <==> limit > 0.0 && spent >= limit
    ensures s == Some(Approaching) <==> limit > 0.0 && 4.0 / 5.0 * limit <= spent < limit
    ensures s == None <==> limit <= 0.0 || spent < 4.0 / 5.0 * limit
  {
    if limit > 0.0 then
      if spent >= limit then Some(Exceeded)
      else if spent >= 4.0 / 5.0 * limit then Some(Approaching)
      else None
    else None
  }

  function Warning(l: LimitRecord): Option<LimitWarning> {
    match Classify(l.currentSpent, l.monthlyLimit)
    case Some(s) => Some(LimitWarning(s, l.category, l.currentSpent, l.monthlyLimit))
    case None => None
  }

  /** The warnings of the limits, in list order. */
  function Warnings(ls: seq<LimitRecord>): seq<LimitWarning> {
    if ls == [] then []
    else
      var init, last := ls[..|ls| - 1], ls[|ls| - 1];
      Warnings(init) + (if Warning(last).Some? then [Warning(last).value] else [])
  }

  /** One warning per limit that warns, and no others. */
  lemma {:induction false} WarningsMembership(ls: seq<LimitRecord>)
    ensures forall l :: l in ls && Warning(l).Some? ==> Warning(l).value in Warnings(ls)
    ensures forall w :: w in Warnings(ls) ==> exists l :: l in ls && Warning(l) == Some(w)
  {
    if ls != [] {
      var init, last := ls[..|ls| - 1], ls[|ls| - 1];
      WarningsMembership(init);
      assert ls == init + [last];
    }
  }

  /** The warning of one limit as the nested tests of checkSpendingLimits compute it. */
  lemma WarningCases(l: LimitRecord)
    ensures Warning(l) ==
      if l.monthlyLimit > 0.0 then
        if l.currentSpent >= l.monthlyLimit then Some(LimitWarning(Exceeded, l.category, l.currentSpent, l.monthlyLimit))
        else if l.currentSpent >= 4.0 / 5.0 * l.monthlyLimit
        then Some(LimitWarning(Approaching, l.category, l.currentSpent, l.monthlyLimit))
        else None
      else None
  {
  }

  /** What the limit loop of checkSpendingLimits prints for the limit at position j. */
  lemma WarningsStep(ls: seq<LimitRecord>, j: nat)
    requires j < |ls|
    ensures Warnings(ls[..j + 1]) == Warnings(ls[..j]) + (if Warning(ls[j]).Some? then [Warning(ls[j]).value] else [])
  {
    assert ls[..j + 1][..j] == ls[..j];
  }
}
