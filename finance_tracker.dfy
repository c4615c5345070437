/**
 * The ledger engine: three insertion-ordered lists (transactions, categories, spending limits)
 * and the operations that change them and the objects in them in place.
 */
module Ledger {
  import opened Options
  import opened Calendar
  import opened Sequences
  import opened Categories
  import opened Transactions
  import opened SpendingLimits
  import opened Summaries
  import opened Reports
  import opened LimitRules

  /** What the JSON decoder hands to loadFromFile: each of the three lists may be missing (null). */
  datatype DataWrapper = DataWrapper(
    transactions: Option<seq<Transaction>>,
    categories: Option<seq<Category>>,
    spendingLimits: Option<seq<SpendingLimit>>)

  /** The lists a decoded wrapper installs: a missing list becomes an empty one. */
  function LoadedTransactions(wrapper: Option<DataWrapper>): seq<Transaction> {
    if wrapper.Some? then wrapper.value.transactions.GetOr([]) else []
  }

  function LoadedCategories(wrapper: Option<DataWrapper>): seq<Category> {
    if wrapper.Some? then wrapper.value.categories.GetOr([]) else []
  }

  function LoadedLimits(wrapper: Option<DataWrapper>): seq<SpendingLimit> {
    if wrapper.Some? then wrapper.value.spendingLimits.GetOr([]) else []
  }

  class FinanceTracker {
    var transactions: seq<Transaction>
    var categories: seq<Category>
    var spendingLimits: seq<SpendingLimit>

    /**
     * Each spending limit is its own object: setSpendingLimit allocates a new one, and the
     * decoder allocates one per stored limit.
     */
    ghost predicate Valid()
      reads this`spendingLimits
    {
      Distinct(spendingLimits)
    }

    /** Every limit has a category; the limit scans call `sl.getCategory().equals(..)`. */
    predicate LimitsLinked()
      reads this`spendingLimits, spendingLimits
    {
      forall l :: l in spendingLimits ==> l.category != null
    }

    /** The transactions' fields, in list order. */
    function Records(): seq<TransactionRecord>
      reads this`transactions, transactions
    {
      var ts := transactions;
      seq(|ts|, i requires 0 <= i < |ts| reads ts => ts[i].Snapshot())
    }

    /** The spending limits' fields, in list order. */
    function LimitRecords(): seq<LimitRecord>
      reads this`spendingLimits, spendingLimits
    {
      var ls := spendingLimits;
      seq(|ls|, i requires 0 <= i < |ls| reads ls => ls[i].Snapshot())
    }

    constructor ()
      ensures Valid() && LimitsLinked()
      ensures transactions == [] && categories == [] && spendingLimits == []
    {
      transactions := [];
      categories := [];
      spendingLimits := [];
    }

    // ----- Transactions

    method AddTransaction(t: Transaction)
      requires Valid()
      requires t.kind.Expense? ==> LimitsLinked()
      modifies this, spendingLimits
      ensures Valid() && LimitsLinked() == old(LimitsLinked())
      ensures transactions == old(transactions) + [t]
      ensures Records() == old(Records()) + [t.Snapshot()]
      ensures categories == old(categories) && spendingLimits == old(spendingLimits)
      ensures LimitRecords() == UpdateSpent(old(LimitRecords()), t.Snapshot(), true)
    {
      transactions := transactions + [t];
      UpdateSpendingLimit(t, true);
      assert Records() == old(Records()) + [t.Snapshot()];
    }

    /** Removes the first occurrence of t, if any, and takes t's amount off its limits even if t was absent. */
    method RemoveTransaction(t: Transaction)
      requires Valid()
      requires t.kind.Expense? ==> LimitsLinked()
      modifies this, spendingLimits
      ensures Valid() && LimitsLinked() == old(LimitsLinked())
      ensures transactions == RemoveFirst(old(transactions), t)
      ensures Records() == RemoveAt(old(Records()), FirstIndex(old(transactions), t))
      ensures categories == old(categories) && spendingLimits == old(spendingLimits)
      ensures LimitRecords() == UpdateSpent(old(LimitRecords()), t.Snapshot(), false)
    {
      ghost var k := FirstIndex(transactions, t);
      transactions := RemoveFirst(transactions, t);
      UpdateSpendingLimit(t, false);
      forall j | 0 <= j < |transactions|
        ensures Records()[j] == RemoveAt(old(Records()), k)[j]
      {
        if j < k {
          assert transactions[j] == old(transactions)[j];
        } else {
          assert transactions[j] == old(transactions)[j + 1];
        }
      }
    }

    /** updateSpendingLimit: moves currentSpent of the limits of an EXPENSE's category by its amount. */
    method UpdateSpendingLimit(t: Transaction, add: bool)
      requires Valid()
      requires t.kind.Expense? ==> LimitsLinked()
      modifies spendingLimits
      ensures LimitRecords() == UpdateSpent(old(LimitRecords()), t.Snapshot(), add)
      ensures LimitsLinked() == old(LimitsLinked())
    {
      UpdateSpentEffect(old(LimitRecords()), t.Snapshot(), add);
      if t.kind.Expense? {
        var i := 0;
        while i < |spendingLimits|
          invariant 0 <= i <= |spendingLimits|
          invariant forall k :: 0 <= k < |spendingLimits| ==>
            spendingLimits[k].Snapshot() ==
              if k < i then Adjusted(old(spendingLimits[k].Snapshot()), t.Snapshot(), add)
              else old(spendingLimits[k].Snapshot())
          invariant forall k :: 0 <= k < |spendingLimits| ==> spendingLimits[k].category == old(spendingLimits[k].category)
        {
          var sl := spendingLimits[i];
          if sl.category == t.category {
            var current := sl.currentSpent;
            if add {
              sl.SetCurrentSpent(current + t.amount);
            } else {
              sl.SetCurrentSpent(current - t.amount);
            }
          }
          i := i + 1;
        }
      }
    }

    // ----- Categories

    method AddCategory(c: Category)
      modifies this
      ensures categories == old(categories) + [c]
      ensures transactions == old(transactions) && spendingLimits == old(spendingLimits)
    {
      categories := categories + [c];
    }

    /**
     * Renames the shared object in place: every transaction and limit holding c sees the new
     * name, no list changes and no transaction or limit is touched.
     */
    method RenameCategory(c: Category, newName: string)
      modifies c
      ensures c.name == newName && c.kind == old(c.kind)
      ensures Records() == old(Records()) && LimitRecords() == old(LimitRecords())
      ensures forall t :: t in transactions && t.category == c ==> t.category.name == newName
      ensures forall l :: l in spendingLimits && l.category == c ==> l.category.name == newName
    {
      c.SetName(newName);
    }

    /**
     * Removes the first occurrence of c from the categories, nulls the category of exactly the
     * transactions in c, and removes every limit of c. A transaction whose category is already
     * null, or an object of c listed twice, is taken in stride; the Java loop throws on both
     * instead (see Reports.ClearCategoryAsWritten).
     */
    method DeleteCategory(c: Category)
      requires Valid() && LimitsLinked()
      modifies this, transactions
      ensures Valid() && LimitsLinked()
      ensures categories == RemoveFirst(old(categories), c)
      ensures transactions == old(transactions)
      ensures Records() == ClearCategory(old(Records()), c)
      ensures spendingLimits == Select(old(spendingLimits), old(LimitRecords()), NotFor(c))
      ensures LimitRecords() == WithoutLimitsFor(old(LimitRecords()), c)
      ensures forall t :: t in transactions ==> t.category != c
      ensures forall l :: l in spendingLimits ==> l.category != c
    {
      categories := RemoveFirst(categories, c);
      UnlinkCategory(c);
      RemoveSpendingLimit(c);
    }

    /**
     * The transaction loop of deleteCategory: every transaction in c gets a null category.
     * The same object may occur in the list more than once.
     */
    method UnlinkCategory(c: Category)
      modifies transactions
      ensures Records() == ClearCategory(old(Records()), c)
      ensures forall t :: t in transactions ==> t.category != c
    {
      var ts := transactions;
      ghost var start := Records();
      var i := 0;
      while i < |ts|
        invariant 0 <= i <= |ts|
        invariant forall j :: 0 <= j < |ts| ==>
          ts[j].Snapshot() == if ts[j] in ts[..i] then Cleared(start[j], c) else start[j]
      {
        var t := ts[i];
        if t.category == c {
          t.SetCategory(null);
        }
        assert ts[..i + 1] == ts[..i] + [t];
        i := i + 1;
      }
      assert ts[..i] == ts;
      assert Records() == ClearCategory(start, c);
      forall t | t in transactions ensures t.category != c {
        var j :| 0 <= j < |ts| && ts[j] == t;
        assert Records()[j].category != c;
      }
    }

    // ----- Spending limits

    /** `spendingLimits.removeIf(sl -> sl.getCategory().equals(c))`. */
    method RemoveSpendingLimit(c: Category?)
      requires Valid() && LimitsLinked()
      modifies this
      ensures Valid() && LimitsLinked()
      ensures spendingLimits == Select(old(spendingLimits), old(LimitRecords()), NotFor(c))
      ensures LimitRecords() == WithoutLimitsFor(old(LimitRecords()), c)
      ensures forall l :: l in spendingLimits ==> l.category != c
      ensures transactions == old(transactions) && categories == old(categories)
    {
      var before, recs := spendingLimits, LimitRecords();
      spendingLimits := Select(spendingLimits, recs, NotFor(c));
      SelectDistinct(before, recs, NotFor(c));
      KeptSnapshots(before, recs, c);
    }

    /**
     * Replaces c's limits by one new limit with nothing spent when limit > 0, and by none
     * otherwise; the new limit goes last and is a fresh object.
     */
    method SetSpendingLimit(c: Category, limit: real)
      requires Valid() && LimitsLinked()
      modifies this
      ensures Valid() && LimitsLinked()
      ensures LimitRecords() == SetLimit(old(LimitRecords()), c, limit)
      ensures limit <= 0.0 ==> spendingLimits == Select(old(spendingLimits), old(LimitRecords()), NotFor(c))
      ensures limit > 0.0 ==>
        |spendingLimits| > 0 && fresh(spendingLimits[|spendingLimits| - 1]) &&
        spendingLimits[..|spendingLimits| - 1] == Select(old(spendingLimits), old(LimitRecords()), NotFor(c))
      ensures transactions == old(transactions) && categories == old(categories)
    {
      ghost var recs0 := LimitRecords();
      RemoveSpendingLimit(c);
      ghost var kept, keptRecs := spendingLimits, LimitRecords();
      assert keptRecs == WithoutLimitsFor(recs0, c);
      if limit > 0.0 {
        var sl := new SpendingLimit(c, limit);
        AppendSpendingLimit(sl);
        assert LimitRecords() == keptRecs + [LimitRecord(c, limit, 0.0)];
        assert spendingLimits[..|kept|] == kept;
      } else {
        assert SetLimit(recs0, c, limit) == keptRecs + [];
      }
    }

    /** `spendingLimits.add(sl)` for a limit object not yet in the list. */
    method AppendSpendingLimit(sl: SpendingLimit)
      requires Valid() && LimitsLinked()
      requires sl !in spendingLimits && sl.category != null
      modifies this`spendingLimits
      ensures Valid() && LimitsLinked()
      ensures spendingLimits == old(spendingLimits) + [sl]
      ensures LimitRecords() == old(LimitRecords()) + [sl.Snapshot()]
    {
      ghost var keptRecs := LimitRecords();
      spendingLimits := spendingLimits + [sl];
      forall k | 0 <= k < |keptRecs| ensures LimitRecords()[k] == keptRecs[k] {
        assert spendingLimits[k] == old(spendingLimits)[k];
      }
    }

    // ----- Queries

    /** Income minus expenses over every transaction, whatever its month. */
    method GetCurrentBalance() returns (balance: real)
      ensures balance == Balance(Records())
    {
      var ts := transactions;
      ghost var recs := Records();
      var income, expense := 0.0, 0.0;
      var i := 0;
      while i < |ts|
        invariant 0 <= i <= |ts|
        invariant income == TotalIncome(recs[..i])
        invariant expense == TotalExpenses(recs[..i])
      {
        var t := ts[i];
        assert t.kind == recs[i].kind && t.amount == recs[i].amount;
        BalanceStep(recs, i);
        if t.kind.Income? {
          income := income + t.amount;
        } else {
          expense := expense + t.amount;
        }
        i := i + 1;
      }
      assert recs[..i] == recs;
      balance := income - expense;
    }

    /**
     * Totals of the transactions dated in the month: income, everything else as expenses, their
     * difference, and the amounts per category (income and expense alike, null included).
     */
    method GetMonthlySummary(month: YearMonth) returns (summary: FinanceSummary)
      ensures summary.totalIncome == TotalIncome(InMonth(Records(), month))
      ensures summary.totalExpenses == TotalExpenses(InMonth(Records(), month))
      ensures summary.netBalance == summary.totalIncome - summary.totalExpenses
      ensures summary.categoryBreakdown == Breakdown(InMonth(Records(), month))
    {
      ghost var recs := Records();
      var totalIncome, totalExpenses := 0.0, 0.0;
      var categoryBreakdown: map<Category?, real> := map[];
      var i := 0;
      while i < |transactions|
        invariant 0 <= i <= |transactions|
        invariant Tally(totalIncome, totalExpenses, categoryBreakdown) == MonthTally(recs[..i], month)
      {
        var t := transactions[i];
        MonthTallyStep(recs, i, month);
        if MonthOf(t.date) == month {
          var amt := t.amount;
          if t.kind.Income? {
            totalIncome := totalIncome + amt;
          } else {
            totalExpenses := totalExpenses + amt;
          }
          categoryBreakdown := categoryBreakdown[t.category := GetOrZero(categoryBreakdown, t.category) + amt];
        }
        i := i + 1;
      }
      assert recs[..i] == recs;
      MonthTallyMeaning(recs, month);
      var netBalance := totalIncome - totalExpenses;
      summary := FinanceSummary(totalIncome, totalExpenses, netBalance, categoryBreakdown);
    }

    /** The transactions on or after start, on or before end, and in category cat, each test skipped when null. */
    method FilterTransactions(start: Option<Date>, end: Option<Date>, cat: Category?) returns (filtered: seq<Transaction>)
      ensures filtered == Select(transactions, Records(), MatchesAll(start, end, cat))
    {
      filtered := [];
      var i := 0;
      while i < |transactions|
        invariant 0 <= i <= |transactions|
        invariant filtered == Select(transactions[..i], Records()[..i], MatchesAll(start, end, cat))
      {
        var t := transactions[i];
        var inRange := true;
        if start.Some? && end.Some? {
          inRange := OnOrBefore(start.value, t.date) && OnOrBefore(t.date, end.value);
        } else if start.Some? {
          inRange := OnOrBefore(start.value, t.date);
        } else if end.Some? {
          inRange := OnOrBefore(t.date, end.value);
        }
        var inCategory := true;
        if cat != null {
          inCategory := t.category != null && t.category == cat;
        }
        assert transactions[..i + 1] == transactions[..i] + [t];
        assert Records()[..i + 1] == Records()[..i] + [t.Snapshot()];
        SelectSnoc(transactions[..i], Records()[..i], t, t.Snapshot(), MatchesAll(start, end, cat));
        if inRange && inCategory {
          filtered := filtered + [t];
        }
        i := i + 1;
      }
      assert transactions[..i] == transactions && Records()[..i] == Records();
    }

    /** The monthlyExpenses map of checkSpendingLimits: EXPENSE amounts dated in `now`, per category. */
    method MonthlyExpenses(now: YearMonth) returns (monthlyExpenses: map<Category?, real>)
      ensures monthlyExpenses == SpentByCategory(Records(), now)
    {
      ghost var recs := Records();
      monthlyExpenses := map[];
      var i := 0;
      while i < |transactions|
        invariant 0 <= i <= |transactions|
        invariant monthlyExpenses == SpentByCategory(recs[..i], now)
      {
        var t := transactions[i];
        SpentStep(recs, i, now);
        if t.kind.Expense? && MonthOf(t.date) == now {
          var cat := t.category;
          monthlyExpenses := monthlyExpenses[cat := GetOrZero(monthlyExpenses, cat) + t.amount];
        }
        i := i + 1;
      }
      assert recs[..i] == recs;
    }

    /**
     * Recomputes every limit's currentSpent from the EXPENSE transactions dated in the current
     * month `now` and returns the warnings it prints, in limit order.
     */
    method CheckSpendingLimits(now: YearMonth) returns (warnings: seq<LimitWarning>)
      requires Valid()
      modifies spendingLimits
      ensures LimitRecords() == Recheck(old(LimitRecords()), Records(), now)
      ensures warnings == Warnings(LimitRecords())
    {
      var monthlyExpenses := MonthlyExpenses(now);
      warnings := ApplyMonthlyExpenses(monthlyExpenses);
    }

    /**
     * The limit loop of checkSpendingLimits: overwrites every currentSpent from monthlyExpenses
     * and collects the warnings, in limit order.
     */
    method ApplyMonthlyExpenses(monthlyExpenses: map<Category?, real>) returns (warnings: seq<LimitWarning>)
      requires Valid()
      modifies spendingLimits
      ensures LimitRecords() == Rechecked(old(LimitRecords()), monthlyExpenses)
      ensures warnings == Warnings(LimitRecords())
    {
      ghost var start := LimitRecords();
      ghost var target := Rechecked(start, monthlyExpenses);
      var ls := spendingLimits;
      warnings := [];
      var j := 0;
      while j < |ls|
        invariant 0 <= j <= |ls|
        invariant forall k :: 0 <= k < |ls| ==>
          ls[k].Snapshot() == if k < j then start[k].(currentSpent := GetOrZero(monthlyExpenses, start[k].category)) else start[k]
        invariant warnings == Warnings(target[..j])
      {
        var warning := RecheckLimit(ls[j], monthlyExpenses);
        WarningsStep(target, j);
        if warning.Some? {
          warnings := warnings + [warning.value];
        }
        j := j + 1;
      }
      assert target[..j] == target;
    }

    /**
     * The body of the limit loop of checkSpendingLimits: sets currentSpent to the month's spending
     * of the limit's category and returns the warning it then prints, if any.
     */
    method RecheckLimit(sl: SpendingLimit, monthlyExpenses: map<Category?, real>) returns (warning: Option<LimitWarning>)
      modifies sl
      ensures sl.Snapshot() == old(sl.Snapshot()).(currentSpent := GetOrZero(monthlyExpenses, sl.category))
      ensures warning == Warning(sl.Snapshot())
    {
      var spent := GetOrZero(monthlyExpenses, sl.category);
      sl.SetCurrentSpent(spent);
      WarningCases(sl.Snapshot());
      warning := None;
      if sl.monthlyLimit > 0.0 {
        if spent >= sl.monthlyLimit {
          warning := Some(LimitWarning(Exceeded, sl.category, spent, sl.monthlyLimit));
        } else if spent >= 4.0 / 5.0 * sl.monthlyLimit {
          warning := Some(LimitWarning(Approaching, sl.category, spent, sl.monthlyLimit));
        }
      }
    }

    // ----- Loading

    function CategoryKeys(): seq<CategoryKey>
      reads this`categories, categories
    {
      var cs := categories;
      seq(|cs|, i requires 0 <= i < |cs| reads cs => cs[i].Key())
    }

    /**
     * The category relinking puts in place of x: the first category of the list with x's name
     * and type, or x itself when x is null or no category matches.
     */
    function Canonical(x: Category?): Category?
      reads this`categories, categories, x
    {
      if x == null then null
      else
        var i := FirstIndex(CategoryKeys(), x.Key());
        if i < |categories| then categories[i] else x
    }

    /**
     * A relinked reference is null exactly when it was, keeps its name and type, is the first
     * category of the list with them when there is one, and is left as it was otherwise.
     */
    lemma CanonicalEffect(x: Category?)
      ensures Canonical(x) == null <==> x == null
      ensures x != null ==> Canonical(x).Key() == x.Key()
      ensures x != null && x.Key() in CategoryKeys() ==>
        exists i :: 0 <= i < |categories| && Canonical(x) == categories[i] &&
          categories[i].Key() == x.Key() && forall j :: 0 <= j < i ==> categories[j].Key() != x.Key()
      ensures x != null && x.Key() !in CategoryKeys() ==> Canonical(x) == x
    {
      if x != null {
        var i := FirstIndex(CategoryKeys(), x.Key());
        if i < |categories| {
          assert CategoryKeys()[i] == categories[i].Key();
          forall j | 0 <= j < i ensures categories[j].Key() != x.Key() {
            assert CategoryKeys()[j] == categories[j].Key();
          }
        }
      }
    }

    /** Relinking a relinked reference changes nothing. */
    lemma CanonicalIdempotent(x: Category?)
      ensures Canonical(Canonical(x)) == Canonical(x)
    {
      if x != null {
        var i := FirstIndex(CategoryKeys(), x.Key());
        if i < |categories| {
          assert CategoryKeys()[i] == categories[i].Key();
          assert FirstIndex(CategoryKeys(), categories[i].Key()) == i;
        }
      }
    }

    /** The inner loop of the relinking: the position of the first category with x's name and type. */
    method FindCategory(x: Category) returns (index: nat)
      ensures index == FirstIndex(CategoryKeys(), x.Key())
    {
      index := 0;
      while index < |categories|
        invariant index <= |categories|
        invariant forall j :: 0 <= j < index ==> CategoryKeys()[j] != x.Key()
      {
        var category := categories[index];
        if category.name == x.name && category.kind == x.kind {
          assert CategoryKeys()[index] == x.Key();
          return;
        }
        index := index + 1;
      }
    }

    /**
     * linkCategoriesInTransactions: every transaction, then every limit, gets the canonical
     * category in place of its own; nothing else changes and no list changes.
     */
    method LinkCategoriesInTransactions()
      requires Valid()
      modifies transactions, spendingLimits
      ensures forall j :: 0 <= j < |transactions| ==>
        transactions[j].Snapshot() == old(transactions[j].Snapshot()).(category := Canonical(old(transactions[j].category)))
      ensures forall j :: 0 <= j < |spendingLimits| ==>
        spendingLimits[j].Snapshot() == old(spendingLimits[j].Snapshot()).(category := Canonical(old(spendingLimits[j].category)))
    {
      LinkTransactions();
      LinkLimits();
    }

    /** The first loop of the relinking, over the transactions. */
    method LinkTransactions()
      modifies transactions
      ensures forall j :: 0 <= j < |transactions| ==>
        transactions[j].Snapshot() == old(transactions[j].Snapshot()).(category := Canonical(old(transactions[j].category)))
    {
      var ts := transactions;
      ghost var start := seq(|ts|, j requires 0 <= j < |ts| reads ts => ts[j].Snapshot());
      ghost var linked := set j | 0 <= j < |ts| :: start[j].category;
      ghost var canon := seq(|ts|, j requires 0 <= j < |ts| reads this, categories, linked =>
        Canonical(start[j].category));
      var i := 0;
      while i < |ts|
        invariant 0 <= i <= |ts|
        invariant forall j :: 0 <= j < |ts| ==>
          ts[j].Snapshot() == if ts[j] in ts[..i] then start[j].(category := canon[j]) else start[j]
      {
        var t := ts[i];
        CanonicalUnchanged(start[i].category);
        CanonicalIdempotent(start[i].category);
        RelinkTransaction(t);
        assert ts[..i + 1] == ts[..i] + [t];
        i := i + 1;
      }
      assert ts[..i] == ts;
      forall j | 0 <= j < |ts| ensures Canonical(start[j].category) == canon[j] {
        CanonicalUnchanged(start[j].category);
      }
    }

    /** Relinking changes only transactions and limits, so the canonical category of x stays what it was. */
    twostate lemma CanonicalUnchanged(x: Category?)
      requires unchanged(this) && unchanged(categories)
      requires x != null ==> unchanged(x)
      ensures Canonical(x) == old(Canonical(x))
    {
    }

    /** The second loop of the relinking, over the spending limits. */
    method LinkLimits()
      requires Valid()
      modifies spendingLimits
      ensures forall j :: 0 <= j < |spendingLimits| ==>
        spendingLimits[j].Snapshot() == old(spendingLimits[j].Snapshot()).(category := Canonical(old(spendingLimits[j].category)))
    {
      var ls := spendingLimits;
      ghost var start := seq(|ls|, j requires 0 <= j < |ls| reads ls => ls[j].Snapshot());
      var i := 0;
      while i < |ls|
        invariant 0 <= i <= |ls|
        invariant forall j :: 0 <= j < |ls| ==>
          ls[j].Snapshot() == if j < i then start[j].(category := Canonical(start[j].category)) else start[j]
      {
        var l := ls[i];
        RelinkLimit(l);
        i := i + 1;
      }
    }

    /** One step of the first relinking loop: t's category becomes its canonical one. */
    method RelinkTransaction(t: Transaction)
      modifies t
      ensures t.Snapshot() == old(t.Snapshot()).(category := old(Canonical(t.category)))
    {
      if t.category != null {
        var k := FindCategory(t.category);
        if k < |categories| {
          t.SetCategory(categories[k]);
        }
      }
    }

    /** One step of the second relinking loop: l's category becomes its canonical one. */
    method RelinkLimit(l: SpendingLimit)
      modifies l
      ensures l.Snapshot() == old(l.Snapshot()).(category := Canonical(old(l.category)))
    {
      if l.category != null {
        var k := FindCategory(l.category);
        if k < |categories| {
          l.SetCategory(categories[k]);
        }
      }
    }

    /**
     * The part of loadFromFile after decoding: a null wrapper changes nothing; otherwise each
     * list is replaced by the decoded one (a missing list by an empty one) and categories are
     * relinked.
     */
    method LoadFromDecoded(wrapper: Option<DataWrapper>)
      requires Distinct(LoadedLimits(wrapper))
      requires Valid()
      modifies this, LoadedTransactions(wrapper), LoadedLimits(wrapper)
      ensures Valid()
      ensures wrapper.None? ==>
        transactions == old(transactions) && categories == old(categories) &&
        spendingLimits == old(spendingLimits)
      ensures wrapper.Some? ==>
        transactions == LoadedTransactions(wrapper) && categories == LoadedCategories(wrapper) &&
        spendingLimits == LoadedLimits(wrapper)
      ensures wrapper.Some? ==> forall j :: 0 <= j < |transactions| ==>
        var t := LoadedTransactions(wrapper)[j];
        t.Snapshot() == old(t.Snapshot()).(category := Canonical(old(t.category)))
      ensures wrapper.Some? ==> forall j :: 0 <= j < |spendingLimits| ==>
        var l := LoadedLimits(wrapper)[j];
        l.Snapshot() == old(l.Snapshot()).(category := Canonical(old(l.category)))
    {
      if wrapper.Some? {
        var w := wrapper.value;
        transactions := w.transactions.GetOr([]);
        categories := w.categories.GetOr([]);
        spendingLimits := w.spendingLimits.GetOr([]);
        LinkCategoriesInTransactions();
      }
    }
  }

  /** The limit objects that removeIf keeps are those whose snapshots WithoutLimitsFor keeps. */
  lemma KeptSnapshots(ls: seq<SpendingLimit>, recs: seq<LimitRecord>, c: Category?)
    requires |ls| == |recs| && forall i :: 0 <= i < |ls| ==> recs[i] == ls[i].Snapshot()
    requires forall i :: 0 <= i < |recs| ==> recs[i].category != null
    ensures |Select(ls, recs, NotFor(c))| == |WithoutLimitsFor(recs, c)|
    ensures forall j :: 0 <= j < |Select(ls, recs, NotFor(c))| ==>
      Select(ls, recs, NotFor(c))[j].Snapshot() == WithoutLimitsFor(recs, c)[j]
    ensures forall l :: l in Select(ls, recs, NotFor(c)) ==> l.category != null && l.category != c
  {
    var kept := Select(ls, recs, NotFor(c));
    SelectAt(ls, recs, NotFor(c));
    SelectAt(recs, recs, NotFor(c));
    var ix := Kept(recs, NotFor(c));
    forall j | 0 <= j < |kept|
      ensures kept[j].Snapshot() == WithoutLimitsFor(recs, c)[j]
      ensures kept[j].category != null && kept[j].category != c
    {
      assert kept[j] == ls[ix[j]] && recs[ix[j]] == ls[ix[j]].Snapshot();
    }
  }

  /**
   * deleteCategory(first) on a ledger holding a transaction in first, then deleting any other
   * category: the first deletion nulls that transaction's category, so the second deletion's
   * loop as written throws on it.
   */
  method SecondDeletionThrows(tracker: FinanceTracker, t: Transaction, first: Category, second: Category)
    requires tracker.Valid() && tracker.LimitsLinked()
    requires t in tracker.transactions && t.category == first
    modifies tracker, tracker.transactions
    ensures t in tracker.transactions && t.category == null
    ensures ClearCategoryAsWritten(tracker.transactions, second).None?
  {
    var k :| 0 <= k < |tracker.transactions| && tracker.transactions[k] == t;
    tracker.DeleteCategory(first);
    assert tracker.Records()[k].category == null;
    ClearCategoryAsWrittenOutcome(tracker.transactions, second);
  }

  /**
   * addTransaction(t) then removeTransaction(t) restores the balance and every limit, and also
   * the list when t was not in it before.
   */
  method AddThenRemove(tracker: FinanceTracker, t: Transaction)
    requires tracker.Valid()
    requires t.kind.Expense? ==> tracker.LimitsLinked()
    modifies tracker, tracker.spendingLimits
    ensures tracker.Valid() && tracker.LimitsLinked() == old(tracker.LimitsLinked())
    ensures Balance(tracker.Records()) == old(Balance(tracker.Records()))
    ensures tracker.LimitRecords() == old(tracker.LimitRecords())
    ensures t !in old(tracker.transactions) ==> tracker.transactions == old(tracker.transactions)
  {
    ghost var ts, recs, r := tracker.transactions, tracker.Records(), t.Snapshot();
    ghost var limits := tracker.LimitRecords();
    tracker.AddTransaction(t);
    assert t.Snapshot() == r;
    ghost var added := tracker.LimitRecords();
    assert added == UpdateSpent(limits, r, true);
    assert Consistent(ts + [t], recs + [r]) by {
      assert tracker.transactions == ts + [t] && tracker.Records() == recs + [r];
    }
    tracker.RemoveTransaction(t);
    assert t.Snapshot() == r;
    assert tracker.LimitRecords() == UpdateSpent(added, r, false);
    AddThenRemoveRestoresBalance(ts, recs, t, r);
    UpdateSpentInverse(limits, r);
    if t !in ts {
      RemoveFirstAfterAppend(ts, t);
    }
  }

  /** A second checkSpendingLimits in the same month changes no limit and prints the same warnings. */
  method CheckTwice(tracker: FinanceTracker, now: YearMonth) returns (first: seq<LimitWarning>, second: seq<LimitWarning>)
    requires tracker.Valid()
    modifies tracker.spendingLimits
    ensures tracker.LimitRecords() == Recheck(old(tracker.LimitRecords()), tracker.Records(), now)
    ensures first == second
  {
    first := tracker.CheckSpendingLimits(now);
    ghost var once := tracker.LimitRecords();
    second := tracker.CheckSpendingLimits(now);
    RecheckIdempotent(old(tracker.LimitRecords()), tracker.Records(), now);
  }
}
