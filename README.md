# FinanceTracker ledger core in Dafny

This project models the ledger engine of the FinanceTracker application. The engine holds three insertion-ordered lists: transactions, categories and spending limits. Its operations change those lists, and the objects in them, in place:

- adding and removing transactions, with incremental spending-limit bookkeeping;
- adding, renaming and deleting categories, where a deletion clears the category from transactions and drops its limits;
- setting and removing spending limits;
- re-checking every limit against the expenses of a month and classifying it as exceeded or approaching;
- the relinking pass after loading, which replaces decoded category copies with the stored category of the same name and type.

Categories, transactions and spending limits are Dafny classes, because the Java classes override no `equals`. Every `remove`, `removeIf`, `equals` and map lookup in the ledger therefore compares object references, and a rename is seen by every holder of the category object.

The ledger is a class with three `seq` fields. Each operation is specified by a pure function on value snapshots of the objects:

- `TransactionRecord` and `LimitRecord` are the snapshots;
- `Reports` defines the queries and the category clearing;
- `LimitRules` defines the limit bookkeeping, the re-check and the warnings.

The lemmas about those functions state the properties the ledger promises. Some of them relate several calls: add followed by remove, re-checking twice, and set or remove as seen by each category.

Modules:

| module | file | models |
|---|---|---|
| `Options` | options.dfy | nullable values (`Option`) |
| `Calendar` | calendar.dfy | `LocalDate` as (year, month, day) in lexicographic order; `YearMonth.from` |
| `Categories` | category.dfy | `Category` with a mutable name and type |
| `Transactions` | transaction.dfy | `Transaction` with five mutable fields |
| `SpendingLimits` | spending_limit.dfy | `SpendingLimit` with a category reference, a monthly limit and the current spend |
| `Summaries` | finance_summary.dfy | `FinanceSummary` as an immutable value; the ledger only calls its constructor |
| `Sequences` | sequences.dfy | first-occurrence removal (`List.remove`) and order-preserving selection (`removeIf`, filtering loops) |
| `Reports` | reports.dfy | balance, monthly summary, filter and category clearing as functions of the records |
| `LimitRules` | limit_rules.dfy | limit bookkeeping, the monthly re-check, and warning classification |
| `Ledger` | finance_tracker.dfy | the `FinanceTracker` class and two client methods that compose its operations |

Other modelling choices:

- Amounts are `real`, and the 80% threshold is `4.0 / 5.0`.
- The current month of `checkSpendingLimits` is a parameter.
- The printed warnings are returned as a sequence of `LimitWarning` events.

## Model

| member | source | states |
|---|---|---|
| Categories.Category.constructor | Coding/src/main/java/com/example/Category.java:8-11 | name and type are stored exactly as given |
| Categories.Category.SetName | Coding/src/main/java/com/example/Category.java:14 | only the name changes; the type is kept |
| Categories.Category.SetType | Coding/src/main/java/com/example/Category.java:17 | only the type changes; the name is kept |
| Transactions.Transaction.constructor | Coding/src/main/java/com/example/Transaction.java:13-19 | all five fields are stored as given, with no validation of sign or category (a null category and a zero amount are accepted) |
| Transactions.Transaction.SetDescription | Coding/src/main/java/com/example/Transaction.java:22 | the description is overwritten and the other four fields are unchanged |
| Transactions.Transaction.SetAmount | Coding/src/main/java/com/example/Transaction.java:25 | the amount is overwritten and the other four fields are unchanged |
| Transactions.Transaction.SetDate | Coding/src/main/java/com/example/Transaction.java:28 | the date is overwritten and the other four fields are unchanged |
| Transactions.Transaction.SetType | Coding/src/main/java/com/example/Transaction.java:31 | the type is overwritten and the other four fields are unchanged |
| Transactions.Transaction.SetCategory | Coding/src/main/java/com/example/Transaction.java:34 | the category reference is overwritten and the other four fields are unchanged |
| SpendingLimits.SpendingLimit.constructor | Coding/src/main/java/com/example/SpendingLimit.java:8-12 | category and monthly limit are stored as given (0 included), and the current spend starts at 0 |
| SpendingLimits.SpendingLimit.SetCategory | Coding/src/main/java/com/example/SpendingLimit.java:15 | only the category reference changes |
| SpendingLimits.SpendingLimit.SetMonthlyLimit | Coding/src/main/java/com/example/SpendingLimit.java:18 | only the monthly limit changes |
| SpendingLimits.SpendingLimit.SetCurrentSpent | Coding/src/main/java/com/example/SpendingLimit.java:21 | only the current spend changes |
| Ledger.FinanceTracker.constructor | Coding/src/main/java/com/example/FinanceTracker.java:21-23 | a new ledger has three empty lists |
| Ledger.FinanceTracker.AddTransaction | Coding/src/main/java/com/example/FinanceTracker.java:26-29 | the transaction is appended last; the limits list is the same, and each limit's record is updated by `UpdateSpent` with add; nothing else changes |
| Ledger.FinanceTracker.RemoveTransaction | Coding/src/main/java/com/example/FinanceTracker.java:31-34 | only the first occurrence is removed and the rest keep their order; the limits are debited by `UpdateSpent` even when the transaction was not in the list |
| Ledger.FinanceTracker.UpdateSpendingLimit | Coding/src/main/java/com/example/FinanceTracker.java:147-160 | the limit records become `UpdateSpent` of the old ones, and no limit loses its category |
| LimitRules.UpdateSpentEffect | Coding/src/main/java/com/example/FinanceTracker.java:147-160 | an EXPENSE adds (or subtracts) its amount to every limit whose category is the same object, whatever the transaction's date; INCOME and other categories change nothing; category and monthly limit never change |
| LimitRules.UpdateSpentInverse | Coding/src/main/java/com/example/FinanceTracker.java:147-160 | debiting a transaction undoes crediting it |
| Sequences.RemoveFirstShape | Coding/src/main/java/com/example/FinanceTracker.java:32 | removal splits the list at the first occurrence and drops only that element; an absent element leaves the list unchanged |
| Sequences.RemoveFirstCount | Coding/src/main/java/com/example/FinanceTracker.java:32 | removal takes exactly one copy of the element out of the multiset of the list |
| Sequences.RemoveFirstAfterAppend | Coding/src/main/java/com/example/FinanceTracker.java:26-34 | removing an element just appended to a list that did not hold it restores the list |
| Reports.BalanceRemoveAt | Coding/src/main/java/com/example/FinanceTracker.java:116-123 | removing one transaction lowers the balance by its signed amount |
| Reports.BalanceConcat | Coding/src/main/java/com/example/FinanceTracker.java:116-123 | the balance is additive over any split of the list |
| Reports.BalanceSingle | Coding/src/main/java/com/example/FinanceTracker.java:116-123 | one transaction contributes +amount if INCOME and −amount otherwise |
| Reports.AddThenRemoveRestoresBalance | Coding/src/main/java/com/example/FinanceTracker.java:26-34 | appending a transaction and then removing its first occurrence leaves the balance as it was |
| Ledger.AddThenRemove | Coding/src/main/java/com/example/FinanceTracker.java:26-34 | add followed by remove restores the balance and every limit's current spend, and restores the transaction list when the transaction was not already in it |
| Ledger.FinanceTracker.AddCategory | Coding/src/main/java/com/example/FinanceTracker.java:36-38 | the category is appended last and the other lists are unchanged |
| Ledger.FinanceTracker.RenameCategory | Coding/src/main/java/com/example/FinanceTracker.java:40-42 | only the name of the shared object changes: every transaction and limit holding it sees the new name, and no list or record changes |
| Ledger.FinanceTracker.DeleteCategory | Coding/src/main/java/com/example/FinanceTracker.java:44-52 | the first occurrence leaves the category list; exactly the transactions holding the category lose it (`ClearCategory`); every limit for it is removed and the others keep their order and values |
| Ledger.FinanceTracker.UnlinkCategory | Coding/src/main/java/com/example/FinanceTracker.java:46-50 | the transaction records become `ClearCategory` of the old ones, and no transaction refers to the category afterwards |
| Reports.ClearCategoryEffect | Coding/src/main/java/com/example/FinanceTracker.java:46-50 | clearing keeps the length, sets the category to null exactly where it was the deleted one, and leaves every other record unchanged |
| Reports.DeletionLoopOutcome | Coding/src/main/java/com/example/FinanceTracker.java:46-50 | the loop as written, from any set of objects it has already cleared, completes exactly when every remaining visit finds a category that has not been set to null earlier in the loop, and then clears each position |
| Reports.ClearCategoryAsWrittenOutcome | Coding/src/main/java/com/example/FinanceTracker.java:46-50 | the loop as written throws exactly when some transaction has no category, or an object of the deleted category is listed a second time; otherwise every position is cleared as `Cleared` says |
| Reports.RepeatedObjectThrows | Coding/src/main/java/com/example/FinanceTracker.java:46-50 | a transaction of the deleted category listed once is cleared, but listed twice it makes the loop as written throw |
| Ledger.SecondDeletionThrows | Coding/src/main/java/com/example/FinanceTracker.java:44-52 | after deleting a category used by a transaction, that transaction is still listed and has no category, so the loop as written throws when any category is deleted next |
| Ledger.FinanceTracker.SetSpendingLimit | Coding/src/main/java/com/example/FinanceTracker.java:54-62 | the limit records become `SetLimit` of the old ones; for a positive limit one new limit object is appended after the surviving limits |
| LimitRules.SetLimitEffect | Coding/src/main/java/com/example/FinanceTracker.java:54-62 | afterwards the category has exactly one limit `(c, L, 0)`, placed last, if L > 0, and none otherwise; other categories' limits keep order and values |
| Ledger.FinanceTracker.RemoveSpendingLimit | Coding/src/main/java/com/example/FinanceTracker.java:65-67 | the limit objects for the category are dropped and the rest keep their order; the transactions and categories are unchanged |
| LimitRules.WithoutLimitsForEffect | Coding/src/main/java/com/example/FinanceTracker.java:65-67 | no limit is left for the category, and every other category's limits are unchanged |
| Ledger.KeptSnapshots | Coding/src/main/java/com/example/FinanceTracker.java:66 | the limit objects that `removeIf` keeps are exactly those whose records `WithoutLimitsFor` keeps, in the same order, and none of them is for the removed category |
| Ledger.FinanceTracker.AppendSpendingLimit | Coding/src/main/java/com/example/FinanceTracker.java:60 | a limit object not yet in the list is appended last, and the limit records gain its record |
| Sequences.SelectAt | Coding/src/main/java/com/example/FinanceTracker.java:51 | order-preserving selection yields exactly the kept positions, in increasing order |
| Sequences.SelectDistinct | Coding/src/main/java/com/example/FinanceTracker.java:51 | dropping elements keeps a list of distinct limit objects distinct |
| Ledger.FinanceTracker.GetMonthlySummary | Coding/src/main/java/com/example/FinanceTracker.java:69-87 | income is the sum of INCOME amounts dated in the month, expenses are the sum of the other in-month amounts, net is income minus expenses, and the breakdown is `Breakdown` of the in-month records |
| Reports.MonthTallyMeaning | Coding/src/main/java/com/example/FinanceTracker.java:73-84 | the loop's accumulation equals the income, expense and breakdown totals of the month's records |
| Reports.BreakdownKeys | Coding/src/main/java/com/example/FinanceTracker.java:81-82 | the breakdown has a key for exactly the categories that occur, the null category included |
| Reports.BreakdownSums | Coding/src/main/java/com/example/FinanceTracker.java:81-82 | each breakdown entry sums every amount with that category, INCOME and EXPENSE alike |
| Ledger.FinanceTracker.FilterTransactions | Coding/src/main/java/com/example/FinanceTracker.java:89-114 | the result is the order-preserving subsequence of the transactions whose record matches |
| Reports.Matches | Coding/src/main/java/com/example/FinanceTracker.java:93-109 | a transaction matches iff it is on or after a given start, on or before a given end, and, when a category is given, holds that same object |
| Reports.FilterWithoutCriteria | Coding/src/main/java/com/example/FinanceTracker.java:89-114 | with no start, end or category every transaction is returned, in order |
| Reports.FilterMembership | Coding/src/main/java/com/example/FinanceTracker.java:89-114 | a transaction is in the result iff it is in the list at a position whose record matches |
| Ledger.FinanceTracker.GetCurrentBalance | Coding/src/main/java/com/example/FinanceTracker.java:116-123 | the result is income minus expenses over all transactions |
| Ledger.FinanceTracker.CheckSpendingLimits | Coding/src/main/java/com/example/FinanceTracker.java:125-145 | the limit records become `Recheck` of the old ones over the month, and the warnings are those of the new records |
| Ledger.FinanceTracker.MonthlyExpenses | Coding/src/main/java/com/example/FinanceTracker.java:126-133 | the map is `SpentByCategory` of the records for the month |
| LimitRules.SpentIsBreakdown | Coding/src/main/java/com/example/FinanceTracker.java:128-133 | the month's expense map is the category breakdown of the EXPENSE records dated in the month |
| Ledger.FinanceTracker.ApplyMonthlyExpenses | Coding/src/main/java/com/example/FinanceTracker.java:134-144 | every limit's current spend is overwritten from the map (0 when absent), other fields unchanged; the warnings are those of the new records, in list order |
| Ledger.FinanceTracker.RecheckLimit | Coding/src/main/java/com/example/FinanceTracker.java:135-143 | one limit's current spend is overwritten from the map, and its warning is classified from the new values |
| LimitRules.RecheckSpent | Coding/src/main/java/com/example/FinanceTracker.java:125-145 | after a re-check each limit keeps its category and monthly limit, and its spend is the sum of the month's EXPENSE amounts for that category |
| LimitRules.RecheckIdempotent | Coding/src/main/java/com/example/FinanceTracker.java:125-145 | re-checking twice gives the same limits as re-checking once |
| LimitRules.RecheckDiscardsIncrements | Coding/src/main/java/com/example/FinanceTracker.java:134-136 | a re-check overwrites whatever the incremental bookkeeping accumulated |
| Ledger.CheckTwice | Coding/src/main/java/com/example/FinanceTracker.java:125-145 | two consecutive checks in the same month report the same warnings |
| LimitRules.Classify | Coding/src/main/java/com/example/FinanceTracker.java:137-143 | exceeded iff limit > 0 and spent ≥ limit; approaching iff limit > 0 and 0.8·limit ≤ spent < limit; nothing otherwise |
| LimitRules.WarningsMembership | Coding/src/main/java/com/example/FinanceTracker.java:134-144 | every limit that classifies produces its warning, and every warning comes from such a limit |
| Ledger.FinanceTracker.LoadFromDecoded | Coding/src/main/java/com/example/FinanceTracker.java:194-202 | a missing wrapper leaves the ledger unchanged; otherwise each missing list becomes empty, the lists are installed as decoded, and every transaction and limit is relinked to `Canonical` of its category |
| Ledger.FinanceTracker.LinkCategoriesInTransactions | Coding/src/main/java/com/example/FinanceTracker.java:209-236 | each transaction, then each limit, gets `Canonical` of its category; no other field and no list changes |
| Ledger.FinanceTracker.LinkTransactions | Coding/src/main/java/com/example/FinanceTracker.java:210-222 | each transaction gets `Canonical` of its category and keeps its other fields, also when one object is listed more than once |
| Ledger.FinanceTracker.LinkLimits | Coding/src/main/java/com/example/FinanceTracker.java:225-235 | each limit gets `Canonical` of its category and keeps its other fields |
| Ledger.FinanceTracker.RelinkTransaction | Coding/src/main/java/com/example/FinanceTracker.java:211-221 | one transaction gets `Canonical` of its category |
| Ledger.FinanceTracker.RelinkLimit | Coding/src/main/java/com/example/FinanceTracker.java:226-234 | one limit gets `Canonical` of its category |
| Ledger.FinanceTracker.FindCategory | Coding/src/main/java/com/example/FinanceTracker.java:213-220 | the search stops at the first category with the same name and type, or at the end of the list |
| Ledger.FinanceTracker.CanonicalEffect | Coding/src/main/java/com/example/FinanceTracker.java:211-221 | a null category stays null; a category with a matching (name, type) becomes the first such stored category; an unmatched one is kept; the name and type never change |
| Ledger.FinanceTracker.CanonicalIdempotent | Coding/src/main/java/com/example/FinanceTracker.java:209-236 | relinking an already relinked category changes nothing |

## Left out

- Saving and loading files: the JSON encoding and decoding (Gson) and the file reads and writes of `saveToFile` and `loadFromFile` are foreign code and I/O. `LoadFromDecoded` starts from the already decoded, possibly missing, wrapper.
- `LocalDateAdapter`: it only wraps `LocalDate.toString` and `LocalDate.parse`.
- The system clock: `YearMonth.now()` becomes the `now` parameter of `CheckSpendingLimits`.
- Console output: the two `System.out.println` warnings become `LimitWarning` events. They carry the category reference instead of its name.
- Ledger.FinanceTracker.CheckSpendingLimits: it does not model the NullPointerException raised when a limit with a null category is due a warning, because the printed message dereferences the category name.
- Floating point: amounts are exact `real`s, so no IEEE-754 `double` rounding is modelled.
- Ledger.FinanceTracker.AddTransaction: when the transaction is an EXPENSE, it requires every limit to have a category. The Java limit scan dereferences `sl.getCategory()` and throws otherwise. The same applies to Ledger.FinanceTracker.RemoveTransaction and Ledger.FinanceTracker.UpdateSpendingLimit.
- Ledger.FinanceTracker.DeleteCategory: it requires every limit to have a category, because `removeIf` dereferences it. The same applies to Ledger.FinanceTracker.RemoveSpendingLimit and Ledger.FinanceTracker.SetSpendingLimit.
- Ledger.FinanceTracker.SetSpendingLimit: it takes a non-null category. The Java method also accepts null and then appends a limit without a category.
- Ledger.FinanceTracker.LoadFromDecoded: it requires the decoded limits to be distinct objects, as `Valid` does for the ledger. The decoder allocates a fresh object for every stored entry. A null element inside a decoded list is not modelled.
- Ledger.FinanceTracker.Valid: the spending-limit objects must be pairwise distinct. Every limit is allocated by `setSpendingLimit` or by the decoder, so the ledger itself never repeats one. Appending through the list returned by `getSpendingLimits` is not modelled.
- The getters `getTransactions`, `getCategories` and `getSpendingLimits`: the lists are fields of the class. External mutation through the returned live lists is not modelled.
- `FinanceSummary` getters and setters: the ledger only constructs summaries. The model makes the summary an immutable datatype whose fields are read directly. Like the Java class, it does not enforce net = income − expenses; `GetMonthlySummary` supplies that value.
- `HashMap` iteration order: breakdowns and expense maps are Dafny `map`s, and the ledger never iterates over them.
- `MainApp` (the JavaFX user interface and its input checks) and `CategorySummary` (a display-only holder) are not part of this model.
- The helper methods `UnlinkCategory`, `MonthlyExpenses`, `ApplyMonthlyExpenses`, `RecheckLimit`, `LinkTransactions`, `LinkLimits`, `RelinkTransaction`, `RelinkLimit`, `FindCategory` and `AppendSpendingLimit` are loops, loop bodies or list operations that the Java writes inline. Their composition is exactly the Java method's, except `UnlinkCategory`, which is the corrected loop of the finding below.

## Findings

| source | as written | input that shows it | evidently intended | confidence | as-written member | corrected member |
|---|---|---|---|---|---|---|
| Coding/src/main/java/com/example/FinanceTracker.java:47 | `deleteCategory` calls `equals` on every transaction's category, so it throws a NullPointerException on a transaction without a category, including one it set to null earlier in the same loop | (1) one transaction in category A; delete A, which sets its category to null; then delete any other category B, and the second deletion throws (`Ledger.SecondDeletionThrows`). (2) one transaction object of category A listed twice; delete A, and the second visit throws (`Reports.RepeatedObjectThrows`) | transactions without a category are skipped, as the null check in `filterTransactions` (line 106) does, and matching ones are cleared | high; not executed | Reports.ClearCategoryAsWrittenOutcome | Ledger.FinanceTracker.DeleteCategory |
