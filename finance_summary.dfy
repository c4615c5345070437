/** The result of a monthly summary. */
module Summaries {
  import opened Categories

  /**
   * netBalance is stored, not derived: nothing here ties it to the two totals; the ledger's
   * monthly summary is what supplies income minus expenses. The breakdown is keyed by category
   * reference, and a null category is a key of its own.
   */
  datatype FinanceSummary = FinanceSummary(
    totalIncome: real, totalExpenses: real, netBalance: real, categoryBreakdown: map<Category?, real>)
}
