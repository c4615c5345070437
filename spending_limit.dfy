/** A monthly cap on one category, with the amount spent against it so far. */
module SpendingLimits {
  import opened Categories

  /** The three fields of a SpendingLimit at one moment. */
  datatype LimitRecord = LimitRecord(category: Category?, monthlyLimit: real, currentSpent: real)

  class SpendingLimit {
    var category: Category?
    var monthlyLimit: real
    var currentSpent: real

    /** No validation: a limit of 0 or less is stored as given. */
    constructor (category: Category?, monthlyLimit: real)
      ensures Snapshot() == LimitRecord(category, monthlyLimit, 0.0)
    {
      this.category := category;
      this.monthlyLimit := monthlyLimit;
      this.currentSpent := 0.0;
    }

    function Snapshot(): LimitRecord
      reads this
    {
      LimitRecord(category, monthlyLimit, currentSpent)
    }

    method SetCategory(category: Category?)
      modifies this
      ensures Snapshot() == old(Snapshot()).(category := category)
    {
      this.category := category;
    }

    method SetMonthlyLimit(monthlyLimit: real)
      modifies this
      ensures Snapshot() == old(Snapshot()).(monthlyLimit := monthlyLimit)
    {
      this.monthlyLimit := monthlyLimit;
    }

    method SetCurrentSpent(currentSpent: real)
      modifies this
      ensures Snapshot() == old(Snapshot()).(currentSpent := currentSpent)
    {
      this.currentSpent := currentSpent;
    }
  }
}
