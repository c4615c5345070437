/** A dated monetary movement. */
module Transactions {
  import opened Calendar
  import opened Categories

  datatype TransactionType = Income | Expense

  /** The five fields of a Transaction at one moment; the category stays a reference. */
  datatype TransactionRecord = TransactionRecord(
    description: string, amount: real, date: Date, kind: TransactionType, category: Category?)

  /**
   * No validation: any amount (negative or zero included) and any category, or none, whatever
   * its type. No equals override, so lists find a transaction only by reference.
   */
  class Transaction {
    var description: string
    var amount: real
    var date: Date
    var kind: TransactionType
    var category: Category?

    constructor (description: string, amount: real, date: Date, kind: TransactionType, category: Category?)
      ensures Snapshot() == TransactionRecord(description, amount, date, kind, category)
    {
      this.description := description;
      this.amount := amount;
      this.date := date;
      this.kind := kind;
      this.category := category;
    }

    function Snapshot(): TransactionRecord
      reads this
    {
      TransactionRecord(description, amount, date, kind, category)
    }

    method SetDescription(description: string)
      modifies this
      ensures Snapshot() == old(Snapshot()).(description := description)
    {
      this.description := description;
    }

    method SetAmount(amount: real)
      modifies this
      ensures Snapshot() == old(Snapshot()).(amount := amount)
    {
      this.amount := amount;
    }

    method SetDate(date: Date)
      modifies this
      ensures Snapshot() == old(Snapshot()).(date := date)
    {
      this.date := date;
    }

    method SetType(kind: TransactionType)
      modifies this
      ensures Snapshot() == old(Snapshot()).(kind := kind)
    {
      this.kind := kind;
    }

    method SetCategory(category: Category?)
      modifies this
      ensures Snapshot() == old(Snapshot()).(category := category)
    {
      this.category := category;
    }
  }
}
