/** A user-defined classification, shared by reference between transactions and spending limits. */
module Categories {

  datatype CategoryType = Income | Expense

  /** The (name, type) pair that relinking after a load compares. */
  datatype CategoryKey = CategoryKey(name: string, kind: CategoryType)

  /**
   * Category has no equals override: two categories with the same name and type are still
   * distinct objects for List.remove, removeIf and HashMap keys, as Dafny references are.
   */
  class Category {
    var name: string
    var kind: CategoryType

    constructor (name: string, kind: CategoryType)
      ensures this.name == name && this.kind == kind
    {
      this.name := name;
      this.kind := kind;
    }

    function Key(): CategoryKey
      reads this
    {
      CategoryKey(name, kind)
    }

    method SetName(name: string)
      modifies this
      ensures this.name == name && kind == old(kind)
    {
      this.name := name;
    }

    method SetType(kind: CategoryType)
      modifies this
      ensures this.kind == kind && name == old(name)
    {
      this.kind := kind;
    }
  }
}
