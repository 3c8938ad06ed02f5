/**
 * The four records of the expense tracker (lib/types.ts). Amounts are exact
 * `real`s; dates are `YYYY-MM-DD` strings and budget months `YYYY-MM`
 * strings, as stored. A record's `type` field is called `kind` here, since
 * `type` is a Dafny keyword.
 */
module Types {

  datatype Kind = Income | Expense

  datatype Frequency = Weekly | Monthly | Yearly

  datatype Transaction = Transaction(
    id: string,
    kind: Kind,
    amount: real,
    category: string,
    description: string,
    date: string,
    userId: string)

  datatype Category = Category(
    id: string,
    name: string,
    kind: Kind,
    color: string,
    userId: string)

  datatype Budget = Budget(
    id: string,
    category: string,
    amount: real,
    month: string,
    userId: string)

  datatype RecurringTransaction = RecurringTransaction(
    id: string,
    kind: Kind,
    amount: real,
    category: string,
    description: string,
    frequency: Frequency,
    nextDate: string,
    userId: string)

  // Projections, named so that sums over them are stated once.

  function TransactionAmount(t: Transaction): real { t.amount }

  function BudgetAmount(b: Budget): real { b.amount }

  function RecurringAmount(r: RecurringTransaction): real { r.amount }

  /** `t.type === kind` as a predicate value. */
  function OfKind(kind: Kind): Transaction -> bool
  {
    (t: Transaction) => t.kind == kind
  }
}
