/**
 * The budgets page (app/budgets/page.tsx): one utilisation row per budget,
 * and the two overview figures computed from the rows.
 */
module Budgets {
  import opened Seqs
  import opened Strings
  import opened Types

  /** One budget card: the budget's own fields and how much of it is used. */
  datatype BudgetRow = BudgetRow(
    budget: Budget,
    spent: real,
    percentage: real,
    remaining: real,
    isOverBudget: bool)

  /** The transactions charged against `b`: expenses in its category dated in its month. */
  function ChargedTo(b: Budget): Transaction -> bool
  {
    (t: Transaction) => t.kind == Expense && t.category == b.category && StartsWith(t.date, b.month)
  }

  /** The total of the transactions charged against `b`; never negative when no amount is. */
  function Spent(b: Budget, transactions: seq<Transaction>): (spent: real)
    ensures (forall t :: t in transactions ==> t.amount >= 0.0) ==> spent >= 0.0
  {
    SumNonNegative(Filter(transactions, ChargedTo(b)), TransactionAmount);
    SumOf(Filter(transactions, ChargedTo(b)), TransactionAmount)
  }

  function Min(x: real, y: real): real
  {
    if x <= y then x else y
  }

  /** The `budgets.map` callback: the row of one budget. */
  function Utilisation(b: Budget, transactions: seq<Transaction>): (row: BudgetRow)
    ensures row.budget == b && row.spent == Spent(b, transactions)
    ensures row.percentage <= 100.0
    ensures row.spent + row.remaining == b.amount
    ensures row.isOverBudget <==> row.spent > b.amount
  {
    var spent := Spent(b, transactions);
    var percentage := if b.amount > 0.0 then spent / b.amount * 100.0 else 0.0;
    BudgetRow(b, spent, Min(percentage, 100.0), b.amount - spent, spent > b.amount)
  }

  /** `budgetData`: one row per budget, in the budgets' order; duplicate budgets get a row each. */
  function BudgetData(budgets: seq<Budget>, transactions: seq<Transaction>): (rows: seq<BudgetRow>)
    ensures |rows| == |budgets|
    ensures forall i :: 0 <= i < |rows| ==> rows[i].budget == budgets[i]
    ensures forall i :: 0 <= i < |rows| ==> rows[i].spent == Spent(budgets[i], transactions)
    ensures forall i :: 0 <= i < |rows| ==> rows[i] == Utilisation(budgets[i], transactions)
  {
    seq(|budgets|, i requires 0 <= i < |budgets| => Utilisation(budgets[i], transactions))
  }

  /**
   * The percentage is the share of the budget spent, capped at 100: 0 when
   * the budget is not positive, 100 once the spending reaches the budget,
   * and the exact share below that. It is never negative when no amount is.
   */
  lemma PercentageIsCappedShare(b: Budget, transactions: seq<Transaction>)
    ensures var row := Utilisation(b, transactions);
      && (b.amount <= 0.0 ==> row.percentage == 0.0)
      && (b.amount > 0.0 && row.spent >= b.amount ==> row.percentage == 100.0)
      && (b.amount > 0.0 && row.spent < b.amount ==> row.percentage == row.spent / b.amount * 100.0 < 100.0)
      && ((forall t :: t in transactions ==> t.amount >= 0.0) ==> 0.0 <= row.percentage <= 100.0)
  {
    var spent := Spent(b, transactions);
    if b.amount > 0.0 {
      ShareOfPositive(spent, b.amount);
    }
  }

  /** Where a share of a positive amount lies: at least one from the amount up, below one under it. */
  lemma ShareOfPositive(part: real, whole: real)
    requires whole > 0.0
    ensures part >= whole ==> part / whole >= 1.0
    ensures part < whole ==> part / whole < 1.0
    ensures part >= 0.0 ==> part / whole >= 0.0
  {
    var q := part / whole;
    assert q * whole == part;
  }

  /** A budget that is over (with a positive amount) shows a full bar. */
  lemma OverBudgetShowsFull(b: Budget, transactions: seq<Transaction>)
    requires b.amount > 0.0 && Utilisation(b, transactions).isOverBudget
    ensures Utilisation(b, transactions).percentage == 100.0
  {
    PercentageIsCappedShare(b, transactions);
  }

  /** With nothing charged against a budget, nothing is spent and all of it remains. */
  lemma NothingCharged(b: Budget, transactions: seq<Transaction>)
    requires forall t :: t in transactions ==> !ChargedTo(b)(t)
    ensures var row := Utilisation(b, transactions);
      row.spent == 0.0 && row.remaining == b.amount && row.percentage == 0.0
      && (row.isOverBudget <==> b.amount < 0.0)
  {
    SumNoneSelected(transactions, ChargedTo(b), TransactionAmount);
  }

  /** Recording one more transaction raises the spending of exactly the budgets it is charged to, by its amount. */
  lemma SpentAfterAdding(b: Budget, transactions: seq<Transaction>, t: Transaction)
    ensures Spent(b, transactions + [t]) == Spent(b, transactions) + (if ChargedTo(b)(t) then t.amount else 0.0)
  {
    FilterAppendOne(transactions, t, ChargedTo(b));
    SumAppend(Filter(transactions, ChargedTo(b)), if ChargedTo(b)(t) then [t] else [], TransactionAmount);
  }

  /** A spending that is recorded in another month, another category or as income is not charged. */
  lemma OnlyMatchingExpensesCount(b: Budget, transactions: seq<Transaction>, t: Transaction)
    requires t.kind == Income || t.category != b.category || !StartsWith(t.date, b.month)
    ensures Spent(b, transactions + [t]) == Spent(b, transactions)
  {
    SpentAfterAdding(b, transactions, t);
  }

  function RowAmount(row: BudgetRow): real { row.budget.amount }

  function IsOverBudget(row: BudgetRow): bool { row.isOverBudget }

  /** "Total Budgeted": the sum of the rows' budget amounts; never negative when no amount is. */
  function TotalBudgeted(rows: seq<BudgetRow>): (total: real)
    ensures (forall row :: row in rows ==> row.budget.amount >= 0.0) ==> total >= 0.0
  {
    SumNonNegative(rows, RowAmount);
    SumOf(rows, RowAmount)
  }

  /** "Over Budget": how many rows are over budget. */
  function OverBudgetCount(rows: seq<BudgetRow>): (n: nat)
    ensures n <= |rows|
  {
    |Filter(rows, IsOverBudget)|
  }

  /** The budgets whose spending exceeds their amount. */
  function Overspent(transactions: seq<Transaction>): Budget -> bool
  {
    (b: Budget) => Spent(b, transactions) > b.amount
  }

  /** The overview figures count the budgets themselves: the total of their amounts, and how many are overspent. */
  lemma OverviewFigures(budgets: seq<Budget>, transactions: seq<Transaction>)
    ensures TotalBudgeted(BudgetData(budgets, transactions)) == SumOf(budgets, BudgetAmount)
    ensures OverBudgetCount(BudgetData(budgets, transactions)) == |Filter(budgets, Overspent(transactions))|
  {
    var rows := BudgetData(budgets, transactions);
    SumPointwise(rows, RowAmount, budgets, BudgetAmount);
    CountPointwise(rows, IsOverBudget, budgets, Overspent(transactions));
  }

  /** The worked example: two food expenses of 150 and 80 in June 2024 against a budget of 200. */
  lemma OverspentFoodExample()
    ensures var b := Budget("b", "Food", 200.0, "2024-06", "1");
      var ts := [Transaction("t1", Expense, 150.0, "Food", "", "2024-06-05", "1"),
                 Transaction("t2", Expense, 80.0, "Food", "", "2024-06-20", "1")];
      Utilisation(b, ts) == BudgetRow(b, 230.0, 100.0, -30.0, true)
  {
    var b := Budget("b", "Food", 200.0, "2024-06", "1");
    var ts := [Transaction("t1", Expense, 150.0, "Food", "", "2024-06-05", "1"),
               Transaction("t2", Expense, 80.0, "Food", "", "2024-06-20", "1")];
    assert "2024-06-05"[..7] == "2024-06" && "2024-06-20"[..7] == "2024-06";
    FilterAll(ts, ChargedTo(b));
    assert ts[1..][1..] == [];
    assert SumOf(ts, TransactionAmount) == 230.0;
  }
}
