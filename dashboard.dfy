/**
 * The dashboard (app/dashboard/page.tsx): the current month's transactions
 * and totals, the expense breakdown by category, the six-month series and
 * the recent list. "Today" is a parameter; the source reads the clock.
 */
module Dashboard {
  import opened Seqs
  import opened Strings
  import opened Dates
  import opened Types

  /** The transactions dated in `month` (a `YYYY-MM` prefix of their date). */
  function InMonth(month: string): Transaction -> bool
  {
    (t: Transaction) => StartsWith(t.date, month)
  }

  /** `currentMonthTransactions`: the transactions dated in `month`, in their order. */
  function MonthTransactions(transactions: seq<Transaction>, month: string): (r: seq<Transaction>)
    ensures forall t :: t in r <==> t in transactions && StartsWith(t.date, month)
    ensures forall t :: multiset(r)[t] == if StartsWith(t.date, month) then multiset(transactions)[t] else 0
  {
    FilterMultiset(transactions, InMonth(month));
    Filter(transactions, InMonth(month))
  }

  /**
   * The month-prefix test is calendar-month membership: a transaction with
   * a well-formed date lies in today's month key exactly when its date is in
   * today's year and month.
   */
  lemma PrefixTestIsCalendarMonth(t: Transaction, today: Date)
    requires Valid(today) && 0 <= today.year <= 9999
    requires ParseDate(t.date).Some?
    ensures var d := ParseDate(t.date).value;
      InMonth(MonthKey(today))(t) <==> d.year == today.year && d.month == today.month
  {
    var d := ParseDate(t.date).value;
    ParseThenFormat(t.date);
    assert d.year == Value(t.date[..4]);
    assert Pow10(4) == 10000;
    MonthKeyIdentifiesMonth(d, today);
  }

  datatype Summary = Summary(totalIncome: real, totalExpenses: real, netIncome: real)

  /** `totalIncome`, `totalExpenses` and `netIncome` of a list of transactions. */
  function Summarise(current: seq<Transaction>): (s: Summary)
    ensures s.totalIncome == SumOf(Filter(current, OfKind(Income)), TransactionAmount)
    ensures s.totalExpenses == SumOf(Filter(current, OfKind(Expense)), TransactionAmount)
    ensures s.netIncome == s.totalIncome - s.totalExpenses
    ensures s.totalIncome + s.totalExpenses == SumOf(current, TransactionAmount)
  {
    SumSplit(current, OfKind(Income), OfKind(Expense), TransactionAmount);
    var income := SumOf(Filter(current, OfKind(Income)), TransactionAmount);
    var expenses := SumOf(Filter(current, OfKind(Expense)), TransactionAmount);
    Summary(income, expenses, income - expenses)
  }

  // ---- Expenses by category ----

  /** One slice of the pie chart. */
  datatype CategoryTotal = CategoryTotal(category: string, amount: real, color: string)

  /** The colour of a slice whose category has no colour of its own. */
  const FallbackColor: string := "#8b5cf6"

  function RowNamed(name: string): CategoryTotal -> bool { (r: CategoryTotal) => r.category == name }

  function InCategory(name: string): Transaction -> bool { (t: Transaction) => t.category == name }

  function TotalAmount(r: CategoryTotal): real { r.amount }

  /**
   * `category?.color || "#8b5cf6"`, where `category` is what `categories.find`
   * returns: the first category with this name, searched from the front.
   */
  function ColorFor(categories: seq<Category>, name: string): (color: string)
    ensures color != ""
  {
    if categories == [] then FallbackColor
    else if categories[0].name == name then
      (if categories[0].color == "" then FallbackColor else categories[0].color)
    else ColorFor(categories[1..], name)
  }

  /**
   * A slice's colour is that of the first category with its name, or the
   * fallback when there is no such category or its colour is empty.
   */
  lemma {:induction false} ColorOfFirstNamedCategory(categories: seq<Category>, name: string)
    ensures (forall c :: c in categories ==> c.name != name) ==> ColorFor(categories, name) == FallbackColor
    ensures forall i :: (
              0 <= i < |categories| && categories[i].name == name
              && (forall j :: 0 <= j < i ==> categories[j].name != name)
              ==> ColorFor(categories, name) == (if categories[i].color == "" then FallbackColor else categories[i].color))
  {
    if categories != [] && categories[0].name != name {
      var rest := categories[1..];
      ColorOfFirstNamedCategory(rest, name);
      assert ColorFor(categories, name) == ColorFor(rest, name);
      assert forall c :: c in rest ==> c in categories;
      forall i | 1 <= i < |categories| && categories[i].name == name
        && (forall j :: 0 <= j < i ==> categories[j].name != name)
        ensures categories[1..][i - 1].name == name && forall j :: 0 <= j < i - 1 ==> categories[1..][j].name != name
      {
        assert categories[0].name != name;
      }
    }
  }

  /** Whether some expense of `expenses` is in category `name`. */
  predicate Occurs(expenses: seq<Transaction>, name: string)
  {
    FindIndex(expenses, InCategory(name)) != -1
  }

  /** The distinct categories of `expenses`, in the order of their first appearance. */
  function CategoriesOf(expenses: seq<Transaction>): (names: seq<string>)
  {
    if expenses == [] then []
    else
      var names := CategoriesOf(expenses[..|expenses| - 1]);
      var c := expenses[|expenses| - 1].category;
      if c in names then names else names + [c]
  }

  /** No category is listed twice. */
  lemma {:induction false} CategoriesAreDistinct(expenses: seq<Transaction>)
    ensures NoDuplicates(CategoriesOf(expenses))
  {
    if expenses != [] {
      CategoriesAreDistinct(expenses[..|expenses| - 1]);
    }
  }

  /** Every category that occurs among the expenses is listed, and nothing else is. */
  lemma {:induction false} CategoriesListsEachOnce(expenses: seq<Transaction>)
    ensures forall n :: n in CategoriesOf(expenses) <==> Occurs(expenses, n)
  {
    if expenses != [] {
      var init := expenses[..|expenses| - 1];
      var t := expenses[|expenses| - 1];
      CategoriesListsEachOnce(init);
      assert expenses == init + [t];
      forall n ensures Occurs(expenses, n) <==> Occurs(init, n) || t.category == n {
        FindIndexAppendOne(init, t, InCategory(n));
      }
    }
  }

  /** The categories are listed in the order in which each first occurs among the expenses. */
  lemma {:induction false} CategoriesInFirstAppearanceOrder(expenses: seq<Transaction>, i: nat, j: nat)
    requires i < j < |CategoriesOf(expenses)|
    ensures var names := CategoriesOf(expenses);
      0 <= FindIndex(expenses, InCategory(names[i])) < FindIndex(expenses, InCategory(names[j]))
  {
    var init := expenses[..|expenses| - 1];
    var t := expenses[|expenses| - 1];
    var names := CategoriesOf(init);
    assert expenses == init + [t];
    CategoriesListsEachOnce(init);
    FindIndexAppendOne(init, t, InCategory(CategoriesOf(expenses)[i]));
    FindIndexAppendOne(init, t, InCategory(CategoriesOf(expenses)[j]));
    if j < |names| {
      CategoriesInFirstAppearanceOrder(init, i, j);
    } else {
      assert CategoriesOf(expenses)[j] == t.category && t.category !in names;
      assert CategoriesOf(expenses)[i] == names[i] && names[i] in names;
    }
  }

  /** What the expenses of category `name` add up to. */
  function CategorySpend(expenses: seq<Transaction>, name: string): real
  {
    SumOf(Filter(expenses, InCategory(name)), TransactionAmount)
  }

  /** The slice of category `name`. */
  function Slice(expenses: seq<Transaction>, categories: seq<Category>, name: string): CategoryTotal
  {
    CategoryTotal(name, CategorySpend(expenses, name), ColorFor(categories, name))
  }

  /**
   * The breakdown the reduce builds, stated directly: one slice per distinct
   * category, in first-appearance order, carrying that category's total and
   * its colour.
   */
  function Breakdown(expenses: seq<Transaction>, categories: seq<Category>): (rows: seq<CategoryTotal>)
    ensures |rows| == |CategoriesOf(expenses)|
    ensures forall k :: 0 <= k < |rows| ==> rows[k] == Slice(expenses, categories, CategoriesOf(expenses)[k])
  {
    var names := CategoriesOf(expenses);
    seq(|names|, k requires 0 <= k < |names| => Slice(expenses, categories, names[k]))
  }

  /** Adding one expense to the list adds its amount to the spend of its own category only. */
  lemma SpendAfterAdding(expenses: seq<Transaction>, t: Transaction, name: string)
    ensures CategorySpend(expenses + [t], name) == CategorySpend(expenses, name) + (if t.category == name then t.amount else 0.0)
  {
    FilterAppendOne(expenses, t, InCategory(name));
    SumAppend(Filter(expenses, InCategory(name)), if t.category == name then [t] else [], TransactionAmount);
  }

  /** Adding an expense grows the slice of its own category by its amount and leaves every other slice as it was. */
  lemma SliceAfterAdding(expenses: seq<Transaction>, t: Transaction, categories: seq<Category>, name: string)
    ensures var before := Slice(expenses, categories, name);
      Slice(expenses + [t], categories, name)
        == if name == t.category then before.(amount := before.amount + t.amount) else before
  {
    SpendAfterAdding(expenses, t, name);
  }

  /** The slice of a category that does not occur yet is empty. */
  lemma SpendOfAbsentCategory(expenses: seq<Transaction>, name: string)
    requires !Occurs(expenses, name)
    ensures CategorySpend(expenses, name) == 0.0
  {
    forall t | t in expenses ensures !InCategory(name)(t) {
      var i :| 0 <= i < |expenses| && expenses[i] == t;
    }
    SumNoneSelected(expenses, InCategory(name), TransactionAmount);
  }

  /** The rows with the slice at `k` grown by `amount`. */
  function GrowAt(rows: seq<CategoryTotal>, k: int, amount: real): seq<CategoryTotal>
    requires 0 <= k < |rows|
  {
    rows[k := rows[k].(amount := rows[k].amount + amount)]
  }

  /**
   * One step of the reduce, on values: the slice of the expense's category,
   * if there is one, grows by its amount; otherwise a new slice is pushed at
   * the end. Either way the category has a slice afterwards, and at most one
   * slice is added.
   */
  function AddExpense(rows: seq<CategoryTotal>, t: Transaction, categories: seq<Category>): (rows': seq<CategoryTotal>)
    ensures |rows| <= |rows'| <= |rows| + 1
    ensures FindIndex(rows', RowNamed(t.category)) != -1
  {
    var k := FindIndex(rows, RowNamed(t.category));
    if k != -1 then
      assert GrowAt(rows, k, t.amount)[k].category == t.category;
      GrowAt(rows, k, t.amount)
    else
      var slice := CategoryTotal(t.category, t.amount, ColorFor(categories, t.category));
      FindIndexAppendOne(rows, slice, RowNamed(t.category));
      rows + [slice]
  }

  /** Folding one more expense into the breakdown is the breakdown of the longer list. */
  lemma BreakdownStep(expenses: seq<Transaction>, t: Transaction, categories: seq<Category>)
    ensures Breakdown(expenses + [t], categories) == AddExpense(Breakdown(expenses, categories), t, categories)
  {
    var rows := Breakdown(expenses, categories);
    var k := FindIndex(rows, RowNamed(t.category));
    if k != -1 {
      StepIntoExistingSlice(expenses, t, categories, k);
    } else {
      StepIntoNewSlice(expenses, t, categories);
    }
  }

  /** The step when the expense's category already has a slice: that slice alone grows. */
  lemma StepIntoExistingSlice(expenses: seq<Transaction>, t: Transaction, categories: seq<Category>, k: int)
    requires k == FindIndex(Breakdown(expenses, categories), RowNamed(t.category)) != -1
    ensures Breakdown(expenses + [t], categories) == AddExpense(Breakdown(expenses, categories), t, categories)
  {
    var rows := Breakdown(expenses, categories);
    assert CategoriesOf(expenses)[k] == t.category;
    GrownBreakdown(expenses, t, categories, k);
    GrowSlice(rows, t, categories, k);
  }

  /** An expense of a category that is already listed, at `k`, grows the slice at `k` and no other. */
  lemma GrownBreakdown(expenses: seq<Transaction>, t: Transaction, categories: seq<Category>, k: int)
    requires 0 <= k < |CategoriesOf(expenses)| && CategoriesOf(expenses)[k] == t.category
    ensures Breakdown(expenses + [t], categories) == GrowAt(Breakdown(expenses, categories), k, t.amount)
  {
    var rows := Breakdown(expenses, categories);
    var names := CategoriesOf(expenses);
    CategoriesAreDistinct(expenses);
    CategoriesOfAppend(expenses, t);
    var rows' := Breakdown(expenses + [t], categories);
    var updated := GrowAt(rows, k, t.amount);
    forall j | 0 <= j < |rows'| ensures rows'[j] == updated[j] {
      SliceAfterAdding(expenses, t, categories, names[j]);
      assert names[j] == t.category <==> j == k;
    }
    EqualPointwise(rows', updated);
  }

  /** Appending an expense adds its category to the end of the list of categories, unless it is already there. */
  lemma CategoriesOfAppend(expenses: seq<Transaction>, t: Transaction)
    ensures var names := CategoriesOf(expenses);
      CategoriesOf(expenses + [t]) == if t.category in names then names else names + [t.category]
  {
    var e' := expenses + [t];
    assert e'[..|e'| - 1] == expenses && e'[|e'| - 1] == t;
  }

  /** When the category has a slice at `k`, the step grows that slice by the amount. */
  lemma GrowSlice(rows: seq<CategoryTotal>, t: Transaction, categories: seq<Category>, k: int)
    requires k == FindIndex(rows, RowNamed(t.category)) != -1
    ensures AddExpense(rows, t, categories) == GrowAt(rows, k, t.amount)
  {
  }

  /** When the category has no slice, the step appends one carrying the amount. */
  lemma PushSlice(rows: seq<CategoryTotal>, t: Transaction, categories: seq<Category>)
    requires FindIndex(rows, RowNamed(t.category)) == -1
    ensures AddExpense(rows, t, categories) == rows + [CategoryTotal(t.category, t.amount, ColorFor(categories, t.category))]
  {
  }

  /** The step when the expense's category has no slice yet: a new slice goes at the end. */
  lemma StepIntoNewSlice(expenses: seq<Transaction>, t: Transaction, categories: seq<Category>)
    requires FindIndex(Breakdown(expenses, categories), RowNamed(t.category)) == -1
    ensures Breakdown(expenses + [t], categories) == AddExpense(Breakdown(expenses, categories), t, categories)
  {
    var rows := Breakdown(expenses, categories);
    var names := CategoriesOf(expenses);
    forall j | 0 <= j < |names| ensures names[j] != t.category {
      assert !RowNamed(t.category)(rows[j]);
    }
    ExtendedBreakdown(expenses, t, categories);
    PushSlice(rows, t, categories);
  }

  /** An expense of a category not listed yet adds a slice for it at the end, holding just its amount. */
  lemma ExtendedBreakdown(expenses: seq<Transaction>, t: Transaction, categories: seq<Category>)
    requires t.category !in CategoriesOf(expenses)
    ensures Breakdown(expenses + [t], categories)
      == Breakdown(expenses, categories) + [CategoryTotal(t.category, t.amount, ColorFor(categories, t.category))]
  {
    var rows := Breakdown(expenses, categories);
    var names := CategoriesOf(expenses);
    CategoriesOfAppend(expenses, t);
    CategoriesListsEachOnce(expenses);
    SpendOfAbsentCategory(expenses, t.category);
    var rows' := Breakdown(expenses + [t], categories);
    var extended := rows + [CategoryTotal(t.category, t.amount, ColorFor(categories, t.category))];
    forall j | 0 <= j < |rows'| ensures rows'[j] == extended[j] {
      if j < |names| {
        SliceAfterAdding(expenses, t, categories, names[j]);
      } else {
        SliceAfterAdding(expenses, t, categories, t.category);
      }
    }
    EqualPointwise(rows', extended);
  }

  /**
   * The reduce callback: look up the slice of the expense's category and add
   * the amount to it, or push a new slice coloured from the first category of
   * that name. The source's `existing.amount +=` and `acc.push` change the
   * accumulator array in place; here they are updates of the accumulator value.
   */
  method AccumulateExpense(acc: seq<CategoryTotal>, t: Transaction, categories: seq<Category>)
    returns (acc': seq<CategoryTotal>)
    ensures acc' == AddExpense(acc, t, categories)
  {
    var k := FindIndex(acc, RowNamed(t.category));
    if k != -1 {
      acc' := acc[k := acc[k].(amount := acc[k].amount + t.amount)];
      GrowSlice(acc, t, categories, k);
    } else {
      acc' := acc + [CategoryTotal(t.category, t.amount, ColorFor(categories, t.category))];
      PushSlice(acc, t, categories);
    }
  }

  /** The `expensesByCategory` reduce over the month's expenses, starting from no slices. */
  method ExpensesByCategory(expenses: seq<Transaction>, categories: seq<Category>) returns (acc: seq<CategoryTotal>)
    ensures acc == Breakdown(expenses, categories)
  {
    acc := [];
    var i := 0;
    while i < |expenses|
      invariant 0 <= i <= |expenses|
      invariant acc == Breakdown(expenses[..i], categories)
    {
      BreakdownStep(expenses[..i], expenses[i], categories);
      acc := AccumulateExpense(acc, expenses[i], categories);
      PrefixGrows(expenses, i);
      i := i + 1;
    }
    assert expenses[..i] == expenses;
  }

  /** A step of the reduce adds the expense's amount to the slices' total. */
  lemma AddExpenseTotal(rows: seq<CategoryTotal>, t: Transaction, categories: seq<Category>)
    ensures SumOf(AddExpense(rows, t, categories), TotalAmount) == SumOf(rows, TotalAmount) + t.amount
  {
    var k := FindIndex(rows, RowNamed(t.category));
    if k != -1 {
      SumUpdate(rows, k, rows[k].(amount := rows[k].amount + t.amount), TotalAmount);
    } else {
      SumAppend(rows, [CategoryTotal(t.category, t.amount, ColorFor(categories, t.category))], TotalAmount);
    }
  }

  /** The slices add up to the expenses they were built from: nothing is dropped or counted twice. */
  lemma {:induction false} BreakdownConservesTotal(expenses: seq<Transaction>, categories: seq<Category>)
    ensures SumOf(Breakdown(expenses, categories), TotalAmount) == SumOf(expenses, TransactionAmount)
  {
    if expenses != [] {
      var init := expenses[..|expenses| - 1];
      var t := expenses[|expenses| - 1];
      assert expenses == init + [t];
      BreakdownConservesTotal(init, categories);
      BreakdownStep(init, t, categories);
      AddExpenseTotal(Breakdown(init, categories), t, categories);
      SumAppend(init, [t], TransactionAmount);
    }
  }

  /**
   * On the dashboard: the slices built from this month's expenses add up to
   * the "Total Expenses" card; every expense, whether or not a category of
   * that name exists, has its slice; and no category has two slices.
   */
  lemma PieMatchesTotalExpenses(transactions: seq<Transaction>, month: string, categories: seq<Category>)
    ensures var current := MonthTransactions(transactions, month);
      var expenses := Filter(current, OfKind(Expense));
      var rows := Breakdown(expenses, categories);
      && SumOf(rows, TotalAmount) == Summarise(current).totalExpenses
      && (forall t :: t in expenses ==> exists k :: 0 <= k < |rows| && rows[k].category == t.category)
      && (forall i, j :: 0 <= i < j < |rows| ==> rows[i].category != rows[j].category)
  {
    var current := MonthTransactions(transactions, month);
    var expenses := Filter(current, OfKind(Expense));
    BreakdownConservesTotal(expenses, categories);
    CategoriesAreDistinct(expenses);
    EveryExpenseHasSlice(expenses, categories);
  }

  /** Each expense's category has a slice, whether or not a category of that name exists. */
  lemma EveryExpenseHasSlice(expenses: seq<Transaction>, categories: seq<Category>)
    ensures var rows := Breakdown(expenses, categories);
      forall t :: t in expenses ==> exists k :: 0 <= k < |rows| && rows[k].category == t.category
  {
    var rows := Breakdown(expenses, categories);
    var names := CategoriesOf(expenses);
    CategoriesListsEachOnce(expenses);
    forall t | t in expenses ensures exists k :: 0 <= k < |rows| && rows[k].category == t.category {
      var i :| 0 <= i < |expenses| && expenses[i] == t;
      assert InCategory(t.category)(expenses[i]);
      assert t.category in names;
      var k :| 0 <= k < |names| && names[k] == t.category;
      assert rows[k].category == t.category;
    }
  }

  // ---- The six-month series ----

  /** Today's date moved back `back` months with `setMonth`, cut to `YYYY-MM`. */
  function MonthKeyBack(today: Date, back: int): string
    requires Valid(today)
  {
    MonthKey(SetMonth(today, today.month - 1 - back))
  }

  /**
   * `last6Months` as written: for i = 0..5, today's date moved back i months
   * with `setMonth` and cut to its month key, then reversed so that the
   * current month comes last.
   */
  function Last6Months(today: Date): (months: seq<string>)
    requires Valid(today)
    ensures |months| == 6
    ensures months[5] == MonthKey(today)
  {
    var series := seq(6, i requires 0 <= i < 6 => MonthKeyBack(today, i));
    assert series[0] == MonthKey(SetMonth(today, today.month - 1));
    SetMonthToSameMonth(today);
    Reverse(series)
  }

  /** The first day of today's month: the evidently intended anchor of the series. */
  function FirstOfMonth(today: Date): (first: Date)
    requires Valid(today)
    ensures Valid(first) && first == SetDate(today, 1)
  {
    Date(today.year, today.month, 1)
  }

  /**
   * The evidently intended series: move to the first of the month before
   * stepping back, so that no month can roll over into the next.
   */
  function Last6MonthsFromFirst(today: Date): (months: seq<string>)
    requires Valid(today)
    ensures |months| == 6
    ensures months[5] == MonthKey(Date(today.year, today.month, 1))
  {
    var first := FirstOfMonth(today);
    var series := seq(6, i requires 0 <= i < 6 => MonthKeyBack(first, i));
    assert series[0] == MonthKey(SetMonth(first, first.month - 1));
    SetMonthToSameMonth(first);
    Reverse(series)
  }

  /** The calendar month `back` months before today's, as its first day. */
  function MonthsBack(today: Date, back: int): (d: Date)
    ensures Valid(d)
  {
    var month0 := today.month - 1 - back;
    Date(today.year + month0 / 12, month0 % 12 + 1, 1)
  }

  /** Stepping back from the first of the month lands on the first of the earlier month. */
  lemma FirstStepsBack(today: Date, back: int)
    requires Valid(today)
    ensures MonthKeyBack(FirstOfMonth(today), back) == MonthKey(MonthsBack(today, back))
  {
    var first := FirstOfMonth(today);
    assert first == Date(today.year, today.month, 1);
    SetMonthKeepsEarlyDay(first, today.month - 1 - back);
    assert SetMonth(first, first.month - 1 - back) == MonthsBack(today, back);
  }

  /** The corrected series is the five months before today's and today's, oldest first. */
  lemma FromFirstIsConsecutive(today: Date)
    requires Valid(today)
    ensures forall k :: 0 <= k < 6 ==> Last6MonthsFromFirst(today)[k] == MonthKey(MonthsBack(today, 5 - k))
  {
    var first := FirstOfMonth(today);
    var series := seq(6, i requires 0 <= i < 6 => MonthKeyBack(first, i));
    assert Last6MonthsFromFirst(today) == Reverse(series);
    forall k | 0 <= k < 6 ensures Last6MonthsFromFirst(today)[k] == MonthKey(MonthsBack(today, 5 - k)) {
      assert Reverse(series)[k] == series[5 - k];
      FirstStepsBack(today, 5 - k);
    }
  }

  /** Within years 1..9999 the corrected series names six different months. */
  lemma FromFirstHasNoRepeats(today: Date)
    requires Valid(today) && 1 <= today.year <= 9999
    ensures NoDuplicates(Last6MonthsFromFirst(today))
  {
    FromFirstIsConsecutive(today);
    var ms := Last6MonthsFromFirst(today);
    forall i, j | 0 <= i < j < 6 ensures ms[i] != ms[j] {
      var a, b := MonthsBack(today, 5 - i), MonthsBack(today, 5 - j);
      var ma, mb := today.month - 1 - (5 - i), today.month - 1 - (5 - j);
      assert a.year * 12 + (a.month - 1) == today.year * 12 + ma;
      assert b.year * 12 + (b.month - 1) == today.year * 12 + mb;
      MonthKeyIdentifiesMonth(a, b);
    }
  }

  /** Up to the 28th, stepping back from today or from the first of the month gives the same month. */
  lemma EarlyStepsBack(today: Date, back: int)
    requires Valid(today) && today.day <= 28
    ensures MonthKeyBack(today, back) == MonthKeyBack(FirstOfMonth(today), back)
  {
    var first := FirstOfMonth(today);
    assert first == Date(today.year, today.month, 1);
    SetMonthKeyIgnoresEarlyDay(today, first, today.month - 1 - back);
  }

  /** Up to the 28th of the month the series as written is the intended one. */
  lemma EarlyInMonthAsIntended(today: Date)
    requires Valid(today) && today.day <= 28
    ensures Last6Months(today) == Last6MonthsFromFirst(today)
  {
    var first := FirstOfMonth(today);
    var asWritten := seq(6, i requires 0 <= i < 6 => MonthKeyBack(today, i));
    var intended := seq(6, i requires 0 <= i < 6 => MonthKeyBack(first, i));
    forall i | 0 <= i < 6 ensures asWritten[i] == intended[i] {
      EarlyStepsBack(today, i);
    }
    assert asWritten == intended;
  }

  /** The series as written, spelled out: oldest first, five months back down to none. */
  lemma Last6MonthsSpelledOut(today: Date)
    requires Valid(today)
    ensures Last6Months(today) == [MonthKeyBack(today, 5), MonthKeyBack(today, 4), MonthKeyBack(today, 3),
                                   MonthKeyBack(today, 2), MonthKeyBack(today, 1), MonthKeyBack(today, 0)]
  {
    var series := seq(6, i requires 0 <= i < 6 => MonthKeyBack(today, i));
    assert Last6Months(today) == Reverse(series);
    ReverseOfSix(series);
  }

  /** On 31 March 2025 the series as written skips November and February and shows December and March twice. */
  lemma RepeatsMonthAtEndOfMarch()
    ensures Last6Months(Date(2025, 3, 31)) == ["2024-10", "2024-12", "2024-12", "2025-01", "2025-03", "2025-03"]
  {
    Last6MonthsSpelledOut(Date(2025, 3, 31));
    KeysBackFromEndOfMarch();
  }

  /** The dates `setMonth` reaches from 31 March 2025, going back zero to five months. */
  lemma DatesBackFromEndOfMarch()
    ensures var today := Date(2025, 3, 31);
      && SetMonth(today, 2) == today
      && SetMonth(today, 1) == Date(2025, 3, 3)
      && SetMonth(today, 0) == Date(2025, 1, 31)
      && SetMonth(today, -1) == Date(2024, 12, 31)
      && SetMonth(today, -2) == Date(2024, 12, 1)
      && SetMonth(today, -3) == Date(2024, 10, 31)
  {
    var today := Date(2025, 3, 31);
    assert SetMonth(today, 1) == Date(2025, 3, 3);
    assert SetMonth(today, -2) == Date(2024, 12, 1);
  }

  /** Their month keys. */
  lemma KeysBackFromEndOfMarch()
    ensures var today := Date(2025, 3, 31);
      && MonthKeyBack(today, 0) == "2025-03"
      && MonthKeyBack(today, 1) == "2025-03"
      && MonthKeyBack(today, 2) == "2025-01"
      && MonthKeyBack(today, 3) == "2024-12"
      && MonthKeyBack(today, 4) == "2024-12"
      && MonthKeyBack(today, 5) == "2024-10"
  {
    DatesBackFromEndOfMarch();
    MonthKeyIgnoresDay(Date(2025, 3, 31), Date(2025, 3, 1));
    MonthKeyIgnoresDay(Date(2025, 3, 3), Date(2025, 3, 1));
    MonthKeyIgnoresDay(Date(2025, 1, 31), Date(2025, 1, 1));
    MonthKeyIgnoresDay(Date(2024, 12, 31), Date(2024, 12, 1));
    MonthKeyIgnoresDay(Date(2024, 10, 31), Date(2024, 10, 1));
    KeysOfExampleMonths();
  }

  /** The keys of the months concerned. */
  lemma KeysOfExampleMonths()
    ensures MonthKey(Date(2024, 10, 1)) == "2024-10"
    ensures MonthKey(Date(2024, 12, 1)) == "2024-12"
    ensures MonthKey(Date(2025, 1, 1)) == "2025-01"
    ensures MonthKey(Date(2025, 3, 1)) == "2025-03"
  {
    MonthKeyText(Date(2024, 10, 1));
    MonthKeyText(Date(2024, 12, 1));
    MonthKeyText(Date(2025, 1, 1));
    MonthKeyText(Date(2025, 3, 1));
    YearDigitsOfExampleMonths();
    MonthDigitsOfExampleMonths();
  }

  lemma YearDigitsOfExampleMonths()
    ensures Digits(2024, 4) == "2024" && Digits(2025, 4) == "2025"
  {
    assert Digits(2, 1) == "2";
    assert Digits(20, 2) == "20";
    assert Digits(202, 3) == "202";
  }

  lemma MonthDigitsOfExampleMonths()
    ensures Digits(10, 2) == "10" && Digits(12, 2) == "12"
    ensures Digits(1, 2) == "01" && Digits(3, 2) == "03"
  {
  }

  /** One bar of the chart: a month's income and expenses. */
  datatype MonthTotals = MonthTotals(month: string, income: real, expenses: real)

  /** `monthlyData`: one bar per month of the series, in the same order. */
  function MonthlyData(months: seq<string>, transactions: seq<Transaction>): (rows: seq<MonthTotals>)
    ensures |rows| == |months|
    ensures forall k :: 0 <= k < |rows| ==> (rows[k].month == months[k]
      && rows[k].income == Summarise(MonthTransactions(transactions, months[k])).totalIncome
      && rows[k].expenses == Summarise(MonthTransactions(transactions, months[k])).totalExpenses)
  {
    seq(|months|, k requires 0 <= k < |months| =>
      var s := Summarise(MonthTransactions(transactions, months[k]));
      MonthTotals(months[k], s.totalIncome, s.totalExpenses))
  }

  /** A month without transactions still has its bar, at zero. */
  lemma EmptyMonthIsZero(months: seq<string>, transactions: seq<Transaction>, k: nat)
    requires k < |months|
    requires forall t :: t in transactions ==> !StartsWith(t.date, months[k])
    ensures MonthlyData(months, transactions)[k].income == 0.0
    ensures MonthlyData(months, transactions)[k].expenses == 0.0
  {
    assert MonthTransactions(transactions, months[k]) == [] by {
      SumNoneSelected(transactions, InMonth(months[k]), TransactionAmount);
    }
  }

  /**
   * The last bar is the current month, with the same figures as the summary
   * cards, over the series as written and over the corrected one alike.
   */
  lemma LastBarIsCurrentMonth(today: Date, transactions: seq<Transaction>)
    requires Valid(today)
    ensures var rows := MonthlyData(Last6Months(today), transactions);
      var cards := Summarise(MonthTransactions(transactions, MonthKey(today)));
      rows[5].month == MonthKey(today) && rows[5].income == cards.totalIncome && rows[5].expenses == cards.totalExpenses
    ensures var rows := MonthlyData(Last6MonthsFromFirst(today), transactions);
      var cards := Summarise(MonthTransactions(transactions, MonthKey(today)));
      rows[5].month == MonthKey(today) && rows[5].income == cards.totalIncome && rows[5].expenses == cards.totalExpenses
  {
    MonthKeyIgnoresDay(Date(today.year, today.month, 1), today);
  }

  /** The recent list: the first five transactions of the month, or all of them when there are fewer. */
  function Recent(current: seq<Transaction>): (r: seq<Transaction>)
    ensures |r| == if |current| < 5 then |current| else 5
    ensures r == current[..|r|]
  {
    if |current| < 5 then current else current[..5]
  }
}
