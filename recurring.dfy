/**
 * The recurring-transactions page (app/recurring/page.tsx): the next date
 * of a schedule, the record the form submits, and the two "monthly" totals.
 * "Today" is a parameter; the source reads the clock.
 */
module Recurring {
  import opened Wrappers
  import opened Seqs
  import opened Dates
  import opened Types
  import opened DataStore

  /**
   * `calculateNextDate`: a copy of the date moved on by one period with the
   * JavaScript setters, so a day the target month lacks rolls over.
   */
  function NextDate(d: Date, frequency: Frequency): (next: Date)
    requires Valid(d)
    ensures Valid(next)
  {
    match frequency
    case Weekly => SetDate(d, d.day + 7)
    case Monthly => SetMonth(d, (d.month - 1) + 1)
    case Yearly => SetFullYear(d, d.year + 1)
  }

  /** The month after (`y`, `m`): its year and month. */
  function MonthAfter(y: int, m: int): (r: (int, int))
    requires 1 <= m <= 12
    ensures 1 <= r.1 <= 12
    ensures r == if m == 12 then (y + 1, 1) else (y, m + 1)
  {
    if m == 12 then (y + 1, 1) else (y, m + 1)
  }

  /** Weekly: exactly seven days later, across month and year ends. */
  lemma WeeklyIsSevenDaysLater(d: Date)
    requires Valid(d)
    ensures DayNumber(NextDate(d, Weekly)) == DayNumber(d) + 7
  {
    SetDateFollowsMakeDay(d, d.day + 7);
    assert (d.month - 1) / 12 == 0 && (d.month - 1) % 12 == d.month - 1;
  }

  /**
   * Monthly: the same day of the following month when that month has it;
   * otherwise the days beyond its end spill into the month after, with no
   * clamping to the last day.
   */
  lemma MonthlyRollsOver(d: Date)
    requires Valid(d)
    ensures var (ty, tm) := MonthAfter(d.year, d.month);
      var len := DaysInMonth(ty, tm);
      var (sy, sm) := MonthAfter(ty, tm);
      NextDate(d, Monthly) == if d.day <= len then Date(ty, tm, d.day) else Date(sy, sm, d.day - len)
  {
    var (ty, tm) := MonthAfter(d.year, d.month);
    assert d.month / 12 == ty - d.year && d.month % 12 + 1 == tm;
    var len := DaysInMonth(ty, tm);
    if d.day > len {
      var (sy, sm) := MonthAfter(ty, tm);
      assert d.day - len <= 3 <= DaysInMonth(sy, sm);
      assert Normalize(ty, tm, d.day) == Normalize(sy, sm, d.day - len);
    }
  }

  /** Yearly: the same day of the next year, except that February 29th becomes March 1st. */
  lemma YearlyFromLeapDay(d: Date)
    requires Valid(d)
    ensures NextDate(d, Yearly) == if d.month == 2 && d.day == 29 then Date(d.year + 1, 3, 1) else Date(d.year + 1, d.month, d.day)
  {
    if d.month == 2 && d.day == 29 {
      assert IsLeapYear(d.year);
      assert !IsLeapYear(d.year + 1);
      assert Normalize(d.year + 1, 2, 29) == Normalize(d.year + 1, 3, 1);
    }
  }

  /** Whatever the frequency, the next date comes strictly after the given one. */
  lemma NextDateIsLater(d: Date, frequency: Frequency)
    requires Valid(d)
    ensures DayNumber(d) < DayNumber(NextDate(d, frequency))
    ensures Before(d, NextDate(d, frequency))
  {
    match frequency {
      case Weekly => WeeklyIsSevenDaysLater(d);
      case Monthly => MonthlyIsLater(d);
      case Yearly => YearlyIsLater(d);
    }
    BeforeIffEarlier(d, NextDate(d, frequency));
  }

  /** Monthly: at least the first of the following month. */
  lemma MonthlyIsLater(d: Date)
    requires Valid(d)
    ensures DayNumber(d) < DayNumber(NextDate(d, Monthly))
  {
    SetMonthFollowsMakeDay(d, d.month);
    var next := if d.month == 12 then Date(d.year + 1, 1, 1) else Date(d.year, d.month + 1, 1);
    assert Date(d.year + d.month / 12, d.month % 12 + 1, 1) == next;
    NextMonthStart(d.year, d.month);
    assert DayNumber(d) == DayNumber(Date(d.year, d.month, 1)) + d.day - 1;
  }

  /** Yearly: at least the first of the same month a year on. */
  lemma YearlyIsLater(d: Date)
    requires Valid(d)
    ensures DayNumber(d) < DayNumber(NextDate(d, Yearly))
  {
    SetFullYearFollowsMakeDay(d, d.year + 1);
    assert (d.month - 1) / 12 == 0 && (d.month - 1) % 12 == d.month - 1;
    DayNumberMonotone(d, Date(d.year + 1, d.month, 1));
  }

  /** Examples of the three schedules, roll-overs included. */
  lemma NextDateExamples()
    ensures NextDate(Date(2024, 1, 29), Weekly) == Date(2024, 2, 5)
    ensures NextDate(Date(2024, 12, 28), Weekly) == Date(2025, 1, 4)
    ensures NextDate(Date(2024, 1, 31), Monthly) == Date(2024, 3, 2)
    ensures NextDate(Date(2023, 1, 31), Monthly) == Date(2023, 3, 3)
    ensures NextDate(Date(2024, 3, 15), Monthly) == Date(2024, 4, 15)
    ensures NextDate(Date(2024, 2, 29), Yearly) == Date(2025, 3, 1)
  {
    MonthlyRollsOver(Date(2024, 1, 31));
    MonthlyRollsOver(Date(2023, 1, 31));
    MonthlyRollsOver(Date(2024, 3, 15));
    YearlyFromLeapDay(Date(2024, 2, 29));
  }

  /** The record the form submits: the next date is stored as its `YYYY-MM-DD` text. */
  function NewRecurring(today: Date, kind: Kind, amount: real, category: string, description: string,
                        frequency: Frequency, userId: string): (r: RecurringTransaction)
    requires Valid(today)
    ensures r.kind == kind && r.amount == amount && r.category == category
    ensures r.description == description && r.frequency == frequency && r.userId == userId
  {
    RecurringTransaction("", kind, amount, category, description, frequency, FormatDate(NextDate(today, frequency)), userId)
  }

  /** The stored text reads back as the next date, for the years the four-digit form covers. */
  lemma NewRecurringStoresNextDate(today: Date, kind: Kind, amount: real, category: string, description: string,
                                   frequency: Frequency, userId: string)
    requires Valid(today)
    requires 0 <= NextDate(today, frequency).year <= 9999
    ensures ParseDate(NewRecurring(today, kind, amount, category, description, frequency, userId).nextDate)
      == Some(NextDate(today, frequency))
  {
    FormatThenParse(NextDate(today, frequency));
  }

  /**
   * `handleSubmit`: the schedule is appended to the store under the new id,
   * with its first date one period after today.
   */
  method SubmitRecurring(store: Store, today: Date, kind: Kind, amount: real, category: string,
                         description: string, frequency: Frequency, userId: string, newId: string)
    requires Valid(today)
    modifies store
    ensures store.recurringTransactions == old(store.recurringTransactions)
      + [NewRecurring(today, kind, amount, category, description, frequency, userId).(id := newId)]
    ensures store.transactions == old(store.transactions) && store.categories == old(store.categories)
    ensures store.budgets == old(store.budgets)
  {
    var _ := store.AddRecurringTransaction(NewRecurring(today, kind, amount, category, description, frequency, userId), newId);
  }

  /** The items a "monthly" card adds up: monthly schedules of the given kind. */
  function MonthlyOf(kind: Kind): RecurringTransaction -> bool
  {
    (r: RecurringTransaction) => r.kind == kind && r.frequency == Monthly
  }

  function IsMonthly(r: RecurringTransaction): bool
  {
    r.frequency == Monthly
  }

  /** "Monthly Income" (`kind == Income`) and "Monthly Expenses" (`kind == Expense`). */
  function MonthlyTotal(items: seq<RecurringTransaction>, kind: Kind): (total: real)
    ensures (forall r :: r in items ==> r.amount >= 0.0) ==> total >= 0.0
  {
    SumNonNegative(Filter(items, MonthlyOf(kind)), RecurringAmount);
    SumOf(Filter(items, MonthlyOf(kind)), RecurringAmount)
  }

  /** Adding an item changes a card only when it is a monthly item of that card's kind, and then by its amount. */
  lemma MonthlyTotalAfterAdding(items: seq<RecurringTransaction>, x: RecurringTransaction, kind: Kind)
    ensures MonthlyTotal(items + [x], kind)
      == MonthlyTotal(items, kind) + (if x.kind == kind && x.frequency == Monthly then x.amount else 0.0)
  {
    FilterAppendOne(items, x, MonthlyOf(kind));
    SumAppend(Filter(items, MonthlyOf(kind)), if MonthlyOf(kind)(x) then [x] else [], RecurringAmount);
  }

  /** Weekly and yearly items never reach the cards. */
  lemma OtherFrequenciesExcluded(items: seq<RecurringTransaction>, kind: Kind)
    requires forall r :: r in items ==> r.frequency != Monthly
    ensures MonthlyTotal(items, kind) == 0.0
  {
    SumNoneSelected(items, MonthlyOf(kind), RecurringAmount);
  }

  /** Together the two cards cover every monthly item once, whichever its kind. */
  lemma {:induction false} CardsCoverMonthlyItems(items: seq<RecurringTransaction>)
    ensures MonthlyTotal(items, Income) + MonthlyTotal(items, Expense) == SumOf(Filter(items, IsMonthly), RecurringAmount)
  {
    if items != [] {
      var init := items[..|items| - 1];
      var x := items[|items| - 1];
      assert items == init + [x];
      CardsCoverMonthlyItems(init);
      MonthlyTotalAfterAdding(init, x, Income);
      MonthlyTotalAfterAdding(init, x, Expense);
      FilterAppendOne(init, x, IsMonthly);
      SumAppend(Filter(init, IsMonthly), if IsMonthly(x) then [x] else [], RecurringAmount);
    }
  }
}
