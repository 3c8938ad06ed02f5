/**
 * The record store of lib/data-store.ts: four arrays, changed in place by
 * `push`, by assignment to the slot `findIndex` found, and by `splice`.
 * Persistence to local storage and the clock-based id generation are not part
 * of this model: the new id is a parameter of each `add` method.
 */
module DataStore {
  import opened Wrappers
  import opened Seqs
  import opened Types

  /** `Partial<Transaction>`: a field that is `Some` overrides the stored one. */
  datatype TransactionPatch = TransactionPatch(
    id: Option<string>,
    kind: Option<Kind>,
    amount: Option<real>,
    category: Option<string>,
    description: Option<string>,
    date: Option<string>,
    userId: Option<string>)

  /** `Partial<Budget>`. */
  datatype BudgetPatch = BudgetPatch(
    id: Option<string>,
    category: Option<string>,
    amount: Option<real>,
    month: Option<string>,
    userId: Option<string>)

  /**
   * `{ ...t, ...u }`: the stored record with the fields present in `u`
   * replaced. An update without an id or an owner keeps the record's.
   */
  function MergeTransaction(t: Transaction, u: TransactionPatch): (r: Transaction)
    ensures u.id.None? ==> r.id == t.id
    ensures u.userId.None? ==> r.userId == t.userId
  {
    Transaction(
      u.id.GetOr(t.id), u.kind.GetOr(t.kind), u.amount.GetOr(t.amount),
      u.category.GetOr(t.category), u.description.GetOr(t.description),
      u.date.GetOr(t.date), u.userId.GetOr(t.userId))
  }

  /** `{ ...b, ...u }`, with the same guarantees as `MergeTransaction`. */
  function MergeBudget(b: Budget, u: BudgetPatch): (r: Budget)
    ensures u.id.None? ==> r.id == b.id
    ensures u.userId.None? ==> r.userId == b.userId
  {
    Budget(u.id.GetOr(b.id), u.category.GetOr(b.category), u.amount.GetOr(b.amount),
           u.month.GetOr(b.month), u.userId.GetOr(b.userId))
  }

  /** A patch that sets nothing leaves the record as it was; applying the same patch twice is applying it once. */
  lemma MergeTransactionLaws(t: Transaction, u: TransactionPatch)
    ensures MergeTransaction(t, TransactionPatch(None, None, None, None, None, None, None)) == t
    ensures MergeTransaction(MergeTransaction(t, u), u) == MergeTransaction(t, u)
  {
  }

  function TransactionOwnedBy(userId: string): Transaction -> bool { (t: Transaction) => t.userId == userId }
  function CategoryOwnedBy(userId: string): Category -> bool { (c: Category) => c.userId == userId }
  function BudgetOwnedBy(userId: string): Budget -> bool { (b: Budget) => b.userId == userId }
  function RecurringOwnedBy(userId: string): RecurringTransaction -> bool { (r: RecurringTransaction) => r.userId == userId }

  function TransactionWithId(id: string): Transaction -> bool { (t: Transaction) => t.id == id }
  function BudgetWithId(id: string): Budget -> bool { (b: Budget) => b.id == id }

  /** The nine categories a new store starts with, all owned by user "1". */
  function DefaultCategories(): (cs: seq<Category>)
    ensures |cs| == 9
    ensures forall c :: c in cs ==> c.userId == "1"
    ensures forall i :: 0 <= i < 9 ==> cs[i].kind == (if i < 6 then Expense else Income)
  {
    [ Category("1", "Food & Dining", Expense, "#ef4444", "1"),
      Category("2", "Transportation", Expense, "#f97316", "1"),
      Category("3", "Shopping", Expense, "#eab308", "1"),
      Category("4", "Entertainment", Expense, "#22c55e", "1"),
      Category("5", "Bills & Utilities", Expense, "#3b82f6", "1"),
      Category("6", "Healthcare", Expense, "#8b5cf6", "1"),
      Category("7", "Salary", Income, "#10b981", "1"),
      Category("8", "Freelance", Income, "#06b6d4", "1"),
      Category("9", "Investments", Income, "#8b5cf6", "1") ]
  }

  class Store {
    var transactions: seq<Transaction>
    var categories: seq<Category>
    var budgets: seq<Budget>
    var recurringTransactions: seq<RecurringTransaction>

    /** The store as first created: the default categories and nothing else. */
    constructor ()
      ensures transactions == [] && budgets == [] && recurringTransactions == []
      ensures categories == DefaultCategories()
    {
      transactions := [];
      categories := DefaultCategories();
      budgets := [];
      recurringTransactions := [];
    }

    // ---- Reads: the records of one user, in stored order ----

    function GetTransactions(userId: string): (r: seq<Transaction>)
      reads this
      ensures forall t :: t in r <==> t in transactions && t.userId == userId
      ensures forall t :: multiset(r)[t] == if t.userId == userId then multiset(transactions)[t] else 0
    {
      FilterMultiset(transactions, TransactionOwnedBy(userId));
      Filter(transactions, TransactionOwnedBy(userId))
    }

    function GetCategories(userId: string): (r: seq<Category>)
      reads this
      ensures forall c :: c in r <==> c in categories && c.userId == userId
      ensures forall c :: multiset(r)[c] == if c.userId == userId then multiset(categories)[c] else 0
    {
      FilterMultiset(categories, CategoryOwnedBy(userId));
      Filter(categories, CategoryOwnedBy(userId))
    }

    function GetBudgets(userId: string): (r: seq<Budget>)
      reads this
      ensures forall b :: b in r <==> b in budgets && b.userId == userId
      ensures forall b :: multiset(r)[b] == if b.userId == userId then multiset(budgets)[b] else 0
    {
      FilterMultiset(budgets, BudgetOwnedBy(userId));
      Filter(budgets, BudgetOwnedBy(userId))
    }

    function GetRecurringTransactions(userId: string): (r: seq<RecurringTransaction>)
      reads this
      ensures forall x :: x in r <==> x in recurringTransactions && x.userId == userId
      ensures forall x :: multiset(r)[x] == if x.userId == userId then multiset(recurringTransactions)[x] else 0
    {
      FilterMultiset(recurringTransactions, RecurringOwnedBy(userId));
      Filter(recurringTransactions, RecurringOwnedBy(userId))
    }

    // ---- Writes ----

    /**
     * Appends the record under the new id and returns it. The owner's list
     * gains it at the end; every other user's list is unchanged.
     */
    method AddTransaction(draft: Transaction, newId: string) returns (r: Transaction)
      modifies this
      ensures r == draft.(id := newId)
      ensures transactions == old(transactions) + [r]
      ensures categories == old(categories) && budgets == old(budgets)
      ensures recurringTransactions == old(recurringTransactions)
      ensures GetTransactions(r.userId) == old(GetTransactions(r.userId)) + [r]
      ensures forall u :: u != r.userId ==> GetTransactions(u) == old(GetTransactions(u))
    {
      r := draft.(id := newId);
      ghost var before := transactions;
      transactions := transactions + [r];
      forall u
        ensures GetTransactions(u) == Filter(before, TransactionOwnedBy(u)) + (if u == r.userId then [r] else [])
      {
        FilterAppendOne(before, r, TransactionOwnedBy(u));
      }
    }

    /**
     * Replaces the first transaction whose id is `id` by itself overridden
     * with `updates` and returns the new record; with no such transaction,
     * returns `None` and changes nothing. An update that carries no id leaves
     * the record where the next lookup by the same id finds it.
     */
    method UpdateTransaction(id: string, updates: TransactionPatch) returns (r: Option<Transaction>)
      modifies this
      ensures var i := FindIndex(old(transactions), TransactionWithId(id));
        if i == -1 then r == None && transactions == old(transactions)
        else r == Some(MergeTransaction(old(transactions)[i], updates))
             && transactions == old(transactions)[i := r.value]
      ensures r.None? <==> forall t :: t in old(transactions) ==> t.id != id
      ensures updates.id.None? ==>
        FindIndex(transactions, TransactionWithId(id)) == FindIndex(old(transactions), TransactionWithId(id))
      ensures |transactions| == |old(transactions)|
      ensures categories == old(categories) && budgets == old(budgets)
      ensures recurringTransactions == old(recurringTransactions)
    {
      var i := FindIndex(transactions, TransactionWithId(id));
      if i != -1 {
        var merged := MergeTransaction(transactions[i], updates);
        if updates.id.None? {
          FindIndexAfterReplace(transactions, merged, TransactionWithId(id));
        }
        transactions := transactions[i := merged];
        r := Some(merged);
      } else {
        r := None;
      }
    }

    /**
     * Removes the first transaction whose id is `id`, keeping the others in
     * their order, and reports whether there was one.
     */
    method DeleteTransaction(id: string) returns (deleted: bool)
      modifies this
      ensures var i := FindIndex(old(transactions), TransactionWithId(id));
        if i == -1 then !deleted && transactions == old(transactions)
        else deleted && transactions == old(transactions)[..i] + old(transactions)[i + 1..]
             && multiset(transactions) + multiset{old(transactions)[i]} == multiset(old(transactions))
      ensures deleted <==> exists t :: t in old(transactions) && t.id == id
      ensures categories == old(categories) && budgets == old(budgets)
      ensures recurringTransactions == old(recurringTransactions)
    {
      var i := FindIndex(transactions, TransactionWithId(id));
      if i != -1 {
        assert transactions == transactions[..i] + [transactions[i]] + transactions[i + 1..];
        transactions := transactions[..i] + transactions[i + 1..];
        deleted := true;
      } else {
        deleted := false;
      }
    }

    method AddCategory(draft: Category, newId: string) returns (r: Category)
      modifies this
      ensures r == draft.(id := newId)
      ensures categories == old(categories) + [r]
      ensures transactions == old(transactions) && budgets == old(budgets)
      ensures recurringTransactions == old(recurringTransactions)
      ensures GetCategories(r.userId) == old(GetCategories(r.userId)) + [r]
      ensures forall u :: u != r.userId ==> GetCategories(u) == old(GetCategories(u))
    {
      r := draft.(id := newId);
      ghost var before := categories;
      categories := categories + [r];
      forall u
        ensures GetCategories(u) == Filter(before, CategoryOwnedBy(u)) + (if u == r.userId then [r] else [])
      {
        FilterAppendOne(before, r, CategoryOwnedBy(u));
      }
    }

    method AddBudget(draft: Budget, newId: string) returns (r: Budget)
      modifies this
      ensures r == draft.(id := newId)
      ensures budgets == old(budgets) + [r]
      ensures transactions == old(transactions) && categories == old(categories)
      ensures recurringTransactions == old(recurringTransactions)
      ensures GetBudgets(r.userId) == old(GetBudgets(r.userId)) + [r]
      ensures forall u :: u != r.userId ==> GetBudgets(u) == old(GetBudgets(u))
    {
      r := draft.(id := newId);
      ghost var before := budgets;
      budgets := budgets + [r];
      forall u
        ensures GetBudgets(u) == Filter(before, BudgetOwnedBy(u)) + (if u == r.userId then [r] else [])
      {
        FilterAppendOne(before, r, BudgetOwnedBy(u));
      }
    }

    /** As `UpdateTransaction`, on budgets. */
    method UpdateBudget(id: string, updates: BudgetPatch) returns (r: Option<Budget>)
      modifies this
      ensures var i := FindIndex(old(budgets), BudgetWithId(id));
        if i == -1 then r == None && budgets == old(budgets)
        else r == Some(MergeBudget(old(budgets)[i], updates))
             && budgets == old(budgets)[i := r.value]
      ensures r.None? <==> forall b :: b in old(budgets) ==> b.id != id
      ensures updates.id.None? ==>
        FindIndex(budgets, BudgetWithId(id)) == FindIndex(old(budgets), BudgetWithId(id))
      ensures |budgets| == |old(budgets)|
      ensures transactions == old(transactions) && categories == old(categories)
      ensures recurringTransactions == old(recurringTransactions)
    {
      var i := FindIndex(budgets, BudgetWithId(id));
      if i != -1 {
        var merged := MergeBudget(budgets[i], updates);
        if updates.id.None? {
          FindIndexAfterReplace(budgets, merged, BudgetWithId(id));
        }
        budgets := budgets[i := merged];
        r := Some(merged);
      } else {
        r := None;
      }
    }

    method AddRecurringTransaction(draft: RecurringTransaction, newId: string) returns (r: RecurringTransaction)
      modifies this
      ensures r == draft.(id := newId)
      ensures recurringTransactions == old(recurringTransactions) + [r]
      ensures transactions == old(transactions) && categories == old(categories)
      ensures budgets == old(budgets)
      ensures GetRecurringTransactions(r.userId) == old(GetRecurringTransactions(r.userId)) + [r]
      ensures forall u :: u != r.userId ==> GetRecurringTransactions(u) == old(GetRecurringTransactions(u))
    {
      r := draft.(id := newId);
      ghost var before := recurringTransactions;
      recurringTransactions := recurringTransactions + [r];
      forall u
        ensures GetRecurringTransactions(u) == Filter(before, RecurringOwnedBy(u)) + (if u == r.userId then [r] else [])
      {
        FilterAppendOne(before, r, RecurringOwnedBy(u));
      }
    }
  }
}
