/**
 * The transactions page (app/transactions/page.tsx): the list shown under a
 * type filter and a search term, newest first, and the form's submit, which
 * edits the transaction being edited or adds a new one.
 */
module TransactionsView {
  import opened Wrappers
  import opened Seqs
  import opened Strings
  import opened Dates
  import opened Types
  import opened DataStore

  /** The type selector: "all", "income" or "expense". */
  datatype TypeFilter = All | Only(kind: Kind)

  /** `filter === "all" || t.type === filter`. */
  function OfType(filter: TypeFilter): Transaction -> bool
  {
    (t: Transaction) => filter == All || (filter.Only? && t.kind == filter.kind)
  }

  /** The search: the lower-cased term occurs in the lower-cased description or category. */
  function Matching(term: string): Transaction -> bool
  {
    (t: Transaction) => Contains(Lower(t.description), Lower(term)) || Contains(Lower(t.category), Lower(term))
  }

  /**
   * `new Date(t.date).getTime()`, counted in days (it is a whole number of
   * days times 86 400 000 ms); `None` is the NaN of a date text that `new
   * Date` rejects.
   */
  function Stamp(t: Transaction): Option<int>
  {
    match ParseDate(t.date)
    case Some(d) => Some(DayNumber(d))
    case None => None
  }

  /**
   * The comparator `(a, b) => key(b) - key(a)` puts `a` after `b` exactly
   * when `a` is strictly newer; a NaN difference counts as a tie.
   */
  predicate Newer<T>(a: T, b: T, key: T -> Option<int>)
  {
    key(a).Some? && key(b).Some? && key(a).value > key(b).value
  }

  /**
   * One step of an insertion sort: `x` goes before the first element that is
   * not strictly newer than it.
   */
  function Insert<T>(x: T, r: seq<T>, key: T -> Option<int>): (out: seq<T>)
    ensures |out| == |r| + 1
    ensures multiset(out) == multiset(r) + multiset{x}
  {
    if r == [] then [x]
    else if Newer(r[0], x, key) then
      assert r == [r[0]] + r[1..];
      [r[0]] + Insert(x, r[1..], key)
    else [x] + r
  }

  /** `.sort(comparator)`, as an insertion sort from the back of the list. */
  function SortNewestFirst<T>(s: seq<T>, key: T -> Option<int>): (r: seq<T>)
    ensures multiset(r) == multiset(s)
  {
    if s == [] then []
    else
      assert s == [s[0]] + s[1..];
      Insert(s[0], SortNewestFirst(s[1..], key), key)
  }

  /** `filteredTransactions`: filter by type, then by search term, then sort newest first by date. */
  function Visible(transactions: seq<Transaction>, filter: TypeFilter, term: string): (shown: seq<Transaction>)
    ensures |shown| <= |transactions|
  {
    var kept := Filter(Filter(transactions, OfType(filter)), Matching(term));
    var sorted := SortNewestFirst(kept, Stamp);
    assert |sorted| == |multiset(sorted)| == |multiset(kept)| == |kept|;
    sorted
  }

  /** Every key is a number and no later element is newer than an earlier one. */
  predicate NewestFirst<T>(s: seq<T>, key: T -> Option<int>)
  {
    forall i, j :: 0 <= i < j < |s| ==> key(s[i]).Some? && key(s[j]).Some? && key(s[j]).value <= key(s[i]).value
  }

  /** Inserting an element with a key into a list already newest first keeps it newest first. */
  lemma {:induction false} InsertKeepsOrder<T>(x: T, r: seq<T>, key: T -> Option<int>)
    requires key(x).Some? && NewestFirst(r, key) && forall t :: t in r ==> key(t).Some?
    ensures NewestFirst(Insert(x, r, key), key)
    decreases |r|, 1
  {
    if r != [] {
      if Newer(r[0], x, key) {
        InsertAfterHead(x, r, key);
      } else {
        var out := Insert(x, r, key);
        assert out == [x] + r;
        forall j | 1 <= j < |out| ensures key(out[j]).Some? && key(out[j]).value <= key(x).value {
          assert out[j] == r[j - 1];
          assert r[0] in r;
        }
      }
    }
  }

  /** The case where the head of the list is strictly newer: `x` goes into the tail. */
  lemma {:induction false} InsertAfterHead<T>(x: T, r: seq<T>, key: T -> Option<int>)
    requires r != [] && Newer(r[0], x, key)
    requires NewestFirst(r, key) && forall t :: t in r ==> key(t).Some?
    ensures NewestFirst(Insert(x, r, key), key)
    decreases |r|, 0
  {
    var out := Insert(x, r, key);
    var rest := Insert(x, r[1..], key);
    InsertKeepsOrder(x, r[1..], key);
    assert out == [r[0]] + rest;
    forall t | t in r[1..] ensures key(t).Some? && key(t).value <= key(r[0]).value {
      var k :| 0 <= k < |r[1..]| && r[1..][k] == t;
      assert r[k + 1] == t;
    }
    InsertBelow(x, r[1..], key, key(r[0]).value);
    forall i, j | 0 <= i < j < |out|
      ensures key(out[i]).Some? && key(out[j]).Some? && key(out[j]).value <= key(out[i]).value
    {
      assert out[j] == rest[j - 1] && out[j] in rest;
      if i > 0 {
        assert out[i] == rest[i - 1];
      }
    }
  }

  /** Inserting into a list whose keys are all at most `bound` an element whose key is too leaves every key at most `bound`. */
  lemma InsertBelow<T>(x: T, s: seq<T>, key: T -> Option<int>, bound: int)
    requires key(x).Some? && key(x).value <= bound
    requires forall t :: t in s ==> key(t).Some? && key(t).value <= bound
    ensures forall t :: t in Insert(x, s, key) ==> key(t).Some? && key(t).value <= bound
  {
    var out := Insert(x, s, key);
    forall t | t in out ensures key(t).Some? && key(t).value <= bound {
      assert t in multiset(out);
      if t != x {
        assert t in multiset(s);
      }
    }
  }

  /** When every key is a number, the sort really orders the list newest first. */
  lemma {:induction false} SortIsNewestFirst<T>(s: seq<T>, key: T -> Option<int>)
    requires forall t :: t in s ==> key(t).Some?
    ensures NewestFirst(SortNewestFirst(s, key), key)
  {
    if s != [] {
      var rest := SortNewestFirst(s[1..], key);
      SortIsNewestFirst(s[1..], key);
      forall t | t in rest ensures key(t).Some? {
        assert t in multiset(rest);
        assert t in multiset(s[1..]);
      }
      assert s[0] in s;
      InsertKeepsOrder(s[0], rest, key);
    }
  }

  /**
   * The list holds every stored transaction that passes both the type filter
   * and the search, as many times as it is stored, and nothing else.
   */
  lemma VisibleIsFilteredSubset(transactions: seq<Transaction>, filter: TypeFilter, term: string)
    ensures forall t :: (multiset(Visible(transactions, filter, term))[t]
      == if OfType(filter)(t) && Matching(term)(t) then multiset(transactions)[t] else 0)
    ensures forall t :: (t in Visible(transactions, filter, term)
      <==> t in transactions && OfType(filter)(t) && Matching(term)(t))
  {
    var byType := Filter(transactions, OfType(filter));
    FilterMultiset(transactions, OfType(filter));
    FilterMultiset(byType, Matching(term));
    forall t ensures t in Visible(transactions, filter, term) <==> t in multiset(Visible(transactions, filter, term)) {
    }
  }

  /** The transactions that pass both tests, in stored order. */
  function Shown(filter: TypeFilter, term: string): Transaction -> bool
  {
    (t: Transaction) => OfType(filter)(t) && Matching(term)(t)
  }

  /** "N transaction(s) found": the count is the number of stored transactions that pass both tests. */
  lemma CountIsNumberShown(transactions: seq<Transaction>, filter: TypeFilter, term: string)
    ensures |Visible(transactions, filter, term)| == |Filter(transactions, Shown(filter, term))|
  {
    VisibleIsFilteredSubset(transactions, filter, term);
    FilterMultiset(transactions, Shown(filter, term));
    assert multiset(Visible(transactions, filter, term)) == multiset(Filter(transactions, Shown(filter, term)));
  }

  /** With every date readable, the list is in date order, newest first. */
  lemma VisibleIsNewestFirst(transactions: seq<Transaction>, filter: TypeFilter, term: string)
    requires forall t :: t in transactions ==> ParseDate(t.date).Some?
    ensures NewestFirst(Visible(transactions, filter, term), Stamp)
  {
    var shown := Filter(Filter(transactions, OfType(filter)), Matching(term));
    SortIsNewestFirst(shown, Stamp);
  }

  /** The empty search term matches every transaction. */
  lemma EmptyTermMatchesAll(t: Transaction)
    ensures Matching("")(t)
  {
    assert Lower("") == "";
    EmptyAlwaysContained(Lower(t.description));
  }

  /** The search ignores the case of the term. */
  lemma SearchIgnoresCase(term: string, t: Transaction)
    ensures Matching(term)(t) == Matching(Lower(term))(t)
  {
    LowerIdempotent(term);
  }

  /** Under "all" and an empty search the page lists every stored transaction. */
  lemma UnfilteredShowsEverything(transactions: seq<Transaction>)
    ensures multiset(Visible(transactions, All, "")) == multiset(transactions)
  {
    forall t ensures Matching("")(t) {
      EmptyTermMatchesAll(t);
    }
    VisibleIsFilteredSubset(transactions, All, "");
  }

  /** The form's fields, as `handleSubmit` reads them. */
  datatype TransactionForm = TransactionForm(
    kind: Kind,
    amount: real,
    category: string,
    description: string,
    date: string,
    userId: string)

  /** `transactionData` as the update of an edited transaction: every field but the id. */
  function FormPatch(form: TransactionForm): TransactionPatch
  {
    TransactionPatch(None, Some(form.kind), Some(form.amount), Some(form.category),
                     Some(form.description), Some(form.date), Some(form.userId))
  }

  /** `transactionData` as a new record under the id `id`. */
  function FormRecord(form: TransactionForm, id: string): Transaction
  {
    Transaction(id, form.kind, form.amount, form.category, form.description, form.date, form.userId)
  }

  /** Editing keeps the transaction's id and takes every other field from the form. */
  lemma EditTakesFormFields(t: Transaction, form: TransactionForm)
    ensures MergeTransaction(t, FormPatch(form)) == FormRecord(form, t.id)
  {
  }

  /**
   * `handleSubmit`: with a transaction being edited, the first stored
   * transaction with its id is overwritten by the form (and nothing happens
   * if there is none); otherwise the form is added under the new id.
   */
  method SubmitTransaction(store: Store, editing: Option<Transaction>, form: TransactionForm, newId: string)
    modifies store
    ensures editing.Some? ==>
      var i := FindIndex(old(store.transactions), TransactionWithId(editing.value.id));
      store.transactions == if i == -1 then old(store.transactions)
                            else old(store.transactions)[i := FormRecord(form, editing.value.id)]
    ensures editing.Some? ==>
      FindIndex(store.transactions, TransactionWithId(editing.value.id))
      == FindIndex(old(store.transactions), TransactionWithId(editing.value.id))
    ensures editing.None? ==> store.transactions == old(store.transactions) + [FormRecord(form, newId)]
    ensures store.categories == old(store.categories) && store.budgets == old(store.budgets)
    ensures store.recurringTransactions == old(store.recurringTransactions)
  {
    if editing.Some? {
      var _ := store.UpdateTransaction(editing.value.id, FormPatch(form));
    } else {
      var _ := store.AddTransaction(FormRecord(form, ""), newId);
    }
  }
}
