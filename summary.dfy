/**
  The three figures of the summary panel: income and expense over the filtered
  transactions plus every recurring item, and their difference.
 */
module Summary {
  import opened Records
  import opened Seqs
  import opened Filter

  datatype Totals = Totals(totalIncome: int, totalExpense: int, balance: int)

  function IncomeOf(t: Transaction): int
  {
    if t.kind == Income then t.amount else 0
  }

  function ExpenseOf(t: Transaction): int
  {
    if t.kind == Expense then t.amount else 0
  }

  function RecurringIncomeOf(r: RecurringItem): int
  {
    if r.kind == Income then r.amount else 0
  }

  function RecurringExpenseOf(r: RecurringItem): int
  {
    if r.kind == Expense then r.amount else 0
  }

  /** Income counts positive, expense negative, any other kind not at all. */
  function SignedAmountOf(t: Transaction): int
  {
    IncomeOf(t) - ExpenseOf(t)
  }

  function RecurringSignedAmountOf(r: RecurringItem): int
  {
    RecurringIncomeOf(r) - RecurringExpenseOf(r)
  }

  /** The figures `updateSummary` computes from the filtered view and all recurring items. */
  function Summarize(view: seq<Transaction>, recurring: seq<RecurringItem>): (s: Totals)
    ensures s.balance == s.totalIncome - s.totalExpense
  {
    var totalIncome := SumOf(view, IncomeOf) + SumOf(recurring, RecurringIncomeOf);
    var totalExpense := SumOf(view, ExpenseOf) + SumOf(recurring, RecurringExpenseOf);
    Totals(totalIncome, totalExpense, totalIncome - totalExpense)
  }

  /** The balance is the signed sum of every counted amount, recurring items included. */
  lemma BalanceIsSignedSum(view: seq<Transaction>, recurring: seq<RecurringItem>)
    ensures Summarize(view, recurring).balance == SumOf(view, SignedAmountOf) + SumOf(recurring, RecurringSignedAmountOf)
  {
    SumOfDifference(view, IncomeOf, ExpenseOf, SignedAmountOf);
    SumOfDifference(recurring, RecurringIncomeOf, RecurringExpenseOf, RecurringSignedAmountOf);
  }

  /** Adding a transaction to the view moves exactly one of the two totals, by its amount. */
  lemma SummarizeAppend(view: seq<Transaction>, recurring: seq<RecurringItem>, t: Transaction)
    ensures var before := Summarize(view, recurring);
            var after := Summarize(view + [t], recurring);
            after.totalIncome == before.totalIncome + IncomeOf(t) &&
            after.totalExpense == before.totalExpense + ExpenseOf(t)
  {
    SumOfAppend(view, [t], IncomeOf);
    SumOfAppend(view, [t], ExpenseOf);
  }

  /** Replacing the transaction at `i` swaps its contribution for the new one's. */
  lemma SummarizeReplace(view: seq<Transaction>, recurring: seq<RecurringItem>, i: nat, t: Transaction)
    requires i < |view|
    ensures var before := Summarize(view, recurring);
            var after := Summarize(view[i := t], recurring);
            after.totalIncome == before.totalIncome - IncomeOf(view[i]) + IncomeOf(t) &&
            after.totalExpense == before.totalExpense - ExpenseOf(view[i]) + ExpenseOf(t)
  {
    assert view == view[..i] + [view[i]] + view[i + 1..];
    assert view[i := t] == view[..i] + [t] + view[i + 1..];
    SumOfAppend(view[..i] + [view[i]], view[i + 1..], IncomeOf);
    SumOfAppend(view[..i], [view[i]], IncomeOf);
    SumOfAppend(view[..i] + [t], view[i + 1..], IncomeOf);
    SumOfAppend(view[..i], [t], IncomeOf);
    SumOfAppend(view[..i] + [view[i]], view[i + 1..], ExpenseOf);
    SumOfAppend(view[..i], [view[i]], ExpenseOf);
    SumOfAppend(view[..i] + [t], view[i + 1..], ExpenseOf);
    SumOfAppend(view[..i], [t], ExpenseOf);
  }

  /** Removing the transaction at `i` takes its contribution away. */
  lemma SummarizeRemove(view: seq<Transaction>, recurring: seq<RecurringItem>, i: nat)
    requires i < |view|
    ensures var before := Summarize(view, recurring);
            var after := Summarize(view[..i] + view[i + 1..], recurring);
            after.totalIncome == before.totalIncome - IncomeOf(view[i]) &&
            after.totalExpense == before.totalExpense - ExpenseOf(view[i])
  {
    assert view == view[..i] + [view[i]] + view[i + 1..];
    SumOfAppend(view[..i] + [view[i]], view[i + 1..], IncomeOf);
    SumOfAppend(view[..i], [view[i]], IncomeOf);
    SumOfAppend(view[..i], view[i + 1..], IncomeOf);
    SumOfAppend(view[..i] + [view[i]], view[i + 1..], ExpenseOf);
    SumOfAppend(view[..i], [view[i]], ExpenseOf);
    SumOfAppend(view[..i], view[i + 1..], ExpenseOf);
  }

  /** A recurring item counts whatever the filter: adding one moves the totals by its amount. */
  lemma SummarizeAddRecurring(view: seq<Transaction>, recurring: seq<RecurringItem>, r: RecurringItem)
    ensures var before := Summarize(view, recurring);
            var after := Summarize(view, recurring + [r]);
            after.totalIncome == before.totalIncome + RecurringIncomeOf(r) &&
            after.totalExpense == before.totalExpense + RecurringExpenseOf(r)
  {
    SumOfAppend(recurring, [r], RecurringIncomeOf);
    SumOfAppend(recurring, [r], RecurringExpenseOf);
  }

  /** One salary of 1000 and a recurring rent of 300 give 1000 / 300 / 700. */
  lemma SalaryAndRent()
    ensures Summarize([Transaction("2024-01-05", Income, "Salary", 1000)], [RecurringItem("Rent", Expense, 300)])
            == Totals(1000, 300, 700)
  {
    var view := [Transaction("2024-01-05", Income, "Salary", 1000)];
    var recurring := [RecurringItem("Rent", Expense, 300)];
    assert view[..0] == [] && recurring[..0] == [];
    assert Income != Expense;
    assert SumOf(view, IncomeOf) == 1000 && SumOf(view, ExpenseOf) == 0;
    assert SumOf(recurring, RecurringIncomeOf) == 0 && SumOf(recurring, RecurringExpenseOf) == 300;
  }

  /** What one store record adds to a sum over the view: its amount if it passes, nothing otherwise. */
  lemma SumOfKept(c: Criterion, t: Transaction, f: Transaction -> int)
    ensures SumOf(Kept(c, t), f) == if Keeps(c, t) then f(t) else 0
  {
    if Keeps(c, t) {
      SumOfSingle(t, f);
    }
  }

  /** A `push` onto the store moves the shown totals by the new record's amount when the filter keeps it, and not at all otherwise. */
  lemma PushTotals(ts: seq<Transaction>, recurring: seq<RecurringItem>, c: Criterion, t: Transaction)
    ensures var before := Summarize(FilterBy(ts, c), recurring);
            var after := Summarize(FilterBy(ts + [t], c), recurring);
            after.totalIncome == before.totalIncome + (if Keeps(c, t) then IncomeOf(t) else 0) &&
            after.totalExpense == before.totalExpense + (if Keeps(c, t) then ExpenseOf(t) else 0)
  {
    FilterPush(ts, c, t);
    SumOfAppend(FilterBy(ts, c), Kept(c, t), IncomeOf);
    SumOfAppend(FilterBy(ts, c), Kept(c, t), ExpenseOf);
    SumOfKept(c, t, IncomeOf);
    SumOfKept(c, t, ExpenseOf);
  }

  /** Replacing store record `i` takes its share out of the shown totals and puts the new record's in. */
  lemma ReplaceTotals(ts: seq<Transaction>, recurring: seq<RecurringItem>, c: Criterion, i: nat, t: Transaction)
    requires i < |ts|
    ensures var before := Summarize(FilterBy(ts, c), recurring);
            var after := Summarize(FilterBy(ts[i := t], c), recurring);
            after.totalIncome == before.totalIncome - (if Keeps(c, ts[i]) then IncomeOf(ts[i]) else 0)
                                                    + (if Keeps(c, t) then IncomeOf(t) else 0) &&
            after.totalExpense == before.totalExpense - (if Keeps(c, ts[i]) then ExpenseOf(ts[i]) else 0)
                                                      + (if Keeps(c, t) then ExpenseOf(t) else 0)
  {
    FilterAround(ts, c, i);
    FilterReplace(ts, c, i, t);
    var a, b := FilterBy(ts[..i], c), FilterBy(ts[i + 1..], c);
    SumOfSplice(a, Kept(c, ts[i]), Kept(c, t), b, IncomeOf);
    SumOfSplice(a, Kept(c, ts[i]), Kept(c, t), b, ExpenseOf);
    SumOfKept(c, ts[i], IncomeOf);
    SumOfKept(c, ts[i], ExpenseOf);
    SumOfKept(c, t, IncomeOf);
    SumOfKept(c, t, ExpenseOf);
  }

  /** A sum over the view of a store with record `i` removed loses that record's share. */
  lemma RemoveSum(ts: seq<Transaction>, c: Criterion, i: nat, f: Transaction -> int)
    requires i < |ts|
    ensures SumOf(FilterBy(ts[..i] + ts[i + 1..], c), f) == SumOf(FilterBy(ts, c), f) - (if Keeps(c, ts[i]) then f(ts[i]) else 0)
  {
    FilterAround(ts, c, i);
    FilterRemove(ts, c, i);
    SumOfDrop(FilterBy(ts[..i], c), Kept(c, ts[i]), FilterBy(ts[i + 1..], c), f);
    SumOfKept(c, ts[i], f);
  }

  /** Removing store record `i` takes its share out of the shown totals. */
  lemma RemoveTotals(ts: seq<Transaction>, recurring: seq<RecurringItem>, c: Criterion, i: nat)
    requires i < |ts|
    ensures var before := Summarize(FilterBy(ts, c), recurring);
            var after := Summarize(FilterBy(ts[..i] + ts[i + 1..], c), recurring);
            after.totalIncome == before.totalIncome - (if Keeps(c, ts[i]) then IncomeOf(ts[i]) else 0) &&
            after.totalExpense == before.totalExpense - (if Keeps(c, ts[i]) then ExpenseOf(ts[i]) else 0)
  {
    RemoveSum(ts, c, i, IncomeOf);
    RemoveSum(ts, c, i, ExpenseOf);
  }
}
