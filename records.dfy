/**
  The two record kinds of the store, the strings the import deduplicates them
  by, and the lookup the transaction list uses to find a record's position in
  the store.
 */
module Records {
  import opened Numbers

  /** A one-off entry. `kind` is the script's `type` field ("income" or "expense", never checked). */
  datatype Transaction = Transaction(date: string, kind: string, category: string, amount: int)

  /** An entry that counts in every period. */
  datatype RecurringItem = RecurringItem(name: string, kind: string, amount: int)

  const Income: string := "income"
  const Expense: string := "expense"

  /** `${t.date}-${t.category}-${t.amount}`. */
  function TransactionKey(t: Transaction): string
  {
    t.date + "-" + t.category + "-" + IntToString(t.amount)
  }

  /** `${r.name}-${r.amount}`. */
  function RecurringKey(r: RecurringItem): string
  {
    r.name + "-" + IntToString(r.amount)
  }

  /**
    The keys are plain concatenations, so records whose (date, category,
    amount) differ can still share a key when a `-` moves between fields.
   */
  lemma KeysCanCollide()
    ensures var a := Transaction("2024-01", Expense, "05-Food", 5);
            var b := Transaction("2024-01-05", Expense, "Food", 5);
            (a.date, a.category) != (b.date, b.category) && TransactionKey(a) == TransactionKey(b)
    ensures var a := RecurringItem("Rent-", Expense, 5);
            var b := RecurringItem("Rent", Expense, -5);
            (a.name, a.amount) != (b.name, b.amount) && RecurringKey(a) == RecurringKey(b)
  {
    assert IntToString(5) == "5";
    assert IntToString(-5) == "-5";
  }

  /** What the transaction list compares to find a record again: date, category and amount (not the kind). */
  predicate SameEntry(a: Transaction, b: Transaction)
  {
    a.date == b.date && a.category == b.category && a.amount == b.amount
  }

  /** `transactions.findIndex(trans => SameEntry(trans, t))`: the first match, or -1. */
  function FindIndex(ts: seq<Transaction>, t: Transaction): (i: int)
    ensures -1 <= i < |ts|
    ensures i >= 0 ==> SameEntry(ts[i], t) && forall j :: 0 <= j < i ==> !SameEntry(ts[j], t)
    ensures i == -1 ==> forall j :: 0 <= j < |ts| ==> !SameEntry(ts[j], t)
  {
    if ts == [] then -1
    else if SameEntry(ts[0], t) then 0
    else
      var k := FindIndex(ts[1..], t);
      if k == -1 then -1 else k + 1
  }

  /** A record taken from the store is always found, so the list's edit and delete buttons get a valid index. */
  lemma FindIndexOfMember(ts: seq<Transaction>, t: Transaction)
    requires t in ts
    ensures 0 <= FindIndex(ts, t) < |ts|
  {
  }

  /**
    With two records that agree on date, category and amount, the later one is
    never found at its own position: editing or deleting it from the list acts
    on an earlier record.
   */
  lemma FindIndexShadowsDuplicates(ts: seq<Transaction>, i: nat, j: nat)
    requires i < j < |ts| && SameEntry(ts[i], ts[j])
    ensures FindIndex(ts, ts[j]) <= i < j
  {
  }
}
