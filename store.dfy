/**
  The script's module-level state as one object: the two record collections,
  the positions being edited, and the handlers that change them (add, edit,
  save, cancel, delete, import) or read them out (export).
 */
module Store {
  import opened Wrappers
  import opened Seqs
  import opened Records
  import opened Csv
  import opened Merge
  import opened Text

  /**
    `array.splice(index, 1)`: a negative index counts from the end (and is
    clamped to 0), and an index at or past the end removes nothing.
   */
  function SpliceOne<T>(s: seq<T>, index: int): seq<T>
  {
    var start := if index < 0 then (if |s| + index < 0 then 0 else |s| + index) else index;
    if start < |s| then s[..start] + s[start + 1..] else s
  }

  /** Deleting at a position inside the list removes exactly that record and keeps the others in order. */
  lemma SpliceOneAt<T>(s: seq<T>, i: nat)
    requires i < |s|
    ensures var r := SpliceOne(s, i);
      |r| == |s| - 1 && multiset(r) + multiset{s[i]} == multiset(s)
      && (forall j :: 0 <= j < i ==> r[j] == s[j])
      && (forall j :: i <= j < |r| ==> r[j] == s[j + 1])
  {
    assert s == s[..i] + [s[i]] + s[i + 1..];
  }

  /** Deleting past the end changes nothing. */
  lemma SpliceOnePastEnd<T>(s: seq<T>, index: int)
    requires index >= |s|
    ensures SpliceOne(s, index) == s
  {
  }

  /** A negative position counts back from the end. */
  lemma SpliceOneFromEnd<T>(s: seq<T>, index: int)
    requires -|s| <= index < 0
    ensures SpliceOne(s, index) == SpliceOne(s, |s| + index)
  {
  }

  /** What an import reports: the two refusals, or the number of rows it accepted before deduplication. */
  datatype ImportOutcome = EmptyFileRefused | FormatRefused | Imported(count: nat)

  /** One `forEach` of `exportToCSV`: each item's row and a newline added to the text written so far. */
  method WriteRows<A>(text: string, rows: seq<string>, items: seq<A>, row: A -> string) returns (out: string)
    requires text == Lines(rows)
    ensures out == Lines(rows + Map(items, row))
  {
    out := text;
    assert rows + Map(items[..0], row) == rows;
    for i := 0 to |items|
      invariant out == Lines(rows + Map(items[..i], row))
    {
      LinesStep(rows, items, i, row);
      out := out + row(items[i]) + "\n";
    }
    assert items[..|items|] == items;
  }

  /**
    The reading half of `importFromCSV`: the non-blank lines of the text and
    its header are checked, then the row loop collects what each kind accepts.
   */
  method ReadImport(text: string) returns (outcome: ImportOutcome, importedRecurring: seq<RecurringItem>, importedTransactions: seq<Transaction>)
    ensures outcome == EmptyFileRefused <==> Decode(text) == EmptyFile
    ensures outcome == FormatRefused <==> Decode(text) == BadHeader
    ensures outcome.Imported? <==> Decode(text).Decoded?
    ensures outcome.Imported? ==>
      && importedRecurring == Decode(text).recurring
      && importedTransactions == Decode(text).transactions
      && outcome.count == |importedRecurring| + |importedTransactions|
  {
    var lines := ContentLines(text);
    DecodeOfLines(text, lines);
    importedRecurring, importedTransactions := [], [];
    if |lines| == 0 {
      return EmptyFileRefused, importedRecurring, importedTransactions;
    }
    var headers := ParseRow(lines[0]);
    if headers[0] != "RecordType" {
      return FormatRefused, importedRecurring, importedTransactions;
    }
    importedRecurring, importedTransactions := DecodeRows(lines);
    outcome := Imported(|importedRecurring| + |importedTransactions|);
  }

  class RecordStore {
    var transactions: seq<Transaction>
    var recurringItems: seq<RecurringItem>
    var editingIndex: Option<int>
    var editingRecurringIndex: Option<int>

    /** The state after loading the saved collections, with nothing being edited. */
    constructor(savedTransactions: seq<Transaction>, savedRecurring: seq<RecurringItem>)
      ensures transactions == savedTransactions && recurringItems == savedRecurring
      ensures editingIndex == None && editingRecurringIndex == None
    {
      transactions := savedTransactions;
      recurringItems := savedRecurring;
      editingIndex := None;
      editingRecurringIndex := None;
    }

    /** The transaction form's submit: `transactions.push(newTransaction)`. */
    method AddTransaction(t: Transaction)
      modifies this
      ensures transactions == old(transactions) + [t]
      ensures recurringItems == old(recurringItems)
      ensures editingIndex == old(editingIndex) && editingRecurringIndex == old(editingRecurringIndex)
    {
      transactions := transactions + [t];
    }

    /** The recurring form's submit: `recurringItems.push(newItem)`. */
    method AddRecurring(r: RecurringItem)
      modifies this
      ensures recurringItems == old(recurringItems) + [r]
      ensures transactions == old(transactions)
      ensures editingIndex == old(editingIndex) && editingRecurringIndex == old(editingRecurringIndex)
    {
      recurringItems := recurringItems + [r];
    }

    method EditTransaction(index: int)
      modifies this
      ensures editingIndex == Some(index)
      ensures transactions == old(transactions) && recurringItems == old(recurringItems)
      ensures editingRecurringIndex == old(editingRecurringIndex)
    {
      editingIndex := Some(index);
    }

    /** `transactions[index] = updatedTransaction`, then the row leaves edit mode. */
    method SaveTransaction(index: int, t: Transaction)
      requires 0 <= index < |transactions|
      modifies this
      ensures transactions == old(transactions)[index := t]
      ensures recurringItems == old(recurringItems)
      ensures editingIndex == None && editingRecurringIndex == old(editingRecurringIndex)
    {
      transactions := transactions[index := t];
      editingIndex := None;
    }

    method CancelEditTransaction()
      modifies this
      ensures editingIndex == None
      ensures transactions == old(transactions) && recurringItems == old(recurringItems)
      ensures editingRecurringIndex == old(editingRecurringIndex)
    {
      editingIndex := None;
    }

    method EditRecurring(index: int)
      modifies this
      ensures editingRecurringIndex == Some(index)
      ensures transactions == old(transactions) && recurringItems == old(recurringItems)
      ensures editingIndex == old(editingIndex)
    {
      editingRecurringIndex := Some(index);
    }

    /** `recurringItems[index] = updatedItem`, then the row leaves edit mode. */
    method SaveRecurring(index: int, r: RecurringItem)
      requires 0 <= index < |recurringItems|
      modifies this
      ensures recurringItems == old(recurringItems)[index := r]
      ensures transactions == old(transactions)
      ensures editingRecurringIndex == None && editingIndex == old(editingIndex)
    {
      recurringItems := recurringItems[index := r];
      editingRecurringIndex := None;
    }

    method CancelEditRecurring()
      modifies this
      ensures editingRecurringIndex == None
      ensures transactions == old(transactions) && recurringItems == old(recurringItems)
      ensures editingIndex == old(editingIndex)
    {
      editingRecurringIndex := None;
    }

    /** `transactions.splice(index, 1)` once the user has confirmed; nothing otherwise. */
    method DeleteTransaction(index: int, confirmed: bool)
      modifies this
      ensures transactions == if confirmed then SpliceOne(old(transactions), index) else old(transactions)
      ensures recurringItems == old(recurringItems)
      ensures editingIndex == old(editingIndex) && editingRecurringIndex == old(editingRecurringIndex)
    {
      if confirmed {
        transactions := SpliceOne(transactions, index);
      }
    }

    /** `recurringItems.splice(index, 1)` once the user has confirmed; nothing otherwise. */
    method DeleteRecurring(index: int, confirmed: bool)
      modifies this
      ensures recurringItems == if confirmed then SpliceOne(old(recurringItems), index) else old(recurringItems)
      ensures transactions == old(transactions)
      ensures editingIndex == old(editingIndex) && editingRecurringIndex == old(editingRecurringIndex)
    {
      if confirmed {
        recurringItems := SpliceOne(recurringItems, index);
      }
    }

    /** `exportToCSV`: the header row, then one row per recurring item and one per transaction, each ended by a newline, behind a byte-order mark. */
    method ExportToCsv() returns (csv: string)
      ensures csv == Encode(recurringItems, transactions)
    {
      var header := JoinFields(Headers);
      var csvContent := header + "\n";
      assert csvContent == Lines([header]);
      csvContent := WriteRows(csvContent, [header], recurringItems, RecurringRow);
      csvContent := WriteRows(csvContent, [header] + Map(recurringItems, RecurringRow), transactions, TransactionRow);
      csv := [BOM] + csvContent;
    }

    /**
      `importFromCSV` once the file is read: an empty file or a wrong header
      changes nothing; otherwise the accepted rows are appended to each
      collection and the result is deduplicated by key.
     */
    method ImportFromCsv(text: string) returns (outcome: ImportOutcome)
      modifies this
      ensures Decode(text) == EmptyFile ==>
        outcome == EmptyFileRefused && transactions == old(transactions) && recurringItems == old(recurringItems)
      ensures Decode(text) == BadHeader ==>
        outcome == FormatRefused && transactions == old(transactions) && recurringItems == old(recurringItems)
      ensures Decode(text).Decoded? ==>
        outcome == Imported(|Decode(text).recurring| + |Decode(text).transactions|)
        && transactions == MergeImport(old(transactions), Decode(text).transactions, TransactionKey)
        && recurringItems == MergeImport(old(recurringItems), Decode(text).recurring, RecurringKey)
      ensures editingIndex == old(editingIndex) && editingRecurringIndex == old(editingRecurringIndex)
    {
      var importedRecurring, importedTransactions;
      outcome, importedRecurring, importedTransactions := ReadImport(text);
      if outcome.Imported? {
        MergeImported(importedRecurring, importedTransactions);
      }
    }

    /** The merge ending `importFromCSV`: append what was read, then keep one entry per key. */
    method MergeImported(importedRecurring: seq<RecurringItem>, importedTransactions: seq<Transaction>)
      modifies this
      ensures transactions == MergeImport(old(transactions), importedTransactions, TransactionKey)
      ensures recurringItems == MergeImport(old(recurringItems), importedRecurring, RecurringKey)
      ensures editingIndex == old(editingIndex) && editingRecurringIndex == old(editingRecurringIndex)
    {
      recurringItems := recurringItems + importedRecurring;
      transactions := transactions + importedTransactions;
      transactions := Dedup(transactions, TransactionKey);
      recurringItems := Dedup(recurringItems, RecurringKey);
    }
  }
}
