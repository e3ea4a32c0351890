/**
  The CSV exchange format: the text `exportToCSV` builds from the store and
  the parse `importFromCSV` applies to a file's text before merging.
 */
module Csv {
  import opened Wrappers
  import opened Text
  import opened Numbers
  import opened Records
  import opened Seqs

  const Headers: seq<string> := ["RecordType", "Date", "Name", "Category", "Type", "Amount"]

  /** `fields.join(',')`. */
  function JoinFields(fields: seq<string>): (row: string)
    ensures fields != [] ==> |fields[0]| <= |row| && row[..|fields[0]|] == fields[0]
  {
    if fields == [] then ""
    else if |fields| == 1 then fields[0]
    else fields[0] + "," + JoinFields(fields[1..])
  }

  /** `"${s.replace(/"/g, '""')}"`. */
  function QuoteField(s: string): string
  {
    "\"" + EscapeQuotes(s) + "\""
  }

  /** The six fields of a recurring item's row: `Recurring,,"<name>",,<type>,<amount>`. */
  function RecurringFields(r: RecurringItem): seq<string>
  {
    ["Recurring", "", QuoteField(r.name), "", r.kind, IntToString(r.amount)]
  }

  /** The six fields of a transaction's row: `Transaction,<date>,,"<category>",<type>,<amount>`. */
  function TransactionFields(t: Transaction): seq<string>
  {
    ["Transaction", t.date, "", QuoteField(t.category), t.kind, IntToString(t.amount)]
  }

  function RecurringRow(r: RecurringItem): string
  {
    JoinFields(RecurringFields(r))
  }

  function TransactionRow(t: Transaction): string
  {
    JoinFields(TransactionFields(t))
  }

  /** Every row followed by a newline. */
  function Lines(rows: seq<string>): string
  {
    if rows == [] then "" else rows[0] + "\n" + Lines(rows[1..])
  }

  lemma {:induction false} LinesAppend(a: seq<string>, b: seq<string>)
    ensures Lines(a + b) == Lines(a) + Lines(b)
  {
    if a == [] {
      assert a + b == b;
    } else {
      assert (a + b)[1..] == a[1..] + b;
      LinesAppend(a[1..], b);
    }
  }

  /** One more row written out: the text so far, the row, a newline. */
  lemma LinesSnoc(rows: seq<string>, row: string)
    ensures Lines(rows + [row]) == Lines(rows) + row + "\n"
  {
    LinesAppend(rows, [row]);
    assert [row][1..] == [];
  }

  /** A writing loop's step: the text for one more item's row is the text so far, that row and a newline. */
  lemma LinesStep<A>(prefix: seq<string>, xs: seq<A>, i: nat, row: A -> string)
    requires i < |xs|
    ensures Lines(prefix + Map(xs[..i + 1], row)) == Lines(prefix + Map(xs[..i], row)) + row(xs[i]) + "\n"
  {
    MapSnoc(xs, i, row);
    AppendAssoc(prefix, Map(xs[..i], row), [row(xs[i])]);
    LinesSnoc(prefix + Map(xs[..i], row), row(xs[i]));
  }

  /** The rows of an export: the header row, the recurring rows, then the transaction rows. */
  function ExportRows(recurring: seq<RecurringItem>, transactions: seq<Transaction>): seq<string>
  {
    [JoinFields(Headers)] + Map(recurring, RecurringRow) + Map(transactions, TransactionRow)
  }

  /** The exported text: a byte-order mark, then every row followed by a newline. */
  function Encode(recurring: seq<RecurringItem>, transactions: seq<Transaction>): string
  {
    [BOM] + Lines(ExportRows(recurring, transactions))
  }

  /** A comma the row split cuts at: one followed by an even number of quotes up to the end of the row. */
  predicate IsSeparator(row: string, j: nat)
    requires j < |row|
  {
    row[j] == ',' && !OddQuotes(row[j + 1..])
  }

  function NextSeparator(row: string, from: nat): (r: Option<nat>)
    requires from <= |row|
    ensures r.Some? ==> from <= r.value < |row| && IsSeparator(row, r.value)
    ensures r.Some? ==> forall j :: from <= j < r.value ==> !IsSeparator(row, j)
    ensures r.None? ==> forall j :: from <= j < |row| ==> !IsSeparator(row, j)
    decreases |row| - from
  {
    if from == |row| then None
    else if IsSeparator(row, from) then Some(from)
    else NextSeparator(row, from + 1)
  }

  /** `row.split(/,(?=(?:(?:[^"]*"){2})*[^"]*$)/)`: the pieces between separators; joining them gives the row back. */
  function SplitRow(row: string): (fields: seq<string>)
    ensures |fields| >= 1
    ensures JoinFields(fields) == row
    decreases |row|
  {
    match NextSeparator(row, 0)
    case None => [row]
    case Some(i) =>
      var rest := SplitRow(row[i + 1..]);
      assert row == row[..i] + "," + row[i + 1..];
      [row[..i]] + rest
  }

  /**
    The row split cuts exactly at the separators: the first piece runs up to
    the first separator (or is the whole row when there is none), and the
    other pieces are the split of what follows that separator.
   */
  lemma SplitRowCuts(row: string)
    ensures var fields := SplitRow(row);
      |fields[0]| <= |row| && fields[0] == row[..|fields[0]|]
      && (forall j :: 0 <= j < |fields[0]| ==> !IsSeparator(row, j))
      && (|fields| == 1 ==> fields[0] == row)
      && (|fields| > 1 ==> |fields[0]| < |row| && IsSeparator(row, |fields[0]|)
                           && fields[1..] == SplitRow(row[|fields[0]| + 1..]))
  {
    match NextSeparator(row, 0)
    case None =>
    case Some(i) =>
      assert SplitRow(row)[0] == row[..i];
  }

  /** `val.replace(/^"|"$/g, '').trim()`. */
  function CleanField(v: string): string
  {
    Trim(StripQuotes(v))
  }

  /** `parseCSVRow(row)`. */
  function ParseRow(row: string): (values: seq<string>)
    ensures |values| >= 1
  {
    Map(SplitRow(row), CleanField)
  }

  /** A `Recurring` row is kept when its name is non-empty and its amount parses. */
  function RecurringOfFields(values: seq<string>): (r: Option<RecurringItem>)
    ensures r.Some? <==> |values| >= 6 && values[0] == "Recurring" && values[2] != "" && ParseLeadingInt(values[5]).Some?
    ensures r.Some? ==> r.value == RecurringItem(values[2], values[4], ParseLeadingInt(values[5]).value)
  {
    if |values| >= 6 && values[0] == "Recurring" && values[2] != "" then
      match ParseLeadingInt(values[5])
      case Some(amount) => Some(RecurringItem(values[2], values[4], amount))
      case None => None
    else None
  }

  /** A `Transaction` row is kept when its date and category are non-empty and its amount parses. */
  function TransactionOfFields(values: seq<string>): (r: Option<Transaction>)
    ensures r.Some? <==> |values| >= 6 && values[0] == "Transaction" && values[1] != "" && values[3] != "" && ParseLeadingInt(values[5]).Some?
    ensures r.Some? ==> r.value == Transaction(values[1], values[4], values[3], ParseLeadingInt(values[5]).value)
  {
    if |values| >= 6 && values[0] == "Transaction" && values[1] != "" && values[3] != "" then
      match ParseLeadingInt(values[5])
      case Some(amount) => Some(Transaction(values[1], values[4], values[3], amount))
      case None => None
    else None
  }

  function RecurringOfLine(line: string): Option<RecurringItem>
  {
    RecurringOfFields(ParseRow(line))
  }

  function TransactionOfLine(line: string): Option<Transaction>
  {
    TransactionOfFields(ParseRow(line))
  }

  /** The recurring items of the data rows, in file order. */
  function DecodeRecurring(rows: seq<string>): seq<RecurringItem>
  {
    FilterMap(rows, RecurringOfLine)
  }

  /** The transactions of the data rows, in file order. */
  function DecodeTransactions(rows: seq<string>): seq<Transaction>
  {
    FilterMap(rows, TransactionOfLine)
  }

  /** `lines.filter(line => line.trim() !== '')`. */
  function NonBlank(lines: seq<string>): (r: seq<string>)
    ensures r == [] <==> AllBlank(lines)
    ensures forall i :: 0 <= i < |r| ==> !IsBlank(r[i])
  {
    if lines == [] then []
    else
      var rest := NonBlank(lines[1..]);
      assert Trim(lines[0]) == [] <==> IsBlank(lines[0]);
      assert forall i :: 0 <= i < |lines| - 1 ==> lines[1..][i] == lines[i + 1];
      assert AllBlank(lines) <==> IsBlank(lines[0]) && AllBlank(lines[1..]);
      (if Trim(lines[0]) != "" then [lines[0]] else []) + rest
  }

  /** The filter keeps every non-blank line, as often as it occurs and in order, and drops every blank one. */
  lemma {:induction false} NonBlankExactly(lines: seq<string>)
    ensures IsSubsequence(NonBlank(lines), lines)
    ensures forall l :: multiset(NonBlank(lines))[l] == if IsBlank(l) then 0 else multiset(lines)[l]
  {
    if lines != [] {
      NonBlankExactly(lines[1..]);
      var rest := NonBlank(lines[1..]);
      assert lines == [lines[0]] + lines[1..];
      assert Trim(lines[0]) == [] <==> IsBlank(lines[0]);
      if !IsBlank(lines[0]) {
        assert NonBlank(lines) == [lines[0]] + rest;
        assert ([lines[0]] + rest)[1..] == rest;
      } else {
        assert NonBlank(lines) == rest;
      }
    }
  }

  /** The non-blank lines of a file's text, byte-order mark removed. */
  function ContentLines(text: string): seq<string>
  {
    NonBlank(SplitLines(StripBom(text)))
  }

  datatype DecodeResult =
    | EmptyFile
    | BadHeader
    | Decoded(recurring: seq<RecurringItem>, transactions: seq<Transaction>)

  /**
    What an import reads from a file: an empty file and a first header field
    other than `RecordType` are refused; otherwise the accepted rows of each kind.
   */
  function Decode(text: string): DecodeResult
  {
    var lines := ContentLines(text);
    if lines == [] then EmptyFile
    else if ParseRow(lines[0])[0] != "RecordType" then BadHeader
    else Decoded(DecodeRecurring(lines[1..]), DecodeTransactions(lines[1..]))
  }

  /** An import is refused exactly when the text has no non-blank line, or its first header field is not `RecordType`. */
  lemma DecodeRefusals(text: string)
    ensures Decode(text) == EmptyFile <==> AllBlank(SplitLines(StripBom(text)))
    ensures Decode(text) == BadHeader <==> ContentLines(text) != [] && ParseRow(ContentLines(text)[0])[0] != "RecordType"
  {
  }

  /** `Decode` read off the content lines of the text, as the import loop sees them. */
  lemma DecodeOfLines(text: string, lines: seq<string>)
    requires lines == ContentLines(text)
    ensures lines == [] ==> Decode(text) == EmptyFile
    ensures lines != [] && ParseRow(lines[0])[0] != "RecordType" ==> Decode(text) == BadHeader
    ensures lines != [] && ParseRow(lines[0])[0] == "RecordType" ==>
      Decode(text) == Decoded(DecodeRecurring(lines[1..]), DecodeTransactions(lines[1..]))
  {
  }

  lemma DecodeStep(rows: seq<string>, line: string)
    ensures DecodeRecurring(rows + [line]) ==
            DecodeRecurring(rows) + (match RecurringOfLine(line) case Some(x) => [x] case None => [])
    ensures DecodeTransactions(rows + [line]) ==
            DecodeTransactions(rows) + (match TransactionOfLine(line) case Some(x) => [x] case None => [])
  {
    FilterMapSnoc(rows, line, RecurringOfLine);
    FilterMapSnoc(rows, line, TransactionOfLine);
  }

  /** A row whose first field is `Recurring`: what the loop pushes is what `RecurringOfFields` accepts. */
  lemma RecurringBranch(values: seq<string>)
    requires |values| >= 1 && values[0] == "Recurring"
    ensures TransactionOfFields(values) == None
    ensures var name := if |values| > 2 then values[2] else "";
            var amount := if |values| > 5 then ParseLeadingInt(values[5]) else None;
            RecurringOfFields(values) ==
              if name != "" && amount.Some? then Some(RecurringItem(name, values[4], amount.value)) else None
  {
  }

  /** A row whose first field is `Transaction`: what the loop pushes is what `TransactionOfFields` accepts. */
  lemma TransactionBranch(values: seq<string>)
    requires |values| >= 1 && values[0] == "Transaction"
    ensures RecurringOfFields(values) == None
    ensures var date := if |values| > 1 then values[1] else "";
            var category := if |values| > 3 then values[3] else "";
            var amount := if |values| > 5 then ParseLeadingInt(values[5]) else None;
            TransactionOfFields(values) ==
              if date != "" && category != "" && amount.Some?
              then Some(Transaction(date, values[4], category, amount.value)) else None
  {
  }

  /** The row loop of the import: one pass over the data rows, pushing what each kind accepts. */
  method DecodeRows(lines: seq<string>) returns (importedRecurring: seq<RecurringItem>, importedTransactions: seq<Transaction>)
    requires |lines| >= 1
    ensures importedRecurring == DecodeRecurring(lines[1..])
    ensures importedTransactions == DecodeTransactions(lines[1..])
  {
    importedRecurring, importedTransactions := [], [];
    for i := 1 to |lines|
      invariant importedRecurring == DecodeRecurring(lines[1..i])
      invariant importedTransactions == DecodeTransactions(lines[1..i])
    {
      SliceSnoc(lines, 1, i);
      DecodeStep(lines[1..i], lines[i]);
      var values := ParseRow(lines[i]);
      if values[0] == "Recurring" {
        RecurringBranch(values);
        var name := if |values| > 2 then values[2] else "";
        var amount := if |values| > 5 then ParseLeadingInt(values[5]) else None;
        if name != "" && amount.Some? {
          importedRecurring := importedRecurring + [RecurringItem(name, values[4], amount.value)];
        }
      } else if values[0] == "Transaction" {
        TransactionBranch(values);
        var date := if |values| > 1 then values[1] else "";
        var category := if |values| > 3 then values[3] else "";
        var amount := if |values| > 5 then ParseLeadingInt(values[5]) else None;
        if date != "" && category != "" && amount.Some? {
          importedTransactions := importedTransactions + [Transaction(date, values[4], category, amount.value)];
        }
      }
    }
    assert lines[1..|lines|] == lines[1..];
  }
}
