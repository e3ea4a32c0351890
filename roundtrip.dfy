/**
  What a file written by the export gives back when it is imported: the row
  split recovers exactly the six exported fields of every row, so each record
  comes back with its name or category as `trim` leaves the quote-doubled
  text, and a record whose text has no quotes comes back unchanged.
 */
module RoundTrip {
  import opened Wrappers
  import opened Text
  import opened Numbers
  import opened Records
  import opened Seqs
  import opened Csv

  /** Whether the part of `f` from position `k` on holds an odd number of quotes. */
  predicate OddQuotesFrom(f: string, k: nat)
    requires k <= |f|
  {
    OddQuotes(f[k..])
  }

  /** A field the row split never cuts inside: every comma in it is followed, within the field, by an odd number of quotes. */
  predicate Unsplittable(f: string)
  {
    forall k {:trigger OddQuotesFrom(f, k)} :: 0 < k <= |f| && f[k - 1] == ',' ==> OddQuotesFrom(f, k)
  }

  /** A field that is unsplittable and holds an even number of quotes, so it hides no separator and shifts none. */
  predicate WellQuoted(f: string)
  {
    Unsplittable(f) && !OddQuotes(f)
  }

  /** A field written bare that the cleaning leaves alone: no comma, quote or newline, and no surrounding whitespace. */
  predicate PlainField(s: string)
  {
    ',' !in s && '"' !in s && '\n' !in s && (s == [] || (!IsWhitespace(s[0]) && !IsWhitespace(s[|s| - 1])))
  }

  lemma {:induction false} EvenQuotesOfJoin(fs: seq<string>)
    requires forall k :: 0 <= k < |fs| ==> !OddQuotes(fs[k])
    ensures !OddQuotes(JoinFields(fs))
  {
    if |fs| > 1 {
      EvenQuotesOfJoin(fs[1..]);
      var a, b := fs[0], JoinFields(fs[1..]);
      assert JoinFields(fs) == a + "," + b;
      OddQuotesAppend(a + ",", b);
      OddQuotesAppend(a, ",");
    }
  }

  lemma {:induction false} NoNewlineInJoin(fs: seq<string>)
    requires forall k :: 0 <= k < |fs| ==> '\n' !in fs[k]
    ensures '\n' !in JoinFields(fs)
  {
    if |fs| > 1 {
      NoNewlineInJoin(fs[1..]);
      assert JoinFields(fs) == fs[0] + "," + JoinFields(fs[1..]);
    }
  }

  /** A well-quoted field on its own holds no separator. */
  lemma NoSeparatorIn(f: string)
    requires Unsplittable(f)
    ensures NextSeparator(f, 0).None?
  {
    forall j | 0 <= j < |f| ensures !IsSeparator(f, j)
    {
      if f[j] == ',' {
        assert OddQuotesFrom(f, j + 1);
      }
    }
  }

  /** A comma inside a well-quoted field is not a separator of a longer row, when the rest holds an even number of quotes. */
  lemma NoSeparatorBefore(f: string, rest: string, j: nat)
    requires Unsplittable(f) && !OddQuotes(rest) && j < |f|
    ensures !IsSeparator(f + "," + rest, j)
  {
    var row := f + "," + rest;
    if row[j] == ',' {
      assert f[j] == ',';
      assert OddQuotesFrom(f, j + 1);
      assert row == f + ("," + rest);
      SliceOfAppend(f, "," + rest, j + 1);
      assert row[j + 1..] == (f[j + 1..] + ",") + rest;
      OddQuotesAppend(f[j + 1..] + ",", rest);
      OddQuotesAppend(f[j + 1..], ",");
    }
  }

  /** The first separator of a row that starts with a well-quoted field is the comma after it, when the rest holds an even number of quotes. */
  lemma FirstSeparator(f: string, rest: string)
    requires Unsplittable(f) && !OddQuotes(rest)
    ensures NextSeparator(f + "," + rest, 0) == Some(|f|)
  {
    var row := f + "," + rest;
    assert row[|f| + 1..] == rest;
    assert IsSeparator(row, |f|);
    forall j | 0 <= j < |f| ensures !IsSeparator(row, j)
    {
      NoSeparatorBefore(f, rest, j);
    }
  }

  /** Splitting a row joined from well-quoted fields gives exactly those fields. */
  lemma {:induction false} SplitOfJoin(fs: seq<string>)
    requires |fs| >= 1
    requires forall k :: 0 <= k < |fs| ==> WellQuoted(fs[k])
    ensures SplitRow(JoinFields(fs)) == fs
    decreases |fs|
  {
    var row := JoinFields(fs);
    var f := fs[0];
    assert WellQuoted(f);
    if |fs| == 1 {
      assert row == f;
      NoSeparatorIn(f);
    } else {
      var rest := JoinFields(fs[1..]);
      assert row == f + "," + rest;
      EvenQuotesOfJoin(fs[1..]);
      FirstSeparator(f, rest);
      assert row[..|f|] == f && row[|f| + 1..] == rest;
      SplitOfJoin(fs[1..]);
    }
  }

  /** Inside a quote-doubled text, a comma is followed by an even number of quotes. */
  lemma {:induction false} EscapedCommaSuffix(x: string, j: nat)
    requires j < |EscapeQuotes(x)| && EscapeQuotes(x)[j] == ','
    ensures !OddQuotes(EscapeQuotes(x)[j + 1..])
    decreases |x|
  {
    var e := EscapeQuotes(x);
    assert x != [];
    var tail := EscapeQuotes(x[1..]);
    if x[0] == '"' {
      assert e == "\"\"" + tail;
      assert tail[j - 2] == ',';
      EscapedCommaSuffix(x[1..], j - 2);
      assert e[j + 1..] == tail[j - 1..];
    } else {
      assert e == [x[0]] + tail;
      if j == 0 {
        assert e[1..] == tail;
        EscapedQuotesEven(x[1..]);
      } else {
        assert tail[j - 1] == ',';
        EscapedCommaSuffix(x[1..], j - 1);
        assert e[j + 1..] == tail[j..];
      }
    }
  }

  /** Every comma in `e` is followed by an even number of quotes. */
  predicate CommasEvenAfter(e: string)
  {
    forall k {:trigger OddQuotesFrom(e, k)} :: 0 < k <= |e| && e[k - 1] == ',' ==> !OddQuotesFrom(e, k)
  }

  lemma EscapedCommas(x: string)
    ensures CommasEvenAfter(EscapeQuotes(x))
  {
    var e := EscapeQuotes(x);
    forall k | 0 < k <= |e| && e[k - 1] == ',' ensures !OddQuotesFrom(e, k)
    {
      EscapedCommaSuffix(x, k - 1);
    }
  }

  lemma WrappedCommaOdd(e: string, k: nat)
    requires CommasEvenAfter(e)
    requires 0 < k <= |e| + 2 && ("\"" + e + "\"")[k - 1] == ','
    ensures OddQuotesFrom("\"" + e + "\"", k)
  {
    var q := "\"" + e + "\"";
    assert 2 <= k <= |e| + 1 && e[k - 2] == ',';
    assert !OddQuotesFrom(e, k - 1);
    assert q[k..] == e[k - 1..] + "\"";
    OddQuotesAppend(e[k - 1..], "\"");
  }

  /** Quotes around a text with an even number of quotes after each comma make an unsplittable field. */
  lemma WrappedUnsplittable(e: string)
    requires CommasEvenAfter(e)
    ensures Unsplittable("\"" + e + "\"")
  {
    var q := "\"" + e + "\"";
    forall k | 0 < k <= |q| && q[k - 1] == ',' ensures OddQuotesFrom(q, k)
    {
      WrappedCommaOdd(e, k);
    }
  }

  lemma WrappedEven(e: string)
    requires !OddQuotes(e)
    ensures !OddQuotes("\"" + e + "\"")
  {
    OddQuotesAppend("\"" + e, "\"");
    OddQuotesAppend("\"", e);
  }

  /** Every quoted name or category the export writes is well quoted, whatever its text. */
  lemma QuotedFieldWellQuoted(x: string)
    ensures WellQuoted(QuoteField(x))
  {
    EscapedQuotesEven(x);
    EscapedCommas(x);
    WrappedUnsplittable(EscapeQuotes(x));
    WrappedEven(EscapeQuotes(x));
  }

  /** The cleaning of a quoted field removes the quotes the export added and trims the rest. */
  lemma QuotedFieldClean(x: string)
    ensures CleanField(QuoteField(x)) == Trim(EscapeQuotes(x))
  {
    StripQuotesOfQuoted(EscapeQuotes(x));
  }

  lemma QuotedFieldNewline(x: string)
    ensures '\n' !in QuoteField(x) <==> '\n' !in x
  {
    var e := EscapeQuotes(x);
    assert QuoteField(x) == "\"" + e + "\"";
    EscapeKeeps(x, '\n');
  }

  lemma {:induction false} NoQuotesEven(s: string)
    requires '"' !in s
    ensures !OddQuotes(s)
  {
    if s != [] {
      assert s[1..] == s[1..] && forall c :: c in s[1..] ==> c in s;
      NoQuotesEven(s[1..]);
    }
  }

  lemma PlainWellQuoted(s: string)
    requires PlainField(s)
    ensures WellQuoted(s)
  {
    NoQuotesEven(s);
  }

  lemma PlainClean(s: string)
    requires PlainField(s)
    ensures CleanField(s) == s
  {
    assert StripQuotes(s) == s;
    TrimOfTrimmed(s);
  }

  /** The fixed texts of the export are bare-writable. */
  lemma RecurringLabelPlain()
    ensures PlainField("Recurring")
  {
  }

  lemma TransactionLabelPlain()
    ensures PlainField("Transaction")
  {
  }

  lemma EmptyPlain()
    ensures PlainField("")
  {
  }

  lemma HeadersPlain()
    ensures forall k :: 0 <= k < |Headers| ==> PlainField(Headers[k])
  {
  }

  lemma RecurringLabelClean()
    ensures CleanField("Recurring") == "Recurring"
  {
    RecurringLabelPlain();
    PlainClean("Recurring");
  }

  lemma TransactionLabelClean()
    ensures CleanField("Transaction") == "Transaction"
  {
    TransactionLabelPlain();
    PlainClean("Transaction");
  }

  lemma EmptyClean()
    ensures CleanField("") == ""
  {
    EmptyPlain();
    PlainClean("");
  }

  lemma HeaderLabelClean()
    ensures CleanField("RecordType") == "RecordType"
  {
    HeadersPlain();
    assert Headers[0] == "RecordType";
    PlainClean("RecordType");
  }

  /** A number as the export writes it is bare-writable. */
  lemma AmountPlain(n: int)
    ensures PlainField(IntToString(n))
  {
    var s := IntToString(n);
    forall i | 0 <= i < |s| ensures s[i] != ',' && s[i] != '"' && s[i] != '\n' && !IsWhitespace(s[i])
    {
    }
  }

  lemma AmountClean(n: int)
    ensures CleanField(IntToString(n)) == IntToString(n)
  {
    AmountPlain(n);
    PlainClean(IntToString(n));
  }

  lemma SixWellQuoted(fs: seq<string>)
    requires |fs| == 6
    requires WellQuoted(fs[0]) && WellQuoted(fs[1]) && WellQuoted(fs[2])
    requires WellQuoted(fs[3]) && WellQuoted(fs[4]) && WellQuoted(fs[5])
    ensures forall k :: 0 <= k < |fs| ==> WellQuoted(fs[k])
  {
  }

  /** What an exported recurring item needs so its row reads back: no newline in the name, a bare-writable kind. */
  predicate ExportableRecurring(r: RecurringItem)
  {
    '\n' !in r.name && PlainField(r.kind)
  }

  /** What an exported transaction needs so its row reads back: no newline in the category, a bare-writable date and kind. */
  predicate ExportableTransaction(t: Transaction)
  {
    '\n' !in t.category && PlainField(t.date) && PlainField(t.kind)
  }

  /** The item read back from a recurring row: the name as the cleaning leaves the quote-doubled text; refused if that is empty. */
  function ReimportRecurring(r: RecurringItem): (back: Option<RecurringItem>)
    ensures back.Some? <==> !IsBlank(EscapeQuotes(r.name))
    ensures back.Some? ==> back.value.kind == r.kind && back.value.amount == r.amount
  {
    var name := Trim(EscapeQuotes(r.name));
    if name != "" then Some(RecurringItem(name, r.kind, r.amount)) else None
  }

  /** The transaction read back from a transaction row: refused if its date or its cleaned category is empty. */
  function ReimportTransaction(t: Transaction): (back: Option<Transaction>)
    ensures back.Some? <==> t.date != "" && !IsBlank(EscapeQuotes(t.category))
    ensures back.Some? ==> back.value.date == t.date && back.value.kind == t.kind && back.value.amount == t.amount
  {
    var category := Trim(EscapeQuotes(t.category));
    if t.date != "" && category != "" then Some(Transaction(t.date, t.kind, category, t.amount)) else None
  }

  /** The row split gives back the six exported fields of a recurring row, commas in the name notwithstanding. */
  lemma RecurringRowSplits(r: RecurringItem)
    requires ExportableRecurring(r)
    ensures SplitRow(RecurringRow(r)) == RecurringFields(r)
  {
    RecurringLabelPlain();
    EmptyPlain();
    PlainWellQuoted("Recurring");
    PlainWellQuoted("");
    QuotedFieldWellQuoted(r.name);
    PlainWellQuoted(r.kind);
    AmountPlain(r.amount);
    PlainWellQuoted(IntToString(r.amount));
    SixWellQuoted(RecurringFields(r));
    SplitOfJoin(RecurringFields(r));
  }

  /** The row split gives back the six exported fields of a transaction row, commas in the category notwithstanding. */
  lemma TransactionRowSplits(t: Transaction)
    requires ExportableTransaction(t)
    ensures SplitRow(TransactionRow(t)) == TransactionFields(t)
  {
    TransactionLabelPlain();
    EmptyPlain();
    PlainWellQuoted("Transaction");
    PlainWellQuoted(t.date);
    PlainWellQuoted("");
    QuotedFieldWellQuoted(t.category);
    PlainWellQuoted(t.kind);
    AmountPlain(t.amount);
    PlainWellQuoted(IntToString(t.amount));
    SixWellQuoted(TransactionFields(t));
    SplitOfJoin(TransactionFields(t));
  }

  lemma MapSix(f: string -> string, x0: string, x1: string, x2: string, x3: string, x4: string, x5: string)
    ensures Map([x0, x1, x2, x3, x4, x5], f) == [f(x0), f(x1), f(x2), f(x3), f(x4), f(x5)]
  {
  }

  /** A row that splits into six fields parses into their six cleanings. */
  lemma SixValues(row: string, x0: string, x1: string, x2: string, x3: string, x4: string, x5: string)
    requires SplitRow(row) == [x0, x1, x2, x3, x4, x5]
    ensures ParseRow(row) == [CleanField(x0), CleanField(x1), CleanField(x2), CleanField(x3), CleanField(x4), CleanField(x5)]
  {
    MapSix(CleanField, x0, x1, x2, x3, x4, x5);
  }

  /** The cleaning of each field of a recurring row. */
  lemma RecurringFieldsClean(r: RecurringItem)
    requires ExportableRecurring(r)
    ensures CleanField("Recurring") == "Recurring" && CleanField("") == ""
    ensures CleanField(QuoteField(r.name)) == Trim(EscapeQuotes(r.name))
    ensures CleanField(r.kind) == r.kind && CleanField(IntToString(r.amount)) == IntToString(r.amount)
  {
    RecurringLabelClean();
    EmptyClean();
    AmountClean(r.amount);
    PlainClean(r.kind);
    QuotedFieldClean(r.name);
  }

  /** The cleaning of each field of a transaction row. */
  lemma TransactionFieldsClean(t: Transaction)
    requires ExportableTransaction(t)
    ensures CleanField("Transaction") == "Transaction" && CleanField("") == ""
    ensures CleanField(t.date) == t.date && CleanField(QuoteField(t.category)) == Trim(EscapeQuotes(t.category))
    ensures CleanField(t.kind) == t.kind && CleanField(IntToString(t.amount)) == IntToString(t.amount)
  {
    TransactionLabelClean();
    EmptyClean();
    AmountClean(t.amount);
    PlainClean(t.date);
    PlainClean(t.kind);
    QuotedFieldClean(t.category);
  }

  /** The cleaned fields of a recurring row: the label, the cleaned name, the kind and the amount text. */
  lemma RecurringRowValues(r: RecurringItem)
    requires ExportableRecurring(r)
    ensures ParseRow(RecurringRow(r)) == ["Recurring", "", Trim(EscapeQuotes(r.name)), "", r.kind, IntToString(r.amount)]
  {
    RecurringRowSplits(r);
    RecurringFieldsClean(r);
    SixValues(RecurringRow(r), "Recurring", "", QuoteField(r.name), "", r.kind, IntToString(r.amount));
  }

  /** The cleaned fields of a transaction row: the label, the date, the cleaned category, the kind and the amount text. */
  lemma TransactionRowValues(t: Transaction)
    requires ExportableTransaction(t)
    ensures ParseRow(TransactionRow(t)) == ["Transaction", t.date, "", Trim(EscapeQuotes(t.category)), t.kind, IntToString(t.amount)]
  {
    TransactionRowSplits(t);
    TransactionFieldsClean(t);
    SixValues(TransactionRow(t), "Transaction", t.date, "", QuoteField(t.category), t.kind, IntToString(t.amount));
  }

  /** A recurring row is read back as that item by the recurring reader, and refused by the transaction reader. */
  lemma RecurringRowDecodes(r: RecurringItem)
    requires ExportableRecurring(r)
    ensures RecurringOfLine(RecurringRow(r)) == ReimportRecurring(r)
    ensures TransactionOfLine(RecurringRow(r)) == None
  {
    RecurringRowValues(r);
    ParseOfIntToString(r.amount);
  }

  /** A transaction row is read back as that transaction by the transaction reader, and refused by the recurring reader. */
  lemma TransactionRowDecodes(t: Transaction)
    requires ExportableTransaction(t)
    ensures TransactionOfLine(TransactionRow(t)) == ReimportTransaction(t)
    ensures RecurringOfLine(TransactionRow(t)) == None
  {
    TransactionRowValues(t);
    ParseOfIntToString(t.amount);
  }

  lemma SixNoNewline(fs: seq<string>)
    requires |fs| == 6
    requires '\n' !in fs[0] && '\n' !in fs[1] && '\n' !in fs[2]
    requires '\n' !in fs[3] && '\n' !in fs[4] && '\n' !in fs[5]
    ensures '\n' !in JoinFields(fs)
  {
    NoNewlineInJoin(fs);
  }

  /** An exported recurring row is a single non-blank line. */
  lemma RecurringRowIsLine(r: RecurringItem)
    requires ExportableRecurring(r)
    ensures '\n' !in RecurringRow(r) && !IsBlank(RecurringRow(r))
  {
    RecurringLabelPlain();
    EmptyPlain();
    QuotedFieldNewline(r.name);
    AmountPlain(r.amount);
    SixNoNewline(RecurringFields(r));
    assert RecurringRow(r)[0] == 'R';
  }

  /** An exported transaction row is a single non-blank line. */
  lemma TransactionRowIsLine(t: Transaction)
    requires ExportableTransaction(t)
    ensures '\n' !in TransactionRow(t) && !IsBlank(TransactionRow(t))
  {
    TransactionLabelPlain();
    EmptyPlain();
    QuotedFieldNewline(t.category);
    AmountPlain(t.amount);
    SixNoNewline(TransactionFields(t));
    assert TransactionRow(t)[0] == 'T';
  }

  /** The header row is a single non-blank line whose first field is `RecordType`. */
  lemma HeaderRowDecodes()
    ensures ParseRow(JoinFields(Headers))[0] == "RecordType"
    ensures '\n' !in JoinFields(Headers) && !IsBlank(JoinFields(Headers))
  {
    HeadersPlain();
    HeaderLabelClean();
    forall k | 0 <= k < |Headers| ensures WellQuoted(Headers[k])
    {
      PlainWellQuoted(Headers[k]);
    }
    SplitOfJoin(Headers);
    NoNewlineInJoin(Headers);
    assert JoinFields(Headers)[0] == 'R';
  }

  /** Newline-terminated rows without newlines split back into the rows and one empty last piece. */
  lemma {:induction false} SplitOfLines(rows: seq<string>)
    requires forall k :: 0 <= k < |rows| ==> '\n' !in rows[k]
    ensures SplitLines(Lines(rows)) == rows + [""]
  {
    if rows == [] {
      assert SplitLines("") == [""];
    } else {
      SplitLinesCons(rows[0], Lines(rows[1..]));
      SplitOfLines(rows[1..]);
      assert rows == [rows[0]] + rows[1..];
    }
  }

  /** Dropping blank lines from non-blank rows and one empty piece leaves the rows. */
  lemma {:induction false} NonBlankOfRows(rows: seq<string>)
    requires forall k :: 0 <= k < |rows| ==> !IsBlank(rows[k])
    ensures NonBlank(rows + [""]) == rows
  {
    if rows == [] {
      assert NonBlank([""]) == [];
    } else {
      assert (rows + [""])[1..] == rows[1..] + [""];
      NonBlankOfRows(rows[1..]);
      assert Trim(rows[0]) != "";
      assert rows == [rows[0]] + rows[1..];
    }
  }

  /** A text made of the byte-order mark and newline-terminated single-line rows reads back as exactly those rows. */
  lemma ContentOfRows(rows: seq<string>)
    requires forall k :: 0 <= k < |rows| ==> '\n' !in rows[k] && !IsBlank(rows[k])
    ensures ContentLines([BOM] + Lines(rows)) == rows
  {
    assert StripBom([BOM] + Lines(rows)) == Lines(rows);
    SplitOfLines(rows);
    NonBlankOfRows(rows);
  }

  /** Every row of an export is a single non-blank line. */
  lemma ExportRowsAreLines(recurring: seq<RecurringItem>, transactions: seq<Transaction>)
    requires forall r :: r in recurring ==> ExportableRecurring(r)
    requires forall t :: t in transactions ==> ExportableTransaction(t)
    ensures forall k :: 0 <= k < |ExportRows(recurring, transactions)| ==>
      '\n' !in ExportRows(recurring, transactions)[k] && !IsBlank(ExportRows(recurring, transactions)[k])
  {
    var rows := ExportRows(recurring, transactions);
    HeaderRowDecodes();
    forall k | 0 <= k < |rows| ensures '\n' !in rows[k] && !IsBlank(rows[k])
    {
      if k > 0 && k - 1 < |recurring| {
        assert rows[k] == RecurringRow(recurring[k - 1]);
        RecurringRowIsLine(recurring[k - 1]);
      } else if k > 0 {
        assert rows[k] == TransactionRow(transactions[k - 1 - |recurring|]);
        TransactionRowIsLine(transactions[k - 1 - |recurring|]);
      }
    }
  }

  /** The recurring reader keeps the recurring rows of an export, each as `ReimportRecurring` gives it, and no transaction row. */
  lemma DecodeRecurringRows(recurring: seq<RecurringItem>, transactions: seq<Transaction>)
    requires forall r :: r in recurring ==> ExportableRecurring(r)
    requires forall t :: t in transactions ==> ExportableTransaction(t)
    ensures DecodeRecurring(Map(recurring, RecurringRow) + Map(transactions, TransactionRow))
         == FilterMap(recurring, ReimportRecurring)
  {
    forall r | r in recurring ensures RecurringOfLine(RecurringRow(r)) == ReimportRecurring(r)
    {
      RecurringRowDecodes(r);
    }
    forall t | t in transactions ensures RecurringOfLine(TransactionRow(t)).None?
    {
      TransactionRowDecodes(t);
    }
    FilterMapAppend(Map(recurring, RecurringRow), Map(transactions, TransactionRow), RecurringOfLine);
    FilterMapOfMap(recurring, RecurringRow, RecurringOfLine, ReimportRecurring);
    FilterMapOfMapRejected(transactions, TransactionRow, RecurringOfLine);
  }

  /** The transaction reader keeps the transaction rows of an export, each as `ReimportTransaction` gives it, and no recurring row. */
  lemma DecodeTransactionRows(recurring: seq<RecurringItem>, transactions: seq<Transaction>)
    requires forall r :: r in recurring ==> ExportableRecurring(r)
    requires forall t :: t in transactions ==> ExportableTransaction(t)
    ensures DecodeTransactions(Map(recurring, RecurringRow) + Map(transactions, TransactionRow))
         == FilterMap(transactions, ReimportTransaction)
  {
    forall r | r in recurring ensures TransactionOfLine(RecurringRow(r)).None?
    {
      RecurringRowDecodes(r);
    }
    forall t | t in transactions ensures TransactionOfLine(TransactionRow(t)) == ReimportTransaction(t)
    {
      TransactionRowDecodes(t);
    }
    FilterMapAppend(Map(recurring, RecurringRow), Map(transactions, TransactionRow), TransactionOfLine);
    FilterMapOfMapRejected(recurring, RecurringRow, TransactionOfLine);
    FilterMapOfMap(transactions, TransactionRow, TransactionOfLine, ReimportTransaction);
  }

  /** A file whose first line is a header starting with `RecordType` decodes to what the readers take from the other lines. */
  lemma DecodeAfterHeader(header: string, dataRows: seq<string>)
    requires ParseRow(header)[0] == "RecordType"
    requires ContentLines([BOM] + Lines([header] + dataRows)) == [header] + dataRows
    ensures Decode([BOM] + Lines([header] + dataRows)) == Decoded(DecodeRecurring(dataRows), DecodeTransactions(dataRows))
  {
    assert ([header] + dataRows)[1..] == dataRows;
  }

  /**
    Importing an export gives back every recurring item, then every
    transaction, in order, each as the row reader sees it: names and
    categories come back quote-doubled and trimmed, and records left with an
    empty name, category or date are refused.
   */
  lemma DecodeEncode(recurring: seq<RecurringItem>, transactions: seq<Transaction>)
    requires forall r :: r in recurring ==> ExportableRecurring(r)
    requires forall t :: t in transactions ==> ExportableTransaction(t)
    ensures Decode(Encode(recurring, transactions))
         == Decoded(FilterMap(recurring, ReimportRecurring), FilterMap(transactions, ReimportTransaction))
  {
    var header := JoinFields(Headers);
    var dataRows := Map(recurring, RecurringRow) + Map(transactions, TransactionRow);
    AppendAssoc([header], Map(recurring, RecurringRow), Map(transactions, TransactionRow));
    assert ExportRows(recurring, transactions) == [header] + dataRows;
    ExportRowsAreLines(recurring, transactions);
    ContentOfRows(ExportRows(recurring, transactions));
    HeaderRowDecodes();
    DecodeAfterHeader(header, dataRows);
    DecodeRecurringRows(recurring, transactions);
    DecodeTransactionRows(recurring, transactions);
  }

  /** A recurring item whose name is non-empty, quote-free, newline-free and already trimmed survives the round trip unchanged. */
  predicate RoundTripsRecurring(r: RecurringItem)
  {
    r.name != "" && '"' !in r.name && '\n' !in r.name && Trim(r.name) == r.name && PlainField(r.kind)
  }

  /** The same for a transaction's category, with a non-empty bare-writable date. */
  predicate RoundTripsTransaction(t: Transaction)
  {
    t.category != "" && '"' !in t.category && '\n' !in t.category && Trim(t.category) == t.category
    && t.date != "" && PlainField(t.date) && PlainField(t.kind)
  }

  /** Records free of quotes and surrounding whitespace come back exactly, in order, even when their text holds commas. */
  lemma DecodeEncodeExact(recurring: seq<RecurringItem>, transactions: seq<Transaction>)
    requires forall r :: r in recurring ==> RoundTripsRecurring(r)
    requires forall t :: t in transactions ==> RoundTripsTransaction(t)
    ensures Decode(Encode(recurring, transactions)) == Decoded(recurring, transactions)
  {
    forall r | r in recurring ensures ReimportRecurring(r) == Some(r)
    {
      EscapeQuoteFree(r.name);
    }
    forall t | t in transactions ensures ReimportTransaction(t) == Some(t)
    {
      EscapeQuoteFree(t.category);
    }
    DecodeEncode(recurring, transactions);
    FilterMapAllSome(recurring, ReimportRecurring);
    FilterMapAllSome(transactions, ReimportTransaction);
  }

  /** A recurring item with the quotes of its name doubled. */
  function DoubledName(r: RecurringItem): (d: RecurringItem)
    ensures d.kind == r.kind && d.amount == r.amount
  {
    RecurringItem(EscapeQuotes(r.name), r.kind, r.amount)
  }

  /** An item the export writes bare, but whose name holds a quote and no surrounding whitespace. */
  predicate QuotedName(r: RecurringItem)
  {
    ExportableRecurring(r) && '"' in r.name && !IsWhitespace(r.name[0]) && !IsWhitespace(r.name[|r.name| - 1])
  }

  /** Such a name is read back with its quotes doubled, which changes it. */
  lemma QuotedNameReimport(r: RecurringItem)
    requires QuotedName(r)
    ensures ReimportRecurring(r) == Some(DoubledName(r))
    ensures DoubledName(r) != r
  {
    EscapedEnds(r.name);
    TrimOfTrimmed(EscapeQuotes(r.name));
    EscapeChanges(r.name);
  }

  /**
    Names with quotes in them come back with every quote doubled, since the
    import does not undo the export's escaping.
   */
  lemma QuotesComeBackDoubled(recurring: seq<RecurringItem>, transactions: seq<Transaction>)
    requires forall r :: r in recurring ==> QuotedName(r)
    requires forall t :: t in transactions ==> RoundTripsTransaction(t)
    ensures Decode(Encode(recurring, transactions)) == Decoded(Map(recurring, DoubledName), transactions)
  {
    forall r | r in recurring ensures ReimportRecurring(r) == Some(DoubledName(r))
    {
      QuotedNameReimport(r);
    }
    forall t | t in transactions ensures ReimportTransaction(t) == Some(t)
    {
      EscapeQuoteFree(t.category);
    }
    DecodeEncode(recurring, transactions);
    FilterMapAllMapped(recurring, ReimportRecurring, DoubledName);
    FilterMapAllSome(transactions, ReimportTransaction);
  }

  /** So an export holding such an item does not read back as itself. */
  lemma QuoteBreaksRoundTrip(recurring: seq<RecurringItem>, transactions: seq<Transaction>)
    requires recurring != []
    requires forall r :: r in recurring ==> QuotedName(r)
    requires forall t :: t in transactions ==> RoundTripsTransaction(t)
    ensures Decode(Encode(recurring, transactions)) != Decoded(recurring, transactions)
  {
    assert recurring[0] in recurring;
    QuotedNameReimport(recurring[0]);
    QuotesComeBackDoubled(recurring, transactions);
    assert Map(recurring, DoubledName)[0] != recurring[0];
  }
}
