/**
 * `FormatBankStatementData`: classifies each extracted grid as a summary table (key/value pairs),
 * a transaction table (one `Transaction` per data row) or neither, and accumulates the results.
 */
module Statement {
  import opened Wrappers
  import opened Text
  import opened Tables
  import opened Headers

  /** `Transaction`: seven string properties, all "" on construction. */
  datatype Transaction = Transaction(date: string, reference: string, description: string,
                                     valueDate: string, deposit: string, withdrawal: string,
                                     balance: string)

  const NewTransaction := Transaction("", "", "", "", "", "", "")

  /** The writable properties of `Transaction`, as reflection names them. */
  datatype Property = Date | Reference | Description | ValueDate | Deposit | Withdrawal | Balance

  const Properties: seq<Property> := [Date, Reference, Description, ValueDate, Deposit, Withdrawal, Balance]

  function PropertyIndex(p: Property): nat
  {
    match p
    case Date => 0
    case Reference => 1
    case Description => 2
    case ValueDate => 3
    case Deposit => 4
    case Withdrawal => 5
    case Balance => 6
  }

  function PropertyName(p: Property): string
  {
    match p
    case Date => "Date"
    case Reference => "Reference"
    case Description => "Description"
    case ValueDate => "ValueDate"
    case Deposit => "Deposit"
    case Withdrawal => "Withdrawal"
    case Balance => "Balance"
  }

  /** `prop.SetValue(t, v)`. */
  function SetProperty(t: Transaction, p: Property, v: string): Transaction
  {
    match p
    case Date => t.(date := v)
    case Reference => t.(reference := v)
    case Description => t.(description := v)
    case ValueDate => t.(valueDate := v)
    case Deposit => t.(deposit := v)
    case Withdrawal => t.(withdrawal := v)
    case Balance => t.(balance := v)
  }

  /** The reflection search over `Properties`, resumed at position `from`. */
  function PropertyFrom(name: string, from: nat): (r: Option<Property>)
    requires from <= |Properties|
    requires forall j :: 0 <= j < from ==> !EqualsIgnoreCase(PropertyName(Properties[j]), name)
    ensures r.Some? ==> EqualsIgnoreCase(PropertyName(r.value), name)
    ensures r.None? ==> forall j :: 0 <= j < |Properties| ==> !EqualsIgnoreCase(PropertyName(Properties[j]), name)
    decreases |Properties| - from
  {
    if from == |Properties| then None
    else if EqualsIgnoreCase(PropertyName(Properties[from]), name) then Some(Properties[from])
    else PropertyFrom(name, from + 1)
  }

  /**
   * `type.GetProperties().FirstOrDefault(p => string.Equals(p.Name, name, OrdinalIgnoreCase))`:
   * the property whose name equals `name` up to case, if any.
   */
  function PropertyNamed(name: string): (r: Option<Property>)
    ensures r.Some? ==> EqualsIgnoreCase(PropertyName(r.value), name)
    ensures r.None? ==> forall p: Property :: !EqualsIgnoreCase(PropertyName(p), name)
  {
    var r := PropertyFrom(name, 0);
    if r.None? then
      assert forall p: Property :: p == Properties[PropertyIndex(p)];
      r
    else r
  }

  /** Date, Reference, Description and Balance each reach the property of the same name. */
  lemma SetterTableWritten()
    ensures PropertyNamed(HeaderMappings[0].key) == Some(Date)
    ensures PropertyNamed(HeaderMappings[1].key) == Some(Reference)
    ensures PropertyNamed(HeaderMappings[2].key) == Some(Description)
    ensures PropertyNamed(HeaderMappings[6].key) == Some(Balance)
  {
    assert HeaderMappings[0].key == "Date" && HeaderMappings[1].key == "Reference";
    assert HeaderMappings[2].key == "Description" && HeaderMappings[6].key == "Balance";
    var deposit, balance := PropertyName(Deposit), "Balance";
    assert deposit[0] == 'D' && balance[0] == 'B';
    assert ToLower(deposit[0]) != ToLower(balance[0]);
  }

  /**
   * The other three reach no property: "Value Date" has a space that `ValueDate` lacks, and no
   * property is called "Credit" or "Debit".
   */
  lemma SetterTableDropped()
    ensures PropertyNamed(HeaderMappings[3].key) == None
    ensures PropertyNamed(HeaderMappings[4].key) == None
    ensures PropertyNamed(HeaderMappings[5].key) == None
  {
    assert HeaderMappings[3].key == "Value Date";
    assert HeaderMappings[4].key == "Credit" && HeaderMappings[5].key == "Debit";
    var withdrawal, valueDate := PropertyName(Withdrawal), "Value Date";
    assert withdrawal[0] == 'W' && valueDate[0] == 'V';
    assert ToLower(withdrawal[0]) != ToLower(valueDate[0]);
  }

  /** A candidate key/value pair of a summary table. */
  datatype Entry = Entry(key: string, value: string)

  /** The key (trimmed, trailing ':' removed) and the trimmed value a pair of cells yields. */
  function EntryOf(rawKey: string, rawValue: string): Entry
  {
    Entry(TrimEndChar(Trim(rawKey), ':'), Trim(rawValue))
  }

  /** `result.Summary[key] = value`, done only when `IsNullOrEmpty` is false for both. */
  function Put(summary: map<string, string>, e: Entry): map<string, string>
  {
    if e.key != "" && e.value != "" then summary[e.key := e.value] else summary
  }

  /** The entries written in order, later ones overwriting earlier ones with the same key. */
  function PutAll(summary: map<string, string>, es: seq<Entry>): map<string, string>
  {
    if es == [] then summary else Put(PutAll(summary, es[..|es| - 1]), es[|es| - 1])
  }

  predicate AllPairs(rows: seq<seq<string>>)
  {
    forall i :: 0 <= i < |rows| ==> |rows[i]| == 2
  }

  /** The row-by-row key/value format: every row is one `[key, value]` pair. */
  function RowEntries(rows: seq<seq<string>>): (es: seq<Entry>)
    requires AllPairs(rows)
    ensures |es| == |rows| && forall i :: 0 <= i < |rows| ==> es[i] == EntryOf(rows[i][0], rows[i][1])
  {
    seq(|rows|, i requires 0 <= i < |rows| && AllPairs(rows) => EntryOf(rows[i][0], rows[i][1]))
  }

  function Min(a: int, b: int): int { if a < b then a else b }

  /** The key-over-value format: column `i` of `keys` pairs with column `i` of `values`. */
  function ColumnEntries(keys: seq<string>, values: seq<string>): (es: seq<Entry>)
    ensures |es| == Min(|keys|, |values|)
    ensures forall i :: 0 <= i < |es| ==> es[i] == EntryOf(keys[i], values[i])
  {
    seq(Min(|keys|, |values|), i requires 0 <= i < Min(|keys|, |values|) => EntryOf(keys[i], values[i]))
  }

  /** The entries a summary table yields, by its shape. */
  function SummaryEntries(rows: seq<seq<string>>): seq<Entry>
  {
    if AllPairs(rows) then RowEntries(rows)
    else if |rows| == 2 then ColumnEntries(rows[0], rows[1])
    else []
  }

  /** The words whose presence in a header cell marks a summary table. */
  const SummaryIndicators: seq<string> := ["account", "currency", "balance:", "period", "statement", "branch"]

  predicate IsSummaryHeader(cell: string)
  {
    exists k :: 0 <= k < |SummaryIndicators| && ContainsIgnoreCase(cell, SummaryIndicators[k])
  }

  predicate IsSummaryTable(headers: seq<string>)
  {
    exists i :: 0 <= i < |headers| && IsSummaryHeader(headers[i])
  }

  /**
   * A table is a summary table exactly when some window of some header cell equals one of the
   * six indicators, ASCII case ignored.
   */
  lemma SummaryTableWindows(headers: seq<string>)
    ensures IsSummaryTable(headers) <==>
      exists i, k, p :: 0 <= i < |headers| && 0 <= k < |SummaryIndicators|
                        && MatchesAt(headers[i], SummaryIndicators[k], p)
  {
  }

  /** `Rows[0].Select(h => h.Trim())`. */
  function TrimAll(row: seq<string>): (r: seq<string>)
    ensures |r| == |row| && forall i :: 0 <= i < |r| ==> r[i] == Trim(row[i])
  {
    seq(|row|, i requires 0 <= i < |row| => Trim(row[i]))
  }

  lemma TrimAllTrimmed(row: seq<string>)
    ensures AllTrimmed(TrimAll(row))
  {
    forall i | 0 <= i < |row| ensures IsTrimmed(TrimAll(row)[i]) {
      TrimIsCore(row[i]);
    }
  }

  /** Every column the map names is a real position (not `IndexOf`'s -1). */
  predicate ColumnsValid(headerMap: map<string, int>)
  {
    forall k :: 0 <= k < |HeaderMappings| && HeaderMappings[k].key in headerMap ==>
      headerMap[HeaderMappings[k].key] >= 0
  }

  /** The trimmed cell the map assigns to canonical field `k`, or "" when it assigns none. */
  function FieldValue(headerMap: map<string, int>, row: seq<string>, k: nat): string
    requires k < |HeaderMappings| && ColumnsValid(headerMap)
  {
    var key := HeaderMappings[k].key;
    if key in headerMap then
      var idx := headerMap[key];
      if idx < |row| then Trim(row[idx]) else ""
    else ""
  }

  /** The transaction after the first `n` canonical fields were written to it. */
  function FillUpTo(headerMap: map<string, int>, row: seq<string>, n: nat): Transaction
    requires n <= |HeaderMappings| && ColumnsValid(headerMap)
  {
    if n == 0 then NewTransaction
    else
      var t := FillUpTo(headerMap, row, n - 1);
      var key := HeaderMappings[n - 1].key;
      match PropertyNamed(key)
      case Some(p) => SetProperty(t, p, FieldValue(headerMap, row, n - 1))
      case None => t
  }

  /** The transaction built from data row `row`. */
  function RowTransaction(headerMap: map<string, int>, row: seq<string>): Transaction
    requires ColumnsValid(headerMap)
  {
    FillUpTo(headerMap, row, |HeaderMappings|)
  }

  /** `prop.GetValue(t)`. */
  function GetProperty(t: Transaction, p: Property): string
  {
    match p
    case Date => t.date
    case Reference => t.reference
    case Description => t.description
    case ValueDate => t.valueDate
    case Deposit => t.deposit
    case Withdrawal => t.withdrawal
    case Balance => t.balance
  }

  /** `type.GetProperties().Any(p => !string.IsNullOrWhiteSpace(p.GetValue(t)))`. */
  predicate HasContent(t: Transaction)
  {
    exists p :: p in Properties && !IsNullOrWhiteSpace(GetProperty(t, p))
  }

  /** The transactions the data rows of `rows` (all but the first) yield, header width `width`. */
  function RowsTransactions(headerMap: map<string, int>, rows: seq<seq<string>>, width: nat): seq<Transaction>
    requires ColumnsValid(headerMap)
  {
    if |rows| <= 1 then []
    else
      var row := rows[|rows| - 1];
      var ts := RowsTransactions(headerMap, rows[..|rows| - 1], width);
      if |row| != width then ts
      else
        var t := RowTransaction(headerMap, row);
        if HasContent(t) then ts + [t] else ts
  }

  /** `BankStatementData`: the summary dictionary and the transaction list. */
  datatype StatementData = StatementData(summary: map<string, string>, transactions: seq<Transaction>)

  /** What one table adds to `data`. */
  function ProcessTable(data: StatementData, table: TableData): StatementData
  {
    if |table.rows| == 0 then data
    else
      var headers := TrimAll(table.rows[0]);
      if IsSummaryTable(headers) then
        data.(summary := PutAll(data.summary, SummaryEntries(table.rows)))
      else
        var headerMap := HeaderMap(headers);
        if |headerMap| >= 4 then
          TrimAllTrimmed(table.rows[0]);
          TrimmedColumnsValid(headers);
          data.(transactions := data.transactions + RowsTransactions(headerMap, table.rows, |headers|))
        else data
  }

  /** The result of `FormatBankStatementData` on `tables`. */
  function Format(tables: seq<TableData>): StatementData
  {
    if tables == [] then StatementData(map[], [])
    else ProcessTable(Format(tables[..|tables| - 1]), tables[|tables| - 1])
  }

  /** The header row the code works with is trimmed, so the map it yields names real columns. */
  lemma TrimmedColumnsValid(headers: seq<string>)
    requires AllTrimmed(headers)
    ensures ColumnsValid(HeaderMap(headers))
    ensures forall k :: 0 <= k < |HeaderMappings| && HeaderMappings[k].key in HeaderMap(headers) ==>
      HeaderMap(headers)[HeaderMappings[k].key] < |headers|
  {
    forall k | 0 <= k < |HeaderMappings| && HeaderMappings[k].key in HeaderMap(headers)
      ensures 0 <= HeaderMap(headers)[HeaderMappings[k].key] < |headers|
    {
      MappedColumnIsFirstMatch(headers, k);
    }
  }

  /**
   * The transaction of a row, field by field: Date, Reference, Description and Balance get the
   * trimmed cell of their column (or "" when unmapped); ValueDate, Deposit and Withdrawal stay ""
   * whatever the table holds, because no property is named "Value Date", "Credit" or "Debit".
   */
  lemma RowTransactionFields(headerMap: map<string, int>, row: seq<string>)
    requires ColumnsValid(headerMap)
    ensures RowTransaction(headerMap, row) ==
      Transaction(FieldValue(headerMap, row, 0), FieldValue(headerMap, row, 1),
                  FieldValue(headerMap, row, 2), "", "", "", FieldValue(headerMap, row, 6))
  {
    SetterTableWritten();
    SetterTableDropped();
    var hm, r := headerMap, row;
    assert FillUpTo(hm, r, 1) == NewTransaction.(date := FieldValue(hm, r, 0));
    assert FillUpTo(hm, r, 2) == FillUpTo(hm, r, 1).(reference := FieldValue(hm, r, 1));
    assert FillUpTo(hm, r, 3) == FillUpTo(hm, r, 2).(description := FieldValue(hm, r, 2));
    assert FillUpTo(hm, r, 4) == FillUpTo(hm, r, 3);
    assert FillUpTo(hm, r, 5) == FillUpTo(hm, r, 4);
    assert FillUpTo(hm, r, 6) == FillUpTo(hm, r, 5);
    assert FillUpTo(hm, r, 7) == FillUpTo(hm, r, 6).(balance := FieldValue(hm, r, 6));
  }

  /**
   * The transaction of a row is kept exactly when one of the four written fields found a
   * non-empty trimmed cell.
   */
  lemma RowHasContent(headerMap: map<string, int>, row: seq<string>)
    requires ColumnsValid(headerMap)
    ensures HasContent(RowTransaction(headerMap, row)) <==>
      FieldValue(headerMap, row, 0) != "" || FieldValue(headerMap, row, 1) != ""
      || FieldValue(headerMap, row, 2) != "" || FieldValue(headerMap, row, 6) != ""
  {
    RowTransactionFields(headerMap, row);
    var t := RowTransaction(headerMap, row);
    var f0, f1 := FieldValue(headerMap, row, 0), FieldValue(headerMap, row, 1);
    var f2, f6 := FieldValue(headerMap, row, 2), FieldValue(headerMap, row, 6);
    assert t == Transaction(f0, f1, f2, "", "", "", f6);
    FieldValueBlank(headerMap, row, 0);
    FieldValueBlank(headerMap, row, 1);
    FieldValueBlank(headerMap, row, 2);
    FieldValueBlank(headerMap, row, 6);
    if HasContent(t) {
      var p :| p in Properties && !IsNullOrWhiteSpace(GetProperty(t, p));
      assert GetProperty(t, p) in {f0, f1, f2, "", f6};
    }
    if f0 != "" || f1 != "" || f2 != "" || f6 != "" {
      assert Date in Properties && Reference in Properties;
      assert Description in Properties && Balance in Properties;
      assert GetProperty(t, Date) == f0 && GetProperty(t, Reference) == f1;
      assert GetProperty(t, Description) == f2 && GetProperty(t, Balance) == f6;
    }
  }

  /** A field value is blank exactly when it is empty: it is a trimmed cell or "". */
  lemma FieldValueBlank(headerMap: map<string, int>, row: seq<string>, k: nat)
    requires k < |HeaderMappings| && ColumnsValid(headerMap)
    ensures FieldValue(headerMap, row, k) == "" <==> IsNullOrWhiteSpace(FieldValue(headerMap, row, k))
  {
    var key := HeaderMappings[k].key;
    if key in headerMap && headerMap[key] < |row| {
      var cell := row[headerMap[key]];
      TrimIsCore(cell);
      var v := Trim(cell);
      if v != "" {
        assert !IsWhiteSpace(v[0]);
      }
    }
  }

  /**
   * The value of a mapped field is the trimmed cell under the first header that contains one of
   * its synonyms; a field no header announces is "".
   */
  lemma TransactionColumn(headers: seq<string>, row: seq<string>, k: nat)
    requires AllTrimmed(headers) && ColumnsValid(HeaderMap(headers))
    requires |row| == |headers| && k < |HeaderMappings|
    ensures forall i :: IsFirstMatch(headers, HeaderMappings[k].names, i) ==>
              FieldValue(HeaderMap(headers), row, k) == Trim(row[i])
    ensures (forall j :: 0 <= j < |headers| ==> !MatchesAny(Trim(headers[j]), HeaderMappings[k].names)) ==>
              FieldValue(HeaderMap(headers), row, k) == ""
  {
    HeaderMapLookup(headers, k);
    if HeaderMappings[k].key in HeaderMap(headers) {
      MappedColumnIsFirstMatch(headers, k);
    }
  }

  /** What a transaction table keeps: some property is non-blank; the unreachable three are "". */
  predicate WellFormedTransaction(t: Transaction)
  {
    HasContent(t) && t.valueDate == "" && t.deposit == "" && t.withdrawal == ""
  }

  /**
   * Every transaction of a table is well formed and comes from one of its data rows (not the
   * header row) whose width equals the header's.
   */
  lemma {:induction false} RowsTransactionsFromDataRows(headerMap: map<string, int>, rows: seq<seq<string>>, width: nat)
    requires ColumnsValid(headerMap)
    ensures forall t :: t in RowsTransactions(headerMap, rows, width) ==>
      WellFormedTransaction(t) &&
      exists i :: 1 <= i < |rows| && |rows[i]| == width && t == RowTransaction(headerMap, rows[i])
  {
    if |rows| > 1 {
      var init := rows[..|rows| - 1];
      RowsTransactionsFromDataRows(headerMap, init, width);
      RowTransactionFields(headerMap, rows[|rows| - 1]);
      forall t | t in RowsTransactions(headerMap, init, width)
        ensures exists i :: 1 <= i < |rows| && |rows[i]| == width && t == RowTransaction(headerMap, rows[i])
      {
        var i :| 1 <= i < |init| && |init[i]| == width && t == RowTransaction(headerMap, init[i]);
        assert rows[i] == init[i];
      }
    }
  }

  /**
   * Conversely, every data row of the header's width whose transaction has a non-blank field
   * yields that transaction.
   */
  lemma {:induction false} DataRowsYieldTransactions(headerMap: map<string, int>, rows: seq<seq<string>>,
                                                     width: nat, i: nat)
    requires ColumnsValid(headerMap)
    requires 1 <= i < |rows| && |rows[i]| == width && HasContent(RowTransaction(headerMap, rows[i]))
    ensures RowTransaction(headerMap, rows[i]) in RowsTransactions(headerMap, rows, width)
    decreases |rows|
  {
    RowsTransactionsStep(headerMap, rows, width);
    if i < |rows| - 1 {
      var init := rows[..|rows| - 1];
      assert init[i] == rows[i];
      DataRowsYieldTransactions(headerMap, init, width, i);
    }
  }

  /** The last row adds its transaction when it has the header's width and some content. */
  lemma RowsTransactionsStep(headerMap: map<string, int>, rows: seq<seq<string>>, width: nat)
    requires ColumnsValid(headerMap) && |rows| > 1
    ensures var last := rows[|rows| - 1];
      && RowsTransactions(headerMap, rows[..|rows| - 1], width) <= RowsTransactions(headerMap, rows, width)
      && (|last| == width && HasContent(RowTransaction(headerMap, last)) ==>
            RowTransaction(headerMap, last) in RowsTransactions(headerMap, rows, width))
  {
  }

  /** A table with n rows yields at most n - 1 transactions. */
  lemma {:induction false} RowsTransactionsCount(headerMap: map<string, int>, rows: seq<seq<string>>, width: nat)
    requires ColumnsValid(headerMap) && |rows| >= 1
    ensures |RowsTransactions(headerMap, rows, width)| <= |rows| - 1
  {
    if |rows| > 1 {
      RowsTransactionsCount(headerMap, rows[..|rows| - 1], width);
    }
  }

  /** A stored summary entry: a non-empty key not ending in ':' and a non-empty trimmed value. */
  predicate WellFormedSummary(summary: map<string, string>)
  {
    forall k :: k in summary ==> k != "" && k[|k| - 1] != ':' && summary[k] != "" && IsTrimmed(summary[k])
  }

  predicate WellFormedEntry(e: Entry)
  {
    (e.key == [] || e.key[|e.key| - 1] != ':') && IsTrimmed(e.value)
  }

  lemma SummaryEntriesWellFormed(rows: seq<seq<string>>)
    ensures forall e :: e in SummaryEntries(rows) ==> WellFormedEntry(e)
  {
    if AllPairs(rows) {
      RowEntriesWellFormed(rows);
    } else if |rows| == 2 {
      ColumnEntriesWellFormed(rows[0], rows[1]);
    }
  }

  lemma RowEntriesWellFormed(rows: seq<seq<string>>)
    requires AllPairs(rows)
    ensures forall e :: e in RowEntries(rows) ==> WellFormedEntry(e)
  {
    forall e | e in RowEntries(rows) ensures WellFormedEntry(e) {
      var i :| 0 <= i < |rows| && RowEntries(rows)[i] == e;
      TrimIsCore(rows[i][1]);
    }
  }

  lemma ColumnEntriesWellFormed(keys: seq<string>, values: seq<string>)
    ensures forall e :: e in ColumnEntries(keys, values) ==> WellFormedEntry(e)
  {
    forall e | e in ColumnEntries(keys, values) ensures WellFormedEntry(e) {
      var i :| 0 <= i < |ColumnEntries(keys, values)| && ColumnEntries(keys, values)[i] == e;
      TrimIsCore(values[i]);
    }
  }

  /** Writing well-formed entries keeps the summary well formed. */
  lemma {:induction false} PutAllWellFormed(summary: map<string, string>, es: seq<Entry>)
    requires WellFormedSummary(summary)
    requires forall e :: e in es ==> WellFormedEntry(e)
    ensures WellFormedSummary(PutAll(summary, es))
  {
    if es != [] {
      PutAllWellFormed(summary, es[..|es| - 1]);
      assert es[|es| - 1] in es;
    }
  }

  /** Entry `e` sets `key` (neither part is empty). */
  predicate Writes(e: Entry, key: string)
  {
    e.key == key && e.key != "" && e.value != ""
  }

  /** The last entry that writes a key decides its value. */
  lemma {:induction false} PutAllLastWriteWins(summary: map<string, string>, es: seq<Entry>, key: string, i: nat)
    requires i < |es| && Writes(es[i], key)
    requires forall j :: i < j < |es| ==> !Writes(es[j], key)
    ensures key in PutAll(summary, es) && PutAll(summary, es)[key] == es[i].value
  {
    if i < |es| - 1 {
      PutAllLastWriteWins(summary, es[..|es| - 1], key, i);
    }
  }

  /** A key no entry writes keeps its previous state, present or absent. */
  lemma {:induction false} PutAllUnwritten(summary: map<string, string>, es: seq<Entry>, key: string)
    requires forall j :: 0 <= j < |es| ==> !Writes(es[j], key)
    ensures key in PutAll(summary, es) <==> key in summary
    ensures key in summary ==> PutAll(summary, es)[key] == summary[key]
  {
    if es != [] {
      PutAllUnwritten(summary, es[..|es| - 1], key);
    }
  }

  /**
   * Tables are classified exclusively: an empty table changes nothing, a summary table changes
   * only the summary, any other table only the transactions, and only when at least four
   * canonical fields are mapped.
   */
  lemma ProcessTableKinds(data: StatementData, table: TableData)
    ensures |table.rows| == 0 ==> ProcessTable(data, table) == data
    ensures |table.rows| > 0 && IsSummaryTable(TrimAll(table.rows[0])) ==>
              ProcessTable(data, table).transactions == data.transactions
    ensures |table.rows| > 0 && !IsSummaryTable(TrimAll(table.rows[0])) ==>
              ProcessTable(data, table).summary == data.summary
    ensures (|table.rows| > 0 && !IsSummaryTable(TrimAll(table.rows[0]))
             && |HeaderMap(TrimAll(table.rows[0]))| < 4) ==> ProcessTable(data, table) == data
  {
  }

  /** Every summary entry and every transaction of the result is well formed. */
  lemma {:induction false} FormatWellFormed(tables: seq<TableData>)
    ensures WellFormedSummary(Format(tables).summary)
    ensures forall t :: t in Format(tables).transactions ==> WellFormedTransaction(t)
  {
    if tables != [] {
      var init, table := tables[..|tables| - 1], tables[|tables| - 1];
      FormatWellFormed(init);
      var data := Format(init);
      if |table.rows| > 0 {
        var headers := TrimAll(table.rows[0]);
        if IsSummaryTable(headers) {
          SummaryEntriesWellFormed(table.rows);
          PutAllWellFormed(data.summary, SummaryEntries(table.rows));
        } else if |HeaderMap(headers)| >= 4 {
          TrimAllTrimmed(table.rows[0]);
          TrimmedColumnsValid(headers);
          RowsTransactionsFromDataRows(HeaderMap(headers), table.rows, |headers|);
        }
      }
    }
  }

  /** The inner loop over the canonical fields: builds one transaction from `row`. */
  method BuildTransaction(headerMap: map<string, int>, row: seq<string>) returns (t: Transaction)
    requires ColumnsValid(headerMap)
    ensures t == RowTransaction(headerMap, row)
  {
    t := NewTransaction;
    for n := 0 to |HeaderMappings|
      invariant t == FillUpTo(headerMap, row, n)
    {
      var key := HeaderMappings[n].key;
      var value := "";
      if key in headerMap {
        var idx := headerMap[key];
        value := if idx < |row| then Trim(row[idx]) else "";
      }
      var prop := PropertyNamed(key);
      if prop.Some? {
        t := SetProperty(t, prop.value, value);
      }
    }
  }

  /** The loop over the data rows of a transaction table. */
  method CollectTransactions(headerMap: map<string, int>, rows: seq<seq<string>>, width: nat)
    returns (ts: seq<Transaction>)
    requires ColumnsValid(headerMap) && |rows| >= 1
    ensures ts == RowsTransactions(headerMap, rows, width)
  {
    ts := [];
    for i := 1 to |rows|
      invariant ts == RowsTransactions(headerMap, rows[..i], width)
    {
      var row := rows[i];
      if |row| == width {
        var t := BuildTransaction(headerMap, row);
        if HasContent(t) {
          ts := ts + [t];
        }
      }
      assert rows[..i + 1][..i] == rows[..i];
    }
    assert rows[..|rows|] == rows;
  }

  /** The loop over the rows of a summary table in the row-by-row format. */
  method SummaryFromRows(summary: map<string, string>, rows: seq<seq<string>>) returns (s: map<string, string>)
    requires AllPairs(rows)
    ensures s == PutAll(summary, RowEntries(rows))
  {
    s := summary;
    ghost var es := RowEntries(rows);
    for i := 0 to |rows|
      invariant s == PutAll(summary, es[..i])
    {
      var key := TrimEndChar(Trim(rows[i][0]), ':');
      var value := Trim(rows[i][1]);
      assert es[i] == Entry(key, value);
      assert es[..i + 1][..i] == es[..i];
      assert PutAll(summary, es[..i + 1]) == Put(PutAll(summary, es[..i]), es[i]);
      if key != "" && value != "" {
        s := s[key := value];
      }
    }
    assert es[..|rows|] == es;
  }

  /** The loop over the columns of a summary table in the key-over-value format. */
  method SummaryFromColumns(summary: map<string, string>, keys: seq<string>, values: seq<string>)
    returns (s: map<string, string>)
    ensures s == PutAll(summary, ColumnEntries(keys, values))
  {
    s := summary;
    ghost var es := ColumnEntries(keys, values);
    for i := 0 to Min(|keys|, |values|)
      invariant s == PutAll(summary, es[..i])
    {
      var key := TrimEndChar(Trim(keys[i]), ':');
      var value := Trim(values[i]);
      if key != "" && value != "" {
        s := s[key := value];
      }
      assert es[..i + 1][..i] == es[..i];
    }
    assert es[..|es|] == es;
  }

  /** The body of the loop of `FormatBankStatementData`, on one table. */
  method AddTable(data: StatementData, table: TableData) returns (data': StatementData)
    ensures data' == ProcessTable(data, table)
  {
    data' := data;
    if |table.rows| == 0 {
      return;
    }
    var headers := TrimAll(table.rows[0]);
    if IsSummaryTable(headers) {
      var summary := data.summary;
      if AllPairs(table.rows) {
        summary := SummaryFromRows(summary, table.rows);
      } else if |table.rows| == 2 {
        summary := SummaryFromColumns(summary, table.rows[0], table.rows[1]);
      }
      data' := data.(summary := summary);
      return;
    }
    var headerMap := MapHeaders(headers);
    if |headerMap| >= 4 {
      TrimAllTrimmed(table.rows[0]);
      TrimmedColumnsValid(headers);
      var ts := CollectTransactions(headerMap, table.rows, |headers|);
      data' := data.(transactions := data.transactions + ts);
    }
  }

  /**
   * `FormatBankStatementData`: folds the tables in order into one result whose summary entries
   * and transactions are all well formed.
   */
  method FormatBankStatementData(tables: seq<TableData>) returns (result: StatementData)
    ensures result == Format(tables)
    ensures WellFormedSummary(result.summary)
    ensures forall t :: t in result.transactions ==> WellFormedTransaction(t)
  {
    result := StatementData(map[], []);
    for i := 0 to |tables|
      invariant result == Format(tables[..i])
    {
      result := AddTable(result, tables[i]);
      assert tables[..i + 1][..i] == tables[..i];
    }
    assert tables[..|tables|] == tables;
    FormatWellFormed(tables);
  }
}
