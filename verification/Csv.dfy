/**
 The CSV download of account balances (server/routes/accounting.js), and a reader for the
 quoting rules of section 2 of RFC 4180 with LF between records.
 */
module Csv {
  import opened Wrappers

  const QUOTE: char := '"'
  const COMMA: char := ','
  const NEWLINE: char := '\n'

  // ---- Printing --------------------------------------------------------------------

  /** A null or undefined value prints as nothing. */
  function Text(value: Option<string>): string {
    if value.None? then "" else value.value
  }

  function DoubleQuotes(s: string): string {
    if s == "" then "" else (if s[0] == QUOTE then [QUOTE, QUOTE] else [s[0]]) + DoubleQuotes(s[1..])
  }

  function EscapeText(s: string): string {
    if QUOTE in s || COMMA in s || NEWLINE in s then [QUOTE] + DoubleQuotes(s) + [QUOTE] else s
  }

  function Escape(value: Option<string>): string {
    EscapeText(Text(value))
  }

  function Join(parts: seq<string>, separator: char): string {
    if parts == [] then "" else if |parts| == 1 then parts[0]
    else parts[0] + [separator] + Join(parts[1..], separator)
  }

  function Map<A, B>(f: A -> B, s: seq<A>): (t: seq<B>)
    ensures |t| == |s| && forall i :: 0 <= i < |s| ==> t[i] == f(s[i])
  {
    if s == [] then [] else [f(s[0])] + Map(f, s[1..])
  }

  function PrintRow(row: seq<string>): string {
    Join(Map(EscapeText, row), COMMA)
  }

  function PrintTable(rows: seq<seq<string>>): string {
    Join(Map(PrintRow, rows), NEWLINE)
  }

  /** One account of the trial balance; any value may be missing. */
  datatype Account = Account(
    accountCode: Option<string>, accountName: Option<string>, accountType: Option<string>, subType: Option<string>,
    totalDebits: Option<string>, totalCredits: Option<string>, currentBalance: Option<string>)

  const HEADERS := ["AccountCode", "AccountName", "AccountType", "SubType", "TotalDebits", "TotalCredits", "CurrentBalance"]

  function Fields(a: Account): seq<Option<string>> {
    [a.accountCode, a.accountName, a.accountType, a.subType, a.totalDebits, a.totalCredits, a.currentBalance]
  }

  function Rendered(a: Account): seq<string> {
    Map(Text, Fields(a))
  }

  function AccountLine(a: Account): string {
    Join(Map(Escape, Fields(a)), COMMA)
  }

  /** The text sent: an unescaped header line, then one line per account. */
  function Download(accounts: seq<Account>): string {
    Join([Join(HEADERS, COMMA)] + Map(AccountLine, accounts), NEWLINE)
  }

  // ---- Reading ----------------------------------------------------------------------

  /** Where the reader stands: at the start of a field, in a bare or quoted one, or past a quote inside a quoted one. */
  datatype Mode = Start | Bare | Quoted | Closing

  /** Reads on with the text so far in the field, the fields so far in the record, and the records so far. */
  function Read(text: string, mode: Mode, field: string, row: seq<string>, rows: seq<seq<string>>): Option<seq<seq<string>>>
    decreases |text|
  {
    if text == "" then
      if mode.Quoted? then None else Some(rows + [row + [field]])
    else
      var c, rest := text[0], text[1..];
      if mode.Quoted? then
        if c == '"' then Read(rest, Closing, field, row, rows) else Read(rest, Quoted, field + [c], row, rows)
      else if c == ',' then Read(rest, Start, "", row + [field], rows)
      else if c == '\n' then Read(rest, Start, "", [], rows + [row + [field]])
      else if c == '"' then
        match mode
        case Start => Read(rest, Quoted, field, row, rows)
        case Closing => Read(rest, Quoted, field + ['"'], row, rows)
        case Bare => None
      else if mode.Closing? then None
      else Read(rest, Bare, field + [c], row, rows)
  }

  /** The records of a text, or none when its quoting is malformed. */
  function Parse(text: string): Option<seq<seq<string>>> {
    Read(text, Start, "", [], [])
  }

  // ---- Round trip --------------------------------------------------------------------

  predicate AtSeparator(rest: string) {
    rest == "" || rest[0] == ',' || rest[0] == '\n'
  }

  /** What the reader makes of the rest once a field is complete. */
  function AfterField(rest: string, field: string, row: seq<string>, rows: seq<seq<string>>): Option<seq<seq<string>>>
    requires AtSeparator(rest)
  {
    if rest == "" then Some(rows + [row + [field]])
    else if rest[0] == ',' then Read(rest[1..], Start, "", row + [field], rows)
    else Read(rest[1..], Start, "", [], rows + [row + [field]])
  }

  lemma {:induction false} ReadBare(s: string, mode: Mode, field: string, rest: string, row: seq<string>, rows: seq<seq<string>>)
    requires QUOTE !in s && COMMA !in s && NEWLINE !in s && AtSeparator(rest)
    requires mode == Bare || (mode == Start && field == "")
    ensures Read(s + rest, mode, field, row, rows) == AfterField(rest, field + s, row, rows)
    decreases |s|
  {
    if s == "" {
      assert s + rest == rest && field + s == field;
    } else {
      assert s[0] in s;
      assert (s + rest)[1..] == s[1..] + rest && field + [s[0]] + s[1..] == field + s;
      ReadBare(s[1..], Bare, field + [s[0]], rest, row, rows);
    }
  }

  lemma {:induction false} ReadQuoted(s: string, field: string, rest: string, row: seq<string>, rows: seq<seq<string>>)
    requires AtSeparator(rest)
    ensures Read(DoubleQuotes(s) + [QUOTE] + rest, Quoted, field, row, rows) == AfterField(rest, field + s, row, rows)
    decreases |s|
  {
    var text := DoubleQuotes(s) + [QUOTE] + rest;
    if s == "" {
      assert text[1..] == rest && field + s == field;
    } else {
      var tail := DoubleQuotes(s[1..]) + [QUOTE] + rest;
      assert field + [s[0]] + s[1..] == field + s;
      ReadQuoted(s[1..], field + [s[0]], rest, row, rows);
      if s[0] == QUOTE {
        assert text == [QUOTE, QUOTE] + tail;
        assert text[1..] == [QUOTE] + tail && text[1..][1..] == tail;
      } else {
        assert text == [s[0]] + tail;
        assert text[1..] == tail;
      }
    }
  }

  lemma ReadEnclosed(s: string, rest: string, row: seq<string>, rows: seq<seq<string>>)
    requires AtSeparator(rest)
    ensures Read([QUOTE] + DoubleQuotes(s) + [QUOTE] + rest, Start, "", row, rows) == AfterField(rest, s, row, rows)
  {
    var text, inner := [QUOTE] + DoubleQuotes(s) + [QUOTE] + rest, DoubleQuotes(s) + [QUOTE] + rest;
    assert text == [QUOTE] + inner;
    assert text[1..] == inner && "" + s == s;
    ReadQuoted(s, "", rest, row, rows);
  }

  /** A printed field reads back as itself, whatever it contains. */
  lemma ReadField(s: string, rest: string, row: seq<string>, rows: seq<seq<string>>)
    requires AtSeparator(rest)
    ensures Read(EscapeText(s) + rest, Start, "", row, rows) == AfterField(rest, s, row, rows)
  {
    if QUOTE in s || COMMA in s || NEWLINE in s {
      ReadEnclosed(s, rest, row, rows);
    } else {
      assert "" + s == s;
      ReadBare(s, Start, "", rest, row, rows);
    }
  }

  /** What the reader makes of the rest once a record is complete. */
  function AfterRow(rest: string, row: seq<string>, rows: seq<seq<string>>): Option<seq<seq<string>>>
    requires rest == "" || rest[0] == NEWLINE
  {
    if rest == "" then Some(rows + [row]) else Read(rest[1..], Start, "", [], rows + [row])
  }

  lemma PrintRowCons(fields: seq<string>)
    requires |fields| > 1
    ensures PrintRow(fields) == EscapeText(fields[0]) + ([COMMA] + PrintRow(fields[1..]))
  {
    assert Map(EscapeText, fields)[1..] == Map(EscapeText, fields[1..]);
  }

  lemma PrintTableCons(table: seq<seq<string>>)
    requires |table| > 1
    ensures PrintTable(table) == PrintRow(table[0]) + ([NEWLINE] + PrintTable(table[1..]))
  {
    assert Map(PrintRow, table)[1..] == Map(PrintRow, table[1..]);
  }

  lemma ReadFirst(fields: seq<string>, rest: string, row: seq<string>, rows: seq<seq<string>>)
    requires |fields| > 1
    ensures Read(PrintRow(fields) + rest, Start, "", row, rows) ==
            Read(PrintRow(fields[1..]) + rest, Start, "", row + [fields[0]], rows)
  {
    var first, tail := EscapeText(fields[0]), PrintRow(fields[1..]) + rest;
    var more := [COMMA] + tail;
    PrintRowCons(fields);
    assert PrintRow(fields) + rest == first + more;
    ReadField(fields[0], more, row, rows);
    assert more[1..] == tail;
  }

  lemma {:induction false} ReadRow(fields: seq<string>, rest: string, row: seq<string>, rows: seq<seq<string>>)
    requires fields != [] && (rest == "" || rest[0] == NEWLINE)
    ensures Read(PrintRow(fields) + rest, Start, "", row, rows) == AfterRow(rest, row + fields, rows)
    decreases |fields|
  {
    if |fields| == 1 {
      assert row + [fields[0]] == row + fields;
      ReadField(fields[0], rest, row, rows);
    } else {
      ReadFirst(fields, rest, row, rows);
      ReadRow(fields[1..], rest, row + [fields[0]], rows);
      assert row + [fields[0]] + fields[1..] == row + fields;
    }
  }

  /** A printed record followed by a line break is one more record. */
  lemma ReadLine(row: seq<string>, more: string, rows: seq<seq<string>>)
    requires row != []
    ensures Read(PrintRow(row) + ([NEWLINE] + more), Start, "", [], rows) == Read(more, Start, "", [], rows + [row])
  {
    ReadRow(row, [NEWLINE] + more, [], rows);
    assert ([NEWLINE] + more)[1..] == more && [] + row == row;
  }

  lemma ReadLastLine(row: seq<string>, rows: seq<seq<string>>)
    requires row != []
    ensures Read(PrintRow(row), Start, "", [], rows) == Some(rows + [row])
  {
    ReadRow(row, "", [], rows);
    assert PrintRow(row) + "" == PrintRow(row) && [] + row == row;
  }

  lemma AppendRest<T>(rows: seq<T>, table: seq<T>)
    requires table != []
    ensures rows + [table[0]] + table[1..] == rows + table
  {
  }

  lemma {:induction false} ReadTable(table: seq<seq<string>>, rows: seq<seq<string>>)
    requires table != [] && forall row :: row in table ==> row != []
    ensures Read(PrintTable(table), Start, "", [], rows) == Some(rows + table)
    decreases |table|
  {
    assert table[0] in table;
    if |table| == 1 {
      assert table == [table[0]];
      ReadLastLine(table[0], rows);
    } else {
      PrintTableCons(table);
      ReadLine(table[0], PrintTable(table[1..]), rows);
      assert forall row :: row in table[1..] ==> row in table;
      ReadTable(table[1..], rows + [table[0]]);
      AppendRest(rows, table);
    }
  }

  /** Any table whose records have fields at all reads back exactly. */
  lemma ParsePrinted(table: seq<seq<string>>)
    requires table != [] && forall row :: row in table ==> row != []
    ensures Parse(PrintTable(table)) == Some(table)
  {
    ReadTable(table, []);
    assert [] + table == table;
  }

  // ---- The download -------------------------------------------------------------------

  lemma LineIsRow(a: Account)
    ensures AccountLine(a) == PrintRow(Rendered(a))
  {
    assert Map(Escape, Fields(a)) == Map(EscapeText, Rendered(a));
  }

  predicate Letters(s: string) {
    forall c :: c in s ==> 'A' <= c <= 'z'
  }

  lemma LettersUnescaped(s: string)
    requires Letters(s)
    ensures EscapeText(s) == s
  {
  }

  lemma FirstHeaders()
    ensures Letters("AccountCode") && Letters("AccountName") && Letters("AccountType")
  {
  }

  lemma MiddleHeaders()
    ensures Letters("SubType") && Letters("TotalDebits")
  {
  }

  lemma LastHeaders()
    ensures Letters("TotalCredits") && Letters("CurrentBalance")
  {
  }

  lemma HeadersAreLetters()
    ensures forall i :: 0 <= i < |HEADERS| ==> Letters(HEADERS[i])
  {
    FirstHeaders();
    MiddleHeaders();
    LastHeaders();
  }

  lemma LettersRow(row: seq<string>)
    requires forall i :: 0 <= i < |row| ==> Letters(row[i])
    ensures Join(row, COMMA) == PrintRow(row)
  {
    forall i | 0 <= i < |row| ensures EscapeText(row[i]) == row[i] {
      LettersUnescaped(row[i]);
    }
    assert Map(EscapeText, row) == row;
  }

  lemma HeaderIsRow()
    ensures Join(HEADERS, COMMA) == PrintRow(HEADERS)
  {
    HeadersAreLetters();
    LettersRow(HEADERS);
  }

  function Table(accounts: seq<Account>): seq<seq<string>> {
    [HEADERS] + Map(Rendered, accounts)
  }

  lemma DownloadIsTable(accounts: seq<Account>)
    ensures Download(accounts) == PrintTable(Table(accounts))
  {
    HeaderIsRow();
    LinesAreRows(accounts);
    var table := Table(accounts);
    assert table[0] == HEADERS && table[1..] == Map(Rendered, accounts);
    assert Map(PrintRow, table) == [PrintRow(table[0])] + Map(PrintRow, table[1..]);
  }

  lemma LinesAreRows(accounts: seq<Account>)
    ensures Map(AccountLine, accounts) == Map(PrintRow, Map(Rendered, accounts))
  {
    forall i | 0 <= i < |accounts| ensures AccountLine(accounts[i]) == PrintRow(Rendered(accounts[i])) {
      LineIsRow(accounts[i]);
    }
  }

  /** The download reads back as the header and one record of seven fields per account. */
  lemma DownloadRoundTrip(accounts: seq<Account>)
    ensures Parse(Download(accounts)) == Some([HEADERS] + Map(Rendered, accounts))
    ensures forall row :: row in Parse(Download(accounts)).value ==> |row| == 7
  {
    DownloadIsTable(accounts);
    forall row | row in Table(accounts) ensures |row| == 7 {}
    ParsePrinted(Table(accounts));
  }

  /** The record of an account shows its values in the order of the headers, a missing one as nothing. */
  lemma ColumnsMatchHeaders(accounts: seq<Account>, i: nat)
    requires i < |accounts|
    ensures var table, a := Parse(Download(accounts)), accounts[i];
      && table.Some? && |table.value| == |accounts| + 1
      && ShowsAll(table.value[i + 1], a)
  {
    DownloadRoundTrip(accounts);
    RenderedColumns(accounts[i]);
    ConsAt(HEADERS, Map(Rendered, accounts), i);
  }

  /** A missing value shows as nothing. */
  predicate Shows(field: string, value: Option<string>) {
    match value
    case None => field == ""
    case Some(text) => field == text
  }

  /** The seven columns of an account. */
  predicate ShowsAll(row: seq<string>, a: Account) {
    && |row| == 7 && Shows(row[0], a.accountCode) && Shows(row[1], a.accountName) && Shows(row[2], a.accountType)
    && Shows(row[3], a.subType) && Shows(row[4], a.totalDebits) && Shows(row[5], a.totalCredits)
    && Shows(row[6], a.currentBalance)
  }

  /** The first record names them. */
  lemma HeaderRow(accounts: seq<Account>)
    ensures Parse(Download(accounts)).Some? && |Parse(Download(accounts)).value| > 0
    ensures Parse(Download(accounts)).value[0] ==
      ["AccountCode", "AccountName", "AccountType", "SubType", "TotalDebits", "TotalCredits", "CurrentBalance"]
  {
    DownloadRoundTrip(accounts);
  }

  /** Only a field with a quote, a comma or a line break is quoted. */
  lemma QuotedIff(s: string)
    ensures if '"' in s || ',' in s || '\n' in s
      then EscapeText(s)[0] == '"' && EscapeText(s)[|EscapeText(s)| - 1] == '"' && |EscapeText(s)| > |s| + 1
      else EscapeText(s) == s
  {
    DoubledLonger(s);
  }

  lemma {:induction false} DoubledLonger(s: string)
    ensures |DoubleQuotes(s)| >= |s|
  {
    if s != "" { DoubledLonger(s[1..]); }
  }

  lemma ConsAt<T>(head: T, tail: seq<T>, i: nat)
    requires i < |tail|
    ensures |[head] + tail| == |tail| + 1 && ([head] + tail)[i + 1] == tail[i]
  {
  }

  lemma RenderedColumns(a: Account)
    ensures ShowsAll(Rendered(a), a)
  {
    var fields, rendered := Fields(a), Rendered(a);
    assert |rendered| == 7 && forall k :: 0 <= k < 7 ==> rendered[k] == Text(fields[k]);
  }

  /** Two downloads are the same text exactly when they show the same values. */
  lemma DownloadInjective(a: seq<Account>, b: seq<Account>)
    ensures Download(a) == Download(b) <==> Map(Rendered, a) == Map(Rendered, b)
  {
    DownloadRoundTrip(a);
    DownloadRoundTrip(b);
    DownloadIsTable(a);
    DownloadIsTable(b);
    if Download(a) == Download(b) {
      assert ([HEADERS] + Map(Rendered, a))[1..] == ([HEADERS] + Map(Rendered, b))[1..];
      assert ([HEADERS] + Map(Rendered, a))[1..] == Map(Rendered, a);
      assert ([HEADERS] + Map(Rendered, b))[1..] == Map(Rendered, b);
    }
  }
}
