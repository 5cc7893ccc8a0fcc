// The pure helpers of the dashboard client (frontend/src/utils/helpers.js):
// identity-number formatting and validation, the colour check, turnout
// banding, CSV export, sortByKey and filterBySearch.
module Helpers {
  import opened Text
  import opened Seqs
  import opened Sorting

  // ---------------------------------------------------------------------
  // Identity numbers. The arguments are strings; formatICNumber maps a falsy
  // one (null, undefined, '') to "", which here is the empty string.

  /** DDDDDD-DD-DDDD */
  predicate IsFormattedIC(s: string) {
    && |s| == 14
    && s[6] == '-' && s[9] == '-'
    && forall i :: 0 <= i < 14 && i != 6 && i != 9 ==> IsDigit(s[i])
  }

  /** s with every '-' removed. */
  function RemoveDashes(s: string): (r: string)
    ensures |r| <= |s|
  {
    if s == [] then [] else (if s[0] == '-' then [] else [s[0]]) + RemoveDashes(s[1..])
  }

  lemma {:induction false} RemoveDashesAppend(a: string, b: string)
    ensures RemoveDashes(a + b) == RemoveDashes(a) + RemoveDashes(b)
  {
    if a == [] {
      assert a + b == b;
    } else {
      assert (a + b)[1..] == a[1..] + b;
      RemoveDashesAppend(a[1..], b);
    }
  }

  lemma {:induction false} RemoveDashesDigits(s: string)
    requires AllDigits(s)
    ensures RemoveDashes(s) == s
  {
    if s != [] {
      RemoveDashesDigits(s[1..]);
    }
  }

  /** The 6-2-4 layout of twelve digits. */
  function Dashed(c: string): string
    requires |c| == 12
  {
    c[..6] + "-" + c[6..8] + "-" + c[8..]
  }

  /** formatICNumber: the digits of ic laid out 6-2-4 when there are exactly
      twelve of them, ic itself otherwise, '' for a falsy ic. */
  function FormatICNumber(ic: string): (r: string)
    ensures ic == "" ==> r == ""
    ensures |Digits(ic)| != 12 ==> r == ic
    ensures ic != "" && |Digits(ic)| == 12 ==> IsFormattedIC(r)
  {
    if ic == "" then ""
    else
      var cleaned := Digits(ic);
      if |cleaned| != 12 then ic else Dashed(cleaned)
  }

  lemma DashedDigits(c: string)
    requires |c| == 12 && AllDigits(c)
    ensures Digits(Dashed(c)) == c
  {
    var a, b, d := c[..6], c[6..8], c[8..];
    var x1 := a + "-";
    var x2 := x1 + b;
    var x3 := x2 + "-";
    assert Dashed(c) == x3 + d;
    assert Digits("-") == [];
    DigitsAppend(a, "-");
    DigitsAppend(x1, b);
    DigitsAppend(x2, "-");
    DigitsAppend(x3, d);
    assert a + b + d == c;
  }

  /** Removing dashes around an inserted dash joins the two sides. */
  lemma RemoveDashesSkip(x: string, y: string)
    ensures RemoveDashes(x + "-" + y) == RemoveDashes(x) + RemoveDashes(y)
  {
    assert RemoveDashes("-") == [];
    RemoveDashesAppend(x, "-");
    RemoveDashesAppend(x + "-", y);
  }

  lemma DashedRemoveDashes(c: string)
    requires |c| == 12 && AllDigits(c)
    ensures RemoveDashes(Dashed(c)) == c
  {
    var a, b, d := c[..6], c[6..8], c[8..];
    AllDigitsSlice(c, 0, 6);
    AllDigitsSlice(c, 6, 8);
    AllDigitsSlice(c, 8, 12);
    assert c[0..6] == a && c[6..8] == b && c[8..12] == d;
    RemoveDashesDigits(a);
    RemoveDashesDigits(b);
    RemoveDashesDigits(d);
    RemoveDashesSkip(a, b);
    assert RemoveDashes(a + "-" + b) == a + b;
    RemoveDashesSkip(a + "-" + b, d);
    assert RemoveDashes(Dashed(c)) == a + b + d;
    assert a + b + d == c;
  }

  lemma DashedParts(c: string)
    requires |c| == 12 && AllDigits(c)
    ensures Digits(Dashed(c)) == c
    ensures RemoveDashes(Dashed(c)) == c
  {
    DashedDigits(c);
    DashedRemoveDashes(c);
  }

  /** Removing the two dashes of a formatted number gives back its twelve digits. */
  lemma FormatICNumberRoundTrip(ic: string)
    requires ic != "" && |Digits(ic)| == 12
    ensures RemoveDashes(FormatICNumber(ic)) == Digits(ic)
  {
    DashedParts(Digits(ic));
  }

  /** Formatting a second time changes nothing. */
  lemma FormatICNumberIdempotent(ic: string)
    ensures FormatICNumber(FormatICNumber(ic)) == FormatICNumber(ic)
  {
    if ic != "" && |Digits(ic)| == 12 {
      DashedParts(Digits(ic));
    }
  }

  /** validateICNumber: stripping the non-digits must leave ^\d{12}$. */
  function ValidateICNumber(ic: string): (r: bool)
    ensures r <==> |Digits(ic)| == 12
  {
    IsDigitRun(Digits(ic), 12)
  }

  /** Every number the backend accepts (exactly 12 digits) is valid for the
      client, and so is its formatted form; the formatted form itself is
      not accepted by the backend. */
  lemma ValidateICNumberAgreement(ic: string)
    requires IsDigitRun(ic, 12)
    ensures ValidateICNumber(ic)
    ensures ValidateICNumber(FormatICNumber(ic))
    ensures FormatICNumber(ic) == Dashed(ic)
    ensures !IsDigitRun(FormatICNumber(ic), 12)
  {
    DashedParts(ic);
  }

  /** '123456789012' and its formatted form are valid; '12345' is not. */
  lemma ValidateICNumberExamples()
    ensures ValidateICNumber("123456-78-9012")
    ensures ValidateICNumber("123456789012")
    ensures !ValidateICNumber("12345")
  {
    var c := "123456789012";
    BareNumberDigits();
    assert Dashed(c) == "123456-78-9012" by {
      assert c[..6] == "123456" && c[6..8] == "78" && c[8..] == "9012";
    }
    DashedDigits(c);
  }

  lemma BareNumberDigits()
    ensures AllDigits("123456789012")
  {
    var c := "123456789012";
    forall i | 0 <= i < |c|
      ensures IsDigit(c[i])
    {
    }
  }

  // ---------------------------------------------------------------------
  // Colours

  /** isValidHexColor: /^#[0-9A-F]{6}$/i. */
  function IsValidHexColor(color: string): (r: bool)
    ensures r <==> && |color| == 7 && color[0] == '#'
                   && forall i :: 1 <= i < 7 ==> '0' <= color[i] <= '9' || 'a' <= color[i] <= 'f' || 'A' <= color[i] <= 'F'
  {
    |color| == 7 && color[0] == '#' && forall i :: 1 <= i < 7 ==> IsHexDigit(color[i])
  }

  /** The /i flag: a colour is valid exactly when its lower-cased form is. */
  lemma HexColorCaseInsensitive(color: string)
    ensures IsValidHexColor(color) <==> IsValidHexColor(Lower(color))
  {
    var low := Lower(color);
    if |color| == 7 {
      forall i | 0 <= i < 7
        ensures IsHexDigit(color[i]) <==> IsHexDigit(low[i])
        ensures color[i] == '#' <==> low[i] == '#'
      {
      }
    }
  }

  lemma HexColorExamples()
    ensures IsValidHexColor("#3B82F6")
    ensures IsValidHexColor("#3b82f6")
    ensures !IsValidHexColor("blue")
    ensures !IsValidHexColor("#3B82F")
    ensures !IsValidHexColor("#3B82FG")
  {
    assert !IsHexDigit("#3B82FG"[6]);
  }

  // ---------------------------------------------------------------------
  // Turnout bands (the percentage is a real; NaN is not modelled)

  /** getTurnoutStatus: the Malay label of the band the percentage falls in. */
  function TurnoutStatus(percentage: real): (status: string)
    ensures status == "Tinggi" <==> percentage >= 70.0
    ensures status == "Sederhana" <==> 50.0 <= percentage < 70.0
    ensures status == "Rendah" <==> 30.0 <= percentage < 50.0
    ensures status == "Sangat Rendah" <==> percentage < 30.0
  {
    if percentage >= 70.0 then "Tinggi"
    else if percentage >= 50.0 then "Sederhana"
    else if percentage >= 30.0 then "Rendah"
    else "Sangat Rendah"
  }

  /** getTurnoutStatusColor: the text colour class of the same bands. */
  function TurnoutStatusColor(percentage: real): (color: string)
    ensures color == "text-green-600" <==> percentage >= 70.0
    ensures color == "text-yellow-600" <==> 50.0 <= percentage < 70.0
    ensures color == "text-orange-600" <==> 30.0 <= percentage < 50.0
    ensures color == "text-red-600" <==> percentage < 30.0
  {
    if percentage >= 70.0 then "text-green-600"
    else if percentage >= 50.0 then "text-yellow-600"
    else if percentage >= 30.0 then "text-orange-600"
    else "text-red-600"
  }

  /** The rank of a status label, lowest band 0. */
  function StatusRank(status: string): nat {
    if status == "Tinggi" then 3
    else if status == "Sederhana" then 2
    else if status == "Rendah" then 1
    else 0
  }

  /** The colour that goes with each status label. */
  function StatusColor(status: string): string {
    if status == "Tinggi" then "text-green-600"
    else if status == "Sederhana" then "text-yellow-600"
    else if status == "Rendah" then "text-orange-600"
    else "text-red-600"
  }

  /** The two functions cut at the same thresholds 70, 50 and 30, and a
      higher percentage never lands in a lower band. */
  lemma TurnoutBands(p: real, q: real)
    ensures TurnoutStatusColor(p) == StatusColor(TurnoutStatus(p))
    ensures StatusRank(TurnoutStatus(p)) == 3 <==> p >= 70.0
    ensures StatusRank(TurnoutStatus(p)) == 2 <==> 50.0 <= p < 70.0
    ensures StatusRank(TurnoutStatus(p)) == 1 <==> 30.0 <= p < 50.0
    ensures StatusRank(TurnoutStatus(p)) == 0 <==> p < 30.0
    ensures p <= q ==> StatusRank(TurnoutStatus(p)) <= StatusRank(TurnoutStatus(q))
  {
  }

  // ---------------------------------------------------------------------
  // Row objects as the pages hand them to exportToCSV, sortByKey and
  // filterBySearch: string keys in insertion order.

  datatype Field = Text(s: string) | Number(n: int) | Bool(b: bool) | Null

  datatype Row = Row(fields: seq<(string, Field)>)

  /** row[key]; an absent key reads as undefined, here Null. */
  function Get(row: Row, key: string): Field
    decreases |row.fields|
  {
    if row.fields == [] then Null
    else if row.fields[0].0 == key then row.fields[0].1
    else Get(Row(row.fields[1..]), key)
  }

  /** Object.keys(row). */
  function Keys(row: Row): (ks: seq<string>)
    ensures |ks| == |row.fields|
  {
    seq(|row.fields|, i requires 0 <= i < |row.fields| => row.fields[i].0)
  }

  /** JavaScript truthiness; Null stands for both null and undefined. */
  predicate Truthy(f: Field) {
    match f
    case Text(s) => s != ""
    case Number(n) => n != 0
    case Bool(b) => b
    case Null => false
  }

  /** value.toString() of a non-null value. */
  function Display(f: Field): string {
    match f
    case Text(s) => s
    case Number(n) => IntToString(n)
    case Bool(b) => if b then "true" else "false"
    case Null => ""
  }

  // ---------------------------------------------------------------------
  // CSV export

  /** cell.replace(/"/g, '""') */
  function DoubleQuotes(s: string): (d: string)
    ensures |d| == |s| + CountChar(s, '"')
    ensures CountChar(d, '"') == 2 * CountChar(s, '"')
  {
    if s == [] then []
    else
      var head := if s[0] == '"' then "\"\"" else [s[0]];
      var rest := DoubleQuotes(s[1..]);
      CountCharAppend(head, rest, '"');
      head + rest
  }

  /** A string cell holding ',' or '"' is wrapped in quotes with its quotes
      doubled; any other string is left as it is. */
  function EscapeText(s: string): (r: string)
    ensures ',' !in s && '"' !in s ==> r == s
    ensures ',' in s || '"' in s ==> r == "\"" + DoubleQuotes(s) + "\""
    ensures ',' in s || '"' in s ==>
      && |r| == |s| + CountChar(s, '"') + 2 && r[0] == '"' && r[|r| - 1] == '"'
      && UndoubleQuotes(r[1..|r| - 1]) == s
  {
    if ',' in s || '"' in s then
      var d := DoubleQuotes(s);
      assert ("\"" + d + "\"")[1..|d| + 1] == d;
      UndoubleDoubleQuotes(s);
      "\"" + d + "\""
    else s
  }

  /** One cell of a data line: row[header] || '', escaped if a string;
      a truthy number or boolean is printed as join prints it. */
  function CsvCell(f: Field): (r: string)
    ensures !Truthy(f) ==> r == ""
    ensures f.Text? && Truthy(f) ==> r == EscapeText(f.s)
    ensures Truthy(f) && !f.Text? ==> r == Display(f)
  {
    if !Truthy(f) then ""
    else match f
      case Text(s) => EscapeText(s)
      case _ => Display(f)
  }

  /** One data line: the row's cells in header order, joined by ','. */
  function CsvLine(row: Row, headers: seq<string>): string {
    Join(seq(|headers|, i requires 0 <= i < |headers| => CsvCell(Get(row, headers[i]))), ",")
  }

  /** The lines of the document: the header line, then one line per row. */
  function CsvLines(data: seq<Row>): seq<string>
    requires data != []
  {
    var headers := Keys(data[0]);
    [Join(headers, ",")] + seq(|data|, i requires 0 <= i < |data| => CsvLine(data[i], headers))
  }

  /** The whole document: the first row's keys (not escaped), then one line
      per row, joined by '\n'. Empty data produces no document. */
  function ExportToCsv(data: seq<Row>): (r: Option<string>)
    ensures r.None? <==> data == []
  {
    if data == [] then None else Some(Join(CsvLines(data), "\n"))
  }

  /** The reader's side of rule 7 of RFC 4180 section 2: a doubled quote
      inside a quoted field stands for one quote. */
  function UndoubleQuotes(s: string): string
    decreases |s|
  {
    if |s| >= 2 && s[0] == '"' && s[1] == '"' then "\"" + UndoubleQuotes(s[2..])
    else if s == [] then []
    else [s[0]] + UndoubleQuotes(s[1..])
  }

  /** Reading one field back: strip the enclosing quotes of a quoted field. */
  function UnescapeField(c: string): string {
    if |c| >= 2 && c[0] == '"' && c[|c| - 1] == '"' then UndoubleQuotes(c[1..|c| - 1]) else c
  }

  lemma {:induction false} UndoubleDoubleQuotes(s: string)
    ensures UndoubleQuotes(DoubleQuotes(s)) == s
  {
    if s != [] {
      UndoubleDoubleQuotes(s[1..]);
      if s[0] == '"' {
        assert ("\"\"" + DoubleQuotes(s[1..]))[2..] == DoubleQuotes(s[1..]);
      } else {
        assert ([s[0]] + DoubleQuotes(s[1..]))[1..] == DoubleQuotes(s[1..]);
      }
      assert s == [s[0]] + s[1..];
    }
  }

  /** A string cell read back from its CSV form is the original string. */
  lemma EscapeTextRoundTrip(s: string)
    ensures UnescapeField(EscapeText(s)) == s
  {
    if ',' !in s && '"' !in s && |s| >= 2 {
      assert s[0] != '"';
    }
  }

  lemma {:induction false} DoubleQuotesNoChar(s: string, c: char)
    requires c != '"' && c !in s
    ensures c !in DoubleQuotes(s)
  {
    if s != [] {
      DoubleQuotesNoChar(s[1..], c);
    }
  }

  lemma {:induction false} NatToStringNoNewline(n: nat)
    ensures '\n' !in NatToString(n)
  {
  }

  lemma CsvCellNoNewline(f: Field)
    requires f.Text? ==> '\n' !in f.s
    ensures '\n' !in CsvCell(f)
  {
    if f.Text? && Truthy(f) {
      DoubleQuotesNoChar(f.s, '\n');
    } else if f.Number? && Truthy(f) {
      if f.n < 0 {
        NatToStringNoNewline(-f.n);
      } else {
        NatToStringNoNewline(f.n);
      }
    }
  }

  lemma {:induction false} JoinNoChar(parts: seq<string>, sep: string, c: char)
    requires c !in sep
    requires forall i :: 0 <= i < |parts| ==> c !in parts[i]
    ensures c !in Join(parts, sep)
    decreases |parts|
  {
    if |parts| > 1 {
      JoinNoChar(parts[1..], sep, c);
    }
  }

  /** No text value of the row holds a line break. */
  predicate NoLineBreaks(row: Row) {
    forall i :: 0 <= i < |row.fields| ==>
      '\n' !in row.fields[i].0 && (row.fields[i].1.Text? ==> '\n' !in row.fields[i].1.s)
  }

  lemma {:induction false} GetFromFields(row: Row, key: string)
    ensures Get(row, key) == Null || exists i :: 0 <= i < |row.fields| && row.fields[i].1 == Get(row, key)
    decreases |row.fields|
  {
    if row.fields != [] && row.fields[0].0 != key {
      GetFromFields(Row(row.fields[1..]), key);
      if Get(row, key) != Null {
        var i :| 0 <= i < |row.fields[1..]| && row.fields[1..][i].1 == Get(row, key);
        assert row.fields[i + 1].1 == Get(row, key);
      }
    }
  }

  /** A row without line breaks gives a data line without one. */
  lemma CsvLineUnbroken(row: Row, headers: seq<string>)
    requires NoLineBreaks(row)
    ensures '\n' !in CsvLine(row, headers)
  {
    var cells := seq(|headers|, i requires 0 <= i < |headers| => CsvCell(Get(row, headers[i])));
    forall i | 0 <= i < |headers|
      ensures '\n' !in cells[i]
    {
      GetFromFields(row, headers[i]);
      CsvCellNoNewline(Get(row, headers[i]));
    }
    JoinNoChar(cells, ",", '\n');
  }

  /** With no line break inside any key or text value, no line of the
      document holds one. */
  lemma CsvLinesUnbroken(data: seq<Row>)
    requires data != []
    requires forall i :: 0 <= i < |data| ==> NoLineBreaks(data[i])
    ensures forall i :: 0 <= i < |CsvLines(data)| ==> '\n' !in CsvLines(data)[i]
  {
    var headers := Keys(data[0]);
    var lines := CsvLines(data);
    JoinNoChar(headers, ",", '\n');
    forall k | 0 <= k < |data|
      ensures '\n' !in CsvLine(data[k], headers)
    {
      CsvLineUnbroken(data[k], headers);
    }
    assert forall i :: 1 <= i < |lines| ==> lines[i] == CsvLine(data[i - 1], headers);
  }

  /** With no line break inside any key or text value, the document has one
      header line and one line per row. Line breaks inside cells are not
      quoted, so this is the most the format guarantees. */
  lemma CsvLineCount(data: seq<Row>)
    requires data != []
    requires forall i :: 0 <= i < |data| ==> NoLineBreaks(data[i])
    ensures CountChar(ExportToCsv(data).value, '\n') == |data|
  {
    CsvLinesUnbroken(data);
    JoinSeparatorCount(CsvLines(data), '\n');
  }

  /** Under the same condition, splitting the document at its line breaks
      gives the header (the first row's keys joined by ',') and then, in
      order, each row's cells under those headers. */
  lemma CsvLinesOfDocument(data: seq<Row>)
    requires data != []
    requires forall i :: 0 <= i < |data| ==> NoLineBreaks(data[i])
    ensures var lines := Split(ExportToCsv(data).value, '\n');
      && |lines| == |data| + 1
      && lines[0] == Join(Keys(data[0]), ",")
      && forall k :: 0 <= k < |data| ==> lines[k + 1] == CsvLine(data[k], Keys(data[0]))
  {
    CsvLinesUnbroken(data);
    SplitJoin(CsvLines(data), '\n');
  }

  /** A text cell holding ',' is quoted; one without ',' or '"' is not. */
  lemma CsvQuotingExamples()
    ensures CsvCell(Text("a,b")) == "\"a,b\""
    ensures CsvCell(Text("plain")) == "plain"
  {
    assert ',' in "a,b";
    assert DoubleQuotes("b") == "b";
    assert DoubleQuotes(",b") == "," + DoubleQuotes("b");
    assert DoubleQuotes("a,b") == "a" + DoubleQuotes(",b");
    assert ',' !in "plain" && '"' !in "plain";
  }

  /** Truthy numbers and booleans print unquoted; falsy ones print as ''. */
  lemma CsvScalarExamples()
    ensures CsvCell(Number(7)) == "7"
    ensures CsvCell(Number(-12)) == "-12"
    ensures CsvCell(Bool(true)) == "true"
    ensures CsvCell(Number(0)) == ""
    ensures CsvCell(Bool(false)) == ""
    ensures CsvCell(Null) == ""
  {
  }

  // ---------------------------------------------------------------------
  // sortByKey

  /** What the comparator compares: lower-cased strings, or numbers. */
  datatype SortKey = NumKey(n: int) | TextKey(s: string)

  /** The column holds no strings (numbers, booleans, null/undefined). */
  predicate NumericColumn(rows: seq<Row>, key: string) {
    forall i :: 0 <= i < |rows| ==> !Get(rows[i], key).Text?
  }

  /** The column holds only strings and null/undefined. */
  predicate TextColumn(rows: seq<Row>, key: string) {
    forall i :: 0 <= i < |rows| ==> Get(rows[i], key).Text? || Get(rows[i], key).Null?
  }

  /** The value the comparator sees. null/undefined becomes '', which a
      numeric comparison reads as 0; strings are lower-cased; booleans
      compare as 0 and 1. */
  function KeyOf(f: Field, numeric: bool): SortKey {
    match f
    case Text(s) => TextKey(Lower(s))
    case Number(n) => NumKey(n)
    case Bool(b) => NumKey(if b then 1 else 0)
    case Null => if numeric then NumKey(0) else TextKey("")
  }

  /** a <= b for the comparator: not (a > b). Numbers and strings never meet
      in one column; the order between them is fixed arbitrarily. */
  predicate KeyLe(a: SortKey, b: SortKey) {
    match (a, b)
    case (NumKey(x), NumKey(y)) => x <= y
    case (TextKey(s), TextKey(t)) => LexLe(s, t)
    case (NumKey(_), TextKey(_)) => true
    case (TextKey(_), NumKey(_)) => false
  }

  lemma KeyLeTotalPreorder()
    ensures forall a, b :: KeyLe(a, b) || KeyLe(b, a)
    ensures forall a, b, c :: KeyLe(a, b) && KeyLe(b, c) ==> KeyLe(a, c)
  {
    forall a, b ensures KeyLe(a, b) || KeyLe(b, a) {
      if a.TextKey? && b.TextKey? {
        LexLeTotal(a.s, b.s);
      }
    }
    forall a, b, c | KeyLe(a, b) && KeyLe(b, c) ensures KeyLe(a, c) {
      if a.TextKey? && b.TextKey? && c.TextKey? {
        LexLeTransitive(a.s, b.s, c.s);
      }
    }
  }

  /** The order sortByKey puts rows in: ascending when direction is 'asc',
      descending for any other direction. */
  function RowLe(key: string, numeric: bool, ascending: bool): (Row, Row) -> bool {
    (x: Row, y: Row) =>
      if ascending then KeyLe(KeyOf(Get(x, key), numeric), KeyOf(Get(y, key), numeric))
      else KeyLe(KeyOf(Get(y, key), numeric), KeyOf(Get(x, key), numeric))
  }

  lemma RowLeTotalPreorder(key: string, numeric: bool, ascending: bool)
    ensures TotalPreorder(RowLe(key, numeric, ascending))
  {
    KeyLeTotalPreorder();
  }

  /** sortByKey: sorts a copy of rows (the argument is a value, so the
      caller's array is untouched). The comparator is a consistent order
      only when the column does not mix strings with numbers. */
  method SortByKey(rows: seq<Row>, key: string, direction: string) returns (r: seq<Row>)
    requires NumericColumn(rows, key) || TextColumn(rows, key)
    ensures multiset(r) == multiset(rows)
    ensures Sorted(r, RowLe(key, NumericColumn(rows, key), direction == "asc"))
  {
    var numeric := NumericColumn(rows, key);
    RowLeTotalPreorder(key, numeric, direction == "asc");
    r := SortedCopy(rows, RowLe(key, numeric, direction == "asc"));
  }

  // ---------------------------------------------------------------------
  // filterBySearch

  /** Some listed field holds a truthy value whose lower-cased text contains term. */
  predicate MatchesSearch(row: Row, term: string, fields: seq<string>) {
    exists k :: 0 <= k < |fields| && Truthy(Get(row, fields[k])) &&
      Contains(Lower(Display(Get(row, fields[k]))), term)
  }

  /** filterBySearch: an empty term keeps everything; otherwise the rows
      matching the lower-cased term, in their original order. */
  function FilterBySearch(rows: seq<Row>, searchTerm: string, fields: seq<string>): (r: seq<Row>)
    ensures searchTerm == "" ==> r == rows
    ensures Subseq(r, rows)
    ensures searchTerm != "" ==>
      forall i :: 0 <= i < |r| ==> MatchesSearch(r[i], Lower(searchTerm), fields)
    ensures searchTerm != "" ==>
      forall i :: 0 <= i < |rows| && MatchesSearch(rows[i], Lower(searchTerm), fields) ==> rows[i] in r
    ensures searchTerm != "" ==> forall x ::
      multiset(r)[x] == if MatchesSearch(x, Lower(searchTerm), fields) then multiset(rows)[x] else 0
  {
    if searchTerm == "" then
      SubseqRefl(rows);
      rows
    else
      var term := Lower(searchTerm);
      var p := (row: Row) => MatchesSearch(row, term, fields);
      FilterSubseq(rows, p);
      FilterMultiset(rows, p);
      Filter(rows, p)
  }
}
