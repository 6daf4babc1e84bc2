/**
  The text that downloadAsCSV of client/src/lib/utils.ts builds: a header of
  the first row's keys joined by ',' (unquoted), a newline, then one line per
  row with every cell in double quotes, inner quotes doubled, lines joined by
  a newline (no newline after the last). Nothing is built for empty data.

  A parser for exactly that layout is the partner: parsing the text gives
  back the keys and every row's cell texts.
 */
module Csv {
  import opened Wrappers
  import opened Text

  /** A property value: null, undefined, or a value whose `toString()` is `text`. */
  datatype Value = Null | Undefined | Shown(text: string)

  /** A plain object: its own enumerable properties in `Object.keys` order. */
  type Row = seq<(string, Value)>

  function Keys(row: Row): (keys: seq<string>)
    ensures |keys| == |row|
    ensures forall i :: 0 <= i < |row| ==> keys[i] == row[i].0
  {
    if row == [] then [] else [row[0].0] + Keys(row[1..])
  }

  /** `row[key]`: the value stored under `key`, undefined when there is none. */
  function Get(row: Row, key: string): (v: Value)
    ensures (forall i :: 0 <= i < |row| ==> row[i].0 != key) ==> v == Undefined
    ensures forall i :: 0 <= i < |row| && row[i].0 == key && (forall j :: 0 <= j < i ==> row[j].0 != key) ==>
      v == row[i].1
  {
    if row == [] then Undefined
    else if row[0].0 == key then row[0].1
    else Get(row[1..], key)
  }

  /** `row[f] != null ? row[f].toString() : ''` */
  function CellText(v: Value): string
  {
    if v.Shown? then v.text else ""
  }

  /** `cell.replace(/"/g, '""')` */
  function Escape(s: string): string
  {
    if s == [] then "" else (if s[0] == '"' then "\"\"" else [s[0]]) + Escape(s[1..])
  }

  function Quote(s: string): (q: string)
    ensures |q| == |Escape(s)| + 2 && q[0] == '"' && q[|q| - 1] == '"'
  {
    "\"" + Escape(s) + "\""
  }

  function QuoteAll(cells: seq<string>): (quoted: seq<string>)
    ensures |quoted| == |cells|
    ensures forall i :: 0 <= i < |cells| ==> quoted[i] == Quote(cells[i])
  {
    if cells == [] then [] else [Quote(cells[0])] + QuoteAll(cells[1..])
  }

  /** The cell texts of one row, in header order. */
  function RowCells(row: Row, headers: seq<string>): (cells: seq<string>)
    ensures |cells| == |headers|
    ensures forall j :: 0 <= j < |headers| ==> cells[j] == CellText(Get(row, headers[j]))
  {
    if headers == [] then [] else [CellText(Get(row, headers[0]))] + RowCells(row, headers[1..])
  }

  /** The cell texts of every row, under the first row's keys. */
  function Table(data: seq<Row>, headers: seq<string>): (table: seq<seq<string>>)
    ensures |table| == |data|
    ensures forall i :: 0 <= i < |data| ==> table[i] == RowCells(data[i], headers)
  {
    if data == [] then [] else [RowCells(data[0], headers)] + Table(data[1..], headers)
  }

  function RowLines(table: seq<seq<string>>): (lines: seq<string>)
    ensures |lines| == |table|
    ensures forall i :: 0 <= i < |table| ==> lines[i] == Join(QuoteAll(table[i]), ',')
  {
    if table == [] then [] else [Join(QuoteAll(table[0]), ',')] + RowLines(table[1..])
  }

  function CsvContent(data: seq<Row>): (content: Option<string>)
    ensures content.None? <==> data == []
  {
    if |data| == 0 then None
    else
      var headers := Keys(data[0]);
      Some(Join(headers, ',') + "\n" + Join(RowLines(Table(data, headers)), '\n'))
  }

  // ---------------------------------------------------------------------
  // The reading side
  // ---------------------------------------------------------------------

  /** Reads a quoted cell after its opening quote: `""` stands for one quote
      and a lone quote closes the cell. Gives the text and what follows. */
  function Unescape(s: string): (r: Option<(string, string)>)
    ensures r.Some? ==> |r.value.1| < |s|
  {
    if s == [] then None
    else if s[0] == '"' then
      if |s| > 1 && s[1] == '"' then
        match Unescape(s[2..])
        case None => None
        case Some(p) => Some(("\"" + p.0, p.1))
      else Some(("", s[1..]))
    else
      match Unescape(s[1..])
      case None => None
      case Some(p) => Some(([s[0]] + p.0, p.1))
  }

  function ParseCell(s: string): (r: Option<(string, string)>)
    ensures r.Some? ==> |r.value.1| < |s|
  {
    if s != [] && s[0] == '"' then Unescape(s[1..]) else None
  }

  /** One or more quoted cells separated by ','. */
  function ParseCells(s: string): (r: Option<(seq<string>, string)>)
    ensures r.Some? ==> |r.value.1| < |s|
    decreases |s|
  {
    match ParseCell(s)
    case None => None
    case Some(p) =>
      if p.1 != [] && p.1[0] == ',' then
        match ParseCells(p.1[1..])
        case None => None
        case Some(q) => Some(([p.0] + q.0, q.1))
      else Some(([p.0], p.1))
  }

  /** Lines of cells separated by a newline, to the end of the text. */
  function ParseRows(s: string): Option<seq<seq<string>>>
    decreases |s|
  {
    match ParseCells(s)
    case None => None
    case Some(p) =>
      if p.1 == [] then Some([p.0])
      else if p.1[0] == '\n' then
        match ParseRows(p.1[1..])
        case None => None
        case Some(rows) => Some([p.0] + rows)
      else None
  }

  /** The text up to the first newline, and what follows it. */
  function FirstLine(s: string): Option<(string, string)>
  {
    if s == [] then None
    else if s[0] == '\n' then Some(("", s[1..]))
    else
      match FirstLine(s[1..])
      case None => None
      case Some(p) => Some(([s[0]] + p.0, p.1))
  }

  /** The header names and the table of cell texts. */
  function ParseCsv(s: string): Option<(seq<string>, seq<seq<string>>)>
  {
    match FirstLine(s)
    case None => None
    case Some(p) =>
      match ParseRows(p.1)
      case None => None
      case Some(rows) => Some((Split(p.0, ','), rows))
  }

  // ---------------------------------------------------------------------
  // Round trips
  // ---------------------------------------------------------------------

  /** Unquoting recovers the cell, and stops right after its closing quote. */
  lemma {:induction false} UnescapeEscape(c: string, rest: string)
    requires rest == [] || rest[0] != '"'
    ensures Unescape(Escape(c) + "\"" + rest) == Some((c, rest))
  {
    if c == [] {
      assert Escape(c) + "\"" + rest == "\"" + rest;
    } else {
      UnescapeEscape(c[1..], rest);
      var tail := Escape(c[1..]) + "\"" + rest;
      if c[0] == '"' {
        assert Escape(c) + "\"" + rest == "\"\"" + tail;
        assert ("\"\"" + tail)[2..] == tail;
      } else {
        assert Escape(c) + "\"" + rest == [c[0]] + tail;
        assert ([c[0]] + tail)[1..] == tail;
      }
      assert [c[0]] + c[1..] == c;
    }
  }

  lemma ParseQuote(c: string, rest: string)
    requires rest == [] || rest[0] != '"'
    ensures ParseCell(Quote(c) + rest) == Some((c, rest))
  {
    UnescapeEscape(c, rest);
    assert (Quote(c) + rest)[1..] == Escape(c) + "\"" + rest;
  }

  /** The first piece, the separator, then the rest joined, then whatever follows. */
  lemma JoinConsRest(parts: seq<string>, sep: char, rest: string)
    requires |parts| > 1
    ensures Join(parts, sep) + rest == parts[0] + ([sep] + (Join(parts[1..], sep) + rest))
  {
  }

  /** A quoted cell followed by ',' continues with the cells after the comma. */
  lemma ParseCellsStep(c: string, more: string, cells: seq<string>, rest: string)
    requires ParseCells(more) == Some((cells, rest))
    ensures ParseCells(Quote(c) + ([','] + more)) == Some(([c] + cells, rest))
  {
    ParseQuote(c, [','] + more);
    assert ([','] + more)[1..] == more;
  }

  lemma {:induction false} ParseJoinedCells(cells: seq<string>, rest: string)
    requires |cells| > 0
    requires rest == [] || (rest[0] != ',' && rest[0] != '"')
    ensures ParseCells(Join(QuoteAll(cells), ',') + rest) == Some((cells, rest))
  {
    var q := QuoteAll(cells);
    if |cells| == 1 {
      assert Join(q, ',') == Quote(cells[0]);
      ParseQuote(cells[0], rest);
      assert [cells[0]] == cells;
    } else {
      var tail := cells[1..];
      var more := Join(QuoteAll(tail), ',') + rest;
      assert q[1..] == QuoteAll(tail);
      JoinConsRest(q, ',', rest);
      ParseJoinedCells(tail, rest);
      ParseCellsStep(cells[0], more, tail, rest);
      assert [cells[0]] + tail == cells;
    }
  }

  /** A line whose cells end at a newline continues with the rows after it. */
  lemma ParseRowsStep(s: string, cells: seq<string>, more: string, rows: seq<seq<string>>)
    requires ParseCells(s) == Some((cells, ['\n'] + more))
    requires ParseRows(more) == Some(rows)
    ensures ParseRows(s) == Some([cells] + rows)
  {
    assert (['\n'] + more)[1..] == more;
  }

  lemma {:induction false} ParseJoinedRows(table: seq<seq<string>>)
    requires |table| > 0
    requires forall i :: 0 <= i < |table| ==> |table[i]| > 0
    ensures ParseRows(Join(RowLines(table), '\n')) == Some(table)
  {
    if |table| == 1 {
      ParseJoinedCells(table[0], "");
      assert Join(RowLines(table), '\n') == Join(QuoteAll(table[0]), ',') + "";
      assert [table[0]] == table;
    } else {
      var tail := table[1..];
      TailRowsNonEmpty(table);
      var more := Join(RowLines(tail), '\n');
      var s := RowLinesSplit(table);
      ParseJoinedCells(table[0], ['\n'] + more);
      ParseJoinedRows(tail);
      ParseRowsStep(s, table[0], more, tail);
      assert [table[0]] + tail == table;
    }
  }

  /** The rows after the first keep at least one cell each. */
  lemma TailRowsNonEmpty(table: seq<seq<string>>)
    requires |table| > 1
    requires forall i :: 0 <= i < |table| ==> |table[i]| > 0
    ensures forall i :: 0 <= i < |table| - 1 ==> |table[1..][i]| > 0
  {
    forall i | 0 <= i < |table| - 1 ensures |table[1..][i]| > 0 { assert table[1..][i] == table[i + 1]; }
  }

  /** The body of two or more rows is the first row's line, a newline, then
      the body of the rest. */
  lemma RowLinesSplit(table: seq<seq<string>>) returns (s: string)
    requires |table| > 1
    ensures s == Join(QuoteAll(table[0]), ',') + (['\n'] + Join(RowLines(table[1..]), '\n'))
    ensures Join(RowLines(table), '\n') == s
  {
    var lines := RowLines(table);
    assert lines[1..] == RowLines(table[1..]);
    s := lines[0] + (['\n'] + Join(RowLines(table[1..]), '\n'));
    JoinConsRest(lines, '\n', "");
  }

  lemma {:induction false} FirstLineOf(w: string, t: string)
    requires Free(w, '\n')
    ensures FirstLine(w + "\n" + t) == Some((w, t))
  {
    if w == [] {
      assert w + "\n" + t == "\n" + t;
    } else {
      assert (w + "\n" + t)[1..] == w[1..] + "\n" + t;
      assert w[0] != '\n';
      assert Free(w[1..], '\n') by {
        forall i | 0 <= i < |w[1..]| ensures w[1..][i] != '\n' { assert w[1..][i] == w[i + 1]; }
      }
      FirstLineOf(w[1..], t);
      assert [w[0]] + w[1..] == w;
    }
  }

  /** Reading the CSV back gives the first row's keys as the header and, for
      every row in order, exactly one cell per header holding that row's value
      text. Holds when there is at least one key and no key contains ',' or a
      newline (the header is not quoted). */
  lemma CsvRoundTrip(data: seq<Row>)
    requires |data| > 0
    requires |data[0]| > 0
    requires forall i :: 0 <= i < |data[0]| ==> Free(data[0][i].0, ',') && Free(data[0][i].0, '\n')
    ensures CsvContent(data).Some?
    ensures ParseCsv(CsvContent(data).value) == Some((Keys(data[0]), Table(data, Keys(data[0]))))
  {
    var headers := Keys(data[0]);
    var table := Table(data, headers);
    var header := Join(headers, ',');
    assert Free(header, '\n') by { JoinFree(headers, ',', '\n'); }
    FirstLineOf(header, Join(RowLines(table), '\n'));
    ParseJoinedRows(table);
    SplitJoin(headers, ',');
    assert CsvContent(data).value == header + "\n" + Join(RowLines(table), '\n');
  }

  lemma {:induction false} JoinFree(parts: seq<string>, sep: char, c: char)
    requires c != sep
    requires forall i :: 0 <= i < |parts| ==> Free(parts[i], c)
    ensures Free(Join(parts, sep), c)
  {
    if |parts| > 1 {
      JoinFree(parts[1..], sep, c);
      var j := Join(parts, sep);
      forall i | 0 <= i < |j| ensures j[i] != c {
        if i < |parts[0]| { assert j[i] == parts[0][i]; }
        else if i > |parts[0]| { assert j[i] == Join(parts[1..], sep)[i - |parts[0]| - 1]; }
      }
    }
  }

  /** Empty data produces no text at all. */
  lemma CsvOfNothing()
    ensures CsvContent([]) == None
  {
  }

  /** The text never ends in a newline: its last character closes the last
      row's last quoted cell. */
  lemma CsvEndsWithQuote(data: seq<Row>)
    requires |data| > 0 && |data[0]| > 0
    ensures var s := CsvContent(data).value; |s| > 0 && s[|s| - 1] == '"'
  {
    var headers := Keys(data[0]);
    var body := Join(RowLines(Table(data, headers)), '\n');
    LinesEndWithQuote(Table(data, headers));
    var s := Join(headers, ',') + "\n" + body;
    assert s[|s| - 1] == body[|body| - 1];
  }

  lemma LinesEndWithQuote(table: seq<seq<string>>)
    requires |table| > 0 && |table[|table| - 1]| > 0
    ensures var body := Join(RowLines(table), '\n'); |body| > 0 && body[|body| - 1] == '"'
  {
    var lines := RowLines(table);
    LineEndsWithQuote(table[|table| - 1]);
    assert lines[|lines| - 1] == Join(QuoteAll(table[|table| - 1]), ',');
    JoinLast(lines, '\n');
  }

  /** A non-empty row's line ends with the closing quote of its last cell. */
  lemma LineEndsWithQuote(cells: seq<string>)
    requires |cells| > 0
    ensures var line := Join(QuoteAll(cells), ','); |line| > 0 && line[|line| - 1] == '"'
  {
    var q := QuoteAll(cells);
    var last := Quote(cells[|cells| - 1]);
    assert q[|q| - 1] == last;
    QuoteEnds(cells[|cells| - 1]);
    JoinLast(q, ',');
    var line := Join(q, ',');
    assert |line| >= |last| && line[|line| - 1] == last[|last| - 1];
  }

  lemma QuoteEnds(c: string)
    ensures |Quote(c)| > 0 && Quote(c)[|Quote(c)| - 1] == '"'
  {
  }

  lemma {:induction false} JoinLast(parts: seq<string>, sep: char)
    requires |parts| > 0 && |parts[|parts| - 1]| > 0
    ensures var j := Join(parts, sep); var last := parts[|parts| - 1];
      |j| >= |last| && j[|j| - 1] == last[|last| - 1]
  {
    if |parts| > 1 {
      JoinLast(parts[1..], sep);
    }
  }
}
