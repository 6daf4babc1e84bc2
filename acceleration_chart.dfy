/**
  The modelled parts of client/src/components/AccelerationChart.tsx: the
  per-axis visibility record and its toggle, and the CSV text that
  handleDownloadData folds out of the history. `num` stands for JavaScript's
  number-to-string conversion inside the template literal.
 */
module AccelerationChart {
  import opened Text
  import opened Acceleration

  datatype Axis = X | Y | Z

  datatype Visibility = Visibility(x: bool, y: bool, z: bool)

  function Visible(v: Visibility, axis: Axis): bool
  {
    match axis
    case X => v.x
    case Y => v.y
    case Z => v.z
  }

  /** The initial `visibleAxes`: every axis shown. */
  function InitialVisibility(): (v: Visibility)
    ensures forall axis :: Visible(v, axis)
  {
    Visibility(true, true, true)
  }

  /** handleToggleAxis: `{...prev, [axis]: !prev[axis]}`. */
  function ToggleAxis(v: Visibility, axis: Axis): (r: Visibility)
    ensures Visible(r, axis) == !Visible(v, axis)
    ensures forall other :: other != axis ==> Visible(r, other) == Visible(v, other)
  {
    match axis
    case X => v.(x := !v.x)
    case Y => v.(y := !v.y)
    case Z => v.(z := !v.z)
  }

  /** Toggling the same axis twice gives back the original visibility. */
  lemma ToggleTwice(v: Visibility, axis: Axis)
    ensures ToggleAxis(ToggleAxis(v, axis), axis) == v
  {
  }

  const HeaderText: string := "timestamp,x-axis,y-axis,z-axis"
  const Header: string := HeaderText + "\n"

  /** One data line without its newline: `${t},${x},${y},${z}`. */
  function RowText(s: Sample, num: real -> string): (line: string)
    ensures |line| == |num(s.timestamp)| + |num(s.x)| + |num(s.y)| + |num(s.z)| + 3
  {
    num(s.timestamp) + "," + num(s.x) + "," + num(s.y) + "," + num(s.z)
  }

  /** `data.reduce((acc, row) => acc + `...\n`, headers)`: a left fold. */
  function ChartCsv(data: seq<Sample>, num: real -> string): (csv: string)
    ensures |csv| > 0 && csv[|csv| - 1] == '\n'
  {
    if data == [] then Header
    else ChartCsv(data[..|data| - 1], num) + RowText(data[|data| - 1], num) + "\n"
  }

  /** The header line, then one line per sample in input order. */
  function ChartLines(data: seq<Sample>, num: real -> string): (lines: seq<string>)
    ensures |lines| == |data| + 1 && lines[0] == HeaderText
    ensures forall i :: 0 <= i < |data| ==> lines[i + 1] == RowText(data[i], num)
  {
    if data == [] then [HeaderText]
    else ChartLines(data[..|data| - 1], num) + [RowText(data[|data| - 1], num)]
  }

  /** Empty data gives exactly the header. */
  lemma ChartCsvEmpty(num: real -> string)
    ensures ChartCsv([], num) == "timestamp,x-axis,y-axis,z-axis\n"
  {
  }

  /** The text always begins with the header line. */
  lemma {:induction false} ChartCsvStartsWithHeader(data: seq<Sample>, num: real -> string)
    ensures |ChartCsv(data, num)| >= |Header|
    ensures ChartCsv(data, num)[..|Header|] == Header
  {
    if data != [] {
      ChartCsvStartsWithHeader(data[..|data| - 1], num);
    }
  }

  /** The fold is the lines joined by newlines, with a final newline. */
  lemma {:induction false} ChartCsvIsLines(data: seq<Sample>, num: real -> string)
    ensures ChartCsv(data, num) == Join(ChartLines(data, num), '\n') + "\n"
  {
    if data != [] {
      var init := data[..|data| - 1];
      var row := RowText(data[|data| - 1], num);
      var lines := ChartLines(init, num);
      ChartCsvIsLines(init, num);
      JoinAppend(lines, '\n', row);
      assert ChartLines(data, num) == lines + [row];
    }
  }

  predicate PlainNumber(s: string)
  {
    Free(s, '\n') && Free(s, ',')
  }

  lemma RowTextFree(s: Sample, num: real -> string)
    requires forall r :: PlainNumber(num(r))
    ensures Free(RowText(s, num), '\n')
  {
    var t := RowText(s, num);
    assert PlainNumber(num(s.timestamp)) && PlainNumber(num(s.x));
    assert PlainNumber(num(s.y)) && PlainNumber(num(s.z));
  }

  /** When printed numbers hold no ',' or newline (JavaScript's never do),
      splitting the text at newlines gives the header, then one line per
      sample in input order, then the empty piece after the final newline. */
  lemma ChartCsvSplits(data: seq<Sample>, num: real -> string)
    requires forall r :: PlainNumber(num(r))
    ensures Split(ChartCsv(data, num), '\n') == ChartLines(data, num) + [""]
  {
    ChartCsvIsLines(data, num);
    var parts := ChartLines(data, num) + [""];
    JoinAppend(ChartLines(data, num), '\n', "");
    assert Join(parts, '\n') == ChartCsv(data, num);
    forall i | 0 <= i < |parts| ensures Free(parts[i], '\n') {
      if 0 < i < |parts| - 1 {
        RowTextFree(data[i - 1], num);
      }
    }
    SplitJoin(parts, '\n');
  }

  /** Each data line has four fields: timestamp, x, y, z, in that order. */
  lemma RowTextFields(s: Sample, num: real -> string)
    requires forall r :: PlainNumber(num(r))
    ensures Split(RowText(s, num), ',') == [num(s.timestamp), num(s.x), num(s.y), num(s.z)]
  {
    var fields := [num(s.timestamp), num(s.x), num(s.y), num(s.z)];
    assert PlainNumber(num(s.timestamp)) && PlainNumber(num(s.x));
    assert PlainNumber(num(s.y)) && PlainNumber(num(s.z));
    assert Join(fields[3..], ',') == num(s.z);
    assert Join(fields[2..], ',') == num(s.y) + "," + num(s.z);
    assert Join(fields[1..], ',') == num(s.x) + "," + num(s.y) + "," + num(s.z);
    assert Join(fields, ',') == RowText(s, num);
    SplitJoin(fields, ',');
  }
}
