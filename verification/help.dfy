/** Help rendering: one row of cells per descriptor, every column padded to
    its widest cell, and each row joined into a line. */
module Help {
  import opened Args
  import opened Coercion

  /** `padEnd`: `s` followed by spaces up to `width` characters. */
  function PadEnd(s: string, width: nat): (r: string)
    ensures |r| == if width > |s| then width else |s|
    ensures r[..|s|] == s
    ensures forall k :: |s| <= k < |r| ==> r[k] == ' '
  {
    if width > |s| then s + seq(width - |s|, _ => ' ') else s
  }

  /** The length of the longest cell in column `c`. */
  function ColumnWidth(rows: seq<seq<string>>, c: nat): (w: nat)
    requires |rows| > 0
    requires forall r :: 0 <= r < |rows| ==> c < |rows[r]|
    ensures forall r :: 0 <= r < |rows| ==> |rows[r][c]| <= w
    ensures exists r :: 0 <= r < |rows| && |rows[r][c]| == w
    decreases |rows|
  {
    if |rows| == 1 then |rows[0][c]|
    else
      var w0 := ColumnWidth(rows[..|rows| - 1], c);
      var last := |rows[|rows| - 1][c]|;
      if w0 >= last then w0 else last
  }

  /** Rows `alignColumns_` can handle: at least one row, and none shorter
      than the first, whose length fixes the number of columns. */
  predicate Alignable(rows: seq<seq<string>>) {
    |rows| > 0 && forall r :: 0 <= r < |rows| ==> |rows[r]| >= |rows[0]|
  }

  /** alignColumns_: pad every cell in the first `|rows[0]|` columns to the
      width of its column; cells beyond those columns are left as they are. */
  function AlignColumns(rows: seq<seq<string>>): (out: seq<seq<string>>)
    requires Alignable(rows)
    ensures |out| == |rows|
    ensures forall r :: 0 <= r < |rows| ==> |out[r]| == |rows[r]|
    ensures forall r, c :: 0 <= r < |rows| && 0 <= c < |rows[0]| ==>
      && |out[r][c]| == ColumnWidth(rows, c)
      && out[r][c][..|rows[r][c]|] == rows[r][c]
      && (forall k :: |rows[r][c]| <= k < |out[r][c]| ==> out[r][c][k] == ' ')
    ensures forall r, c :: 0 <= r < |rows| && |rows[0]| <= c < |rows[r]| ==> out[r][c] == rows[r][c]
  {
    seq(|rows|, r requires 0 <= r < |rows| =>
      seq(|rows[r]|, c requires 0 <= c < |rows[r]| =>
        if c < |rows[0]| then PadEnd(rows[r][c], ColumnWidth(rows, c)) else rows[r][c]))
  }

  /** Aligning an aligned table changes nothing. */
  lemma AlignIdempotent(rows: seq<seq<string>>)
    requires Alignable(rows)
    ensures Alignable(AlignColumns(rows))
    ensures AlignColumns(AlignColumns(rows)) == AlignColumns(rows)
  {
    var out := AlignColumns(rows);
    var again := AlignColumns(out);
    forall c | 0 <= c < |rows[0]|
      ensures ColumnWidth(out, c) == ColumnWidth(rows, c)
    {
      var r :| 0 <= r < |out| && |out[r][c]| == ColumnWidth(out, c);
    }
    forall r | 0 <= r < |rows|
      ensures again[r] == out[r]
    {
      forall c | 0 <= c < |out[r]|
        ensures again[r][c] == out[r][c]
      {
        if c < |rows[0]| {
          var w := ColumnWidth(rows, c);
          assert again[r][c][..|out[r][c]|] == out[r][c];
        }
      }
    }
  }

  /** Where part `c` begins in `Join(parts, sep)`: after every earlier part
      and one separator each. */
  function PartStart(parts: seq<string>, sep: string, c: nat): (at: nat)
    requires c <= |parts|
    decreases c
  {
    if c == 0 then 0 else PartStart(parts, sep, c - 1) + |parts[c - 1]| + |sep|
  }

  /** A part's offset depends only on the parts before it. */
  lemma {:induction false} PartStartOfPrefix(parts: seq<string>, sep: string, k: nat, c: nat)
    requires c <= k <= |parts|
    ensures PartStart(parts[..k], sep, c) == PartStart(parts, sep, c)
    decreases c
  {
    if c > 0 {
      PartStartOfPrefix(parts, sep, k, c - 1);
      assert parts[..k][c - 1] == parts[c - 1];
    }
  }

  /** Parts of the same lengths, position by position, begin at the same offsets. */
  lemma {:induction false} PartStartPointwise(x: seq<string>, y: seq<string>, sep: string, c: nat)
    requires |x| == |y| && c <= |x|
    requires forall k :: 0 <= k < |x| ==> |x[k]| == |y[k]|
    ensures PartStart(x, sep, c) == PartStart(y, sep, c)
    decreases c
  {
    if c > 0 {
      PartStartPointwise(x, y, sep, c - 1);
    }
  }

  /** `parts.join(sep)`: the join ends where its last part does. */
  function Join(parts: seq<string>, sep: string): (r: string)
    ensures |parts| == 0 ==> r == ""
    ensures |parts| > 0 ==> |r| == PartStart(parts, sep, |parts| - 1) + |parts[|parts| - 1]|
    decreases |parts|
  {
    if |parts| == 0 then ""
    else if |parts| == 1 then parts[0]
    else
      var pre := parts[..|parts| - 1];
      PartStartOfPrefix(parts, sep, |parts| - 1, |parts| - 2);
      Join(pre, sep) + sep + parts[|parts| - 1]
  }

  /** A join of two or more parts is the join of all but the last, the
      separator, and the last part. */
  lemma JoinSnoc(parts: seq<string>, sep: string)
    requires |parts| > 1
    ensures var j := Join(parts[..|parts| - 1], sep);
            var line := Join(parts, sep);
            && |line| == |j| + |sep| + |parts[|parts| - 1]|
            && line[..|j|] == j
            && line[|j|..|j| + |sep|] == sep
            && line[|j| + |sep|..] == parts[|parts| - 1]
            && |j| == PartStart(parts, sep, |parts| - 2) + |parts[|parts| - 2]|
  {
    PartStartOfPrefix(parts, sep, |parts| - 1, |parts| - 2);
  }

  /** Part `c` of a join sits at its offset and is followed by the
      separator, or ends the join when it is the last part. */
  lemma {:induction false} JoinPlacesPart(parts: seq<string>, sep: string, c: nat)
    requires c < |parts|
    ensures var line := Join(parts, sep);
            var at := PartStart(parts, sep, c);
            && at + |parts[c]| <= |line|
            && line[at..at + |parts[c]|] == parts[c]
            && (c + 1 < |parts| ==>
                  at + |parts[c]| + |sep| <= |line| && line[at + |parts[c]|..at + |parts[c]| + |sep|] == sep)
            && (c + 1 == |parts| ==> |line| == at + |parts[c]|)
    decreases |parts|
  {
    var n := |parts|;
    if n > 1 {
      var pre := parts[..n - 1];
      var j := Join(pre, sep);
      var line := Join(parts, sep);
      var at := PartStart(parts, sep, c);
      var p := parts[c];
      JoinSnoc(parts, sep);
      if c < n - 1 {
        JoinPlacesPart(pre, sep, c);
        PartStartOfPrefix(parts, sep, n - 1, c);
        assert pre[c] == p;
        assert line[at..at + |p|] == line[..|j|][at..at + |p|];
        if c + 1 < n - 1 {
          assert line[at + |p|..at + |p| + |sep|] == line[..|j|][at + |p|..at + |p| + |sep|];
        }
      } else {
        assert at == |j| + |sep|;
      }
    }
  }

  /** Parts of the same lengths, position by position, join into strings
      of the same length. */
  lemma SameWidthsSameLength(x: seq<string>, y: seq<string>, sep: string)
    requires |x| == |y|
    requires forall k :: 0 <= k < |x| ==> |x[k]| == |y[k]|
    ensures |Join(x, sep)| == |Join(y, sep)|
  {
    if |x| > 0 {
      PartStartPointwise(x, y, sep, |x| - 1);
    }
  }

  /** A join of two or more parts begins with the first part and a separator. */
  lemma JoinStartsWithFirst(parts: seq<string>, sep: string)
    requires |parts| > 1
    ensures |parts[0]| + |sep| <= |Join(parts, sep)|
    ensures Join(parts, sep)[..|parts[0]| + |sep|] == parts[0] + sep
  {
    var line := Join(parts, sep);
    JoinPlacesPart(parts, sep, 0);
    assert line[..|parts[0]| + |sep|] == line[0..|parts[0]|] + line[|parts[0]|..|parts[0]| + |sep|];
  }

  /** The arity-and-type label of the help table: a row per known type,
      indexed by the `values` count. */
  function ValueCountHelp(typeName: string, values: Arity): (caption: string)
    requires typeName in KnownTypes
    ensures caption == "no values" <==> values == Zero
    ensures values == Single ==> caption == "single " + typeName
    ensures values == Multi ==> caption == "multiple " + typeName + "s"
  {
    var labels :=
      if typeName == "int" then ["no values", "single int", "multiple ints"]
      else if typeName == "bool" then ["no values", "single bool", "multiple bools"]
      else ["no values", "single string", "multiple strings"];
    match values
    case Zero => labels[0]
    case Single => labels[1]
    case Multi => labels[2]
  }

  /** Schemas `printHelp_` can render: at least one descriptor (otherwise
      `alignColumns_` has no first row), and every type one the label table
      knows (otherwise the label lookup fails). */
  predicate Renderable(schema: seq<Descriptor>) {
    |schema| > 0 && forall i :: 0 <= i < |schema| ==> schema[i].typeName in KnownTypes
  }

  /** The five cells of a descriptor's help row: an empty indent, the
      example, the aliases joined by `|`, the label and the explanation. */
  function HelpRow(d: Descriptor): (cells: seq<string>)
    requires d.typeName in KnownTypes
    ensures |cells| == 5
  {
    ["", d.example, Join(d.names, "|"), ValueCountHelp(d.typeName, d.values), d.explanation]
  }

  function HelpRows(schema: seq<Descriptor>): (rows: seq<seq<string>>)
    requires Renderable(schema)
    ensures |rows| == |schema| && Alignable(rows) && |rows[0]| == 5
    ensures forall i :: 0 <= i < |schema| ==> |rows[i]| == 5
    ensures forall i :: 0 <= i < |schema| ==> rows[i] == HelpRow(schema[i])
  {
    seq(|schema|, i requires 0 <= i < |schema| => HelpRow(schema[i]))
  }

  const CellSeparator := "    "

  /** Where column `c` begins in every aligned line: after the widths of
      the earlier columns and one separator each. */
  function ColumnStart(rows: seq<seq<string>>, c: nat): (at: nat)
    requires Alignable(rows) && c <= |rows[0]|
    decreases c
  {
    if c == 0 then 0 else ColumnStart(rows, c - 1) + ColumnWidth(rows, c - 1) + |CellSeparator|
  }

  /** An aligned cell is the original cell padded with spaces to its
      column's width. */
  lemma PaddedCell(rows: seq<seq<string>>, r: nat, c: nat)
    requires Alignable(rows) && r < |rows| && c < |rows[0]|
    ensures var padded := AlignColumns(rows)[r][c];
            var cell := rows[r][c];
            && |padded| == ColumnWidth(rows, c)
            && |cell| <= |padded|
            && padded[..|cell|] == cell
            && (forall k :: |cell| <= k < |padded| ==> padded[k] == ' ')
  {
  }

  /** A row whose first `c` cells have their columns' widths has its cell
      `c` at the column's offset. */
  lemma {:induction false} StartFromWidths(rows: seq<seq<string>>, row: seq<string>, c: nat)
    requires Alignable(rows) && c <= |rows[0]| && c <= |row|
    requires forall k :: 0 <= k < c ==> |row[k]| == ColumnWidth(rows, k)
    ensures PartStart(row, CellSeparator, c) == ColumnStart(rows, c)
    decreases c
  {
    if c > 0 {
      StartFromWidths(rows, row, c - 1);
    }
  }

  /** Every aligned row's cell `c` begins at its column's offset. */
  lemma AlignedCellStart(rows: seq<seq<string>>, r: nat, c: nat)
    requires Alignable(rows) && r < |rows| && c <= |rows[0]|
    ensures PartStart(AlignColumns(rows)[r], CellSeparator, c) == ColumnStart(rows, c)
  {
    var row := AlignColumns(rows)[r];
    forall k | 0 <= k < c
      ensures |row[k]| == ColumnWidth(rows, k)
    {
      PaddedCell(rows, r, k);
    }
    StartFromWidths(rows, row, c);
  }

  /** The help lines for a schema: every descriptor's row, aligned, with its
      cells joined by four spaces. */
  function HelpLines(schema: seq<Descriptor>): (lines: seq<string>)
    requires Renderable(schema)
    ensures |lines| == |schema|
    ensures forall a, b :: 0 <= a < |lines| && 0 <= b < |lines| ==> |lines[a]| == |lines[b]|
  {
    var rows := HelpRows(schema);
    var aligned := AlignColumns(rows);
    var lines := seq(|aligned|, r requires 0 <= r < |aligned| => Join(aligned[r], CellSeparator));
    forall a, b | 0 <= a < |lines| && 0 <= b < |lines|
      ensures |lines[a]| == |lines[b]|
    {
      forall k | 0 <= k < 5
        ensures |aligned[a][k]| == |aligned[b][k]|
      {
        PaddedCell(rows, a, k);
        PaddedCell(rows, b, k);
      }
      SameWidthsSameLength(aligned[a], aligned[b], CellSeparator);
    }
    lines
  }

  /** `line` holds `cell` at offset `at`, padded with spaces to `width`
      characters, and then either `sep` or, for the last cell, the end of
      the line. */
  predicate CellAt(line: string, at: nat, width: nat, cell: string, sep: string, last: bool) {
    && |cell| <= width && at + width <= |line|
    && line[at..at + |cell|] == cell
    && (forall k :: at + |cell| <= k < at + width ==> line[k] == ' ')
    && (!last ==> at + width + |sep| <= |line| && line[at + width..at + width + |sep|] == sep)
    && (last ==> |line| == at + width)
  }

  /** A cell padded with spaces, once joined, sits at its part's offset. */
  lemma JoinedCellLayout(parts: seq<string>, sep: string, c: nat, cell: string)
    requires c < |parts| && |cell| <= |parts[c]| && parts[c][..|cell|] == cell
    requires forall k :: |cell| <= k < |parts[c]| ==> parts[c][k] == ' '
    ensures CellAt(Join(parts, sep), PartStart(parts, sep, c), |parts[c]|, cell, sep, c + 1 == |parts|)
  {
    var line := Join(parts, sep);
    var at := PartStart(parts, sep, c);
    JoinPlacesPart(parts, sep, c);
    assert line[at..at + |cell|] == parts[c][..|cell|];
    forall k | at + |cell| <= k < at + |parts[c]|
      ensures line[k] == ' '
    {
      assert line[k] == parts[c][k - at];
    }
  }

  lemma HelpLineIsJoinedRow(schema: seq<Descriptor>, i: nat)
    requires Renderable(schema) && i < |schema|
    ensures HelpLines(schema)[i] == Join(AlignColumns(HelpRows(schema))[i], CellSeparator)
  {
  }

  /** Line `i` of the help holds descriptor `i`'s cells in order, each at its
      column's offset (the same in every line), padded with spaces to the
      column's width and followed by the separator, the last cell ending the
      line. */
  lemma HelpLineLayout(schema: seq<Descriptor>, i: nat, c: nat)
    requires Renderable(schema) && i < |schema| && c < 5
    ensures CellAt(HelpLines(schema)[i], ColumnStart(HelpRows(schema), c), ColumnWidth(HelpRows(schema), c),
                   HelpRow(schema[i])[c], CellSeparator, c == 4)
  {
    var rows := HelpRows(schema);
    var parts := AlignColumns(rows)[i];
    HelpLineIsJoinedRow(schema, i);
    AlignedCellStart(rows, i, c);
    JoinedCellLayout(parts, CellSeparator, c, rows[i][c]);
  }

  const HelpHeader := "Arguments:"

  /** The text `printHelp_` hands to the informational sink: a header line
      followed by the help lines, one per line. */
  function HelpText(schema: seq<Descriptor>): (text: string)
    requires Renderable(schema)
    ensures |HelpHeader| + 1 <= |text| && text[..|HelpHeader| + 1] == HelpHeader + "\n"
  {
    var parts := [HelpHeader] + HelpLines(schema);
    JoinStartsWithFirst(parts, "\n");
    Join(parts, "\n")
  }

  lemma HelpTextIsJoin(schema: seq<Descriptor>)
    requires Renderable(schema)
    ensures HelpText(schema) == Join([HelpHeader] + HelpLines(schema), "\n")
  {
  }

  /** Help line `i` is line `i + 1` of the help text: it follows the header
      and the earlier lines, each ended by a newline, and is itself followed
      by a newline unless it is the last line, which ends the text. */
  lemma HelpTextLayout(schema: seq<Descriptor>, i: nat)
    requires Renderable(schema) && i < |schema|
    ensures var lines := HelpLines(schema);
            CellAt(HelpText(schema), PartStart([HelpHeader] + lines, "\n", i + 1), |lines[i]|, lines[i],
                   "\n", i + 1 == |schema|)
  {
    HelpTextIsJoin(schema);
    JoinedAfterHeader(HelpHeader, HelpLines(schema), "\n", i);
  }

  /** In a join of a header and some lines, line `i` is part `i + 1`. */
  lemma JoinedAfterHeader(header: string, lines: seq<string>, sep: string, i: nat)
    requires i < |lines|
    ensures CellAt(Join([header] + lines, sep), PartStart([header] + lines, sep, i + 1), |lines[i]|, lines[i],
                   sep, i + 1 == |lines|)
  {
    var parts := [header] + lines;
    assert parts[i + 1] == lines[i];
    assert parts[i + 1][..|lines[i]|] == lines[i];
    JoinedCellLayout(parts, sep, i + 1, lines[i]);
  }
}
