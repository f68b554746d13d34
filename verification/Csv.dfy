/** http/http_conn.cpp, the CSV half of do_request: the upload parsed into samples of 64 rows of 3 cells,
and generated samples printed.  Cells are texts; `numeric` says which ones std::stof takes. */
module Csv {
  import opened CStrings

  const ROWS := 64
  const CELLS := 192

  type Cells = seq<string>

  /** The outcome of the parsing loop: the samples, or one of the error answers. */
  datatype Parsed = Samples(samples: seq<Cells>) | WrongRow | NotNumber | TooFew

  // ----- std::getline -----

  /** What successive calls of getline(stream, piece, d) deliver until one fails. */
  function Pieces(s: string, d: char): (r: seq<string>)
    ensures forall i :: 0 <= i < |r| ==> d !in r[i]
  {
    if s == "" then []
    else
      var n := Strchr(s, d);
      [s[..n]] + if n < |s| then Pieces(s[n + 1..], d) else []
  }

  function Terminated(pieces: seq<string>, d: char): string {
    if pieces == [] then "" else pieces[0] + [d] + Terminated(pieces[1..], d)
  }

  lemma StrchrAt(s: string, d: char, n: nat)
    requires n <= |s| && d !in s[..n] && (n < |s| ==> s[n] == d)
    ensures Strchr(s, d) == n
  {
    forall i | 0 <= i < n ensures s[i] != d { assert s[i] == s[..n][i]; }
  }

  lemma TerminatedCons(piece: string, pieces: seq<string>, d: char)
    ensures Terminated([piece] + pieces, d) == piece + [d] + Terminated(pieces, d)
  {
    assert ([piece] + pieces)[1..] == pieces;
  }

  lemma CutAt(s: string, n: nat, d: char)
    requires n < |s| && s[n] == d
    ensures s == s[..n] + [d] + s[n + 1..]
    ensures s + [d] == s[..n] + [d] + (s[n + 1..] + [d])
  {
  }

  /** Nothing of the text gets lost: the pieces are the text, up to one delimiter at its end. */
  lemma {:induction false} PiecesAreTheText(s: string, d: char)
    ensures Terminated(Pieces(s, d), d) == s || Terminated(Pieces(s, d), d) == s + [d]
    decreases |s|
  {
    hide Terminated;
    if s == "" {
      TerminatedNone(d);
    } else {
      var n := Strchr(s, d);
      if n < |s| {
        PiecesAreTheText(s[n + 1..], d);
        TerminatedCons(s[..n], Pieces(s[n + 1..], d), d);
        CutAt(s, n, d);
      } else {
        TerminatedCons(s[..n], [], d);
        TerminatedNone(d);
        assert s[..n] == s;
      }
    }
  }

  lemma TerminatedNone(d: char)
    ensures Terminated([], d) == ""
  {
  }

  /** A piece in front of a delimiter comes first. */
  lemma PieceFirst(piece: string, rest: string, d: char)
    requires d !in piece
    ensures Pieces(piece + [d] + rest, d) == [piece] + Pieces(rest, d)
  {
    var s := piece + [d] + rest;
    assert s[..|piece|] == piece && s[|piece| + 1..] == rest;
    StrchrAt(s, d, |piece|);
  }

  lemma OnePiece(piece: string, d: char)
    requires d !in piece && piece != ""
    ensures Pieces(piece, d) == [piece]
  {
    assert piece[..|piece|] == piece;
    StrchrAt(piece, d, |piece|);
  }

  // ----- what parsing means -----

  function NonEmpty(lines: seq<string>): seq<string> {
    if lines == [] then [] else (if lines[0] == "" then [] else [lines[0]]) + NonEmpty(lines[1..])
  }

  function Rows(text: string): seq<string> {
    NonEmpty(Pieces(text, '\n'))
  }

  function CellsOf(row: string): Cells {
    Pieces(row, ',')
  }

  predicate AllNumeric(cells: Cells, numeric: string -> bool) {
    forall i :: 0 <= i < |cells| ==> numeric(cells[i])
  }

  predicate GoodRow(row: string, numeric: string -> bool) {
    |CellsOf(row)| == 3 && AllNumeric(CellsOf(row), numeric)
  }

  function Flat(rows: seq<string>): Cells {
    if rows == [] then [] else CellsOf(rows[0]) + Flat(rows[1..])
  }

  function Concat(samples: seq<Cells>): Cells {
    if samples == [] then [] else Concat(samples[..|samples| - 1]) + samples[|samples| - 1]
  }

  /** The index of the first bad row. */
  function FirstBad(rows: seq<string>, numeric: string -> bool): (n: nat)
    ensures n <= |rows| && (forall i :: 0 <= i < n ==> GoodRow(rows[i], numeric))
    ensures n < |rows| ==> !GoodRow(rows[n], numeric)
  {
    if rows == [] || !GoodRow(rows[0], numeric) then 0 else 1 + FirstBad(rows[1..], numeric)
  }

  /** What the parsing loop is for: with three numbers in every row, all whole samples in the cells, each of
      64 rows, and the rest dropped. */
  ghost predicate Meets(text: string, numeric: string -> bool, r: Parsed) {
    var rows := Rows(text);
    var n := FirstBad(rows, numeric);
    if n < |rows| then r == if AllNumeric(CellsOf(rows[n]), numeric) then WrongRow else NotNumber
    else if |rows| < ROWS then r == TooFew
    else
      && r.Samples? && |r.samples| == |rows| / ROWS
      && (forall i :: 0 <= i < |r.samples| ==> |r.samples[i]| == CELLS)
      && Concat(r.samples) <= Flat(rows)
  }

  lemma {:induction false} FlatSnoc(rows: seq<string>, row: string)
    ensures Flat(rows + [row]) == Flat(rows) + CellsOf(row)
    decreases |rows|
  {
    if rows == [] {
      assert Flat([row]) == CellsOf(row) + [];
    } else {
      assert (rows + [row])[1..] == rows[1..] + [row];
      FlatSnoc(rows[1..], row);
    }
  }

  lemma NonEmptyCons(line: string, lines: seq<string>)
    ensures NonEmpty([line] + lines) == (if line == "" then [] else [line]) + NonEmpty(lines)
  {
    assert ([line] + lines)[1..] == lines;
  }

  lemma PiecesStep(s: string, d: char)
    requires s != ""
    ensures var n := Strchr(s, d); Pieces(s, d) == [s[..n]] + Pieces(if n < |s| then s[n + 1..] else "", d)
  {
  }

  lemma RowsStep(text: string)
    requires text != ""
    ensures var n := Strchr(text, '\n');
      Rows(text) == (if n == 0 then [] else [text[..n]]) + Rows(if n < |text| then text[n + 1..] else "")
  {
    hide NonEmpty, Pieces;
    var n := Strchr(text, '\n');
    PiecesStep(text, '\n');
    NonEmptyCons(text[..n], Pieces(if n < |text| then text[n + 1..] else "", '\n'));
  }

  lemma CellsStep(row: string)
    requires row != ""
    ensures var n := Strchr(row, ',');
      CellsOf(row) == [row[..n]] + CellsOf(if n < |row| then row[n + 1..] else "")
  {
    hide Pieces;
    PiecesStep(row, ',');
  }

  /** The first bad row is where the good ones in front of it end. */
  lemma {:induction false} FirstBadAt(good: seq<string>, rest: seq<string>, numeric: string -> bool)
    requires forall i :: 0 <= i < |good| ==> GoodRow(good[i], numeric)
    ensures FirstBad(good + rest, numeric) == |good| + FirstBad(rest, numeric)
    decreases |good|
  {
    if good == [] {
      assert good + rest == rest;
    } else {
      assert (good + rest)[1..] == good[1..] + rest;
      FirstBadAt(good[1..], rest, numeric);
    }
  }

  lemma CellBehind(row: Cells, cell: string, more: Cells)
    ensures row + ([cell] + more) == row + [cell] + more && (row + ([cell] + more))[|row|] == cell
  {
  }

  lemma CellsEnd(row: Cells)
    ensures row + CellsOf("") == row
  {
  }

  /** The inner loop: the cells of one row, or nothing if std::stof throws. */
  method ParseRow(line: string, numeric: string -> bool) returns (ok: bool, row: Cells)
    ensures ok == AllNumeric(CellsOf(line), numeric)
    ensures ok ==> row == CellsOf(line)
  {
    hide CellsOf;
    row := [];
    var rest := line;
    assert row + CellsOf(rest) == CellsOf(line);
    while rest != ""
      invariant row + CellsOf(rest) == CellsOf(line)
      invariant AllNumeric(row, numeric)
      decreases |rest|
    {
      CellsStep(rest);
      var n := Strchr(rest, ',');
      var cell := rest[..n];
      rest := if n < |rest| then rest[n + 1..] else "";
      CellBehind(row, cell, CellsOf(rest));
      if !numeric(cell) {
        return false, row;
      }
      row := row + [cell];
    }
    CellsEnd(row);
    return true, row;
  }

  /** Between two rows: `done` are the rows so far. */
  ghost predicate Between(text: string, rest: string, done: seq<string>, samples: seq<Cells>, current: Cells, rowCount: int,
                          numeric: string -> bool) {
    && done + Rows(rest) == Rows(text)
    && (forall i :: 0 <= i < |done| ==> GoodRow(done[i], numeric))
    && 0 <= rowCount < ROWS && |done| == ROWS * |samples| + rowCount && |current| == 3 * rowCount
    && (forall i :: 0 <= i < |samples| ==> |samples[i]| == CELLS)
    && Concat(samples) + current == Flat(done)
  }

  lemma BadRow(text: string, from: string, rest: string, line: string, done: seq<string>, samples: seq<Cells>,
               current: Cells, rowCount: int, numeric: string -> bool)
    requires Between(text, from, done, samples, current, rowCount, numeric)
    requires Rows(from) == [line] + Rows(rest) && !GoodRow(line, numeric)
    ensures Meets(text, numeric, if AllNumeric(CellsOf(line), numeric) then WrongRow else NotNumber)
  {
    hide GoodRow, Rows, CellsOf, Flat, Concat;
    FirstBadAt(done, [line] + Rows(rest), numeric);
    assert Rows(text)[|done|] == line;
  }

  lemma AllRows(text: string, done: seq<string>, samples: seq<Cells>, current: Cells, rowCount: int, numeric: string -> bool)
    requires Between(text, "", done, samples, current, rowCount, numeric)
    ensures Meets(text, numeric, if samples == [] then TooFew else Samples(samples))
  {
    hide GoodRow, Flat, CellsOf;
    assert Rows("") == [] && done + [] == done;
    FirstBadAt(done, [], numeric);
    assert Concat(samples) <= Flat(done);
  }

  lemma ConcatSnoc(samples: seq<Cells>, sample: Cells)
    ensures Concat(samples + [sample]) == Concat(samples) + sample
  {
    assert (samples + [sample])[..|samples|] == samples;
  }

  /** One more good row. */
  lemma RowAdded(text: string, from: string, rest: string, line: string, done: seq<string>, samples: seq<Cells>,
                 current: Cells, rowCount: int, numeric: string -> bool)
    requires Between(text, from, done, samples, current, rowCount, numeric)
    requires Rows(from) == [line] + Rows(rest) && GoodRow(line, numeric)
    ensures var now := current + CellsOf(line);
      if rowCount + 1 == ROWS then Between(text, rest, done + [line], samples + [now], [], 0, numeric)
      else Between(text, rest, done + [line], samples, now, rowCount + 1, numeric)
  {
    hide Rows, CellsOf, Flat, Concat;
    var now := current + CellsOf(line);
    assert done + ([line] + Rows(rest)) == done + [line] + Rows(rest);
    FlatSnoc(done, line);
    assert Concat(samples) + current + CellsOf(line) == Concat(samples) + now;
    ConcatSnoc(samples, now);
    assert Concat(samples + [now]) + [] == Concat(samples + [now]);
  }

  /** http/http_conn.cpp:371-412 */
  method ParseCsv(text: string, numeric: string -> bool) returns (r: Parsed)
    ensures Meets(text, numeric, r)
  {
    hide Rows, Meets, CellsOf, Between;
    var samples: seq<Cells>, current: Cells, rowCount := [], [], 0;
    var rest := text;
    ghost var done: seq<string> := [];
    assert Between(text, rest, done, samples, current, rowCount, numeric) by { NothingYet(text, numeric); }
    while rest != ""
      invariant Between(text, rest, done, samples, current, rowCount, numeric)
      decreases |rest|
    {
      RowsStep(rest);
      var n := Strchr(rest, '\n');
      var line := rest[..n];
      ghost var from := rest;
      rest := if n < |rest| then rest[n + 1..] else "";
      if line == "" {
        RowSkipped(text, from, rest, done, samples, current, rowCount, numeric);
        continue;
      }
      var ok, row := ParseRow(line, numeric);
      if !ok || |row| != 3 {
        BadRow(text, from, rest, line, done, samples, current, rowCount, numeric);
        return if !ok then NotNumber else WrongRow;
      }
      RowAdded(text, from, rest, line, done, samples, current, rowCount, numeric);
      done := done + [line];
      current := current + row;
      rowCount := rowCount + 1;
      if rowCount == ROWS {
        samples := samples + [current];
        current := [];
        rowCount := 0;
      }
    }
    AllRows(text, done, samples, current, rowCount, numeric);
    if samples == [] { return TooFew; }
    return Samples(samples);
  }

  lemma RowSkipped(text: string, from: string, rest: string, done: seq<string>, samples: seq<Cells>, current: Cells,
                   rowCount: int, numeric: string -> bool)
    requires Between(text, from, done, samples, current, rowCount, numeric) && Rows(from) == [] + Rows(rest)
    ensures Between(text, rest, done, samples, current, rowCount, numeric)
  {
    hide Rows, CellsOf, Flat, Concat, GoodRow;
    assert [] + Rows(rest) == Rows(rest);
  }

  lemma NothingYet(text: string, numeric: string -> bool)
    ensures Between(text, text, [], [], [], 0, numeric)
  {
    assert [] + Rows(text) == Rows(text) && Concat([]) + [] == Flat([]);
  }

  // ----- printing -----

  function PrintRow(a: string, b: string, c: string): string {
    a + "," + b + "," + c + "\n"
  }

  function PrintCells(cells: Cells): string
    requires |cells| % 3 == 0
  {
    if cells == [] then "" else PrintRow(cells[0], cells[1], cells[2]) + PrintCells(cells[3..])
  }

  /** The part of each result that is printed. */
  function Heads(results: seq<Cells>): (r: seq<Cells>)
    requires forall i :: 0 <= i < |results| ==> |results[i]| >= CELLS
    ensures |r| == |results| && forall i :: 0 <= i < |r| ==> r[i] == results[i][..CELLS]
  {
    seq(|results|, i requires 0 <= i < |results| => results[i][..CELLS])
  }

  lemma {:induction false} ConcatLength(samples: seq<Cells>)
    requires forall i :: 0 <= i < |samples| ==> |samples[i]| == CELLS
    ensures |Concat(samples)| == CELLS * |samples|
    decreases |samples|
  {
    if samples != [] { ConcatLength(samples[..|samples| - 1]); }
  }

  lemma {:induction false} PrintSnoc(cells: Cells, a: string, b: string, c: string)
    requires |cells| % 3 == 0
    ensures PrintCells(cells + [a, b, c]) == PrintCells(cells) + PrintRow(a, b, c)
    decreases |cells|
  {
    hide PrintRow;
    if cells == [] {
      assert [] + [a, b, c] == [a, b, c] && [a, b, c][3..] == [];
    } else {
      assert (cells + [a, b, c])[3..] == cells[3..] + [a, b, c];
      PrintSnoc(cells[3..], a, b, c);
    }
  }

  /** http/http_conn.cpp:446-453 and 482-488 */
  method PrintCsv(results: seq<Cells>) returns (out: string)
    requires forall i :: 0 <= i < |results| ==> |results[i]| >= CELLS
    ensures |Concat(Heads(results))| % 3 == 0 && out == PrintCells(Concat(Heads(results)))
  {
    hide PrintRow, PrintCells, Concat;
    var heads := Heads(results);
    out := "";
    ghost var cells: Cells := [];
    assert Concat([]) == [] && PrintCells([]) == "" by { NothingPrinted(); }
    for k := 0 to |results|
      invariant cells == Concat(heads[..k]) && |cells| % 3 == 0 && out == PrintCells(cells)
    {
      var res := results[k];
      ghost var before := cells;
      for t := 0 to ROWS
        invariant cells == before + res[..3 * t] && |cells| % 3 == 0 && out == PrintCells(cells)
      {
        PrintSnoc(cells, res[t * 3], res[t * 3 + 1], res[t * 3 + 2]);
        out := out + PrintRow(res[t * 3], res[t * 3 + 1], res[t * 3 + 2]);
        assert res[..3 * (t + 1)] == res[..3 * t] + [res[t * 3], res[t * 3 + 1], res[t * 3 + 2]];
        cells := cells + [res[t * 3], res[t * 3 + 1], res[t * 3 + 2]];
      }
      ConcatSnoc(heads[..k], heads[k]);
      assert heads[..k + 1] == heads[..k] + [heads[k]];
    }
    assert heads[..|results|] == heads;
  }

  lemma NothingPrinted()
    ensures Concat([]) == [] && PrintCells([]) == ""
  {
  }

  // ----- parsing what was printed -----

  /** A cell that a number prints as: not empty, no comma, no end of line. */
  predicate Plain(cell: string) {
    cell != "" && ',' !in cell && '\n' !in cell
  }

  lemma PrintedCells(a: string, b: string, c: string)
    requires Plain(a) && Plain(b) && Plain(c)
    ensures CellsOf(a + "," + b + "," + c) == [a, b, c]
  {
    hide Pieces;
    PieceFirst(a, b + "," + c, ',');
    PieceFirst(b, c, ',');
    OnePiece(c, ',');
    assert a + [','] + (b + [','] + c) == a + "," + b + "," + c;
    assert [a] + ([b] + [c]) == [a, b, c];
  }

  lemma PrintedRow(a: string, b: string, c: string, rest: string)
    requires Plain(a) && Plain(b) && Plain(c)
    ensures Rows(PrintRow(a, b, c) + rest) == [a + "," + b + "," + c] + Rows(rest)
  {
    hide Pieces, NonEmpty;
    var line := a + "," + b + "," + c;
    PieceFirst(line, rest, '\n');
    assert PrintRow(a, b, c) + rest == line + ['\n'] + rest;
    NonEmptyCons(line, Pieces(rest, '\n'));
  }

  lemma {:induction false} PrintedRows(cells: Cells, numeric: string -> bool)
    requires |cells| % 3 == 0 && forall i :: 0 <= i < |cells| ==> Plain(cells[i]) && numeric(cells[i])
    ensures var rows := Rows(PrintCells(cells));
      && |rows| == |cells| / 3 && Flat(rows) == cells && forall i :: 0 <= i < |rows| ==> GoodRow(rows[i], numeric)
    decreases |cells|
  {
    hide Rows, CellsOf, PrintRow, Plain;
    if cells == [] {
      NoRows();
    } else {
      var a, b, c := cells[0], cells[1], cells[2];
      PrintedCells(a, b, c);
      PrintedRow(a, b, c, PrintCells(cells[3..]));
      PrintedRows(cells[3..], numeric);
      var line, rows := a + "," + b + "," + c, Rows(PrintCells(cells[3..]));
      assert ([line] + rows)[1..] == rows;
      assert [a, b, c] + cells[3..] == cells;
    }
  }

  lemma NoRows()
    ensures Rows("") == []
  {
  }

  lemma {:induction false} ConcatInjective(a: seq<Cells>, b: seq<Cells>)
    requires |a| == |b| && Concat(a) == Concat(b)
    requires forall i :: 0 <= i < |a| ==> |a[i]| == CELLS && |b[i]| == CELLS
    ensures a == b
    decreases |a|
  {
    if a != [] {
      var n := |a| - 1;
      ConcatLength(a[..n]);
      ConcatLength(b[..n]);
      assert Concat(a)[..CELLS * n] == Concat(a[..n]) && Concat(b)[..CELLS * n] == Concat(b[..n]);
      assert Concat(a)[CELLS * n..] == a[n] && Concat(b)[CELLS * n..] == b[n];
      ConcatInjective(a[..n], b[..n]);
      assert a == a[..n] + [a[n]] && b == b[..n] + [b[n]];
    }
  }

  /** The samples that come out of a printed text are the samples that went in. */
  lemma CsvRoundTrip(samples: seq<Cells>, numeric: string -> bool, r: Parsed)
    requires samples != [] && forall i :: 0 <= i < |samples| ==> |samples[i]| == CELLS
    requires forall i :: 0 <= i < |Concat(samples)| ==> Plain(Concat(samples)[i]) && numeric(Concat(samples)[i])
    requires |Concat(samples)| % 3 == 0 && Meets(PrintCells(Concat(samples)), numeric, r)
    ensures r == Samples(samples)
  {
    hide Concat, PrintCells, Rows, GoodRow, Flat;
    ConcatLength(samples);
    PrintedRows(Concat(samples), numeric);
    ConcatLength(r.samples);
    ConcatInjective(r.samples, samples);
  }

  // ----- row by row, cell by cell -----

  /** Lines end at a line feed, and empty ones are skipped. */
  lemma RowsAreLines(line: string, rest: string)
    requires '\n' !in line
    ensures Rows(line + "\n" + rest) == (if line == "" then [] else [line]) + Rows(rest)
    ensures Rows(line) == if line == "" then [] else [line]
  {
    hide Pieces, NonEmpty;
    PieceFirst(line, rest, '\n');
    NonEmptyCons(line, Pieces(rest, '\n'));
    if line == "" {
      NoRows();
    } else {
      OnePiece(line, '\n');
      NonEmptyCons(line, []);
      assert [line] + [] == [line] && NonEmpty([]) == [] by { NoLines(); }
    }
  }

  lemma NoLines()
    ensures NonEmpty([]) == []
  {
  }

  /** Cells end at a comma; an empty cell counts, except behind the last comma. */
  lemma CellsAreBetweenCommas(cell: string, rest: string)
    requires ',' !in cell
    ensures CellsOf(cell + "," + rest) == [cell] + CellsOf(rest)
    ensures CellsOf(cell) == if cell == "" then [] else [cell]
  {
    PieceFirst(cell, rest, ',');
    if cell != "" { OnePiece(cell, ','); }
  }

  lemma RowText()
    ensures PrintRow("1", "-2.5", "x") == "1,-2.5,x\n"
  {
  }

  lemma {:induction false} FlatAt(rows: seq<string>, k: nat, c: nat)
    requires k < |rows| && c < 3 && forall i :: 0 <= i < |rows| ==> |CellsOf(rows[i])| == 3
    ensures |Flat(rows)| == 3 * |rows| && Flat(rows)[3 * k + c] == CellsOf(rows[k])[c]
    decreases |rows|
  {
    hide CellsOf;
    if |rows| > 1 {
      FlatAt(rows[1..], if k == 0 then 0 else k - 1, c);
    } else {
      assert Flat(rows[1..]) == [];
    }
  }

  lemma {:induction false} ConcatAt(samples: seq<Cells>, i: nat, j: nat)
    requires i < |samples| && j < CELLS && forall i :: 0 <= i < |samples| ==> |samples[i]| == CELLS
    ensures |Concat(samples)| == CELLS * |samples| && Concat(samples)[CELLS * i + j] == samples[i][j]
    decreases |samples|
  {
    ConcatLength(samples);
    ConcatLength(samples[..|samples| - 1]);
    if i < |samples| - 1 { ConcatAt(samples[..|samples| - 1], i, j); }
  }

  predicate NumericRow(row: string, numeric: string -> bool) {
    && |CellsOf(row)| == 3
    && numeric(CellsOf(row)[0]) && numeric(CellsOf(row)[1]) && numeric(CellsOf(row)[2])
  }

  /** 64 rows of three cells, from row `first` on, one after the other. */
  predicate HoldsRows(sample: Cells, rows: seq<string>, first: nat) {
    && |sample| == 192 && first + 64 <= |rows| && (forall k :: first <= k < first + 64 ==> |CellsOf(rows[k])| == 3)
    && forall j :: 0 <= j < 192 ==> sample[j] == CellsOf(rows[first + j / 3])[j % 3]
  }

  /** Three numbers in every row: below 64 rows an error, and otherwise sample i holds rows 64i to 64i + 63. */
  lemma SamplesHoldTheRows(text: string, numeric: string -> bool, r: Parsed)
    requires Meets(text, numeric, r) && forall k :: 0 <= k < |Rows(text)| ==> NumericRow(Rows(text)[k], numeric)
    ensures |Rows(text)| < 64 ==> r == TooFew
    ensures |Rows(text)| >= 64 ==> r.Samples? && |r.samples| == |Rows(text)| / 64
    ensures r.Samples? ==> forall i :: 0 <= i < |r.samples| ==> HoldsRows(r.samples[i], Rows(text), 64 * i)
  {
    hide Rows, CellsOf, Flat, Concat;
    var rows := Rows(text);
    forall k | 0 <= k < |rows| ensures GoodRow(rows[k], numeric) { assert NumericRow(rows[k], numeric); }
    if r.Samples? {
      forall i | 0 <= i < |r.samples| ensures HoldsRows(r.samples[i], rows, 64 * i) {
        SampleHoldsRows(r.samples, rows, i);
      }
    }
  }

  lemma SampleHoldsRows(samples: seq<Cells>, rows: seq<string>, i: nat)
    requires i < |samples| == |rows| / 64 && Concat(samples) <= Flat(rows)
    requires forall i :: 0 <= i < |samples| ==> |samples[i]| == CELLS
    requires forall k :: 0 <= k < |rows| ==> |CellsOf(rows[k])| == 3
    ensures HoldsRows(samples[i], rows, 64 * i)
  {
    hide CellsOf, Flat, Concat;
    assert i + 1 <= |rows| / 64;
    forall j | 0 <= j < 192 ensures samples[i][j] == CellsOf(rows[64 * i + j / 3])[j % 3] {
      FlatAt(rows, 64 * i + j / 3, j % 3);
      ConcatAt(samples, i, j);
      assert 3 * (64 * i + j / 3) + j % 3 == 192 * i + j;
    }
  }

  /** The first row that is not three numbers decides the answer: a cell that is no number goes before a wrong
      number of cells. */
  lemma FirstBadRowDecides(text: string, numeric: string -> bool, r: Parsed, k: nat)
    requires Meets(text, numeric, r) && k < |Rows(text)| && !NumericRow(Rows(text)[k], numeric)
    requires forall i :: 0 <= i < k ==> NumericRow(Rows(text)[i], numeric)
    ensures var cells := CellsOf(Rows(text)[k]);
      r == if exists i :: 0 <= i < |cells| && !numeric(cells[i]) then NotNumber else WrongRow
  {
    hide Rows, CellsOf, Flat, Concat;
    var rows := Rows(text);
    forall i | 0 <= i < k ensures GoodRow(rows[i], numeric) { assert NumericRow(rows[i], numeric); }
    assert !GoodRow(rows[k], numeric);
    assert FirstBad(rows, numeric) == k;
  }
}
