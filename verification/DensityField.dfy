/** The density of a cloud on a square grid, its blur, and the glow painted from it
    (frontend/src/cloud/densityField.ts). Coordinates and sums are real numbers. */
module Grids {
  import opened RealArithmetic

  /** A cell's place in the flat array: rows one after another. */
  function Cell(resolution: nat, row: nat, column: nat): (cell: nat)
    requires row < resolution && column < resolution
    ensures cell < resolution * resolution
  {
    RowsFit(resolution, row, column);
    row * resolution + column
  }

  lemma RowsFit(resolution: nat, row: nat, column: nat)
    requires row < resolution && column < resolution
    ensures row * resolution + column < resolution * resolution
  {
    RowBelow(resolution, row, resolution);
  }

  lemma CellsAreApart(resolution: nat, row: nat, column: nat, otherRow: nat, otherColumn: nat)
    requires row < resolution && column < resolution && otherRow < resolution && otherColumn < resolution
    requires Cell(resolution, row, column) == Cell(resolution, otherRow, otherColumn)
    ensures row == otherRow && column == otherColumn
  {
    if row < otherRow {
      RowBelow(resolution, row, otherRow);
    } else if otherRow < row {
      RowBelow(resolution, otherRow, row);
    }
  }

  lemma {:induction false} RowBelow(resolution: nat, row: nat, lower: nat)
    requires row < lower
    ensures row * resolution + resolution <= lower * resolution
    decreases lower
  {
    if row < lower - 1 {
      RowBelow(resolution, row, lower - 1);
    }
  }

  /** Every place in the array is some row's and some column's. */
  lemma EveryCellHasAPlace(resolution: nat, cell: nat) returns (row: nat, column: nat)
    requires cell < resolution * resolution
    ensures row < resolution && column < resolution && cell == Cell(resolution, row, column)
  {
    row, column := cell / resolution, cell % resolution;
    Quotient(cell, resolution);
  }

  lemma Quotient(cell: nat, resolution: nat)
    requires cell < resolution * resolution
    ensures 0 <= cell / resolution < resolution && cell == (cell / resolution) * resolution + cell % resolution
  {
    var q := cell / resolution;
    assert cell == q * resolution + cell % resolution;
    if q >= resolution {
      ProductGrows(resolution, q);
    }
  }

  lemma ProductGrows(resolution: nat, q: nat)
    requires resolution <= q
    ensures resolution * resolution <= q * resolution
  {
  }

  // ------------------------------------------------------------------ sums

  /** f(0) up to f(n - 1). */
  function Sum(f: int -> real, n: nat): real {
    if n == 0 then 0.0 else Sum(f, n - 1) + f(n - 1)
  }

  lemma {:induction false} SumsAgree(f: int -> real, g: int -> real, n: nat)
    requires forall k :: 0 <= k < n ==> f(k) == g(k)
    ensures Sum(f, n) == Sum(g, n)
  {
    if n > 0 {
      SumsAgree(f, g, n - 1);
    }
  }

  lemma {:induction false} SumOfSums(f: int -> real, g: int -> real, h: int -> real, n: nat)
    requires forall k :: 0 <= k < n ==> h(k) == f(k) + g(k)
    ensures Sum(h, n) == Sum(f, n) + Sum(g, n)
  {
    if n > 0 {
      SumOfSums(f, g, h, n - 1);
    }
  }

  lemma {:induction false} SumOfQuotients(f: int -> real, g: int -> real, d: real, n: nat)
    requires d != 0.0 && forall k :: 0 <= k < n ==> g(k) == f(k) / d
    ensures Sum(g, n) == Sum(f, n) / d
  {
    if n > 0 {
      SumOfQuotients(f, g, d, n - 1);
      QuotientsAdd(Sum(f, n - 1), f(n - 1), d);
    }
  }

  lemma {:induction false} SumsKeepBounds(low: real, high: real, count: int -> real, sum: int -> real, n: nat)
    requires forall k :: 0 <= k < n ==> Between(low, high, count(k), sum(k))
    ensures Between(low, high, Sum(count, n), Sum(sum, n))
  {
    if n > 0 {
      hide Between;
      SumsKeepBounds(low, high, count, sum, n - 1);
      BetweenAdds(low, high, Sum(count, n - 1), Sum(sum, n - 1), count(n - 1), sum(n - 1));
    }
  }

  function Inner(t: (int, int) -> real, m: nat): int -> real {
    (k: int) => Sum(Along(t, k), m)
  }

  function Along(t: (int, int) -> real, k: int): int -> real {
    (l: int) => t(k, l)
  }

  function Turned(t: (int, int) -> real): (int, int) -> real {
    (k: int, l: int) => t(l, k)
  }

  /** A double sum in either order. */
  lemma {:induction false} SumsSwap(t: (int, int) -> real, n: nat, m: nat)
    ensures Sum(Inner(t, m), n) == Sum(Inner(Turned(t), n), m)
  {
    if n == 0 {
      SumOfNothing(Inner(Turned(t), 0), m);
    } else {
      SumsSwap(t, n - 1, m);
      var last := Along(t, n - 1);
      SumOfSums(Inner(Turned(t), n - 1), last, Inner(Turned(t), n), m);
    }
  }

  lemma {:induction false} SumOfNothing(f: int -> real, m: nat)
    requires forall k :: 0 <= k < m ==> f(k) == 0.0
    ensures Sum(f, m) == 0.0
  {
    if m > 0 {
      SumOfNothing(f, m - 1);
    }
  }
}

module BoxBlur {
  import opened Grids
  import opened RealArithmetic

  function Clamped(i: int, resolution: nat): (k: nat)
    requires resolution > 0
    ensures k < resolution
  {
    if i < 0 then 0 else if i < resolution then i else resolution - 1
  }

  function WindowSize(radius: nat): (size: nat)
    ensures size > 0
  {
    radius * 2 + 1
  }

  /** Where the k-th cell of the window around a cell lies, along its row or its column; past the grid's end the edge
      stands in. */
  function WindowCell(resolution: nat, radius: nat, alongRows: bool, row: nat, column: nat, k: int): (cell: nat)
    requires row < resolution && column < resolution
    ensures cell < resolution * resolution
  {
    if alongRows then Cell(resolution, row, Clamped(column - radius + k, resolution))
    else Cell(resolution, Clamped(row - radius + k, resolution), column)
  }

  function Window(values: seq<real>, resolution: nat, radius: nat, alongRows: bool, row: nat, column: nat): int -> real
    requires |values| == resolution * resolution && row < resolution && column < resolution
  {
    (k: int) => values[WindowCell(resolution, radius, alongRows, row, column, k)]
  }

  function Mean(values: seq<real>, resolution: nat, radius: nat, alongRows: bool, row: nat, column: nat): real
    requires |values| == resolution * resolution && row < resolution && column < resolution
  {
    Sum(Window(values, resolution, radius, alongRows, row, column), WindowSize(radius)) / (WindowSize(radius) as real)
  }

  ghost predicate IsBlurOf(blurred: seq<real>, values: seq<real>, resolution: nat, radius: nat, alongRows: bool) {
    && |values| == |blurred| == resolution * resolution
    && forall row, column :: 0 <= row < resolution && 0 <= column < resolution ==>
         CellIsMean(blurred, values, resolution, radius, alongRows, row, column)
  }

  ghost predicate CellIsMean(blurred: seq<real>, values: seq<real>, resolution: nat, radius: nat, alongRows: bool,
      row: nat, column: nat)
    requires |values| == |blurred| == resolution * resolution && row < resolution && column < resolution
  {
    blurred[Cell(resolution, row, column)] == Mean(values, resolution, radius, alongRows, row, column)
  }

  function MeanOfCell(values: seq<real>, resolution: nat, radius: nat, alongRows: bool, cell: nat): real
    requires |values| == resolution * resolution && cell < |values|
  {
    Quotient(cell, resolution);
    Mean(values, resolution, radius, alongRows, cell / resolution, cell % resolution)
  }

  /** One pass: every cell becomes the mean of its window. */
  function Blurred(values: seq<real>, resolution: nat, radius: nat, alongRows: bool): (blurred: seq<real>)
    requires |values| == resolution * resolution
    ensures |blurred| == |values|
  {
    seq(|values|, cell requires 0 <= cell < |values| => MeanOfCell(values, resolution, radius, alongRows, cell))
  }

  lemma BlurredIsABlur(values: seq<real>, resolution: nat, radius: nat, alongRows: bool)
    requires |values| == resolution * resolution
    ensures IsBlurOf(Blurred(values, resolution, radius, alongRows), values, resolution, radius, alongRows)
  {
    var blurred := Blurred(values, resolution, radius, alongRows);
    forall row, column | 0 <= row < resolution && 0 <= column < resolution
      ensures CellIsMean(blurred, values, resolution, radius, alongRows, row, column)
    {
      var cell := Cell(resolution, row, column);
      Quotient(cell, resolution);
      CellsAreApart(resolution, row, column, cell / resolution, cell % resolution);
    }
  }

  lemma BlursAgree(a: seq<real>, b: seq<real>, values: seq<real>, resolution: nat, radius: nat, alongRows: bool)
    requires IsBlurOf(a, values, resolution, radius, alongRows) && IsBlurOf(b, values, resolution, radius, alongRows)
    ensures a == b
  {
    forall cell | 0 <= cell < |a|
      ensures a[cell] == b[cell]
    {
      var row, column := EveryCellHasAPlace(resolution, cell);
      assert CellIsMean(a, values, resolution, radius, alongRows, row, column);
      assert CellIsMean(b, values, resolution, radius, alongRows, row, column);
    }
  }

  lemma {:induction false} SumsOfSequences(f: int -> real, values: seq<real>)
    requires forall k :: 0 <= k < |values| ==> f(k) == values[k]
    ensures Sum(f, |values|) == SumOf(values)
  {
    if values != [] {
      SumsOfSequences(f, values[..|values| - 1]);
    }
  }

  /** A pass makes every cell the mean of itself and `radius` cells to either side, along its row or along its column,
      the edge cell standing in past the end. */
  lemma EveryCellIsItsWindowsMean(values: seq<real>, resolution: nat, radius: nat, alongRows: bool, row: nat,
      column: nat, window: seq<real>)
    requires |values| == resolution * resolution && row < resolution && column < resolution
    requires |window| == radius + 1 + radius && forall k :: 0 <= k < |window| ==>
      var at := (if alongRows then column else row) + k - radius;
      var standing := if at < 0 then 0 else if at >= resolution then resolution - 1 else at;
      window[k] == values[if alongRows then Cell(resolution, row, standing) else Cell(resolution, standing, column)]
    ensures Blurred(values, resolution, radius, alongRows)[Cell(resolution, row, column)]
      == SumOf(window) / |window| as real
  {
    BlurredIsABlur(values, resolution, radius, alongRows);
    assert CellIsMean(Blurred(values, resolution, radius, alongRows), values, resolution, radius, alongRows, row,
      column);
    hide Blurred, Cell;
    SumsOfSequences(Window(values, resolution, radius, alongRows, row, column), window);
  }

  // ------------------------------------------------------------------ rows and columns commute

  /** Row k, column l of the square of cells around a cell. */
  function Square(values: seq<real>, resolution: nat, radius: nat, row: nat, column: nat): (int, int) -> real
    requires |values| == resolution * resolution && row < resolution && column < resolution
  {
    (k: int, l: int) => values[Cell(resolution, Clamped(row - radius + k, resolution),
      Clamped(column - radius + l, resolution))]
  }

  lemma ColumnsOverRows(values: seq<real>, once: seq<real>, resolution: nat, radius: nat, row: nat, column: nat)
    requires |values| == resolution * resolution && row < resolution && column < resolution
    requires IsBlurOf(once, values, resolution, radius, true)
    ensures Mean(once, resolution, radius, false, row, column)
         == Sum(Inner(Square(values, resolution, radius, row, column), WindowSize(radius)), WindowSize(radius))
            / (WindowSize(radius) as real) / (WindowSize(radius) as real)
  {
    var w, t := WindowSize(radius), Square(values, resolution, radius, row, column);
    var f := Window(once, resolution, radius, false, row, column);
    forall k | 0 <= k < w
      ensures f(k) == Inner(t, w)(k) / (w as real)
    {
      var at := Clamped(row - radius + k, resolution);
      assert CellIsMean(once, values, resolution, radius, true, at, column);
      SumsAgree(Window(values, resolution, radius, true, at, column), Along(t, k), w);
    }
    SumOfQuotients(Inner(t, w), f, w as real, w);
  }

  lemma RowsOverColumns(values: seq<real>, once: seq<real>, resolution: nat, radius: nat, row: nat, column: nat)
    requires |values| == resolution * resolution && row < resolution && column < resolution
    requires IsBlurOf(once, values, resolution, radius, false)
    ensures Mean(once, resolution, radius, true, row, column)
         == Sum(Inner(Turned(Square(values, resolution, radius, row, column)), WindowSize(radius)), WindowSize(radius))
            / (WindowSize(radius) as real) / (WindowSize(radius) as real)
  {
    var w, t := WindowSize(radius), Turned(Square(values, resolution, radius, row, column));
    var f := Window(once, resolution, radius, true, row, column);
    forall l | 0 <= l < w
      ensures f(l) == Inner(t, w)(l) / (w as real)
    {
      var at := Clamped(column - radius + l, resolution);
      assert CellIsMean(once, values, resolution, radius, false, row, at);
      SumsAgree(Window(values, resolution, radius, false, row, at), Along(t, l), w);
    }
    SumOfQuotients(Inner(t, w), f, w as real, w);
  }

  /** A pass along rows and a pass along columns give the same field in either order, edges included. */
  lemma PassesCommute(values: seq<real>, resolution: nat, radius: nat)
    requires |values| == resolution * resolution
    ensures Blurred(Blurred(values, resolution, radius, true), resolution, radius, false)
         == Blurred(Blurred(values, resolution, radius, false), resolution, radius, true)
  {
    var rows, columns := Blurred(values, resolution, radius, true), Blurred(values, resolution, radius, false);
    var a, b := Blurred(rows, resolution, radius, false), Blurred(columns, resolution, radius, true);
    BlurredIsABlur(values, resolution, radius, true);
    BlurredIsABlur(values, resolution, radius, false);
    BlurredIsABlur(rows, resolution, radius, false);
    BlurredIsABlur(columns, resolution, radius, true);
    hide Blurred, Mean;
    forall cell | 0 <= cell < |a|
      ensures a[cell] == b[cell]
    {
      var row, column := EveryCellHasAPlace(resolution, cell);
      assert CellIsMean(a, rows, resolution, radius, false, row, column);
      assert CellIsMean(b, columns, resolution, radius, true, row, column);
      ColumnsOverRows(values, rows, resolution, radius, row, column);
      RowsOverColumns(values, columns, resolution, radius, row, column);
      SumsSwap(Square(values, resolution, radius, row, column), WindowSize(radius), WindowSize(radius));
    }
  }

  // ------------------------------------------------------------------ bounds

  /** Each cell's colour sum between `low` and `high` times its count. */
  ghost predicate Within(low: real, high: real, counts: seq<real>, sums: seq<real>) {
    |counts| == |sums| && forall cell :: 0 <= cell < |counts| ==> Between(low, high, counts[cell], sums[cell])
  }

  lemma MeansKeepBounds(low: real, high: real, counts: seq<real>, sums: seq<real>, resolution: nat, radius: nat,
      alongRows: bool, row: nat, column: nat)
    requires |counts| == |sums| == resolution * resolution && row < resolution && column < resolution
      && Within(low, high, counts, sums)
    ensures Between(low, high, Mean(counts, resolution, radius, alongRows, row, column),
      Mean(sums, resolution, radius, alongRows, row, column))
  {
    hide Between, WindowCell, WindowSize;
    var w := WindowSize(radius);
    var f, g := Window(counts, resolution, radius, alongRows, row, column),
      Window(sums, resolution, radius, alongRows, row, column);
    SumsKeepBounds(low, high, f, g, w);
    BetweenDivides(low, high, Sum(f, w), Sum(g, w), w as real);
  }

  lemma APassKeepsBounds(low: real, high: real, counts: seq<real>, sums: seq<real>, resolution: nat, radius: nat,
      alongRows: bool)
    requires |counts| == |sums| == resolution * resolution && Within(low, high, counts, sums)
    ensures Within(low, high, Blurred(counts, resolution, radius, alongRows),
      Blurred(sums, resolution, radius, alongRows))
  {
    hide Between, Mean;
    var a, b := Blurred(counts, resolution, radius, alongRows), Blurred(sums, resolution, radius, alongRows);
    forall cell | 0 <= cell < |counts|
      ensures Between(low, high, a[cell], b[cell])
    {
      Quotient(cell, resolution);
      MeansKeepBounds(low, high, counts, sums, resolution, radius, alongRows, cell / resolution, cell % resolution);
    }
  }

  // ------------------------------------------------------------------ the whole blur

  function BlurredTimes(values: seq<real>, resolution: nat, radius: nat, passes: nat): (blurred: seq<real>)
    requires |values| == resolution * resolution
    ensures |blurred| == |values|
  {
    if passes == 0 then values
    else Blurred(Blurred(BlurredTimes(values, resolution, radius, passes - 1), resolution, radius, true), resolution,
      radius, false)
  }

  lemma {:induction false} TheBlurKeepsBounds(low: real, high: real, counts: seq<real>, sums: seq<real>,
      resolution: nat, radius: nat, passes: nat)
    requires |counts| == |sums| == resolution * resolution && Within(low, high, counts, sums)
    ensures Within(low, high, BlurredTimes(counts, resolution, radius, passes),
      BlurredTimes(sums, resolution, radius, passes))
  {
    if passes > 0 {
      TheBlurKeepsBounds(low, high, counts, sums, resolution, radius, passes - 1);
      var a, b := BlurredTimes(counts, resolution, radius, passes - 1),
        BlurredTimes(sums, resolution, radius, passes - 1);
      APassKeepsBounds(low, high, a, b, resolution, radius, true);
      APassKeepsBounds(low, high, Blurred(a, resolution, radius, true), Blurred(b, resolution, radius, true),
        resolution, radius, false);
    }
  }

  function PassesAlong(values: seq<real>, resolution: nat, radius: nat, alongRows: bool,
      passes: nat): (blurred: seq<real>)
    requires |values| == resolution * resolution
    ensures |blurred| == |values|
  {
    if passes == 0 then values
    else Blurred(PassesAlong(values, resolution, radius, alongRows, passes - 1), resolution, radius, alongRows)
  }

  lemma {:induction false} ColumnPassesMovePastARow(values: seq<real>, resolution: nat, radius: nat, passes: nat)
    requires |values| == resolution * resolution
    ensures Blurred(PassesAlong(values, resolution, radius, false, passes), resolution, radius, true)
         == PassesAlong(Blurred(values, resolution, radius, true), resolution, radius, false, passes)
  {
    if passes > 0 {
      ColumnPassesMovePastARow(values, resolution, radius, passes - 1);
      PassesCommute(PassesAlong(values, resolution, radius, false, passes - 1), resolution, radius);
    }
  }

  /** The alternating blur is every row pass and then every column pass. */
  lemma {:induction false} TheBlurIsRowsThenColumns(values: seq<real>, resolution: nat, radius: nat, passes: nat)
    requires |values| == resolution * resolution
    ensures BlurredTimes(values, resolution, radius, passes)
         == PassesAlong(PassesAlong(values, resolution, radius, true, passes), resolution, radius, false, passes)
  {
    if passes > 0 {
      TheBlurIsRowsThenColumns(values, resolution, radius, passes - 1);
      ColumnPassesMovePastARow(PassesAlong(values, resolution, radius, true, passes - 1), resolution, radius,
        passes - 1);
    }
  }

  // ------------------------------------------------------------------ the passes as loops

  function Place(resolution: nat, alongRows: bool, line: nat, position: nat): (cell: nat)
    requires line < resolution && position < resolution
    ensures cell < resolution * resolution
  {
    if alongRows then Cell(resolution, line, position) else Cell(resolution, position, line)
  }

  predicate Reached(alongRows: bool, row: nat, column: nat, line: nat, position: nat) {
    if alongRows
    then row < line || (row == line && column < position)
    else column < line || (column == line && row < position)
  }

  /** The lines before `line`, and its cells before `position`, hold their means. */
  ghost predicate BlurredUpTo(blurred: seq<real>, values: seq<real>, resolution: nat, radius: nat, alongRows: bool,
      line: nat, position: nat) {
    && |values| == |blurred| == resolution * resolution
    && forall row, column ::
         0 <= row < resolution && 0 <= column < resolution && Reached(alongRows, row, column, line, position) ==>
           CellIsMean(blurred, values, resolution, radius, alongRows, row, column)
  }

  lemma OneMoreBlurred(blurred: seq<real>, after: seq<real>, values: seq<real>, resolution: nat, radius: nat,
      alongRows: bool, line: nat, position: nat)
    requires BlurredUpTo(blurred, values, resolution, radius, alongRows, line, position) && line < resolution
      && position < resolution
    requires var row, column := if alongRows then line else position, if alongRows then position else line;
      && Cell(resolution, row, column) < |blurred|
      && after == blurred[Cell(resolution, row, column) := Mean(values, resolution, radius, alongRows, row, column)]
    ensures BlurredUpTo(after, values, resolution, radius, alongRows, line, position + 1)
  {
    hide Mean, Cell;
    var row, column := if alongRows then line else position, if alongRows then position else line;
    forall r, c | 0 <= r < resolution && 0 <= c < resolution && Reached(alongRows, r, c, line, position + 1)
      ensures CellIsMean(after, values, resolution, radius, alongRows, r, c)
    {
      if r != row || c != column {
        assert CellIsMean(blurred, values, resolution, radius, alongRows, r, c);
        if Cell(resolution, r, c) == Cell(resolution, row, column) {
          CellsAreApart(resolution, r, c, row, column);
        }
      }
    }
  }

  lemma OneLineBlurred(blurred: seq<real>, values: seq<real>, resolution: nat, radius: nat, alongRows: bool, line: nat)
    requires BlurredUpTo(blurred, values, resolution, radius, alongRows, line, resolution)
    ensures BlurredUpTo(blurred, values, resolution, radius, alongRows, line + 1, 0)
  {
    hide CellIsMean;
  }

  lemma AllLinesBlurred(blurred: seq<real>, values: seq<real>, resolution: nat, radius: nat, alongRows: bool)
    requires BlurredUpTo(blurred, values, resolution, radius, alongRows, resolution, 0)
    ensures blurred == Blurred(values, resolution, radius, alongRows)
  {
    hide CellIsMean, Blurred;
    assert IsBlurOf(blurred, values, resolution, radius, alongRows);
    BlurredIsABlur(values, resolution, radius, alongRows);
    BlursAgree(blurred, Blurred(values, resolution, radius, alongRows), values, resolution, radius, alongRows);
  }

  lemma NothingBlurred(blurred: seq<real>, values: seq<real>, resolution: nat, radius: nat, alongRows: bool)
    requires |values| == |blurred| == resolution * resolution
    ensures BlurredUpTo(blurred, values, resolution, radius, alongRows, 0, 0)
  {
  }

  lemma WindowSteps(values: seq<real>, resolution: nat, radius: nat, alongRows: bool, line: nat, position: nat,
      offset: int)
    requires |values| == resolution * resolution && line < resolution && position < resolution && 0 <= offset + radius
    ensures Place(resolution, alongRows, line, Clamped(position + offset, resolution)) < |values|
    ensures var row, column := if alongRows then line else position, if alongRows then position else line;
      Window(values, resolution, radius, alongRows, row, column)(offset + radius)
        == values[Place(resolution, alongRows, line, Clamped(position + offset, resolution))]
  {
  }

  method BoxBlurPass(values: array<real>, resolution: nat, radius: nat, alongRows: bool) returns (blurred: array<real>)
    requires values.Length == resolution * resolution
    ensures fresh(blurred) && blurred[..] == Blurred(values[..], resolution, radius, alongRows)
  {
    hide Cell, CellIsMean, Blurred, BlurredUpTo, Window, Clamped;
    blurred := new real[values.Length](_ => 0.0);
    var windowSize := WindowSize(radius);
    ghost var all := values[..];
    NothingBlurred(blurred[..], all, resolution, radius, alongRows);
    for line := 0 to resolution
      invariant BlurredUpTo(blurred[..], all, resolution, radius, alongRows, line, 0)
    {
      for position := 0 to resolution
        invariant BlurredUpTo(blurred[..], all, resolution, radius, alongRows, line, position)
      {
        ghost var before := blurred[..];
        ghost var row := if alongRows then line else position;
        ghost var column := if alongRows then position else line;
        ghost var window := Window(all, resolution, radius, alongRows, row, column);
        var sum := 0.0;
        for offset: int := 0 - radius to radius + 1
          invariant 0 <= offset + radius && sum == Sum(window, offset + radius) && blurred[..] == before
        {
          var neighbor := Clamped(position + offset, resolution);
          sum := sum + values[Place(resolution, alongRows, line, neighbor)];
          WindowSteps(all, resolution, radius, alongRows, line, position, offset);
        }
        var cell := Place(resolution, alongRows, line, position);
        assert sum == Sum(window, windowSize);
        assert cell == Cell(resolution, row, column);
        assert sum / (windowSize as real) == Mean(all, resolution, radius, alongRows, row, column);
        blurred[cell] := sum / (windowSize as real);
        assert blurred[..] == before[cell := sum / (windowSize as real)];
        OneMoreBlurred(before, blurred[..], all, resolution, radius, alongRows, line, position);
      }
      OneLineBlurred(blurred[..], all, resolution, radius, alongRows, line);
    }
    AllLinesBlurred(blurred[..], all, resolution, radius, alongRows);
  }

  method BlurChannel(values: array<real>, resolution: nat, radius: nat, passes: nat) returns (blurred: array<real>)
    requires values.Length == resolution * resolution
    ensures blurred[..] == BlurredTimes(values[..], resolution, radius, passes)
    ensures if passes == 0 then blurred == values else fresh(blurred)
  {
    hide Blurred;
    blurred := values;
    for pass := 0 to passes
      invariant blurred.Length == resolution * resolution
        && blurred[..] == BlurredTimes(values[..], resolution, radius, pass)
      invariant if pass == 0 then blurred == values else fresh(blurred)
    {
      var alongRows := BoxBlurPass(blurred, resolution, radius, true);
      blurred := BoxBlurPass(alongRows, resolution, radius, false);
    }
  }
}

module DensityField {
  import opened Options
  import opened RealArithmetic
  import opened Grids
  import opened BoxBlur

  datatype Bounds = Bounds(minimumX: real, maximumX: real, minimumY: real, maximumY: real)

  datatype Geometry = Geometry(count: nat, positions: seq<real>, slots: seq<int>)

  /** The buffers of one field; the palette and the bytes painted are numbers 0 to 255. */
  datatype Field = Field(resolution: nat, counts: array<real>, red: array<real>, green: array<real>,
      blue: array<real>) {
    predicate Valid() {
      && counts.Length == red.Length == green.Length == blue.Length == resolution * resolution
      && counts != red && counts != green && counts != blue && red != green && red != blue && green != blue
    }

    method Add(cell: nat, count: real, r: real, g: real, b: real)
      requires Valid() && cell < counts.Length
      modifies counts, red, green, blue
      ensures counts[..] == old(counts[..])[cell := old(counts[..])[cell] + count]
      ensures red[..] == old(red[..])[cell := old(red[..])[cell] + r]
      ensures green[..] == old(green[..])[cell := old(green[..])[cell] + g]
      ensures blue[..] == old(blue[..])[cell := old(blue[..])[cell] + b]
    {
      counts[cell] := counts[cell] + count;
      red[cell] := red[cell] + r;
      green[cell] := green[cell] + g;
      blue[cell] := blue[cell] + b;
    }
  }

  type Byte = b: int | 0 <= b <= 255

  type Palette = seq<Byte>

  const BYTES_PER_COLOR := 4
  const CHANNEL_MAXIMUM := 255

  // ------------------------------------------------------------------ which cell a node falls in

  function SlotOf(g: Geometry, node: nat): int {
    if node < |g.slots| then g.slots[node] else 0
  }

  function PaletteByte(palette: Palette, slot: int, channel: nat): (byte: int)
    ensures 0 <= byte <= CHANNEL_MAXIMUM
  {
    var offset := slot * BYTES_PER_COLOR + channel;
    if 0 <= offset < |palette| then palette[offset] else 0
  }

  /** How many cells of an axis lie before a point `distance` into a span of `length`. */
  function CellsBefore(distance: real, length: real, resolution: nat): int
    requires length != 0.0
  {
    Product(distance / length, resolution as real).Floor
  }

  function Product(x: real, y: real): real {
    x * y
  }

  /** The cell a node is counted in; a missing coordinate or an empty span gives no number, and no cell. */
  function CellOf(g: Geometry, node: nat, resolution: nat, domain: Bounds, excluded: Option<int>): (cell: Option<nat>)
    ensures cell.Some? ==> cell.value < resolution * resolution
  {
    var width, height := domain.maximumX - domain.minimumX, domain.maximumY - domain.minimumY;
    if node * 2 + 1 >= |g.positions| || width == 0.0 || height == 0.0 || Some(SlotOf(g, node)) == excluded then None
    else
      var column := CellsBefore(g.positions[node * 2] - domain.minimumX, width, resolution);
      var row := CellsBefore(domain.maximumY - g.positions[node * 2 + 1], height, resolution);
      if 0 <= column < resolution && 0 <= row < resolution then Some(Cell(resolution, row, column)) else None
  }

  /** A span's cells take its start and leave out its end. */
  lemma CellsCoverTheSpan(distance: real, length: real, resolution: nat)
    requires length > 0.0 && resolution > 0
    ensures 0 <= CellsBefore(distance, length, resolution) < resolution <==> 0.0 <= distance < length
  {
    hide Product;
    var share, cells := distance / length, resolution as real;
    ShareOfTheSpan(distance, length);
    SharesOrder(share, length);
    SharesOrder(share, cells);
    FloorOrder(Product(share, cells), resolution);
  }

  lemma FloorOrder(x: real, resolution: nat)
    ensures 0 <= x.Floor < resolution <==> 0.0 <= x < resolution as real
  {
  }

  lemma ShareOfTheSpan(distance: real, length: real)
    requires length > 0.0
    ensures Product(distance / length, length) == distance
  {
  }

  lemma SharesOrder(share: real, length: real)
    requires length > 0.0
    ensures 0.0 <= Product(share, length) < length <==> 0.0 <= share < 1.0
  {
    if share < 0.0 {
      assert share * length < 0.0;
    } else if share < 1.0 {
      assert (1.0 - share) * length > 0.0;
    } else {
      assert (share - 1.0) * length >= 0.0;
    }
  }

  /** A node is counted exactly when its slot is not the excluded one and it lies in the domain, the right and bottom
      edges left out. */
  lemma CountedExactlyInTheDomain(g: Geometry, node: nat, resolution: nat, domain: Bounds, excluded: Option<int>)
    requires node * 2 + 1 < |g.positions| && resolution > 0
    requires domain.minimumX < domain.maximumX && domain.minimumY < domain.maximumY
    ensures CellOf(g, node, resolution, domain, excluded).Some? <==>
      && Some(SlotOf(g, node)) != excluded
      && domain.minimumX <= g.positions[node * 2] < domain.maximumX
      && domain.minimumY < g.positions[node * 2 + 1] <= domain.maximumY
  {
    CellsCoverTheSpan(g.positions[node * 2] - domain.minimumX, domain.maximumX - domain.minimumX, resolution);
    CellsCoverTheSpan(domain.maximumY - g.positions[node * 2 + 1], domain.maximumY - domain.minimumY, resolution);
  }

  // ------------------------------------------------------------------ where the cells lie

  /** Part k of the way from `from` to `to` cut into equal parts holds x: a part takes the end it starts at. */
  ghost predicate PartHolds(from: real, to: real, parts: nat, k: nat, x: real)
    requires parts > 0
  {
    var step := (to - from) / parts as real;
    if from <= to then from + k as real * step <= x < from + (k + 1) as real * step
    else from + (k + 1) as real * step < x <= from + k as real * step
  }

  /** A node lies in a cell: columns run from the left edge, rows from the top edge down. */
  ghost predicate LiesIn(g: Geometry, node: nat, resolution: nat, domain: Bounds, row: nat, column: nat)
    requires resolution > 0
  {
    && node * 2 + 1 < |g.positions|
    && PartHolds(domain.minimumX, domain.maximumX, resolution, column, g.positions[node * 2])
    && PartHolds(domain.maximumY, domain.minimumY, resolution, row, g.positions[node * 2 + 1])
  }

  /** A node without a slot is in slot 0. */
  ghost predicate IsLeftOut(g: Geometry, node: nat, excluded: Option<int>) {
    excluded.Some? && if node < |g.slots| then g.slots[node] == excluded.value else excluded.value == 0
  }

  lemma PartsOfTheSpan(share: real, q: real, length: real)
    requires length != 0.0
    ensures if length > 0.0 then q <= share <==> Product(q, length) <= Product(share, length)
      else q <= share <==> Product(share, length) <= Product(q, length)
  {
    if length > 0.0 {
      SignOfAProduct(share - q, length);
      assert (share - q) * length == share * length - q * length;
    } else {
      SignOfAProduct(share - q, 0.0 - length);
      assert (share - q) * (0.0 - length) == q * length - share * length;
    }
  }

  lemma PartOfTheSpan(length: real, parts: nat, k: nat)
    requires parts > 0
    ensures Product(k as real / parts as real, length) == k as real * (length / parts as real)
    ensures Product(k as real / parts as real, parts as real) == k as real
  {
  }

  lemma FloorIs(x: real, k: nat)
    ensures x.Floor == k <==> k as real <= x < (k + 1) as real
  {
  }

  /** A part of the span starts at or before a distance exactly when the cells before that distance reach it. */
  lemma ReachesThePart(share: real, length: real, parts: nat, k: nat)
    requires length != 0.0 && parts > 0
    ensures var start := k as real * (length / parts as real);
      k as real <= Product(share, parts as real) <==>
        if length > 0.0 then start <= Product(share, length) else Product(share, length) <= start
  {
    var q := k as real / parts as real;
    PartOfTheSpan(length, parts, k);
    PartsOfTheSpan(share, q, length);
    PartsOfTheSpan(share, q, parts as real);
    hide *;
  }

  lemma CellsBeforeCountParts(from: real, to: real, parts: nat, k: nat, x: real)
    requires from != to && parts > 0
    ensures CellsBefore(x - from, to - from, parts) == k <==> PartHolds(from, to, parts, k, x)
  {
    var share, length := (x - from) / (to - from), to - from;
    assert Product(share, length) == x - from;
    FloorIs(Product(share, parts as real), k);
    ReachesThePart(share, length, parts, k);
    ReachesThePart(share, length, parts, k + 1);
    hide Product;
  }

  lemma DistancesTurned(from: real, to: real, x: real, parts: nat)
    requires from != to
    ensures CellsBefore(from - x, from - to, parts) == CellsBefore(x - from, to - from, parts)
  {
    assert (from - x) / (from - to) == (x - from) / (to - from);
  }

  lemma NoPartOfNothing(from: real, parts: nat, k: nat, x: real)
    requires parts > 0
    ensures !PartHolds(from, from, parts, k, x)
  {
    var step := (from - from) / parts as real;
    assert step == 0.0;
    assert k as real * step == 0.0 && (k + 1) as real * step == 0.0;
  }

  /** A node is counted in a cell exactly when it is not left out and lies there, whichever way the domain runs; in a
      span of no length nothing lies. */
  lemma NodesAreCountedWhereTheyLie(g: Geometry, node: nat, resolution: nat, domain: Bounds, excluded: Option<int>,
      row: nat, column: nat)
    requires row < resolution && column < resolution
    ensures CellOf(g, node, resolution, domain, excluded) == Some(row * resolution + column) <==>
      !IsLeftOut(g, node, excluded) && LiesIn(g, node, resolution, domain, row, column)
  {
    if node * 2 + 1 < |g.positions| {
      var x, y := g.positions[node * 2], g.positions[node * 2 + 1];
      if domain.minimumX == domain.maximumX {
        NoPartOfNothing(domain.minimumX, resolution, column, x);
      } else if domain.minimumY == domain.maximumY {
        NoPartOfNothing(domain.maximumY, resolution, row, y);
      } else {
        CellsBeforeCountParts(domain.minimumX, domain.maximumX, resolution, column, x);
        CellsBeforeCountParts(domain.maximumY, domain.minimumY, resolution, row, y);
        DistancesTurned(domain.maximumY, domain.minimumY, y, resolution);
        CountedAt(g, node, resolution, domain, excluded, row, column);
        hide CellOf, CellsBefore, PartHolds;
      }
    }
  }

  lemma CountedAt(g: Geometry, node: nat, resolution: nat, domain: Bounds, excluded: Option<int>, row: nat,
      column: nat)
    requires row < resolution && column < resolution && node * 2 + 1 < |g.positions|
    requires domain.minimumX != domain.maximumX && domain.minimumY != domain.maximumY
    ensures CellOf(g, node, resolution, domain, excluded) == Some(row * resolution + column) <==>
      && !IsLeftOut(g, node, excluded)
      && CellsBefore(g.positions[node * 2] - domain.minimumX, domain.maximumX - domain.minimumX, resolution) == column
      && CellsBefore(domain.maximumY - g.positions[node * 2 + 1], domain.maximumY - domain.minimumY, resolution) == row
  {
    hide CellsBefore;
    var cell := CellOf(g, node, resolution, domain, excluded);
    if cell.Some? {
      var c := CellsBefore(g.positions[node * 2] - domain.minimumX, domain.maximumX - domain.minimumX, resolution);
      var r := CellsBefore(domain.maximumY - g.positions[node * 2 + 1], domain.maximumY - domain.minimumY, resolution);
      assert cell == Some(Cell(resolution, r, c));
      if cell.value == row * resolution + column {
        CellsAreApart(resolution, r, c, row, column);
      }
    }
  }

  lemma StepsTurned(from: real, to: real, parts: nat, k: nat)
    requires parts > 0
    ensures from + k as real * ((to - from) / parts as real) == from - k as real * ((from - to) / parts as real)
  {
    assert (to - from) / parts as real == 0.0 - (from - to) / parts as real;
  }

  /** On a domain with width and height a column runs from its left edge up to its right one, which it leaves out, and
      a row from its top edge down to its bottom one, which it leaves out. */
  lemma PartsRunUpOrDown(low: real, high: real, parts: nat, k: nat, x: real)
    requires low < high && parts > 0
    ensures var step := (high - low) / parts as real;
      && (PartHolds(low, high, parts, k, x) <==> low + k as real * step <= x < low + (k + 1) as real * step)
      && (PartHolds(high, low, parts, k, x) <==> high - (k + 1) as real * step < x <= high - k as real * step)
  {
    StepsTurned(high, low, parts, k);
    StepsTurned(high, low, parts, k + 1);
  }

  // ------------------------------------------------------------------ accumulating

  /** The cell each node falls in, if any. */
  function Places(g: Geometry, resolution: nat, domain: Bounds, excluded: Option<int>): seq<Option<nat>> {
    seq(g.count, node requires 0 <= node => CellOf(g, node, resolution, domain, excluded))
  }

  /** What the first n nodes add to a cell, `amount` giving what each adds. */
  function Tally(places: seq<Option<nat>>, amount: int -> real, cell: int, n: nat): real
    requires n <= |places|
  {
    if n == 0 then 0.0
    else Tally(places, amount, cell, n - 1) + if places[n - 1] == Some(cell) then amount(n - 1) else 0.0
  }

  function One(): int -> real {
    (node: int) => 1.0
  }

  function Channel(g: Geometry, palette: Palette, channel: nat): int -> real {
    (node: int) => PaletteByte(palette, if node < 0 then 0 else SlotOf(g, node), channel) as real
  }

  ghost predicate Tallied(values: seq<real>, places: seq<Option<nat>>, amount: int -> real, n: nat)
    requires n <= |places|
  {
    forall cell :: 0 <= cell < |values| ==> values[cell] == Tally(places, amount, cell, n)
  }

  lemma NothingTallied(values: seq<real>, places: seq<Option<nat>>, amount: int -> real)
    requires forall cell :: 0 <= cell < |values| ==> values[cell] == 0.0
    ensures Tallied(values, places, amount, 0)
  {
  }

  ghost function OneMore(before: seq<real>, places: seq<Option<nat>>, amount: int -> real, n: nat): (after: seq<real>)
    requires n < |places| && Tallied(before, places, amount, n) && (places[n].Some? ==> places[n].value < |before|)
    ensures Tallied(after, places, amount, n + 1)
    ensures after == if places[n].Some? then before[places[n].value := before[places[n].value] + amount(n)] else before
  {
    if places[n].Some? then before[places[n].value := before[places[n].value] + amount(n)] else before
  }

  // ------------------------------------------------------------------ what each cell gathers

  /** A color's bytes stand at four times its slot, and a slot past the palette gives none. */
  lemma ColorsAreQuadruples(before: Palette, color: Palette, after: Palette, slot: nat, channel: nat)
    requires |before| == slot * 4 && |color| == 4 && channel < 4
    ensures PaletteByte(before + color + after, slot, channel) == color[channel]
    ensures PaletteByte(before, slot, channel) == 0 && PaletteByte(before, -1 - slot, channel) == 0
  {
    assert (before + color + after)[slot * 4 + channel] == color[channel];
  }

  ghost predicate IsCounted(g: Geometry, node: nat, resolution: nat, domain: Bounds, excluded: Option<int>, row: nat,
      column: nat)
    requires resolution > 0
  {
    !IsLeftOut(g, node, excluded) && LiesIn(g, node, resolution, domain, row, column)
  }

  ghost function NodesIn(g: Geometry, n: nat, resolution: nat, domain: Bounds, excluded: Option<int>, row: nat,
      column: nat): set<nat>
    requires resolution > 0
  {
    set node: nat | node < n && IsCounted(g, node, resolution, domain, excluded, row, column)
  }

  /** What each node gives a cell: its slot's byte if it is counted there. */
  ghost function Given(g: Geometry, palette: Palette, resolution: nat, domain: Bounds, excluded: Option<int>,
      row: nat, column: nat, channel: nat): int -> real
    requires resolution > 0
  {
    (node: int) =>
      if node < 0 || !IsCounted(g, node, resolution, domain, excluded, row, column) then 0.0
      else PaletteByte(palette, if node < |g.slots| then g.slots[node] else 0, channel) as real
  }

  /** A cell's sums: how many nodes are counted there, and their colors' channels. */
  ghost predicate Gathers(count: real, red: real, green: real, blue: real, g: Geometry, palette: Palette,
      resolution: nat, domain: Bounds, excluded: Option<int>, row: nat, column: nat)
    requires resolution > 0
  {
    && count == |NodesIn(g, g.count, resolution, domain, excluded, row, column)| as real
    && red == Sum(Given(g, palette, resolution, domain, excluded, row, column, 0), g.count)
    && green == Sum(Given(g, palette, resolution, domain, excluded, row, column, 1), g.count)
    && blue == Sum(Given(g, palette, resolution, domain, excluded, row, column, 2), g.count)
  }

  lemma {:induction false} NodesAreTallied(g: Geometry, n: nat, resolution: nat, domain: Bounds,
      excluded: Option<int>, row: nat, column: nat)
    requires n <= g.count && row < resolution && column < resolution
    ensures Tally(Places(g, resolution, domain, excluded), One(), Cell(resolution, row, column), n)
         == |NodesIn(g, n, resolution, domain, excluded, row, column)| as real
  {
    hide CellOf, LiesIn, IsLeftOut;
    if n == 0 {
      assert NodesIn(g, 0, resolution, domain, excluded, row, column) == {};
    } else {
      NodesAreTallied(g, n - 1, resolution, domain, excluded, row, column);
      NodesAreCountedWhereTheyLie(g, n - 1, resolution, domain, excluded, row, column);
      var before := NodesIn(g, n - 1, resolution, domain, excluded, row, column);
      assert NodesIn(g, n, resolution, domain, excluded, row, column)
          == if IsCounted(g, n - 1, resolution, domain, excluded, row, column) then before + {n - 1} else before;
    }
  }

  lemma {:induction false} ShadesAreTallied(g: Geometry, palette: Palette, n: nat, resolution: nat, domain: Bounds,
      excluded: Option<int>, row: nat, column: nat, channel: nat)
    requires n <= g.count && row < resolution && column < resolution
    ensures Tally(Places(g, resolution, domain, excluded), Channel(g, palette, channel), Cell(resolution, row, column),
        n) == Sum(Given(g, palette, resolution, domain, excluded, row, column, channel), n)
  {
    hide CellOf, LiesIn, IsLeftOut, PaletteByte;
    if n > 0 {
      ShadesAreTallied(g, palette, n - 1, resolution, domain, excluded, row, column, channel);
      NodesAreCountedWhereTheyLie(g, n - 1, resolution, domain, excluded, row, column);
    }
  }

  lemma TheFieldGathers(counts: seq<real>, red: seq<real>, green: seq<real>, blue: seq<real>, g: Geometry,
      palette: Palette, resolution: nat, domain: Bounds, excluded: Option<int>)
    requires |counts| == |red| == |green| == |blue| == resolution * resolution
    requires var places := Places(g, resolution, domain, excluded);
      && Tallied(counts, places, One(), g.count) && Tallied(red, places, Channel(g, palette, 0), g.count)
      && Tallied(green, places, Channel(g, palette, 1), g.count)
      && Tallied(blue, places, Channel(g, palette, 2), g.count)
    ensures forall row: nat, column: nat | row < resolution && column < resolution ::
      var cell := Cell(resolution, row, column);
      Gathers(counts[cell], red[cell], green[cell], blue[cell], g, palette, resolution, domain, excluded, row, column)
  {
    forall row: nat, column: nat | row < resolution && column < resolution
      ensures var cell := Cell(resolution, row, column);
        Gathers(counts[cell], red[cell], green[cell], blue[cell], g, palette, resolution, domain, excluded, row,
          column)
    {
      var cell := Cell(resolution, row, column);
      hide Cell, Places, Tally, NodesIn, Given, Sum;
      NodesAreTallied(g, g.count, resolution, domain, excluded, row, column);
      ShadesAreTallied(g, palette, g.count, resolution, domain, excluded, row, column, 0);
      ShadesAreTallied(g, palette, g.count, resolution, domain, excluded, row, column, 1);
      ShadesAreTallied(g, palette, g.count, resolution, domain, excluded, row, column, 2);
    }
  }

  method EmptyField(resolution: nat) returns (field: Field)
    ensures fresh(field.counts) && fresh(field.red) && fresh(field.green) && fresh(field.blue)
    ensures field.resolution == resolution && field.Valid()
    ensures field.counts[..] == field.red[..] == field.green[..] == field.blue[..]
    ensures forall cell :: 0 <= cell < field.counts.Length ==> field.counts[..][cell] == 0.0
  {
    var cells := resolution * resolution;
    var counts, red, green, blue := new real[cells](_ => 0.0), new real[cells](_ => 0.0), new real[cells](_ => 0.0),
      new real[cells](_ => 0.0);
    field := Field(resolution, counts, red, green, blue);
  }

  method AccumulateDensity(g: Geometry, palette: Palette, resolution: nat, domain: Bounds, excluded: Option<int>)
    returns (field: Field)
    ensures fresh(field.counts) && fresh(field.red) && fresh(field.green) && fresh(field.blue)
    ensures field.resolution == resolution && field.Valid()
    ensures Tallied(field.counts[..], Places(g, resolution, domain, excluded), One(), g.count)
    ensures Tallied(field.red[..], Places(g, resolution, domain, excluded), Channel(g, palette, 0), g.count)
    ensures Tallied(field.green[..], Places(g, resolution, domain, excluded), Channel(g, palette, 1), g.count)
    ensures Tallied(field.blue[..], Places(g, resolution, domain, excluded), Channel(g, palette, 2), g.count)
    ensures forall row: nat, column: nat | row < resolution && column < resolution ::
      var cell := Cell(resolution, row, column);
      Gathers(field.counts[cell], field.red[cell], field.green[cell], field.blue[cell], g, palette, resolution, domain,
        excluded, row, column)
  {
    hide CellOf, PaletteByte, SlotOf, Tally, Tallied;
    field := EmptyField(resolution);
    ghost var places := Places(g, resolution, domain, excluded);
    ghost var one, r, gr, b := One(), Channel(g, palette, 0), Channel(g, palette, 1), Channel(g, palette, 2);
    ghost var c, rs, gs, bs := field.counts[..], field.red[..], field.green[..], field.blue[..];
    NothingTallied(c, places, one);
    NothingTallied(rs, places, r);
    NothingTallied(gs, places, gr);
    NothingTallied(bs, places, b);
    for node := 0 to g.count
      invariant field.counts[..] == c && field.red[..] == rs && field.green[..] == gs && field.blue[..] == bs
      invariant Tallied(c, places, one, node) && Tallied(rs, places, r, node) && Tallied(gs, places, gr, node)
        && Tallied(bs, places, b, node)
    {
      var place := CellOf(g, node, resolution, domain, excluded);
      assert places[node] == place;
      if place.Some? {
        var cell, slot := place.value, SlotOf(g, node);
        assert one(node) == 1.0 && r(node) == PaletteByte(palette, slot, 0) as real;
        assert gr(node) == PaletteByte(palette, slot, 1) as real && b(node) == PaletteByte(palette, slot, 2) as real;
        hide *;
        field.Add(cell, 1.0, PaletteByte(palette, slot, 0) as real, PaletteByte(palette, slot, 1) as real,
          PaletteByte(palette, slot, 2) as real);
        c, rs := OneMore(c, places, one, node), OneMore(rs, places, r, node);
        gs, bs := OneMore(gs, places, gr, node), OneMore(bs, places, b, node);
      } else {
        hide *;
        c, rs := OneMore(c, places, one, node), OneMore(rs, places, r, node);
        gs, bs := OneMore(gs, places, gr, node), OneMore(bs, places, b, node);
      }
    }
    hide *;
    TheFieldGathers(c, rs, gs, bs, g, palette, resolution, domain, excluded);
  }

  // ------------------------------------------------------------------ what the counts add up to

  function CountedNodes(places: seq<Option<nat>>, n: nat): nat
    requires n <= |places|
  {
    if n == 0 then 0 else CountedNodes(places, n - 1) + if places[n - 1].Some? then 1 else 0
  }

  function TallyOf(places: seq<Option<nat>>, amount: int -> real, n: nat): int -> real
    requires n <= |places|
  {
    (cell: int) => Tally(places, amount, cell, n)
  }

  function AddedTo(place: Option<nat>): int -> real {
    (cell: int) => if place == Some(cell) then 1.0 else 0.0
  }

  lemma {:induction false} OneCellGains(place: Option<nat>, cells: nat)
    ensures Sum(AddedTo(place), cells) == if place.Some? && place.value < cells then 1.0 else 0.0
  {
    if cells > 0 {
      OneCellGains(place, cells - 1);
    }
  }

  /** Every counted node is in one cell's count: the counts add up to the nodes counted. */
  lemma {:induction false} CountsAddUp(places: seq<Option<nat>>, cells: nat, n: nat)
    requires n <= |places| && forall i :: 0 <= i < n && places[i].Some? ==> places[i].value < cells
    ensures Sum(TallyOf(places, One(), n), cells) == CountedNodes(places, n) as real
  {
    if n == 0 {
      SumOfNothing(TallyOf(places, One(), 0), cells);
    } else {
      CountsAddUp(places, cells, n - 1);
      OneCellGains(places[n - 1], cells);
      SumOfSums(TallyOf(places, One(), n - 1), AddedTo(places[n - 1]), TallyOf(places, One(), n), cells);
    }
  }

  /** Where each counted node's amount lies between two bounds, so does a cell's sum, taken against its count. */
  lemma {:induction false} TalliesKeepBounds(low: real, high: real, places: seq<Option<nat>>, amount: int -> real,
      cell: int, n: nat)
    requires n <= |places| && forall i :: 0 <= i < n && places[i].Some? ==> low <= amount(i) <= high
    ensures Between(low, high, Tally(places, One(), cell, n), Tally(places, amount, cell, n))
      && Tally(places, One(), cell, n) >= 0.0
  {
    if n > 0 {
      TalliesKeepBounds(low, high, places, amount, cell, n - 1);
      if places[n - 1] == Some(cell) {
        assert Between(low, high, 1.0, amount(n - 1));
        BetweenAdds(low, high, Tally(places, One(), cell, n - 1), Tally(places, amount, cell, n - 1), 1.0,
          amount(n - 1));
      }
    }
  }

  // ------------------------------------------------------------------ blurring a field

  method BlurDensity(field: Field, radius: nat, passes: nat) returns (soft: Field)
    requires field.Valid()
    ensures soft.resolution == field.resolution && soft.Valid()
    ensures soft.counts[..] == BlurredTimes(field.counts[..], field.resolution, radius, passes)
    ensures soft.red[..] == BlurredTimes(field.red[..], field.resolution, radius, passes)
    ensures soft.green[..] == BlurredTimes(field.green[..], field.resolution, radius, passes)
    ensures soft.blue[..] == BlurredTimes(field.blue[..], field.resolution, radius, passes)
  {
    hide BlurredTimes;
    var counts := BlurChannel(field.counts, field.resolution, radius, passes);
    var red := BlurChannel(field.red, field.resolution, radius, passes);
    var green := BlurChannel(field.green, field.resolution, radius, passes);
    var blue := BlurChannel(field.blue, field.resolution, radius, passes);
    soft := Field(field.resolution, counts, red, green, blue);
  }

  lemma TalliesAreWithin(low: real, high: real, counts: seq<real>, sums: seq<real>, places: seq<Option<nat>>,
      amount: int -> real)
    requires |counts| == |sums| && Tallied(counts, places, One(), |places|) && Tallied(sums, places, amount, |places|)
    requires forall i :: 0 <= i < |places| && places[i].Some? ==> low <= amount(i) <= high
    ensures Within(low, high, counts, sums)
  {
    forall cell | 0 <= cell < |counts|
      ensures Between(low, high, counts[cell], sums[cell])
    {
      TalliesKeepBounds(low, high, places, amount, cell, |places|);
    }
  }

  /** From the nodes counted to the last pass: where a cell is painted, its average lies between the counted nodes'
      least and greatest amounts, so within a byte's range whatever the palette. */
  lemma AveragesStayAmongTheirNodes(low: real, high: real, counts: seq<real>, sums: seq<real>,
      places: seq<Option<nat>>, amount: int -> real,
                                    resolution: nat, radius: nat, passes: nat, cell: nat)
    requires |counts| == |sums| == resolution * resolution && cell < |counts|
    requires Tallied(counts, places, One(), |places|) && Tallied(sums, places, amount, |places|)
    requires forall i :: 0 <= i < |places| && places[i].Some? ==> low <= amount(i) <= high
    ensures var count, sum := BlurredTimes(counts, resolution, radius, passes)[cell],
      BlurredTimes(sums, resolution, radius, passes)[cell];
      count > 0.0 ==> low <= sum / count <= high
  {
    TalliesAreWithin(low, high, counts, sums, places, amount);
    TheBlurKeepsBounds(low, high, counts, sums, resolution, radius, passes);
    var count, sum := BlurredTimes(counts, resolution, radius, passes)[cell],
      BlurredTimes(sums, resolution, radius, passes)[cell];
    assert Between(low, high, count, sum);
    hide BlurredTimes, Tallied;
    if count > 0.0 {
      AverageOf(low, high, count, sum);
    }
  }

  lemma AverageOf(low: real, high: real, count: real, sum: real)
    requires count > 0.0 && Between(low, high, count, sum)
    ensures low <= sum / count <= high
  {
    assert low * count <= sum <= high * count;
    hide *;
    QuotientsOrder(low * count, sum, count);
    QuotientsOrder(sum, high * count, count);
    ProductsDivideBack(low, count);
    ProductsDivideBack(high, count);
  }

  lemma ProductsDivideBack(x: real, count: real)
    requires count > 0.0
    ensures (x * count) / count == x
  {
  }

  // ------------------------------------------------------------------ painting

  ghost predicate IsNearestByte(x: real, byte: int) {
    && (x < 0.0 ==> byte == 0) && (x > 255.0 ==> byte == 255)
    && (0.0 <= x <= 255.0 ==>
        -0.5 <= byte as real - x <= 0.5 && (byte as real - x == 0.5 || byte as real - x == -0.5 ==> byte % 2 == 0))
  }

  /** What writing a number into a clamped byte array stores: held to 0 to 255 and rounded, a half to the even side. */
  function ToByte(x: real): (byte: Byte)
    ensures IsNearestByte(x, byte)
  {
    if x <= 0.0 then 0
    else if x >= 255.0 then 255
    else
      var whole := x.Floor;
      var rest := x - whole as real;
      if rest < 0.5 || (rest == 0.5 && whole % 2 == 0) then whole else whole + 1
  }

  lemma ToByteKeepsOrder(x: real, y: real)
    requires x <= y
    ensures ToByte(x) <= ToByte(y)
  {
  }

  ghost predicate Logarithmic(log1p: real -> real) {
    log1p(0.0) == 0.0 && forall x, y :: 0.0 <= x < y ==> log1p(x) < log1p(y)
  }

  function Densest(counts: seq<real>): (densest: real)
    ensures densest >= 0.0 && forall cell :: 0 <= cell < |counts| ==> counts[cell] <= densest
    ensures densest == 0.0 || densest in counts
  {
    if counts == [] then 0.0
    else
      var before := Densest(counts[..|counts| - 1]);
      if counts[|counts| - 1] > before then counts[|counts| - 1] else before
  }

  function Opacity(log1p: real -> real, densest: real, opacity: real, count: real): real
    requires log1p(densest) != 0.0
  {
    (log1p(count) / log1p(densest)) * opacity * (CHANNEL_MAXIMUM as real)
  }

  /** A denser cell is at least as opaque, the densest is painted at `opacity`, and no cell beyond it. */
  lemma OpacityRisesToItsBound(log1p: real -> real, densest: real, opacity: real, count: real, denser: real)
    requires Logarithmic(log1p) && opacity >= 0.0 && 0.0 < count <= denser <= densest
    ensures log1p(densest) > 0.0
    ensures 0.0 <= Opacity(log1p, densest, opacity, count) <= Opacity(log1p, densest, opacity, denser)
         <= Opacity(log1p, densest, opacity, densest) == opacity * 255.0
  {
    assert log1p(densest) > 0.0 by { assert log1p(0.0) < log1p(densest); }
    var scale, a, b := log1p(densest), log1p(count), log1p(denser);
    assert a <= b && b <= scale && a >= 0.0 by { assert log1p(0.0) < log1p(count); }
    hide Logarithmic;
    SharesInOrder(a, b, scale);
    OpacitiesInOrder(a / scale, b / scale, opacity);
    assert scale / scale == 1.0;
  }

  lemma OpacitiesInOrder(share: real, larger: real, opacity: real)
    requires opacity >= 0.0 && 0.0 <= share <= larger <= 1.0
    ensures 0.0 <= share * opacity * (CHANNEL_MAXIMUM as real) <= larger * opacity * (CHANNEL_MAXIMUM as real)
         <= 1.0 * opacity * (CHANNEL_MAXIMUM as real) == opacity * 255.0
  {
    ScaledInOrder(0.0, share, opacity);
    ScaledInOrder(share, larger, opacity);
    ScaledInOrder(larger, 1.0, opacity);
  }

  lemma SharesInOrder(a: real, b: real, scale: real)
    requires 0.0 <= a <= b <= scale && scale > 0.0
    ensures 0.0 <= a / scale <= b / scale <= 1.0 && scale / scale == 1.0
  {
    QuotientsOrder(0.0, a, scale);
    QuotientsOrder(a, b, scale);
    QuotientsOrder(b, scale, scale);
  }

  lemma ScaledInOrder(x: real, y: real, opacity: real)
    requires x <= y && opacity >= 0.0
    ensures x * opacity * (CHANNEL_MAXIMUM as real) <= y * opacity * (CHANNEL_MAXIMUM as real)
  {
    assert (y - x) * opacity >= 0.0;
    assert (y - x) * opacity == y * opacity - x * opacity;
  }

  /** The four bytes of one cell: all zero where nothing was counted. */
  function PaintedCell(count: real, red: real, green: real, blue: real, log1p: real -> real, densest: real,
      opacity: real): (bytes: seq<Byte>)
    requires log1p(densest) != 0.0
    ensures |bytes| == BYTES_PER_COLOR
  {
    if count <= 0.0 then [0, 0, 0, 0]
    else [ToByte(red / count), ToByte(green / count), ToByte(blue / count),
      ToByte(Opacity(log1p, densest, opacity, count))]
  }

  /** A cell's four bytes are its average red, green and blue and, of its opacity, as much of 255 times `opacity` as its
      count's logarithm is of the densest's; nothing is painted where nothing was counted. */
  lemma ACellShowsItsAverages(count: real, red: real, green: real, blue: real, log1p: real -> real, densest: real,
      opacity: real, alpha: real)
    requires log1p(densest) != 0.0 && alpha * log1p(densest) == log1p(count) * (opacity * 255.0)
    ensures var bytes := PaintedCell(count, red, green, blue, log1p, densest, opacity);
      && |bytes| == 4 && (count <= 0.0 ==> forall k :: 0 <= k < 4 ==> bytes[k] == 0)
      && (count > 0.0 ==>
          && IsNearestByte(red / count, bytes[0]) && IsNearestByte(green / count, bytes[1])
          && IsNearestByte(blue / count, bytes[2]) && IsNearestByte(alpha, bytes[3]))
  {
    OpacityIs(log1p, densest, opacity, count, alpha);
    hide Opacity, ToByte, IsNearestByte;
  }

  lemma OpacityIs(log1p: real -> real, densest: real, opacity: real, count: real, alpha: real)
    requires log1p(densest) != 0.0 && alpha * log1p(densest) == log1p(count) * (opacity * 255.0)
    ensures Opacity(log1p, densest, opacity, count) == alpha
  {
    var scale, share := log1p(densest), log1p(count) / log1p(densest);
    assert share * scale == log1p(count);
    assert (share * (opacity * 255.0)) * scale == log1p(count) * (opacity * 255.0);
    SameFactor(share * (opacity * 255.0), alpha, scale);
  }

  lemma SameFactor(x: real, y: real, scale: real)
    requires scale != 0.0 && x * scale == y * scale
    ensures x == y
  {
    assert (x - y) * scale == 0.0;
  }

  method FindDensest(counts: array<real>) returns (densest: real)
    ensures densest == Densest(counts[..])
  {
    densest := 0.0;
    for cell := 0 to counts.Length
      invariant densest == Densest(counts[..cell])
    {
      assert counts[..cell + 1][..cell] == counts[..cell];
      if counts[cell] > densest { densest := counts[cell]; }
    }
    assert counts[..counts.Length] == counts[..];
  }

  function CellBytes(pixels: seq<Byte>, cell: nat): (bytes: seq<Byte>)
    requires cell * BYTES_PER_COLOR + BYTES_PER_COLOR <= |pixels|
    ensures |bytes| == BYTES_PER_COLOR
  {
    pixels[cell * BYTES_PER_COLOR..cell * BYTES_PER_COLOR + BYTES_PER_COLOR]
  }

  /** The sums a field holds, as values. */
  datatype Sums = Sums(counts: seq<real>, red: seq<real>, green: seq<real>, blue: seq<real>)

  ghost predicate PaintedUpTo(pixels: seq<Byte>, sums: Sums, log1p: real -> real, densest: real, opacity: real,
      cells: nat) {
    && |sums.counts| == |sums.red| == |sums.green| == |sums.blue| && |pixels| == |sums.counts| * BYTES_PER_COLOR
    && cells <= |sums.counts| && log1p(densest) != 0.0
    && (forall cell :: 0 <= cell < cells ==> CellIsPainted(pixels, sums, log1p, densest, opacity, cell))
    && (forall i :: cells * BYTES_PER_COLOR <= i < |pixels| ==> pixels[i] == 0)
  }

  ghost predicate CellIsPainted(pixels: seq<Byte>, sums: Sums, log1p: real -> real, densest: real, opacity: real,
      cell: nat)
    requires |sums.counts| == |sums.red| == |sums.green| == |sums.blue| && |pixels| == |sums.counts| * BYTES_PER_COLOR
    requires cell < |sums.counts| && log1p(densest) != 0.0
  {
    CellBytes(pixels, cell) == PaintedCell(sums.counts[cell], sums.red[cell], sums.green[cell], sums.blue[cell], log1p,
      densest, opacity)
  }

  lemma OneMorePainted(before: seq<Byte>, after: seq<Byte>, sums: Sums, log1p: real -> real, densest: real,
      opacity: real, cell: nat)
    requires PaintedUpTo(before, sums, log1p, densest, opacity, cell) && cell < |sums.counts| && |after| == |before|
    requires forall i ::
               0 <= i < |after| && (i < cell * BYTES_PER_COLOR || cell * BYTES_PER_COLOR + BYTES_PER_COLOR <= i) ==>
                 after[i] == before[i]
    requires CellIsPainted(after, sums, log1p, densest, opacity, cell)
    ensures PaintedUpTo(after, sums, log1p, densest, opacity, cell + 1)
  {
    hide PaintedCell;
    forall done | 0 <= done < cell
      ensures CellIsPainted(after, sums, log1p, densest, opacity, done)
    {
      assert CellIsPainted(before, sums, log1p, densest, opacity, done);
      assert CellBytes(after, done) == CellBytes(before, done);
    }
  }

  lemma AnEmptyCellIsPainted(before: seq<Byte>, sums: Sums, log1p: real -> real, densest: real, opacity: real,
      cell: nat)
    requires PaintedUpTo(before, sums, log1p, densest, opacity, cell) && cell < |sums.counts|
      && sums.counts[cell] <= 0.0
    ensures CellIsPainted(before, sums, log1p, densest, opacity, cell)
  {
    assert CellBytes(before, cell) == [0, 0, 0, 0];
  }

  method GlowPixels(field: Field, opacity: real, log1p: real -> real) returns (pixels: array<Byte>)
    requires field.Valid() && Logarithmic(log1p)
    ensures pixels.Length == field.counts.Length * BYTES_PER_COLOR
    ensures var densest := Densest(field.counts[..]);
      if densest <= 0.0 then forall i :: 0 <= i < pixels.Length ==> pixels[i] == 0
      else PaintedUpTo(pixels[..], Sums(field.counts[..], field.red[..], field.green[..], field.blue[..]), log1p,
        densest, opacity, field.counts.Length)
  {
    hide ToByte, Opacity, Densest, PaintedUpTo;
    pixels := new Byte[field.counts.Length * BYTES_PER_COLOR](_ => 0);
    var densest := FindDensest(field.counts);
    if densest <= 0.0 { return; }
    assert log1p(0.0) < log1p(densest);
    hide Logarithmic;
    ghost var sums := Sums(field.counts[..], field.red[..], field.green[..], field.blue[..]);
    NothingPainted(pixels[..], sums, log1p, densest, opacity);
    for cell := 0 to field.counts.Length
      invariant PaintedUpTo(pixels[..], sums, log1p, densest, opacity, cell)
    {
      ghost var before := pixels[..];
      var count, offset := field.counts[cell], cell * BYTES_PER_COLOR;
      if count > 0.0 {
        pixels[offset] := ToByte(field.red[cell] / count);
        pixels[offset + 1] := ToByte(field.green[cell] / count);
        pixels[offset + 2] := ToByte(field.blue[cell] / count);
        pixels[offset + 3] := ToByte(Opacity(log1p, densest, opacity, count));
        assert CellBytes(pixels[..], cell) == PaintedCell(count, field.red[cell], field.green[cell], field.blue[cell],
          log1p, densest, opacity);
      } else {
        AnEmptyCellIsPainted(before, sums, log1p, densest, opacity, cell);
      }
      OneMorePainted(before, pixels[..], sums, log1p, densest, opacity, cell);
    }
  }

  lemma NothingPainted(pixels: seq<Byte>, sums: Sums, log1p: real -> real, densest: real, opacity: real)
    requires |sums.counts| == |sums.red| == |sums.green| == |sums.blue| && |pixels| == |sums.counts| * BYTES_PER_COLOR
    requires log1p(densest) != 0.0 && forall i :: 0 <= i < |pixels| ==> pixels[i] == 0
    ensures PaintedUpTo(pixels, sums, log1p, densest, opacity, 0)
  {
  }
}
