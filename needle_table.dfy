/**
  The global-alignment table of the antibody aligner, on its own: the
  tie-breaking choice made in each interior cell, the trace codes, and the
  backtrace walk that turns a filled trace table into per-position residue
  counts plus N- and C-terminal overhangs.
*/
module NeedleTable {
  import opened Wrappers

  /** Codes stored in the trace table (their numeric values live in a header that is not part of this model). */
  const DIAGONAL_TRANSFER: int := 0
  const LEFT_TRANSFER: int := 1
  const UP_TRANSFER: int := 2

  predicate KnownMove(m: int) {
    m == DIAGONAL_TRANSFER || m == LEFT_TRANSFER || m == UP_TRANSFER
  }

  /** The score stored in a cell and the move recorded for it. */
  datatype Cell = Cell(score: real, move: int)

  /**
    The choice at an interior cell: Diagonal is the default, and Left, then
    Up, replace the current best only when strictly greater.
  */
  function Choose(diagonal: real, left: real, up: real): Cell
  {
    var best := Cell(diagonal, DIAGONAL_TRANSFER);
    var best' := if left > best.score then Cell(left, LEFT_TRANSFER) else best;
    if up > best'.score then Cell(up, UP_TRANSFER) else best'
  }

  /**
    The chosen score is the maximum of the three, and ties go to Diagonal
    first, then Left: each move is chosen exactly when its candidate is
    strictly better than every earlier one and no worse than every later one.
  */
  lemma ChooseTieBreak(diagonal: real, left: real, up: real)
    ensures var c := Choose(diagonal, left, up);
      && c.score >= diagonal && c.score >= left && c.score >= up
      && (c.move == DIAGONAL_TRANSFER <==> diagonal >= left && diagonal >= up)
      && (c.move == LEFT_TRANSFER <==> left > diagonal && left >= up)
      && (c.move == UP_TRANSFER <==> up > diagonal && up > left)
      && c.score == if c.move == DIAGONAL_TRANSFER then diagonal else if c.move == LEFT_TRANSFER then left else up
  {
  }

  function Sum(s: seq<nat>): nat
  {
    if s == [] then 0 else s[0] + Sum(s[1..])
  }

  lemma {:induction false} SumUpdate(s: seq<nat>, k: nat, v: nat)
    requires k < |s|
    ensures Sum(s[k := v]) + s[k] == Sum(s) + v
  {
    if k > 0 {
      SumUpdate(s[1..], k - 1, v);
      assert s[k := v][1..] == s[1..][k - 1 := v];
    }
  }

  lemma {:induction false} SumAppend(s: seq<nat>, t: seq<nat>)
    ensures Sum(s + t) == Sum(s) + Sum(t)
  {
    if s != [] {
      SumAppend(s[1..], t);
      assert (s + t)[1..] == s[1..] + t;
    } else {
      assert s + t == t;
    }
  }

  function Zeros(n: nat): (z: seq<nat>)
    ensures |z| == n && Sum(z) == 0
    ensures forall k :: 0 <= k < n ==> z[k] == 0
  {
    if n == 0 then [] else [0] + Zeros(n - 1)
  }

  /** A trace table of `rows + 1` rows and `cols + 1` columns. */
  predicate TableShape(t: seq<seq<int>>, rows: nat, cols: nat) {
    |t| == rows + 1 && forall i :: 0 <= i < |t| ==> |t[i]| == cols + 1
  }

  /** The boundary the table fill guarantees: row 0 all Left, column 0 below it all Up. */
  predicate BoundaryMoves(t: seq<seq<int>>, rows: nat, cols: nat)
    requires TableShape(t, rows, cols)
  {
    && (forall j :: 1 <= j <= cols ==> t[0][j] == LEFT_TRANSFER)
    && (forall i :: 1 <= i <= rows ==> t[i][0] == UP_TRANSFER)
  }

  /** Residues counted per template position and the two terminal overhangs. */
  datatype Tally = Tally(counts: seq<nat>, nTerm: nat, cTerm: nat)

  /**
    The backtrace from cell (i, j) to (0, 0). A Left move at row 0 is an
    N-terminal overhang, at the last row a C-terminal one, elsewhere an
    insertion at position i - 1; Diagonal puts a residue on position i - 1;
    Up skips a position. An unknown code stops the walk (`None`).
  */
  function Walk(t: seq<seq<int>>, rows: nat, cols: nat, i: nat, j: nat, acc: Tally): (r: Option<Tally>)
    requires TableShape(t, rows, cols) && BoundaryMoves(t, rows, cols)
    requires i <= rows && j <= cols && |acc.counts| == rows
    ensures r.Some? ==> |r.value.counts| == rows
    decreases i + j
  {
    if i == 0 && j == 0 then Some(acc)
    else
      var move := t[i][j];
      if move == LEFT_TRANSFER then
        var acc' :=
          if 0 < i < rows then acc.(counts := acc.counts[i - 1 := acc.counts[i - 1] + 1])
          else if i == 0 then acc.(nTerm := acc.nTerm + 1)
          else acc.(cTerm := acc.cTerm + 1);
        Walk(t, rows, cols, i, j - 1, acc')
      else if move == UP_TRANSFER then
        Walk(t, rows, cols, i - 1, j, acc)
      else if move == DIAGONAL_TRANSFER then
        Walk(t, rows, cols, i - 1, j - 1, acc.(counts := acc.counts[i - 1 := acc.counts[i - 1] + 1]))
      else
        None
  }

  /** Every query residue consumed by the walk is counted exactly once. */
  lemma {:induction false} WalkCountsEveryResidue(t: seq<seq<int>>, rows: nat, cols: nat, i: nat, j: nat, acc: Tally)
    requires TableShape(t, rows, cols) && BoundaryMoves(t, rows, cols)
    requires i <= rows && j <= cols && |acc.counts| == rows
    requires Walk(t, rows, cols, i, j, acc).Some?
    ensures var r := Walk(t, rows, cols, i, j, acc).value;
      r.nTerm + r.cTerm + Sum(r.counts) == j + acc.nTerm + acc.cTerm + Sum(acc.counts)
    decreases i + j
  {
    if i != 0 || j != 0 {
      var move := t[i][j];
      if move == LEFT_TRANSFER {
        if 0 < i < rows {
          SumUpdate(acc.counts, i - 1, acc.counts[i - 1] + 1);
          WalkCountsEveryResidue(t, rows, cols, i, j - 1, acc.(counts := acc.counts[i - 1 := acc.counts[i - 1] + 1]));
        } else if i == 0 {
          WalkCountsEveryResidue(t, rows, cols, i, j - 1, acc.(nTerm := acc.nTerm + 1));
        } else {
          WalkCountsEveryResidue(t, rows, cols, i, j - 1, acc.(cTerm := acc.cTerm + 1));
        }
      } else if move == UP_TRANSFER {
        WalkCountsEveryResidue(t, rows, cols, i - 1, j, acc);
      } else {
        SumUpdate(acc.counts, i - 1, acc.counts[i - 1] + 1);
        WalkCountsEveryResidue(t, rows, cols, i - 1, j - 1, acc.(counts := acc.counts[i - 1 := acc.counts[i - 1] + 1]));
      }
    }
  }

  /** A table holding only the three known codes never makes the walk fail. */
  lemma {:induction false} WalkSucceedsOnKnownMoves(t: seq<seq<int>>, rows: nat, cols: nat, i: nat, j: nat, acc: Tally)
    requires TableShape(t, rows, cols) && BoundaryMoves(t, rows, cols)
    requires i <= rows && j <= cols && |acc.counts| == rows
    requires forall a, b :: 0 <= a <= rows && 0 <= b <= cols ==> KnownMove(t[a][b])
    ensures Walk(t, rows, cols, i, j, acc).Some?
    decreases i + j
  {
    if i != 0 || j != 0 {
      assert KnownMove(t[i][j]);
      var move := t[i][j];
      if move == LEFT_TRANSFER {
        var acc' :=
          if 0 < i < rows then acc.(counts := acc.counts[i - 1 := acc.counts[i - 1] + 1])
          else if i == 0 then acc.(nTerm := acc.nTerm + 1)
          else acc.(cTerm := acc.cTerm + 1);
        WalkSucceedsOnKnownMoves(t, rows, cols, i, j - 1, acc');
      } else if move == UP_TRANSFER {
        WalkSucceedsOnKnownMoves(t, rows, cols, i - 1, j, acc);
      } else {
        WalkSucceedsOnKnownMoves(t, rows, cols, i - 1, j - 1, acc.(counts := acc.counts[i - 1 := acc.counts[i - 1] + 1]));
      }
    }
  }

  /**
    The backtrace loop of `align`, over the trace table the fill wrote:
    `initNumbering` gets the per-position counts; `ok` is false when an
    unknown trace code was met (the fatal-runtime-error case).
  */
  method Backtrace(pathTrace: array2<int>, ghost t: seq<seq<int>>, rows: nat, cols: nat, initNumbering: array<nat>)
    returns (ok: bool, numNTermGaps: nat, numCTermGaps: nat)
    requires TableShape(t, rows, cols) && BoundaryMoves(t, rows, cols)
    requires pathTrace.Length0 == rows + 1 && pathTrace.Length1 == cols + 1
    requires forall i, j :: 0 <= i <= rows && 0 <= j <= cols ==> pathTrace[i, j] == t[i][j]
    requires initNumbering.Length == rows && forall k :: 0 <= k < rows ==> initNumbering[k] == 0
    modifies initNumbering
    ensures var w := Walk(t, rows, cols, rows, cols, Tally(Zeros(rows), 0, 0));
      && ok == w.Some?
      && (ok ==> initNumbering[..] == w.value.counts && numNTermGaps == w.value.nTerm && numCTermGaps == w.value.cTerm)
  {
    ghost var goal := Walk(t, rows, cols, rows, cols, Tally(Zeros(rows), 0, 0));
    assert initNumbering[..] == Zeros(rows);
    var i: nat, j: nat := rows, cols;
    numNTermGaps, numCTermGaps := 0, 0;
    while i > 0 || j > 0
      invariant i <= rows && j <= cols
      invariant Walk(t, rows, cols, i, j, Tally(initNumbering[..], numNTermGaps, numCTermGaps)) == goal
      decreases i + j
    {
      var move := pathTrace[i, j];
      if move == LEFT_TRANSFER {
        if i > 0 && i < rows {
          initNumbering[i - 1] := initNumbering[i - 1] + 1;
        } else if i == 0 {
          numNTermGaps := numNTermGaps + 1;
        } else {
          numCTermGaps := numCTermGaps + 1;
        }
        j := j - 1;
      } else if move == UP_TRANSFER {
        i := i - 1;
      } else if move == DIAGONAL_TRANSFER {
        initNumbering[i - 1] := initNumbering[i - 1] + 1;
        i, j := i - 1, j - 1;
      } else {
        return false, numNTermGaps, numCTermGaps;
      }
    }
    ok := true;
  }
}
