/** Line clearing as checkClear does it: a sweep over the rows from the top (row 0)
    to the bottom (row H - 1) that, for every full row met, clears it (clearLine)
    and moves every row from 1 to that row down by one (blockFall). Row 0 is never
    replaced by the rows above it (there are none), so every clear leaves a copy of
    row 0 in row 1. `Sweep` is the sweep as written; `SweptTo` is its closed form,
    and `CompactedClosedForm` states what the whole sweep leaves. */
module LineClear {
  import opened Playfield

  function Zeros(n: nat): Row {
    seq(n, _ => 0)
  }

  /** checkClear's test: no cell of the row is 0. */
  predicate Full(r: Row) {
    forall x :: 0 <= x < |r| ==> r[x] != 0
  }

  /** The number of full rows. */
  function CountFull(rows: seq<Row>): nat {
    if rows == [] then 0
    else CountFull(rows[..|rows| - 1]) + if Full(rows[|rows| - 1]) then 1 else 0
  }

  /** The rows that are not full, in their order. */
  function KeepOpen(rows: seq<Row>): seq<Row> {
    if rows == [] then []
    else KeepOpen(rows[..|rows| - 1]) + if Full(rows[|rows| - 1]) then [] else [rows[|rows| - 1]]
  }

  function Repeat(r: Row, k: nat): seq<Row> {
    seq(k, _ => r)
  }

  /** Row 0 once the sweep has passed it: emptied when it was full, as it was otherwise.
      The sweep never writes row 0 again, and every later clear copies it into row 1. */
  function TopRow(rows: seq<Row>): Row
    requires |rows| > 0
  {
    if Full(rows[0]) then Zeros(W) else rows[0]
  }

  /** The board once the sweep has dealt with rows 0 .. y-1: as many copies of the top
      row as there were full rows among them, then the rows among them that were not
      full, then the rows not reached yet. */
  function SweptTo(rows: seq<Row>, y: nat): (r: seq<Row>)
    requires 0 < |rows| && y <= |rows|
    ensures |r| == |rows|
  {
    CountKeepLength(rows[..y]);
    Repeat(TopRow(rows), CountFull(rows[..y])) + KeepOpen(rows[..y]) + rows[y..]
  }

  /** The sweep as written: rows 0 .. y-1 visited in order; a full row is cleared and
      rows 1 .. that row shift down. */
  function Sweep(rows: seq<Row>, y: nat): (r: seq<Row>)
    requires 0 < |rows| && y <= |rows|
    ensures |r| == |rows|
  {
    if y == 0 then rows
    else
      var cur := Sweep(rows, y - 1);
      if Full(rows[y - 1]) then ShiftedDown(cur[y - 1 := Zeros(W)], y - 1) else cur
  }

  /** The board after checkClear. */
  function Compacted(rows: seq<Row>): (r: seq<Row>)
    requires 0 < |rows|
    ensures |r| == |rows|
  {
    Sweep(rows, |rows|)
  }

  /** checkClear on the board value: rows compacted, the cells above the top untouched. */
  function Cleared(b: Board): Board
    requires IsGrid(b.rows)
  {
    Board(Compacted(b.rows), b.above)
  }

  /** blockFall(yMax): every row 1 .. yMax takes the old content of the row above it. */
  function ShiftedDown(rows: seq<Row>, yMax: int): (r: seq<Row>)
    ensures |r| == |rows|
    ensures 1 <= yMax < |rows| ==> r == rows[..1] + rows[..yMax] + rows[yMax + 1..]
  {
    seq(|rows|, i requires 0 <= i < |rows| => if 1 <= i <= yMax then rows[i - 1] else rows[i])
  }

  /** Every row is either full (counted) or kept. */
  lemma {:induction false} CountKeepLength(rows: seq<Row>)
    ensures CountFull(rows) + |KeepOpen(rows)| == |rows|
  {
    if rows != [] {
      CountKeepLength(rows[..|rows| - 1]);
    }
  }

  /** Every row is either full (counted) or kept, and the kept rows are rows of the input that are not full. */
  lemma {:induction false} CountKeep(rows: seq<Row>)
    ensures CountFull(rows) + |KeepOpen(rows)| == |rows|
    ensures forall i :: 0 <= i < |KeepOpen(rows)| ==> !Full(KeepOpen(rows)[i]) && KeepOpen(rows)[i] in rows
  {
    if rows != [] {
      var front := rows[..|rows| - 1];
      CountKeep(front);
      forall i | 0 <= i < |KeepOpen(front)| ensures KeepOpen(front)[i] in rows {
        assert KeepOpen(front)[i] in front;
      }
    }
  }

  /** The count is zero exactly when no row is full. */
  lemma {:induction false} NoFullRowIffCountZero(rows: seq<Row>)
    ensures CountFull(rows) == 0 <==> forall y :: 0 <= y < |rows| ==> !Full(rows[y])
  {
    if rows != [] {
      var front := rows[..|rows| - 1];
      NoFullRowIffCountZero(front);
      assert forall y :: 0 <= y < |front| ==> front[y] == rows[y];
    }
  }

  /** Counting one more row of the sweep. */
  lemma CountStep(rows: seq<Row>, y: nat)
    requires y < |rows|
    ensures CountFull(rows[..y + 1]) == CountFull(rows[..y]) + if Full(rows[y]) then 1 else 0
  {
    assert rows[..y + 1][..y] == rows[..y];
  }

  /** Without full rows nothing is dropped. */
  lemma {:induction false} OpenRowsKept(rows: seq<Row>)
    requires CountFull(rows) == 0
    ensures KeepOpen(rows) == rows
  {
    if rows != [] {
      var front := rows[..|rows| - 1];
      OpenRowsKept(front);
      assert rows == front + [rows[|rows| - 1]];
    }
  }

  /** One step of the sweep as written: when row y (not yet reached, so still as it
      was on entry) is full, clearLine(y) then blockFall(y) take the board from
      SweptTo(rows, y) to SweptTo(rows, y + 1); otherwise nothing changes. */
  lemma SweepStep(rows: seq<Row>, y: nat)
    requires 0 < |rows| && y < |rows|
    ensures SweptTo(rows, y)[y] == rows[y]
    ensures SweptTo(rows, y + 1) ==
      if Full(rows[y]) then ShiftedDown(SweptTo(rows, y)[y := Zeros(W)], y) else SweptTo(rows, y)
  {
    if Full(rows[y]) {
      SweepStepFull(rows, y);
    } else {
      SweepStepOpen(rows, y);
    }
  }

  /** The sweep so far: the front y rows, then row y and below as they were. */
  lemma SweptToSplit(rows: seq<Row>, y: nat)
    requires 0 < |rows| && y < |rows|
    ensures SweptTo(rows, y) == Repeat(TopRow(rows), CountFull(rows[..y])) + KeepOpen(rows[..y]) + rows[y..]
    ensures |Repeat(TopRow(rows), CountFull(rows[..y])) + KeepOpen(rows[..y])| == y
    ensures SweptTo(rows, y)[y] == rows[y]
  {
    CountKeepLength(rows[..y]);
  }

  /** An open row y is kept in place: one more open row at the end of the front. */
  lemma SweepStepOpen(rows: seq<Row>, y: nat)
    requires 0 < |rows| && y < |rows| && !Full(rows[y])
    ensures SweptTo(rows, y)[y] == rows[y]
    ensures SweptTo(rows, y + 1) == SweptTo(rows, y)
  {
    var p := rows[..y];
    var q := rows[..y + 1];
    assert q[..|q| - 1] == p;
    assert q[|q| - 1] == rows[y];
    SweptToSplit(rows, y);
    assert rows[y..] == [rows[y]] + rows[y + 1..];
    assert SweptTo(rows, y + 1) == Repeat(TopRow(rows), CountFull(p)) + (KeepOpen(p) + [rows[y]]) + rows[y + 1..];
  }

  /** A full row y is blanked and rows 1..y shift down one: one more copy of the top
      row in front. */
  lemma SweepStepFull(rows: seq<Row>, y: nat)
    requires 0 < |rows| && y < |rows| && Full(rows[y])
    ensures SweptTo(rows, y)[y] == rows[y]
    ensures SweptTo(rows, y + 1) == ShiftedDown(SweptTo(rows, y)[y := Zeros(W)], y)
  {
    var p := rows[..y];
    var q := rows[..y + 1];
    assert q[..|q| - 1] == p;
    assert q[|q| - 1] == rows[y];
    SweptToSplit(rows, y);
    CountKeep(p);
    var z := TopRow(rows);
    var k := CountFull(p);
    var front := Repeat(z, k) + KeepOpen(p);
    var cur := SweptTo(rows, y);
    var next := ShiftedDown(cur[y := Zeros(W)], y);
    var want := SweptTo(rows, y + 1);
    assert want == Repeat(z, k + 1) + KeepOpen(p) + rows[y + 1..];
    if y > 0 {
      if k == 0 {
        OpenRowsKept(p);
        assert !Full(p[0]);
      }
      assert cur[0] == z;
    }
    forall i | 0 <= i < |rows| ensures next[i] == want[i] {
      if i == 0 {
      } else if i <= y {
        assert next[i] == cur[i - 1] == front[i - 1];
      } else {
        assert next[i] == cur[i] == rows[i];
      }
    }
    assert next == want;
  }


  lemma {:induction false} SweepClosedForm(rows: seq<Row>, y: nat)
    requires 0 < |rows| && y <= |rows|
    ensures Sweep(rows, y) == SweptTo(rows, y)
  {
    if y == 0 {
      assert rows[..0] == [];
    } else {
      var prev := Sweep(rows, y - 1);
      SweepClosedForm(rows, y - 1);
      SweepStep(rows, y - 1);
      if Full(rows[y - 1]) {
        assert Sweep(rows, y) == ShiftedDown(prev[y - 1 := Zeros(W)], y - 1);
      } else {
        assert Sweep(rows, y) == prev;
      }
    }
  }

  /** What checkClear leaves: one copy of the top row per full row, then the rows that
      were not full, in their order. */
  lemma CompactedClosedForm(rows: seq<Row>)
    requires 0 < |rows|
    ensures Compacted(rows) == Repeat(TopRow(rows), CountFull(rows)) + KeepOpen(rows)
  {
    SweepClosedForm(rows, |rows|);
    assert rows[..|rows|] == rows;
    assert rows[|rows|..] == [];
  }

  /** Rows that are not full do not change the sweep. */
  lemma {:induction false} SweepSkipsOpenRows(rows: seq<Row>, y: nat, n: nat)
    requires 0 < |rows| && y <= n <= |rows|
    requires forall j :: y <= j < n ==> !Full(rows[j])
    ensures Sweep(rows, n) == Sweep(rows, y)
    decreases n - y
  {
    if n > y {
      SweepSkipsOpenRows(rows, y, n - 1);
      assert !Full(rows[n - 1]);
    }
  }

  /** checkClear leaves a board of the same size, with no full row, and keeps a 0/1 board 0/1. */
  lemma NoFullRowAfterClear(rows: seq<Row>)
    requires IsGrid(rows)
    ensures IsGrid(Compacted(rows))
    ensures Binary(rows) ==> Binary(Compacted(rows))
    ensures forall y :: 0 <= y < H ==> !Full(Compacted(rows)[y])
  {
    CountKeep(rows);
    CompactedClosedForm(rows);
    var z := TopRow(rows);
    assert Zeros(W)[0] == 0;
    assert !Full(z) && |z| == W;
    var c := Compacted(rows);
    var k := CountFull(rows);
    assert c == Repeat(z, k) + KeepOpen(rows);
    forall y | 0 <= y < H ensures |c[y]| == W && !Full(c[y]) && (Binary(rows) ==> c[y] == z || c[y] in rows) {
      if y >= k {
        assert c[y] == KeepOpen(rows)[y - k];
      }
    }
  }

  /** On a board with no full row, checkClear changes nothing. */
  lemma ClearWithoutFullRowIsIdentity(rows: seq<Row>)
    requires 0 < |rows|
    requires forall y :: 0 <= y < |rows| ==> !Full(rows[y])
    ensures Compacted(rows) == rows
  {
    NoFullRowIffCountZero(rows);
    OpenRowsKept(rows);
    CompactedClosedForm(rows);
  }

  /** A second checkClear changes nothing. */
  lemma ClearIsIdempotent(rows: seq<Row>)
    requires IsGrid(rows)
    ensures Compacted(Compacted(rows)) == Compacted(rows)
  {
    NoFullRowAfterClear(rows);
    ClearWithoutFullRowIsIdentity(Compacted(rows));
  }

  /** Rows below the lowest full row are untouched. */
  lemma RowsBelowLastFullUntouched(rows: seq<Row>, y: nat)
    requires 0 < |rows| && y <= |rows|
    requires forall j :: y <= j < |rows| ==> !Full(rows[j])
    ensures Compacted(rows)[y..] == rows[y..]
  {
    SweepSkipsOpenRows(rows, y, |rows|);
    SweepClosedForm(rows, y);
    CountKeepLength(rows[..y]);
  }

  /** The two bottom rows full and no other: the rows above move down by exactly two
      (row H - 3 ends in row H - 1) and row 0's content fills rows 0, 1 and 2. */
  lemma BottomTwoRowsCleared(rows: seq<Row>)
    requires IsGrid(rows)
    requires Full(rows[H - 2]) && Full(rows[H - 1])
    requires forall y :: 0 <= y < H - 2 ==> !Full(rows[y])
    ensures Compacted(rows) == [rows[0], rows[0]] + rows[..H - 2]
    ensures Compacted(rows)[H - 1] == rows[H - 3]
  {
    var p := rows[..H - 2];
    var q := rows[..H - 1];
    assert forall y :: 0 <= y < |p| ==> p[y] == rows[y];
    NoFullRowIffCountZero(p);
    OpenRowsKept(p);
    assert q[..|q| - 1] == p && q[|q| - 1] == rows[H - 2];
    assert rows[..H] == rows && rows[..H][..H - 1] == q;
    CompactedClosedForm(rows);
    assert CountFull(rows) == 2 && KeepOpen(rows) == p;
    assert TopRow(rows) == rows[0];
    assert Repeat(rows[0], 2) == [rows[0], rows[0]];
    assert rows[H..] == [];
  }
}
