/**
 * The anti-ghosting filter of process_record_user: count the closed switches of every
 * row and every column, and reject a press whose row and column both hold two or more.
 */
module GhostFilter {
  import opened KeymapTypes

  /** A snapshot of the switch matrix: `m[r][c]` holds when the switch at row r, column c is closed. */
  predicate IsMatrix(m: seq<seq<bool>>) {
    |m| == MATRIX_ROWS && forall r :: 0 <= r < |m| ==> |m[r]| == MATRIX_COLS
  }

  /** The number of true entries of `s`. */
  function CountTrue(s: seq<bool>): (n: nat)
    ensures n <= |s|
  {
    if s == [] then 0 else CountTrue(s[..|s| - 1]) + (if s[|s| - 1] then 1 else 0)
  }

  /** Column c of the first n rows of `m`. */
  function Column(m: seq<seq<bool>>, c: nat, n: nat): (col: seq<bool>)
    requires n <= |m|
    requires forall r :: 0 <= r < n ==> c < |m[r]|
  {
    seq(n, r requires 0 <= r < n => m[r][c])
  }

  function RowCount(m: seq<seq<bool>>, r: nat): nat
    requires IsMatrix(m) && r < MATRIX_ROWS
  {
    CountTrue(m[r])
  }

  function ColCount(m: seq<seq<bool>>, c: nat): nat
    requires IsMatrix(m) && c < MATRIX_COLS
  {
    CountTrue(Column(m, c, MATRIX_ROWS))
  }

  /**
   * The ghosting condition for a press at (row, col): two or more closed switches in its row
   * and two or more in its column. Then some other switch in its row and some other switch in
   * its column are closed, whether or not the pressed switch itself reads closed.
   */
  predicate Ghosted(m: seq<seq<bool>>, row: nat, col: nat)
    requires IsMatrix(m) && row < MATRIX_ROWS && col < MATRIX_COLS
    ensures Ghosted(m, row, col) ==>
              (exists c2 :: 0 <= c2 < MATRIX_COLS && c2 != col && m[row][c2]) &&
              (exists r2 :: 0 <= r2 < MATRIX_ROWS && r2 != row && m[r2][col])
  {
    OtherClosedInRow(m, row, col);
    OtherClosedInColumn(m, row, col);
    RowCount(m, row) >= 2 && ColCount(m, col) >= 2
  }

  lemma OtherClosedInRow(m: seq<seq<bool>>, row: nat, col: nat)
    requires IsMatrix(m) && row < MATRIX_ROWS && col < MATRIX_COLS
    ensures RowCount(m, row) >= 2 ==> exists c2 :: 0 <= c2 < MATRIX_COLS && c2 != col && m[row][c2]
  {
    if RowCount(m, row) >= 2 {
      var c2 := AnotherTrue(m[row], col);
    }
  }

  lemma OtherClosedInColumn(m: seq<seq<bool>>, row: nat, col: nat)
    requires IsMatrix(m) && row < MATRIX_ROWS && col < MATRIX_COLS
    ensures ColCount(m, col) >= 2 ==> exists r2 :: 0 <= r2 < MATRIX_ROWS && r2 != row && m[r2][col]
  {
    if ColCount(m, col) >= 2 {
      var r2 := AnotherTrue(Column(m, col, MATRIX_ROWS), row);
      assert m[r2][col];
    }
  }

  lemma PrefixStep(s: seq<bool>, k: nat)
    requires k < |s|
    ensures CountTrue(s[..k + 1]) == CountTrue(s[..k]) + (if s[k] then 1 else 0)
  {
    assert s[..k + 1][..k] == s[..k];
  }

  lemma ColumnStep(m: seq<seq<bool>>, c: nat, n: nat)
    requires IsMatrix(m) && c < MATRIX_COLS && n < MATRIX_ROWS
    ensures CountTrue(Column(m, c, n + 1)) == CountTrue(Column(m, c, n)) + (if m[n][c] then 1 else 0)
  {
    assert Column(m, c, n + 1)[..n] == Column(m, c, n);
  }

  /**
   * The counting loops: rowsActive[r] and colsActive[c] end up as the number of closed
   * switches in row r and column c. The 8-bit counters cannot overflow, since a row has
   * 18 switches and a column 8.
   */
  method CountActive(m: seq<seq<bool>>) returns (rowsActive: seq<u8>, colsActive: seq<u8>)
    requires IsMatrix(m)
    ensures |rowsActive| == MATRIX_ROWS && |colsActive| == MATRIX_COLS
    ensures forall r :: 0 <= r < MATRIX_ROWS ==> rowsActive[r] as nat == RowCount(m, r)
    ensures forall c :: 0 <= c < MATRIX_COLS ==> colsActive[c] as nat == ColCount(m, c)
  {
    var rows := new u8[MATRIX_ROWS](_ => 0);
    var cols := new u8[MATRIX_COLS](_ => 0);
    var row := 0;
    while row < MATRIX_ROWS
      invariant 0 <= row <= MATRIX_ROWS
      invariant forall r :: 0 <= r < row ==> rows[r] as nat == CountTrue(m[r])
      invariant forall r :: row <= r < MATRIX_ROWS ==> rows[r] == 0
      invariant forall c :: 0 <= c < MATRIX_COLS ==> cols[c] as nat == CountTrue(Column(m, c, row))
    {
      CountRow(m, row, rows, cols);
      row := row + 1;
    }
    rowsActive := rows[..];
    colsActive := cols[..];
  }

  /** One pass of the inner loop: row `row` is counted into rows[row] and into every column counter. */
  method CountRow(m: seq<seq<bool>>, row: nat, rows: array<u8>, cols: array<u8>)
    requires IsMatrix(m) && row < MATRIX_ROWS
    requires rows.Length == MATRIX_ROWS && cols.Length == MATRIX_COLS && rows != cols
    requires rows[row] == 0
    requires forall c :: 0 <= c < MATRIX_COLS ==> cols[c] as nat == CountTrue(Column(m, c, row))
    modifies rows, cols
    ensures rows[row] as nat == CountTrue(m[row])
    ensures forall r :: 0 <= r < MATRIX_ROWS && r != row ==> rows[r] == old(rows[r])
    ensures forall c :: 0 <= c < MATRIX_COLS ==> cols[c] as nat == CountTrue(Column(m, c, row + 1))
  {
    var col := 0;
    while col < MATRIX_COLS
      invariant 0 <= col <= MATRIX_COLS
      invariant rows[row] as nat == CountTrue(m[row][..col])
      invariant forall r :: 0 <= r < MATRIX_ROWS && r != row ==> rows[r] == old(rows[r])
      invariant forall c :: 0 <= c < col ==> cols[c] as nat == CountTrue(Column(m, c, row + 1))
      invariant forall c :: col <= c < MATRIX_COLS ==> cols[c] as nat == CountTrue(Column(m, c, row))
    {
      PrefixStep(m[row], col);
      ColumnStep(m, col, row);
      if m[row][col] {
        rows[row] := rows[row] + 1;
        cols[col] := cols[col] + 1;
      }
      col := col + 1;
    }
    assert m[row][..MATRIX_COLS] == m[row];
  }

  lemma {:induction false} CountTrueNone(s: seq<bool>)
    requires forall j :: 0 <= j < |s| ==> !s[j]
    ensures CountTrue(s) == 0
  {
    if s != [] {
      CountTrueNone(s[..|s| - 1]);
    }
  }

  /** A sequence whose only possibly-true entry is at k has at most one true entry. */
  lemma {:induction false} CountTrueAtMostOne(s: seq<bool>, k: nat)
    requires k < |s|
    requires forall j :: 0 <= j < |s| && j != k ==> !s[j]
    ensures CountTrue(s) <= 1
  {
    var last := |s| - 1;
    if last == k {
      CountTrueNone(s[..last]);
    } else {
      CountTrueAtMostOne(s[..last], k);
    }
  }

  lemma {:induction false} CountTrueAtLeastOne(s: seq<bool>, i: nat)
    requires i < |s| && s[i]
    ensures CountTrue(s) >= 1
  {
    var last := |s| - 1;
    if i < last {
      CountTrueAtLeastOne(s[..last], i);
    }
  }

  /** Two distinct true entries make a count of at least two. */
  lemma {:induction false} CountTrueAtLeastTwo(s: seq<bool>, i: nat, j: nat)
    requires i < j < |s| && s[i] && s[j]
    ensures CountTrue(s) >= 2
  {
    var last := |s| - 1;
    if j == last {
      CountTrueAtLeastOne(s[..last], i);
    } else {
      CountTrueAtLeastTwo(s[..last], i, j);
    }
  }

  /** A count of two or more leaves a true entry besides any given one. */
  lemma AnotherTrue(s: seq<bool>, k: nat) returns (j: nat)
    requires k < |s| && CountTrue(s) >= 2
    ensures j < |s| && j != k && s[j]
  {
    if forall i :: 0 <= i < |s| && i != k ==> !s[i] {
      CountTrueAtMostOne(s, k);
      assert false;
    }
    j :| 0 <= j < |s| && j != k && s[j];
  }

  lemma TwoTrue(s: seq<bool>, i: nat, j: nat)
    requires i < |s| && j < |s| && i != j && s[i] && s[j]
    ensures CountTrue(s) >= 2
  {
    if i < j { CountTrueAtLeastTwo(s, i, j); } else { CountTrueAtLeastTwo(s, j, i); }
  }

  /**
   * When the pressed switch itself reads closed, the filter rejects it exactly when some
   * other switch in its row and some other switch in its column are closed too.
   */
  lemma GhostedIffOtherInRowAndColumn(m: seq<seq<bool>>, row: nat, col: nat)
    requires IsMatrix(m) && row < MATRIX_ROWS && col < MATRIX_COLS && m[row][col]
    ensures Ghosted(m, row, col) <==>
              (exists c2 :: 0 <= c2 < MATRIX_COLS && c2 != col && m[row][c2]) &&
              (exists r2 :: 0 <= r2 < MATRIX_ROWS && r2 != row && m[r2][col])
  {
    var column := Column(m, col, MATRIX_ROWS);
    if (exists c2 :: 0 <= c2 < MATRIX_COLS && c2 != col && m[row][c2]) &&
       (exists r2 :: 0 <= r2 < MATRIX_ROWS && r2 != row && m[r2][col]) {
      var c2 :| 0 <= c2 < MATRIX_COLS && c2 != col && m[row][c2];
      var r2 :| 0 <= r2 < MATRIX_ROWS && r2 != row && m[r2][col];
      TwoTrue(m[row], col, c2);
      TwoTrue(column, row, r2);
    }
  }

  /**
   * The classic ghost: with (row, col2) and (row2, col) closed, the phantom switch (row, col)
   * at the fourth corner of the rectangle reads closed and is rejected.
   */
  lemma RectangleGhostRejected(m: seq<seq<bool>>, row: nat, col: nat, row2: nat, col2: nat)
    requires IsMatrix(m) && row < MATRIX_ROWS && col < MATRIX_COLS
    requires row2 < MATRIX_ROWS && col2 < MATRIX_COLS && row2 != row && col2 != col
    requires m[row][col] && m[row][col2] && m[row2][col]
    ensures Ghosted(m, row, col)
  {
    GhostedIffOtherInRowAndColumn(m, row, col);
  }

  /** A press that is alone in its row, or alone in its column, is never rejected. */
  lemma IsolatedPressAccepted(m: seq<seq<bool>>, row: nat, col: nat)
    requires IsMatrix(m) && row < MATRIX_ROWS && col < MATRIX_COLS
    requires (forall c :: 0 <= c < MATRIX_COLS && c != col ==> !m[row][c]) ||
             (forall r :: 0 <= r < MATRIX_ROWS && r != row ==> !m[r][col])
    ensures !Ghosted(m, row, col)
  {
    if forall c :: 0 <= c < MATRIX_COLS && c != col ==> !m[row][c] {
      CountTrueAtMostOne(m[row], col);
    } else {
      CountTrueAtMostOne(Column(m, col, MATRIX_ROWS), row);
    }
  }

  /** A press while every other switch is open is accepted. */
  lemma LonePressAccepted(m: seq<seq<bool>>, row: nat, col: nat)
    requires IsMatrix(m) && row < MATRIX_ROWS && col < MATRIX_COLS
    requires forall r, c :: 0 <= r < MATRIX_ROWS && 0 <= c < MATRIX_COLS && (r, c) != (row, col) ==> !m[r][c]
    ensures !Ghosted(m, row, col)
  {
    IsolatedPressAccepted(m, row, col);
  }
}
