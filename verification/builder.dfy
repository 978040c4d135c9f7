/** The recursive builder (`buildTrie`, `nextPivotRow`, `nextPivotColumn`).

    A node covers a slice of consecutive rows at one column; it has one branch
    per run of rows with the same unit at that column. Each branch then skips
    ahead to the next column where its rows diverge, or ends at its first row's
    last unit, in which case the rows after it (all extending it) hang beneath a
    Bud, and a lone row becomes a Leaf. The Java loop over branches is the
    recursion of `BuildBranches` on the rows that remain after each branch.
 */
module Builder {
  import opened Cells
  import opened Strings
  import opened Trie

  /** Rows `row` to `rowLimit - 1` all reach past `column` and share their first
      `column` units: the shape of every slice `buildTrie` is called on. */
  ghost predicate Slice(t: Table, column: nat, row: nat, rowLimit: nat) {
    && row <= rowLimit <= |t|
    && forall r :: row <= r < rowLimit ==>
         column < |t[r]| && AgreeOn(t[r], t[row], 0, column)
  }

  /** The longest row, which bounds every column the builder visits. */
  function MaxLength(t: Table): (m: nat)
    ensures forall i :: 0 <= i < |t| ==> |t[i]| <= m
  {
    if |t| == 0 then 0
    else
      var m := MaxLength(t[1..]);
      assert forall i :: 1 <= i < |t| ==> t[i] == t[1..][i - 1];
      if |t[0]| > m then |t[0]| else m
  }

  /** The loop of `nextPivotRow` from row `r` on. */
  function ScanRows(t: Table, pivot: Char16, column: nat, r: nat, rowLimit: nat): (next: nat)
    requires r <= rowLimit <= |t|
    ensures r <= next <= rowLimit
    ensures forall k :: r <= k < next ==> column < |t[k]| && t[k][column] == pivot
    ensures next < rowLimit ==> |t[next]| <= column || t[next][column] != pivot
    decreases rowLimit - r
  {
    if r == rowLimit then rowLimit
    else if |t[r]| <= column || t[r][column] != pivot then r
    else ScanRows(t, pivot, column, r + 1, rowLimit)
  }

  /** The first row after `row` that is too short for `column` or has another
      unit than `pivot` there; `rowLimit` if there is none. */
  function NextPivotRow(t: Table, pivot: Char16, column: nat, row: nat, rowLimit: nat): (next: nat)
    requires row < rowLimit <= |t|
    ensures row < next <= rowLimit
    ensures forall k :: row < k < next ==> column < |t[k]| && t[k][column] == pivot
    ensures next < rowLimit ==> |t[next]| <= column || t[next][column] != pivot
  {
    ScanRows(t, pivot, column, row + 1, rowLimit)
  }

  /** The loop of `nextPivotColumn` from column `c` on; the rows after `row`
      already agree with it from `from` up to `c`. */
  function ScanColumns(t: Table, row: nat, rowLimit: nat, from: nat, c: nat): (next: nat)
    requires row < rowLimit <= |t| && from <= c <= |t[row]|
    requires forall k :: row < k < rowLimit ==> AgreeOn(t[k], t[row], from, c)
    ensures c <= next <= |t[row]|
    ensures forall k :: row < k < rowLimit ==> AgreeOn(t[k], t[row], from, next)
    ensures next < |t[row]| ==> NextPivotRow(t, t[row][next], next, row, rowLimit) < rowLimit
    decreases |t[row]| - c
  {
    if c == |t[row]| then c
    else if NextPivotRow(t, t[row][c], c, row, rowLimit) < rowLimit then c
    else
      AgreementGrows(t, row, rowLimit, from, c);
      ScanColumns(t, row, rowLimit, from, c + 1)
  }

  /** When no row after `row` differs from it at column `c`, their agreement
      extends over `c`. */
  lemma AgreementGrows(t: Table, row: nat, rowLimit: nat, from: nat, c: nat)
    requires row < rowLimit <= |t| && from <= c < |t[row]|
    requires forall k :: row < k < rowLimit ==> AgreeOn(t[k], t[row], from, c)
    requires NextPivotRow(t, t[row][c], c, row, rowLimit) == rowLimit
    ensures forall k :: row < k < rowLimit ==> AgreeOn(t[k], t[row], from, c + 1)
  {
    forall k | row < k < rowLimit
      ensures AgreeOn(t[k], t[row], from, c + 1)
    {
      assert AgreeOn(t[k], t[row], from, c);
      assert c < |t[k]| && t[k][c] == t[row][c];
    }
  }

  /** The first column after `column` at which some row after `row` (up to
      `rowLimit`) is too short or differs from row `row`; the length of row
      `row` if they all agree with it to its end. */
  function NextPivotColumn(t: Table, column: nat, row: nat, rowLimit: nat): (next: nat)
    requires row < rowLimit <= |t| && column < |t[row]|
    ensures column < next <= |t[row]|
    ensures forall k :: row < k < rowLimit ==> AgreeOn(t[k], t[row], column + 1, next)
    ensures next < |t[row]| ==>
      exists k :: row < k < rowLimit && !AgreeOn(t[k], t[row], next, next + 1)
  {
    var next := ScanColumns(t, row, rowLimit, column + 1, column + 1);
    if next < |t[row]| then
      var k := NextPivotRow(t, t[row][next], next, row, rowLimit);
      assert row < k < rowLimit && !AgreeOn(t[k], t[row], next, next + 1);
      next
    else next
  }

  /** In a sorted table, a later row that agrees with an earlier one on its
      first `n` units is strictly longer than `n`: otherwise it would be a
      prefix of, hence not above, the earlier row. */
  lemma AgreeingLaterRowIsLonger(t: Table, row: nat, r: nat, n: nat)
    requires Sorted(t) && row < r < |t|
    requires AgreeOn(t[r], t[row], 0, n)
    ensures n < |t[r]|
  {
    if |t[r]| == n {
      ExtensionNotBelow(t[r], t[row]);
    }
  }

  /** The rows of one branch: a slice whose rows all have the branch pivot at
      `column`. */
  ghost predicate BranchRows(t: Table, column: nat, row: nat, nextRow: nat) {
    && Slice(t, column, row, nextRow)
    && row < nextRow
    && forall r :: row <= r < nextRow ==> t[r][column] == t[row][column]
  }

  /** Some row after `row` and before `nextRow` differs from row `row` at
      `column`: the rows split there. */
  ghost predicate SplitAt(t: Table, row: nat, nextRow: nat, column: nat)
    requires row < nextRow <= |t|
  {
    exists k :: row < k < nextRow && !AgreeOn(t[k], t[row], column, column + 1)
  }

  /** A branch's rows are decided at `column` when they split there, or when
      `column` is the last unit of row `row` and further rows follow. */
  ghost predicate DecidesAt(t: Table, row: nat, nextRow: nat, column: nat)
    requires row < nextRow <= |t|
  {
    column < |t[row]| ==>
      || SplitAt(t, row, nextRow, column)
      || (column == |t[row]| - 1 && row + 1 < nextRow)
  }

  /** The column of a branch's next decision point: where its rows diverge,
      or its first row's end, moved back by one when that row ends more than
      one unit ahead and further rows continue past it, so that a Bud can be
      placed on its last unit. */
  function DecisionColumn(t: Table, column: nat, row: nat, nextRow: nat): (next: nat)
    requires Sorted(t) && BranchRows(t, column, row, nextRow)
    ensures column < next <= |t[row]|
    ensures next < |t[row]| ==> Slice(t, next, row, nextRow)
    ensures next == |t[row]| ==> Slice(t, next, row + 1, nextRow)
    ensures next == |t[row]| && row + 1 < nextRow ==> next == column + 1
    ensures nextRow == row + 1 ==> next == |t[row]|
    ensures DecidesAt(t, row, nextRow, next)
  {
    var scanned := NextPivotColumn(t, column, row, nextRow);
    var next :=
      if scanned == |t[row]| && scanned - column > 1 && nextRow - row > 1
      then scanned - 1 else scanned;
    ChildSlices(t, column, row, nextRow, scanned, next);
    next
  }

  /** The rows of a branch agree up to any column before the scanned one, and
      so form the slice of its child. */
  lemma ChildSlices(t: Table, column: nat, row: nat, nextRow: nat, scanned: nat, next: nat)
    requires Sorted(t) && BranchRows(t, column, row, nextRow)
    requires scanned <= |t[row]|
    requires forall k :: row < k < nextRow ==> AgreeOn(t[k], t[row], column + 1, scanned)
    requires column < next <= scanned
    ensures next < |t[row]| ==> Slice(t, next, row, nextRow)
    ensures next == |t[row]| ==> Slice(t, next, row + 1, nextRow)
  {
    forall r | row < r < nextRow
      ensures AgreeOn(t[r], t[row], 0, next) && next < |t[r]|
    {
      assert AgreeOn(t[r], t[row], column + 1, scanned);
      assert AgreeOn(t[r], t[row], 0, column);
      assert t[r][column] == t[row][column];
      AgreeingLaterRowIsLonger(t, row, r, next);
    }
    if next == |t[row]| {
      forall r | row + 1 < r < nextRow
        ensures AgreeOn(t[r], t[row + 1], 0, next)
      {
        assert AgreeOn(t[row + 1], t[row], 0, next);
        assert AgreeOn(t[r], t[row], 0, next);
      }
    }
  }

  /** The branch for rows `row` to `nextRow - 1`, all with the same unit at
      `column`: a Skip to the decision column with the subtree of the same
      rows; or, when the first row ends at the decision column, the subtree of
      the remaining rows under a Bud, or a Leaf if there are none. */
  function BuildBranch(t: Table, column: nat, row: nat, nextRow: nat): (b: Branch)
    requires Sorted(t) && BranchRows(t, column, row, nextRow)
    ensures b.pivot == t[row][column]
    ensures Shaped(b)
    ensures b.record.Leaf? <==> nextRow == row + 1
    ensures b.record.Bud? <==> row + 1 < nextRow && |t[row]| == column + 1
    ensures b.record.Skip? ==> column + b.record.delta < |t[row]|
    ensures !b.record.Skip? ==> b.record.index == LowBits(row)
    decreases nextRow - row, MaxLength(t) - column, 0
  {
    var next := DecisionColumn(t, column, row, nextRow);
    if next < |t[row]| then
      Branch(t[row][column], Skip(next - column), Node(BuildBranches(t, next, row, nextRow)))
    else
      var child := BuildBranches(t, next, row + 1, nextRow);
      Branch(t[row][column], if child == [] then Leaf(LowBits(row)) else Bud(LowBits(row)), Node(child))
  }

  /** The branches of the node for rows `row` to `rowLimit - 1` at `column`,
      one per run of rows with the same unit there. */
  function BuildBranches(t: Table, column: nat, row: nat, rowLimit: nat): (bs: seq<Branch>)
    requires Sorted(t) && Slice(t, column, row, rowLimit)
    ensures |bs| == 0 <==> row == rowLimit
    ensures |bs| <= rowLimit - row
    ensures row < rowLimit ==> forall k :: 0 <= k < |bs| ==> t[row][column] <= bs[k].pivot
    decreases rowLimit - row, MaxLength(t) - column, 1
  {
    if row == rowLimit then []
    else
      var nextRow := NextPivotRow(t, t[row][column], column, row, rowLimit);
      var b := BuildBranch(t, column, row, nextRow);
      var rest := BuildBranches(t, column, nextRow, rowLimit);
      NextBranchAbove(t, column, row, nextRow, rowLimit);
      [b] + rest
  }

  /** The rows after a branch form a slice whose column unit is above the
      branch pivot. */
  lemma NextBranchAbove(t: Table, column: nat, row: nat, nextRow: nat, rowLimit: nat)
    requires Sorted(t) && Slice(t, column, row, rowLimit) && row < rowLimit
    requires nextRow == NextPivotRow(t, t[row][column], column, row, rowLimit)
    ensures Slice(t, column, nextRow, rowLimit)
    ensures nextRow < rowLimit ==> t[row][column] < t[nextRow][column]
  {
    if nextRow < rowLimit {
      forall r | nextRow < r < rowLimit
        ensures AgreeOn(t[r], t[nextRow], 0, column)
      {
        assert AgreeOn(t[nextRow], t[row], 0, column);
      }
      ColumnOrdered(t[row], t[nextRow], column);
    }
  }

  /** Every branch the builder makes has a well-formed child. */
  lemma {:induction false} BuiltBranchWellFormed(t: Table, column: nat, row: nat, nextRow: nat)
    requires Sorted(t) && BranchRows(t, column, row, nextRow)
    ensures WellFormed(BuildBranch(t, column, row, nextRow).child)
    decreases nextRow - row, MaxLength(t) - column, 0
  {
    var next := DecisionColumn(t, column, row, nextRow);
    if next < |t[row]| {
      BuiltWellFormed(t, next, row, nextRow);
    } else {
      BuiltWellFormed(t, next, row + 1, nextRow);
    }
  }

  /** Every node the builder makes is well-formed: pivots ascend, and every
      branch is shaped, all the way down. */
  lemma {:induction false} BuiltWellFormed(t: Table, column: nat, row: nat, rowLimit: nat)
    requires Sorted(t) && Slice(t, column, row, rowLimit)
    ensures WellFormed(Node(BuildBranches(t, column, row, rowLimit)))
    decreases rowLimit - row, MaxLength(t) - column, 1
  {
    if row < rowLimit {
      var nextRow := NextPivotRow(t, t[row][column], column, row, rowLimit);
      NextBranchAbove(t, column, row, nextRow, rowLimit);
      BuiltBranchWellFormed(t, column, row, nextRow);
      BuiltWellFormed(t, column, nextRow, rowLimit);
      ConsWellFormed(BuildBranch(t, column, row, nextRow), BuildBranches(t, column, nextRow, rowLimit));
    }
  }

  /** The tree of one chunk of rows, `row` to `rowLimit - 1`, from column 0. */
  function BuildTrie(t: Table, row: nat, rowLimit: nat): (n: Node)
    requires Sorted(t) && NonEmptyRows(t) && row <= rowLimit <= |t|
    ensures WellFormed(n)
    ensures |n.branches| <= rowLimit - row
    ensures n.branches == [] <==> row == rowLimit
  {
    BuiltWellFormed(t, 0, row, rowLimit);
    Node(BuildBranches(t, 0, row, rowLimit))
  }

  /** Every row of a slice is found by the tree built for it, from the slice's
      column: the tree-level round trip. */
  lemma {:induction false} FindBuiltRow(t: Table, column: nat, row: nat, rowLimit: nat, i: nat)
    requires Sorted(t) && Slice(t, column, row, rowLimit) && row <= i < rowLimit
    ensures Find(Node(BuildBranches(t, column, row, rowLimit)), t[i], column) == LowBits(i)
    decreases rowLimit - row, MaxLength(t) - column, 1
  {
    var nextRow := NextPivotRow(t, t[row][column], column, row, rowLimit);
    var b := BuildBranch(t, column, row, nextRow);
    var rest := BuildBranches(t, column, nextRow, rowLimit);
    assert BuildBranches(t, column, row, rowLimit) == [b] + rest;
    if i < nextRow {
      FindTakesFirst(b, rest, t[i], column);
      FindBuiltBranch(t, column, row, nextRow, i);
    } else {
      NextBranchAbove(t, column, row, nextRow, rowLimit);
      if i > nextRow {
        ColumnOrdered(t[nextRow], t[i], column);
      }
      FindPastFirst(b, rest, t[i], column);
      FindBuiltRow(t, column, nextRow, rowLimit, i);
    }
  }

  /** The record and child `BuildBranch` gives a branch, in terms of its
      decision column. */
  lemma BuiltBranchParts(t: Table, column: nat, row: nat, nextRow: nat)
    requires Sorted(t) && BranchRows(t, column, row, nextRow)
    ensures DecisionColumn(t, column, row, nextRow) < |t[row]| ==>
      && BuildBranch(t, column, row, nextRow).record == Skip(DecisionColumn(t, column, row, nextRow) - column)
      && BuildBranch(t, column, row, nextRow).child ==
           Node(BuildBranches(t, DecisionColumn(t, column, row, nextRow), row, nextRow))
    ensures DecisionColumn(t, column, row, nextRow) == |t[row]| ==>
      BuildBranch(t, column, row, nextRow).child ==
        Node(BuildBranches(t, DecisionColumn(t, column, row, nextRow), row + 1, nextRow))
  {
  }

  /** Below a built Skip, the query goes on at the decision column in the
      child built from the same rows. */
  lemma FindBuiltSkip(t: Table, column: nat, row: nat, nextRow: nat, i: nat)
    requires Sorted(t) && BranchRows(t, column, row, nextRow) && row <= i < nextRow
    requires DecisionColumn(t, column, row, nextRow) < |t[row]|
    ensures Find(Node([BuildBranch(t, column, row, nextRow)]), t[i], column) ==
      Find(Node(BuildBranches(t, DecisionColumn(t, column, row, nextRow), row, nextRow)), t[i],
           DecisionColumn(t, column, row, nextRow))
  {
    var next := DecisionColumn(t, column, row, nextRow);
    var branch := BuildBranch(t, column, row, nextRow);
    BuiltBranchParts(t, column, row, nextRow);
    assert branch.record == Skip(next - column);
    assert BranchFor([branch], t[i][column]) == 0;
    assert Descends([branch], 0, t[i], column);
    FindAtNode(Node([branch]), t[i], column, 0);
  }

  /** Below a built Bud, a key that goes on past the Bud's unit is looked up
      one column further in the child built from the remaining rows. */
  lemma FindBuiltBud(t: Table, column: nat, row: nat, nextRow: nat, i: nat)
    requires Sorted(t) && BranchRows(t, column, row, nextRow) && row <= i < nextRow
    requires DecisionColumn(t, column, row, nextRow) == |t[row]| && row + 1 < nextRow
    requires column != |t[i]| - 1
    ensures Find(Node([BuildBranch(t, column, row, nextRow)]), t[i], column) ==
      Find(Node(BuildBranches(t, DecisionColumn(t, column, row, nextRow), row + 1, nextRow)), t[i],
           DecisionColumn(t, column, row, nextRow))
  {
    assert BranchFor([BuildBranch(t, column, row, nextRow)], t[i][column]) == 0;
    FindAtNode(Node([BuildBranch(t, column, row, nextRow)]), t[i], column, 0);
    BuiltBranchParts(t, column, row, nextRow);
  }

  /** A built Leaf, and a built Bud reached on a key's last unit, answer the
      branch's first row, which is then the row looked up. */
  lemma FindBuiltEnd(t: Table, column: nat, row: nat, nextRow: nat, i: nat)
    requires Sorted(t) && BranchRows(t, column, row, nextRow) && row <= i < nextRow
    requires DecisionColumn(t, column, row, nextRow) == |t[row]|
    requires row + 1 == nextRow || column == |t[i]| - 1
    ensures Find(Node([BuildBranch(t, column, row, nextRow)]), t[i], column) == LowBits(i)
  {
    assert BranchFor([BuildBranch(t, column, row, nextRow)], t[i][column]) == 0;
    FindAtNode(Node([BuildBranch(t, column, row, nextRow)]), t[i], column, 0);
    assert i == row;
  }

  /** Every row of a branch is found by following that branch. */
  lemma {:induction false} FindBuiltBranch(t: Table, column: nat, row: nat, nextRow: nat, i: nat)
    requires Sorted(t) && BranchRows(t, column, row, nextRow) && row <= i < nextRow
    ensures Find(Node([BuildBranch(t, column, row, nextRow)]), t[i], column) == LowBits(i)
    decreases nextRow - row, MaxLength(t) - column, 0
  {
    if DecisionColumn(t, column, row, nextRow) < |t[row]| {
      FindBuiltSkip(t, column, row, nextRow, i);
      FindBuiltRow(t, DecisionColumn(t, column, row, nextRow), row, nextRow, i);
    } else if row + 1 < nextRow && column != |t[i]| - 1 {
      FindBuiltBud(t, column, row, nextRow, i);
      FindBuiltRow(t, DecisionColumn(t, column, row, nextRow), row + 1, nextRow, i);
    } else {
      FindBuiltEnd(t, column, row, nextRow, i);
    }
  }
}
