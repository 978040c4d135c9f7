/** The three tries drawn in the class documentation of `ImmutableStringTrie`,
    rebuilt from their tables and walked with their keys.

    Each table is built into exactly the cells the documentation shows, and
    each cell array answers its rows. The proofs go level by level: first the
    builder's decisions (next pivot row, decision column) for each branch,
    then the tree, then its cells.
 */
module Samples {
  import opened Cells
  import opened Strings
  import opened Trie
  import opened Builder
  import opened Layout
  import opened Query
  import opened Chain

  /** The code units of a string literal whose characters all lie in the
      Basic Multilingual Plane. */
  function Units(s: string): (k: Key)
    requires forall i :: 0 <= i < |s| ==> s[i] as int < 0x1_0000
    ensures |k| == |s|
    ensures forall i :: 0 <= i < |s| ==> k[i] == s[i] as int
  {
    seq(|s|, i requires 0 <= i < |s| => s[i] as int)
  }

  // Cells of small nodes

  /** A node with a single branch is its three header cells followed by its
      child's cells: a single branch has no jump. */
  lemma OneBranchCells(b: Branch)
    ensures Encode(Node([b])) == [1, b.pivot, EncodeRecord(b.record)] + Encode(b.child)
  {
    var n := Node([b]);
    assert ChildCodes(n) == [Encode(b.child)];
    assert Flatten([Encode(b.child)]) == Encode(b.child);
    assert Pivots(n.branches) == [b.pivot];
    assert Records(n.branches) == [EncodeRecord(b.record)];
    assert Jumps([Encode(b.child)]) == [];
  }

  /** A node of two leaves is its branch count, pivots and records alone: no
      jump section, no children. */
  lemma TwoLeavesCells(p: Char16, v: nat, q: Char16, w: nat)
    ensures Encode(Node([Branch(p, Leaf(v), Node([])), Branch(q, Leaf(w), Node([]))]))
      == [2, p, q, EncodeRecord(Leaf(v)), EncodeRecord(Leaf(w))]
  {
    var n := Node([Branch(p, Leaf(v), Node([])), Branch(q, Leaf(w), Node([]))]);
    assert ChildCodes(n) == [[], []];
    assert AllLeaves(n.branches);
    assert Pivots(n.branches) == [p, q];
    assert Records(n.branches) == [EncodeRecord(Leaf(v)), EncodeRecord(Leaf(w))];
    assert Flatten([[], []]) == [];
  }

  /** A node whose first branch is a Leaf and whose second is not keeps its
      jump section: one jump of 0, since the Leaf has no child cells, and
      then the second branch's child. */
  lemma LeafThenChildCells(p: Char16, v: nat, q: Char16, r: Record, c: Node)
    requires !r.Leaf?
    ensures Encode(Node([Branch(p, Leaf(v), Node([])), Branch(q, r, c)]))
      == [2, p, q, EncodeRecord(Leaf(v)), EncodeRecord(r), 0] + Encode(c)
  {
    LeafThenChildHeader(p, v, q, r, c);
    assert [[], Encode(c)][1..] == [Encode(c)];
    assert Flatten([Encode(c)]) == Encode(c);
  }

  /** The header of such a node. */
  lemma LeafThenChildHeader(p: Char16, v: nat, q: Char16, r: Record, c: Node)
    requires !r.Leaf?
    ensures ChildCodes(Node([Branch(p, Leaf(v), Node([])), Branch(q, r, c)])) == [[], Encode(c)]
    ensures Header([Branch(p, Leaf(v), Node([])), Branch(q, r, c)], [[], Encode(c)])
      == [2, p, q, EncodeRecord(Leaf(v)), EncodeRecord(r), 0]
  {
    var n := Node([Branch(p, Leaf(v), Node([])), Branch(q, r, c)]);
    assert ChildCodes(n) == [[], Encode(c)];
    assert !n.branches[1].record.Leaf?;
    assert Pivots(n.branches) == [p, q];
    assert Records(n.branches) == [EncodeRecord(Leaf(v)), EncodeRecord(r)];
    assert Offset([[], Encode(c)], 1) == 0;
    assert Jumps([[], Encode(c)]) == [0];
  }

  // getValue, setValue: the first unit decides

  function SimpleTable(): Table { [Units("getValue"), Units("setValue")] }

  function SimpleBlob(): Blob { [2, 'g' as int, 's' as int, 0x8000, 0x8001] }

  lemma SimpleSorted()
    ensures Sorted(SimpleTable()) && NonEmptyRows(SimpleTable())
  {
    DifferenceBelow(SimpleTable()[0], SimpleTable()[1], 0);
  }

  lemma SimpleFirstBranch()
    ensures Sorted(SimpleTable())
    ensures BuildBranch(SimpleTable(), 0, 0, 1) == Branch('g' as int, Leaf(0), Node([]))
  {
    SimpleSorted();
    assert DecisionColumn(SimpleTable(), 0, 0, 1) == 8;
  }

  lemma SimpleTree()
    ensures Sorted(SimpleTable()) && NonEmptyRows(SimpleTable())
    ensures BuildTrie(SimpleTable(), 0, 2) ==
      Node([Branch('g' as int, Leaf(0), Node([])), Branch('s' as int, Leaf(1), Node([]))])
  {
    SimpleSorted();
    SimpleFirstBranch();
    assert NextPivotRow(SimpleTable(), 'g' as int, 0, 0, 2) == 1;
    assert NextPivotRow(SimpleTable(), 's' as int, 0, 1, 2) == 2;
    assert DecisionColumn(SimpleTable(), 0, 1, 2) == 8;
    assert BuildBranch(SimpleTable(), 0, 1, 2) == Branch('s' as int, Leaf(1), Node([]));
  }

  /** The cells of the getValue, setValue tree. */
  lemma SimpleCells()
    ensures Encode(Node([Branch('g' as int, Leaf(0), Node([])), Branch('s' as int, Leaf(1), Node([]))]))
      == SimpleBlob()
  {
    TwoLeavesCells('g' as int, 0, 's' as int, 1);
  }

  /** Building getValue, setValue gives the documented cells: two leaves, no
      jumps. */
  lemma SimpleExample()
    ensures Sorted(SimpleTable()) && NonEmptyRows(SimpleTable())
    ensures Build(SimpleTable()) == Single(SimpleBlob())
  {
    SimpleTree();
    SimpleCells();
  }

  /** The documented cells answer both rows; a key that is no row but starts
      with a pivot gets that pivot's index (a false positive), and one that
      starts with no pivot is reported absent. */
  lemma SimpleLookups()
    ensures Lookup(SimpleBlob(), Units("getValue")) == Returned(0)
    ensures Lookup(SimpleBlob(), Units("setValue")) == Returned(1)
    ensures Lookup(SimpleBlob(), Units("gone")) == Returned(0)
    ensures Lookup(SimpleBlob(), Units("value")) == Returned(NOT_FOUND)
  {
  }

  // getName, getNameAndValue: a bud

  function BudTable(): Table { [Units("getName"), Units("getNameAndValue")] }

  function BudBlob(): Blob { [1, 'g' as int, 6, 1, 'e' as int, 0x4000, 1, 'A' as int, 0x8001] }

  lemma BudSorted()
    ensures Sorted(BudTable()) && NonEmptyRows(BudTable())
  {
    PrefixBelow(BudTable()[0], BudTable()[1]);
  }

  lemma BudLeaf()
    ensures Sorted(BudTable())
    ensures BuildBranches(BudTable(), 7, 1, 2) == [Branch('A' as int, Leaf(1), Node([]))]
  {
    BudSorted();
    assert NextPivotRow(BudTable(), 'A' as int, 7, 1, 2) == 2;
    assert DecisionColumn(BudTable(), 7, 1, 2) == 15;
  }

  lemma BudBud()
    ensures Sorted(BudTable())
    ensures BuildBranches(BudTable(), 6, 0, 2) ==
      [Branch('e' as int, Bud(0), Node([Branch('A' as int, Leaf(1), Node([]))]))]
  {
    BudSorted();
    BudLeaf();
    assert NextPivotRow(BudTable(), 'e' as int, 6, 0, 2) == 2;
    assert DecisionColumn(BudTable(), 6, 0, 2) == 7;
  }

  lemma BudRoot()
    ensures NextPivotRow(BudTable(), 'g' as int, 0, 0, 2) == 2
    ensures NextPivotColumn(BudTable(), 0, 0, 2) == 7
    ensures BranchRows(BudTable(), 0, 0, 2)
  {
    assert NextPivotRow(BudTable(), 'g' as int, 0, 0, 2) == 2;
  }

  /** The rows agree to the end of getName, so the branch of `g` skips to
      column 6, one short of that end, where a Bud can mark it. */
  lemma BudTree()
    ensures Sorted(BudTable()) && NonEmptyRows(BudTable())
    ensures BuildTrie(BudTable(), 0, 2) ==
      Node([Branch('g' as int, Skip(6),
        Node([Branch('e' as int, Bud(0), Node([Branch('A' as int, Leaf(1), Node([]))]))]))])
  {
    BudSorted();
    BudBud();
    BudRoot();
    assert DecisionColumn(BudTable(), 0, 0, 2) == 6;
  }

  /** The cells of the getName, getNameAndValue tree. */
  lemma BudCells()
    ensures Encode(Node([Branch('g' as int, Skip(6),
        Node([Branch('e' as int, Bud(0), Node([Branch('A' as int, Leaf(1), Node([]))]))]))]))
      == BudBlob()
  {
    OneBranchCells(Branch('A' as int, Leaf(1), Node([])));
    OneBranchCells(Branch('e' as int, Bud(0), Node([Branch('A' as int, Leaf(1), Node([]))])));
    OneBranchCells(Branch('g' as int, Skip(6),
      Node([Branch('e' as int, Bud(0), Node([Branch('A' as int, Leaf(1), Node([]))]))])));
  }

  /** Building getName, getNameAndValue gives the documented cells: a skip of
      6, a bud on `e`, and a leaf below it. */
  lemma BudExample()
    ensures Sorted(BudTable()) && NonEmptyRows(BudTable())
    ensures Build(BudTable()) == Single(BudBlob())
  {
    BudTree();
    BudCells();
  }

  /** The bud answers a key that ends on it. */
  lemma BudLookupName()
    ensures Lookup(BudBlob(), BudTable()[0]) == Returned(0)
  {
    assert StepAt(BudBlob(), BudTable()[0], 0, 0) == Move(6, 3);
    assert StepAt(BudBlob(), BudTable()[0], 6, 3) == Stop(Returned(0));
  }

  /** A key that goes on past the bud advances by one unit into the trie
      below it. */
  lemma BudLookupNameAndValue()
    ensures Lookup(BudBlob(), BudTable()[1]) == Returned(1)
  {
    assert BudTable()[1][0] == 'g' as int && BudTable()[1][6] == 'e' as int;
    assert BudTable()[1][7] == 'A' as int && |BudTable()[1]| == 15;
    assert BinarySearch(BudBlob(), 1, 2, 'g' as int) == 1;
    assert StepAt(BudBlob(), BudTable()[1], 0, 0) == Move(6, 3);
    assert BinarySearch(BudBlob(), 4, 5, 'e' as int) == 4;
    assert StepAt(BudBlob(), BudTable()[1], 6, 3) == Move(7, 6);
    assert BinarySearch(BudBlob(), 7, 8, 'A' as int) == 7;
    assert StepAt(BudBlob(), BudTable()[1], 7, 6) == Stop(Returned(1));
  }

  // getName, getValue, getVersion: a jump

  function ComplexTable(): Table { [Units("getName"), Units("getValue"), Units("getVersion")] }

  function ComplexBlob(): Blob {
    [1, 'g' as int, 3, 2, 'N' as int, 'V' as int, 0x8000, 1, 0, 2, 'a' as int, 'e' as int, 0x8001, 0x8002]
  }

  lemma ComplexSorted()
    ensures Sorted(ComplexTable()) && NonEmptyRows(ComplexTable())
  {
    DifferenceBelow(ComplexTable()[0], ComplexTable()[1], 3);
    DifferenceBelow(ComplexTable()[1], ComplexTable()[2], 4);
    DifferenceBelow(ComplexTable()[0], ComplexTable()[2], 3);
  }

  lemma ComplexLeafA()
    ensures Sorted(ComplexTable()) && BranchRows(ComplexTable(), 4, 1, 2)
    ensures BuildBranch(ComplexTable(), 4, 1, 2) == Branch('a' as int, Leaf(1), Node([]))
  {
    ComplexSorted();
    assert DecisionColumn(ComplexTable(), 4, 1, 2) == 8;
  }

  lemma ComplexLeafE()
    ensures Sorted(ComplexTable()) && BranchRows(ComplexTable(), 4, 2, 3)
    ensures BuildBranch(ComplexTable(), 4, 2, 3) == Branch('e' as int, Leaf(2), Node([]))
  {
    ComplexSorted();
    assert DecisionColumn(ComplexTable(), 4, 2, 3) == 10;
  }

  /** The branches below `V`. */
  function ComplexLeaves(): seq<Branch> {
    [Branch('a' as int, Leaf(1), Node([])), Branch('e' as int, Leaf(2), Node([]))]
  }

  /** The branches below `g`. */
  function ComplexMiddle(): seq<Branch> {
    [Branch('N' as int, Leaf(0), Node([])), Branch('V' as int, Skip(1), Node(ComplexLeaves()))]
  }

  lemma ComplexLeavesBuilt()
    ensures Sorted(ComplexTable())
    ensures BuildBranches(ComplexTable(), 4, 1, 3) == ComplexLeaves()
  {
    ComplexSorted();
    ComplexLeafA();
    ComplexLeafE();
    assert NextPivotRow(ComplexTable(), 'a' as int, 4, 1, 3) == 2;
    assert NextPivotRow(ComplexTable(), 'e' as int, 4, 2, 3) == 3;
  }

  lemma ComplexLeafN()
    ensures Sorted(ComplexTable()) && BranchRows(ComplexTable(), 3, 0, 1)
    ensures BuildBranch(ComplexTable(), 3, 0, 1) == Branch('N' as int, Leaf(0), Node([]))
  {
    ComplexSorted();
    assert DecisionColumn(ComplexTable(), 3, 0, 1) == 7;
  }

  lemma ComplexSkipColumn()
    ensures BranchRows(ComplexTable(), 3, 1, 3)
    ensures NextPivotColumn(ComplexTable(), 3, 1, 3) == 4
  {
    assert NextPivotRow(ComplexTable(), 'a' as int, 4, 1, 3) == 2;
  }

  lemma ComplexSkipV()
    ensures Sorted(ComplexTable()) && BranchRows(ComplexTable(), 3, 1, 3)
    ensures BuildBranch(ComplexTable(), 3, 1, 3) == Branch('V' as int, Skip(1), Node(ComplexLeaves()))
  {
    ComplexSorted();
    ComplexLeavesBuilt();
    ComplexSkipColumn();
    assert DecisionColumn(ComplexTable(), 3, 1, 3) == 4;
  }

  lemma ComplexMiddleRest()
    ensures Sorted(ComplexTable())
    ensures BuildBranches(ComplexTable(), 3, 1, 3) == [Branch('V' as int, Skip(1), Node(ComplexLeaves()))]
  {
    ComplexSorted();
    ComplexSkipV();
    assert NextPivotRow(ComplexTable(), 'V' as int, 3, 1, 3) == 3;
  }

  lemma ComplexMiddleRows()
    ensures Slice(ComplexTable(), 3, 0, 3) && Slice(ComplexTable(), 3, 1, 3)
    ensures NextPivotRow(ComplexTable(), 'N' as int, 3, 0, 3) == 1
  {
    assert NextPivotRow(ComplexTable(), 'N' as int, 3, 0, 3) == 1;
  }

  lemma ComplexMiddleBuilt()
    ensures Sorted(ComplexTable())
    ensures BuildBranches(ComplexTable(), 3, 0, 3) == ComplexMiddle()
  {
    ComplexSorted();
    ComplexLeafN();
    ComplexMiddleRest();
    ComplexMiddleRows();
    assert BuildBranches(ComplexTable(), 3, 0, 3) ==
      [BuildBranch(ComplexTable(), 3, 0, 1)] + BuildBranches(ComplexTable(), 3, 1, 3);
  }

  lemma ComplexRootRows()
    ensures NextPivotRow(ComplexTable(), 'g' as int, 0, 0, 3) == 3
    ensures BranchRows(ComplexTable(), 0, 0, 3)
  {
    assert NextPivotRow(ComplexTable(), 'g' as int, 0, 0, 3) == 3;
  }

  lemma ComplexRoot()
    ensures NextPivotRow(ComplexTable(), 'g' as int, 0, 0, 3) == 3
    ensures NextPivotColumn(ComplexTable(), 0, 0, 3) == 3
    ensures BranchRows(ComplexTable(), 0, 0, 3)
  {
    ComplexRootRows();
  }

  lemma ComplexRootBranch()
    ensures Sorted(ComplexTable()) && BranchRows(ComplexTable(), 0, 0, 3)
    ensures BuildBranch(ComplexTable(), 0, 0, 3) == Branch('g' as int, Skip(3), Node(ComplexMiddle()))
  {
    ComplexSorted();
    ComplexMiddleBuilt();
    ComplexRoot();
    assert DecisionColumn(ComplexTable(), 0, 0, 3) == 3;
  }

  /** The rows first differ at column 3 (`N` against `V`), and the two rows
      under `V` at column 4 (`a` against `e`). */
  lemma ComplexTree()
    ensures Sorted(ComplexTable()) && NonEmptyRows(ComplexTable())
    ensures BuildTrie(ComplexTable(), 0, 3) ==
      Node([Branch('g' as int, Skip(3), Node(ComplexMiddle()))])
  {
    ComplexSorted();
    ComplexRootBranch();
    ComplexRootRows();
  }

  /** The cells of the node below `V`. */
  lemma ComplexLeavesCells()
    ensures Encode(Node(ComplexLeaves())) == [2, 'a' as int, 'e' as int, 0x8001, 0x8002]
  {
    TwoLeavesCells('a' as int, 1, 'e' as int, 2);
  }

  /** The cells of the node below `g`. */
  lemma ComplexMiddleCells()
    ensures Encode(Node(ComplexMiddle())) ==
      [2, 'N' as int, 'V' as int, 0x8000, 1, 0, 2, 'a' as int, 'e' as int, 0x8001, 0x8002]
  {
    ComplexLeavesCells();
    LeafThenChildCells('N' as int, 0, 'V' as int, Skip(1), Node(ComplexLeaves()));
  }

  /** The cells of the getName, getValue, getVersion tree. */
  lemma ComplexCells()
    ensures Encode(Node([Branch('g' as int, Skip(3), Node(ComplexMiddle()))])) == ComplexBlob()
  {
    OneBranchCells(Branch('g' as int, Skip(3), Node(ComplexMiddle())));
    ComplexMiddleCells();
    assert EncodeRecord(Skip(3)) == 3;
  }

  /** Building getName, getValue, getVersion gives the documented cells,
      including the jump of 0 to the child of `V`. */
  lemma ComplexExample()
    ensures Sorted(ComplexTable()) && NonEmptyRows(ComplexTable())
    ensures Build(ComplexTable()) == Single(ComplexBlob())
  {
    ComplexTree();
    ComplexCells();
  }

  /** getName ends at the leaf of `N`. */
  lemma ComplexLookupName()
    ensures Lookup(ComplexBlob(), ComplexTable()[0]) == Returned(0)
  {
    assert ComplexTable()[0][0] == 'g' as int && ComplexTable()[0][3] == 'N' as int;
    assert BinarySearch(ComplexBlob(), 1, 2, 'g' as int) == 1;
    assert StepAt(ComplexBlob(), ComplexTable()[0], 0, 0) == Move(3, 3);
    assert BinarySearch(ComplexBlob(), 4, 6, 'N' as int) == 4;
    assert StepAt(ComplexBlob(), ComplexTable()[0], 3, 3) == Stop(Returned(0));
  }

  /** getVersion takes the jump past the (empty) child of `N` to the node
      below `V`. */
  lemma ComplexLookupVersion()
    ensures Lookup(ComplexBlob(), ComplexTable()[2]) == Returned(2)
  {
    assert ComplexTable()[2][0] == 'g' as int;
    assert ComplexTable()[2][3] == 'V' as int && ComplexTable()[2][4] == 'e' as int;
    assert BinarySearch(ComplexBlob(), 1, 2, 'g' as int) == 1;
    assert StepAt(ComplexBlob(), ComplexTable()[2], 0, 0) == Move(3, 3);
    assert SearchRange(ComplexBlob(), 5, 5, 'V' as int) == 5;
    assert BinarySearch(ComplexBlob(), 4, 6, 'V' as int) == 5;
    assert StepAt(ComplexBlob(), ComplexTable()[2], 3, 3) == Move(4, 9);
    assert SearchRange(ComplexBlob(), 11, 11, 'e' as int) == 11;
    assert BinarySearch(ComplexBlob(), 10, 12, 'e' as int) == 11;
    assert StepAt(ComplexBlob(), ComplexTable()[2], 4, 9) == Stop(Returned(2));
  }
}
