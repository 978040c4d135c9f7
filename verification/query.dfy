/** The query (`applyAsInt`): walking the cells of a trie with a key.

    The walk keeps a key position and a cell position. At each node it reads
    the branch count, binary-searches the pivots for the key's current unit,
    and reads that branch's record: a Leaf answers, a Bud answers when the
    unit is the key's last, and otherwise the key advances (by one for a Bud,
    by the delta for a Skip) and the cell position moves to the branch's child
    at the end of the header plus the branch's jump. Reading outside the
    cells, which Java reports with an exception, is the `OutOfBounds` outcome.
 */
module Query {
  import opened Cells
  import opened Strings
  import opened Trie
  import opened Layout

  /** What a call to `applyAsInt` does: return an int, or throw an
      index-out-of-bounds exception. */
  datatype Outcome = Returned(value: int) | OutOfBounds

  /** The cells `from` to `to - 1` strictly ascend. */
  ghost predicate AscendingCells(a: Blob, from: int, to: int) {
    && 0 <= from <= to <= |a|
    && forall i, j :: from <= i < j < to ==> a[i] < a[j]
  }

  /** The loop of `java.util.Arrays.binarySearch0` between `low` and `high`
      inclusive. */
  function SearchRange(a: Blob, low: int, high: int, key: Char16): (r: int)
    requires 0 <= low <= high + 1 <= |a|
    ensures r >= 0 ==> low <= r <= high && a[r] == key
    ensures r < 0 && AscendingCells(a, low, high + 1) ==>
      forall k :: low <= k <= high ==> a[k] != key
    decreases high + 1 - low
  {
    if low > high then -(low + 1)
    else
      var mid := (low + high) / 2;
      if a[mid] < key then SearchRange(a, mid + 1, high, key)
      else if a[mid] > key then SearchRange(a, low, mid - 1, key)
      else mid
  }

  /** `java.util.Arrays.binarySearch(a, from, to, key)` on the cells `from` to
      `to - 1`: the position of `key`, or `-(insertion point + 1)` when it is
      absent (the range check that throws is left to the caller). */
  function BinarySearch(a: Blob, from: int, to: int, key: Char16): (r: int)
    requires 0 <= from <= to <= |a|
    ensures r >= 0 ==> from <= r < to && a[r] == key
    ensures r < 0 && AscendingCells(a, from, to) ==> forall k :: from <= k < to ==> a[k] != key
  {
    SearchRange(a, from, to - 1, key)
  }

  /** Where one pass of the `applyAsInt` loop leaves the walk: finished with
      an outcome, or moved on to a later key position and cell position. */
  datatype Step = Stop(outcome: Outcome) | Move(keyIndex: nat, dataIndex: nat)

  /** One pass of the `applyAsInt` loop body at key position `keyIndex` (still
      inside the key) and cell position `dataIndex`. A pass that moves on always
      moves the cell position forward. */
  function StepAt(data: Blob, key: Key, keyIndex: nat, dataIndex: nat): (s: Step)
    requires keyIndex < |key|
    ensures s.Move? ==> dataIndex < |data| && s.dataIndex > dataIndex
  {
    if dataIndex >= |data| then Stop(OutOfBounds)
    else
      var branchCount: nat := data[dataIndex];
      var first := dataIndex + 1;
      if first + branchCount > |data| then Stop(OutOfBounds)
      else
        var branchIndex := BinarySearch(data, first, first + branchCount, key[keyIndex]);
        if branchIndex < 0 then Stop(Returned(NOT_FOUND))
        else
          var resultIndex := branchIndex + branchCount;
          if resultIndex >= |data| then Stop(OutOfBounds)
          else
            var result := DecodeRecord(data[resultIndex]);
            if result.Leaf? then Stop(Returned(result.index))
            else if result.Bud? && keyIndex == |key| - 1 then Stop(Returned(result.index))
            else
              var delta := if result.Bud? then 1 else result.delta;
              var jumpIndex := resultIndex + branchCount - 1;
              if branchIndex > first && jumpIndex >= |data| then Stop(OutOfBounds)
              else
                var jump: nat := if branchIndex > first then data[jumpIndex] else 0;
                Move(keyIndex + delta, first + jump + 3 * branchCount - 1)
  }

  /** The `applyAsInt` loop from key position `keyIndex` and cell position
      `dataIndex`, on any cells: it runs passes until one stops or the key is
      used up, which answers NOT_FOUND. Whatever the cells hold, an answer is
      NOT_FOUND or a value below `LEAF_MARKER`: clearing a tag bit leaves at
      most 15 bits. */
  function Walk(data: Blob, key: Key, keyIndex: nat, dataIndex: nat): (o: Outcome)
    ensures keyIndex >= |key| ==> o == Returned(NOT_FOUND)
    ensures o.Returned? ==> NOT_FOUND <= o.value < LEAF_MARKER
    decreases if dataIndex <= |data| then |data| + 1 - dataIndex else 0
  {
    if keyIndex >= |key| then Returned(NOT_FOUND)
    else
      match StepAt(data, key, keyIndex, dataIndex)
      case Stop(o) => o
      case Move(k, d) => Walk(data, key, k, d)
  }

  /** `applyAsInt`: the index the trie `data` assigns to `key`. The empty key
      is never in a table and answers NOT_FOUND; any other key reads the
      branch count in the first cell, so empty cells cannot answer it. */
  function Lookup(data: Blob, key: Key): (o: Outcome)
    ensures |key| == 0 ==> o == Returned(NOT_FOUND)
    ensures |key| > 0 && |data| == 0 ==> o == OutOfBounds
    ensures o.Returned? ==> NOT_FOUND <= o.value < LEAF_MARKER
  {
    Walk(data, key, 0, 0)
  }

  /** A pass answers NOT_FOUND exactly when the cells it reads are there and
      the key's current unit is not among the node's pivots: Leaf and Bud
      cells always decode to indices of 0 or more. */
  lemma PassNotFound(data: Blob, key: Key, keyIndex: nat, dataIndex: nat)
    requires keyIndex < |key|
    ensures StepAt(data, key, keyIndex, dataIndex) == Stop(Returned(NOT_FOUND)) <==>
      && dataIndex < |data| && dataIndex + 1 + data[dataIndex] <= |data|
      && BinarySearch(data, dataIndex + 1, dataIndex + 1 + data[dataIndex], key[keyIndex]) < 0
  {
  }

  /** Binary search over the pivot cells of a node at `off` finds exactly the
      branch the tree-level query picks, and reports absence exactly when no
      branch is chosen by the unit. */
  lemma SearchPivots(data: Blob, off: nat, bs: seq<Branch>, c: Char16)
    requires Ascending(bs) && |bs| > 0
    requires Embeds(data, off + 1, Pivots(bs))
    ensures BinarySearch(data, off + 1, off + 1 + |bs|, c) < 0 <==> BranchFor(bs, c) == |bs|
    ensures BinarySearch(data, off + 1, off + 1 + |bs|, c) >= 0 ==>
      BinarySearch(data, off + 1, off + 1 + |bs|, c) == off + 1 + BranchFor(bs, c)
  {
    assert AscendingCells(data, off + 1, off + 1 + |bs|) by {
      forall i, j | off + 1 <= i < j < off + 1 + |bs|
        ensures data[i] < data[j]
      {
        assert data[off + 1 + (i - off - 1)] == Pivots(bs)[i - off - 1];
        assert data[off + 1 + (j - off - 1)] == Pivots(bs)[j - off - 1];
      }
    }
    if BinarySearch(data, off + 1, off + 1 + |bs|, c) < 0 {
      forall k | 0 <= k < |bs|
        ensures bs[k].pivot != c
      {
        assert data[off + 1 + k] == Pivots(bs)[k];
      }
    } else {
      var b := BinarySearch(data, off + 1, off + 1 + |bs|, c) - off - 1;
      assert data[off + 1 + b] == Pivots(bs)[b];
      BranchForUnique(bs, c, b);
    }
  }

  /** The pass the walk makes on reading record `r` at key position `pos`: a
      Leaf answers its index, a Bud answers its index on the key's last unit,
      and otherwise the key advances (by one past a Bud, by the delta of a
      Skip) and the walk moves to cell position `next`. */
  function RecordStep(r: Record, key: Key, pos: nat, next: nat): Step {
    match r
    case Leaf(v) => Stop(Returned(v))
    case Bud(v) => if pos == |key| - 1 then Stop(Returned(v)) else Move(pos + 1, next)
    case Skip(d) => Move(pos + d, next)
  }

  /** A pass whose binary search misses answers NOT_FOUND. */
  lemma StepOnMiss(data: Blob, key: Key, pos: nat, off: nat, bc: nat)
    requires pos < |key| && off < |data| && data[off] == bc && off + 1 + bc <= |data|
    requires BinarySearch(data, off + 1, off + 1 + bc, key[pos]) < 0
    ensures StepAt(data, key, pos, off) == Stop(Returned(NOT_FOUND))
  {
  }

  /** A pass whose binary search hits pivot `b` acts on record `b`, and moves
      by jump `b` when it has one. */
  lemma StepOnHit(data: Blob, key: Key, pos: nat, off: nat, bc: nat, b: nat, jump: nat)
    requires pos < |key| && off < |data| && data[off] == bc && off + 1 + bc <= |data|
    requires BinarySearch(data, off + 1, off + 1 + bc, key[pos]) == off + 1 + b
    requires off + 1 + bc + b < |data|
    requires b > 0 && !DecodeRecord(data[off + 1 + bc + b]).Leaf? ==>
      (off + 2 * bc + b < |data| && data[off + 2 * bc + b] == jump)
    requires b == 0 ==> jump == 0
    ensures StepAt(data, key, pos, off) ==
      RecordStep(DecodeRecord(data[off + 1 + bc + b]), key, pos, off + 3 * bc + jump)
  {
    assert off + 1 + b + bc == off + 1 + bc + b;
    assert off + 1 + b + bc + bc - 1 == off + 2 * bc + b;
  }

  /** The cells one pass reads at a node with branches `bs` laid out at `off`,
      for a unit that picks branch `b` (`b == |bs|`: none): the branch count,
      the pivots, and for a picked branch its record and, unless it is the
      first branch or a Leaf, its jump. */
  ghost predicate PassCells(data: Blob, off: nat, bs: seq<Branch>, b: nat, jump: nat) {
    && 0 < |bs| && b <= |bs| && off < |data|
    && data[off] == |bs| && Embeds(data, off + 1, Pivots(bs))
    && (b < |bs| ==>
         && off + 1 + |bs| + b < |data| && Encodable(bs[b].record)
         && data[off + 1 + |bs| + b] == EncodeRecord(bs[b].record))
    && (b < |bs| && 0 < b && !bs[b].record.Leaf? ==>
         off + 2 * |bs| + b < |data| && data[off + 2 * |bs| + b] == jump)
    && (b == 0 ==> jump == 0)
  }

  /** The walk is at key position `pos` on the cells of a node with
      ascending branches `bs` laid out at `off`, and the key's current unit
      picks branch `b` (`b == |bs|`: none), whose jump is `jump`. */
  ghost predicate AtNode(data: Blob, key: Key, pos: nat, off: nat, bs: seq<Branch>, b: nat, jump: nat) {
    && pos < |key| && Ascending(bs) && b == BranchFor(bs, key[pos])
    && PassCells(data, off, bs, b, jump)
  }

  /** Over the cells of a node, a unit that picks no branch answers
      NOT_FOUND. */
  lemma StepAtMiss(data: Blob, key: Key, pos: nat, off: nat, bs: seq<Branch>, jump: nat)
    requires AtNode(data, key, pos, off, bs, |bs|, jump)
    ensures StepAt(data, key, pos, off) == Stop(Returned(NOT_FOUND))
  {
    SearchPivots(data, off, bs, key[pos]);
    StepOnMiss(data, key, pos, off, |bs|);
  }

  /** Over the cells of a node, a unit that picks branch `b` acts on that
      branch's record, moving to the end of the header plus its jump. */
  lemma StepAtHit(data: Blob, key: Key, pos: nat, off: nat, bs: seq<Branch>, b: nat, jump: nat)
    requires AtNode(data, key, pos, off, bs, b, jump) && b < |bs|
    ensures StepAt(data, key, pos, off) == RecordStep(bs[b].record, key, pos, off + 3 * |bs| + jump)
  {
    SearchPivots(data, off, bs, key[pos]);
    DecodeEncode(bs[b].record);
    StepOnHit(data, key, pos, off, |bs|, b, jump);
  }

  /** The distance from the end of a node's header to the child of branch `b`
      (0 when no branch is picked). */
  function JumpOf(n: Node, b: nat): nat
    requires b <= |n.branches|
  {
    if b < |n.branches| then Offset(ChildCodes(n), b) else 0
  }

  /** A blob holding the encoding of a node that fits holds the cells a pass
      reads there. */
  lemma NodePassCells(data: Blob, off: nat, n: Node, b: nat)
    requires Fits(n) && n.branches != [] && b <= |n.branches|
    requires Embeds(data, off, Encode(n))
    ensures PassCells(data, off, n.branches, b, JumpOf(n, b))
  {
    NodeCells(data, off, n, 0);
    if b < |n.branches| {
      NodeCells(data, off, n, b);
      if 0 < b && !n.branches[b].record.Leaf? {
        JumpCell(data, off, n, b);
      }
    }
  }

  /** The walk from a node's cells either answers as the node does, or goes
      on from the key position and cell position the pass moves to. */
  lemma WalkOnCells(data: Blob, key: Key, pos: nat, off: nat, bs: seq<Branch>, b: nat, jump: nat)
    requires AtNode(data, key, pos, off, bs, b, jump)
    ensures Descends(bs, b, key, pos) ==>
      Walk(data, key, pos, off) == Walk(data, key, pos + Advance(bs[b].record), off + 3 * |bs| + jump)
    ensures !Descends(bs, b, key, pos) ==> Walk(data, key, pos, off) == Returned(Answer(bs, b))
  {
    if b == |bs| {
      StepAtMiss(data, key, pos, off, bs, jump);
    } else {
      StepAtHit(data, key, pos, off, bs, b, jump);
      if Descends(bs, b, key, pos) {
        assert StepAt(data, key, pos, off) == Move(pos + Advance(bs[b].record), off + 3 * |bs| + jump);
      } else {
        assert StepAt(data, key, pos, off) == Stop(Returned(Answer(bs, b)));
      }
    }
  }

  /** `data` holds at `off` the cells of node `n` as the walk reads them: the
      cells of a pass for every choice of branch, and below every branch that
      is not a Leaf, its child's cells at the header's end plus the jump. */
  ghost predicate Laid(data: Blob, off: nat, n: Node)
    decreases n, 1
  {
    && n.branches != [] && Ascending(n.branches)
    && (forall b :: 0 <= b <= |n.branches| ==> PassCells(data, off, n.branches, b, JumpOf(n, b)))
    && (forall b :: 0 <= b < |n.branches| && !n.branches[b].record.Leaf? ==> ChildLaid(data, off, n, b))
  }

  /** The child of branch `b` of a node laid out at `off` is laid out at the
      end of the node's header plus the branch's jump. */
  ghost predicate ChildLaid(data: Blob, off: nat, n: Node, b: nat)
    requires b < |n.branches|
    decreases n, 0
  {
    Laid(data, off + 3 * |n.branches| + JumpOf(n, b), n.branches[b].child)
  }

  /** `data` holds at `off` the encoding of a well-formed, non-empty tree
      whose every stored value fits its cell. */
  ghost predicate Stored(data: Blob, off: nat, n: Node) {
    WellFormed(n) && Fits(n) && n.branches != [] && Embeds(data, off, Encode(n))
  }

  /** A blob holding the encoding of a tree has its cells laid out as the walk
      reads them. */
  lemma {:induction false} StoredIsLaid(data: Blob, off: nat, n: Node)
    requires Stored(data, off, n)
    ensures Laid(data, off, n)
    decreases n, 1
  {
    forall b | 0 <= b <= |n.branches|
      ensures PassCells(data, off, n.branches, b, JumpOf(n, b))
    {
      NodePassCells(data, off, n, b);
    }
    forall b | 0 <= b < |n.branches| && !n.branches[b].record.Leaf?
      ensures ChildLaid(data, off, n, b)
    {
      ChildIsLaid(data, off, n, b);
    }
  }

  /** Below a non-leaf branch of a stored tree, the child's cells are laid
      out where the walk looks for them. */
  lemma {:induction false} ChildIsLaid(data: Blob, off: nat, n: Node, b: nat)
    requires Stored(data, off, n) && b < |n.branches| && !n.branches[b].record.Leaf?
    ensures ChildLaid(data, off, n, b)
    decreases n, 0
  {
    StoredChild(data, off, n, b);
    StoredIsLaid(data, off + 3 * |n.branches| + JumpOf(n, b), n.branches[b].child);
  }

  /** Below a non-leaf branch of a stored tree, the child's encoding is
      stored at the end of the header plus the branch's jump. */
  lemma StoredChild(data: Blob, off: nat, n: Node, b: nat)
    requires Stored(data, off, n) && b < |n.branches| && !n.branches[b].record.Leaf?
    ensures Stored(data, off + 3 * |n.branches| + JumpOf(n, b), n.branches[b].child)
  {
    assert Shaped(n.branches[b]) && WellFormed(n.branches[b].child) && Fits(n.branches[b].child);
    ChildAt(data, off, n, b);
  }

  /** On laid-out cells, the walk at a node reads the cells of the branch the
      key's unit picks, and the child below it is laid out in turn. */
  lemma LaidBranch(data: Blob, off: nat, n: Node, key: Key, pos: nat, b: nat)
    requires Laid(data, off, n) && pos < |key| && b == BranchFor(n.branches, key[pos])
    ensures AtNode(data, key, pos, off, n.branches, b, JumpOf(n, b))
    ensures Descends(n.branches, b, key, pos) ==> ChildLaid(data, off, n, b)
  {
  }

  /** Walking laid-out cells from any node gives the tree-level answer. */
  lemma {:induction false} WalkFindsLaid(data: Blob, off: nat, n: Node, key: Key, pos: nat)
    requires Laid(data, off, n)
    ensures Walk(data, key, pos, off) == Returned(Find(n, key, pos))
    decreases n, 1
  {
    if pos < |key| {
      if Descends(n.branches, BranchFor(n.branches, key[pos]), key, pos) {
        WalkFindsBelow(data, off, n, key, pos, BranchFor(n.branches, key[pos]));
      } else {
        WalkFindsHere(data, off, n, key, pos, BranchFor(n.branches, key[pos]));
      }
    }
  }

  /** Where the walk does not descend below the branch the key's unit picks,
      it answers as the node does. */
  lemma WalkFindsHere(data: Blob, off: nat, n: Node, key: Key, pos: nat, b: nat)
    requires Laid(data, off, n) && pos < |key| && b == BranchFor(n.branches, key[pos])
    requires !Descends(n.branches, b, key, pos)
    ensures Walk(data, key, pos, off) == Returned(Find(n, key, pos))
  {
    LaidBranch(data, off, n, key, pos, b);
    WalkOnCells(data, key, pos, off, n.branches, b, JumpOf(n, b));
    FindAtNode(n, key, pos, b);
  }

  /** Where the walk descends below the branch the key's unit picks, it goes
      on to give the tree-level answer of that branch's child. */
  lemma {:induction false} WalkFindsBelow(data: Blob, off: nat, n: Node, key: Key, pos: nat, b: nat)
    requires Laid(data, off, n) && pos < |key| && b == BranchFor(n.branches, key[pos])
    requires Descends(n.branches, b, key, pos)
    ensures Walk(data, key, pos, off) == Returned(Find(n, key, pos))
    decreases n, 0
  {
    LaidBranch(data, off, n, key, pos, b);
    WalkOnCells(data, key, pos, off, n.branches, b, JumpOf(n, b));
    FindAtNode(n, key, pos, b);
    WalkFindsLaid(data, off + 3 * |n.branches| + JumpOf(n, b), n.branches[b].child, key,
                  pos + Advance(n.branches[b].record));
  }

  /** Walking the cells of a well-formed tree that fits, from any node, gives
      the tree-level answer for every key: the cell layout and the query agree
      on where each child is. */
  lemma WalkFinds(data: Blob, off: nat, n: Node, key: Key, pos: nat)
    requires WellFormed(n) && Fits(n) && n.branches != []
    requires Embeds(data, off, Encode(n))
    ensures Walk(data, key, pos, off) == Returned(Find(n, key, pos))
  {
    assert Stored(data, off, n);
    StoredIsLaid(data, off, n);
    WalkFindsLaid(data, off, n, key, pos);
  }
}
