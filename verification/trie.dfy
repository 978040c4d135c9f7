/** The trie as a tree, before it is packed into cells.

    A node is its list of branches in pivot order; each branch carries the
    code unit it is chosen by, its record (Leaf, Bud or Skip), and the child
    node the query descends into. A Leaf's child is empty: the builder emits
    nothing beneath it.
 */
module Trie {
  import opened Cells
  import opened Strings

  datatype Node = Node(branches: seq<Branch>)

  datatype Branch = Branch(pivot: Char16, record: Record, child: Node)

  /** Pivots strictly ascend from branch to branch, which is what lets the
      query binary-search them. */
  ghost predicate Ascending(bs: seq<Branch>) {
    forall i, j :: 0 <= i < j < |bs| ==> bs[i].pivot < bs[j].pivot
  }

  /** A branch has the shape the builder gives it: a Leaf ends the trie, a Bud
      or Skip always has a non-empty child, a Skip advances the key by at least
      one unit, and leaf and bud indices fit in 14 bits. */
  ghost predicate Shaped(b: Branch) {
    match b.record
    case Leaf(v) => v < MAX_ROWS_PER_TRIE && b.child.branches == []
    case Bud(v) => v < MAX_ROWS_PER_TRIE && b.child.branches != []
    case Skip(d) => d >= 1 && b.child.branches != []
  }

  /** Every node of the tree has ascending pivots and shaped branches. */
  ghost predicate WellFormed(n: Node)
    decreases n
  {
    && Ascending(n.branches)
    && forall k :: 0 <= k < |n.branches| ==>
         Shaped(n.branches[k]) && WellFormed(n.branches[k].child)
  }

  /** All branches of a node are leaves (the node has no jump section). */
  predicate AllLeaves(bs: seq<Branch>) {
    forall k :: 0 <= k < |bs| ==> bs[k].record.Leaf?
  }

  /** The position of the first branch chosen by `c`, or `|bs|` if none is. */
  function BranchFor(bs: seq<Branch>, c: Char16): (k: nat)
    ensures k <= |bs|
    ensures k < |bs| ==> bs[k].pivot == c
    ensures forall j :: 0 <= j < k ==> bs[j].pivot != c
  {
    if |bs| == 0 then 0
    else if bs[0].pivot == c then 0
    else 1 + BranchFor(bs[1..], c)
  }

  /** The reference query on the tree, starting at key position `pos`: pick the
      branch of `key[pos]`; a Leaf answers at once, a Bud answers if `pos` is
      the key's last position and otherwise advances by one, a Skip advances by
      its delta. Running out of key, or a unit no branch is chosen by, answers
      NOT_FOUND. */
  function Find(n: Node, key: Key, pos: nat): int
    decreases n
  {
    if pos >= |key| then NOT_FOUND
    else
      var k := BranchFor(n.branches, key[pos]);
      if k == |n.branches| then NOT_FOUND
      else
        var b := n.branches[k];
        match b.record
        case Leaf(v) => v
        case Bud(v) => if pos == |key| - 1 then v else Find(b.child, key, pos + 1)
        case Skip(d) => Find(b.child, key, pos + d)
  }

  /** The query goes on below branch `b` for a key at position `pos`: the
      branch is picked and is neither a Leaf nor a Bud on the key's last unit. */
  ghost predicate Descends(bs: seq<Branch>, b: nat, key: Key, pos: nat) {
    b < |bs| && !bs[b].record.Leaf? && !(bs[b].record.Bud? && pos == |key| - 1)
  }

  /** How far the key advances below a branch that does not answer: one unit
      past a Bud, the delta of a Skip. */
  function Advance(r: Record): nat {
    match r
    case Leaf(_) => 0
    case Bud(_) => 1
    case Skip(d) => d
  }

  /** What a node answers when the query does not descend below branch `b`:
      NOT_FOUND when no branch is picked, else the branch's index. */
  function Answer(bs: seq<Branch>, b: nat): int
    requires b <= |bs|
  {
    if b == |bs| then NOT_FOUND
    else match bs[b].record
      case Leaf(v) => v
      case Bud(v) => v
      case Skip(_) => NOT_FOUND
  }

  /** One level of the reference query: at the branch picked by the key's
      current unit it either answers or goes on in that branch's child. */
  lemma FindAtNode(n: Node, key: Key, pos: nat, b: nat)
    requires pos < |key| && b == BranchFor(n.branches, key[pos])
    ensures Descends(n.branches, b, key, pos) ==>
      Find(n, key, pos) == Find(n.branches[b].child, key, pos + Advance(n.branches[b].record))
    ensures !Descends(n.branches, b, key, pos) ==> Find(n, key, pos) == Answer(n.branches, b)
  {
  }

  /** On a well-formed tree every answer, for every key, is NOT_FOUND or a
      14-bit index. */
  lemma {:induction false} FindRange(n: Node, key: Key, pos: nat)
    requires WellFormed(n)
    ensures NOT_FOUND <= Find(n, key, pos) < MAX_ROWS_PER_TRIE
    decreases n
  {
    if pos < |key| {
      var k := BranchFor(n.branches, key[pos]);
      if k < |n.branches| {
        var b := n.branches[k];
        assert Shaped(b) && WellFormed(b.child);
        match b.record
        case Leaf(v) =>
        case Bud(v) =>
          if pos != |key| - 1 {
            FindRange(b.child, key, pos + 1);
          }
        case Skip(d) =>
          FindRange(b.child, key, pos + d);
      }
    }
  }

  /** A query whose current unit does not choose the first branch is answered
      by the remaining branches alone. */
  lemma FindPastFirst(b: Branch, rest: seq<Branch>, key: Key, pos: nat)
    requires pos < |key| && key[pos] != b.pivot
    ensures Find(Node([b] + rest), key, pos) == Find(Node(rest), key, pos)
  {
    assert ([b] + rest)[1..] == rest;
    assert BranchFor([b] + rest, key[pos]) == 1 + BranchFor(rest, key[pos]);
    if BranchFor(rest, key[pos]) < |rest| {
      assert ([b] + rest)[1 + BranchFor(rest, key[pos])] == rest[BranchFor(rest, key[pos])];
    }
  }

  /** A query whose current unit chooses the first branch follows it. */
  lemma FindTakesFirst(b: Branch, rest: seq<Branch>, key: Key, pos: nat)
    requires pos < |key| && key[pos] == b.pivot
    ensures Find(Node([b] + rest), key, pos) == Find(Node([b]), key, pos)
  {
  }

  /** A well-formed node has no two branches with the same pivot, so the first
      branch chosen by a unit is the only one. */
  lemma BranchForUnique(bs: seq<Branch>, c: Char16, j: nat)
    requires Ascending(bs) && j < |bs| && bs[j].pivot == c
    ensures BranchFor(bs, c) == j
  {
  }

  /** Putting a shaped branch in front of a well-formed node keeps it
      well-formed, provided its pivot is below every pivot already there. */
  lemma ConsWellFormed(b: Branch, rest: seq<Branch>)
    requires Shaped(b) && WellFormed(b.child) && WellFormed(Node(rest))
    requires forall k :: 0 <= k < |rest| ==> b.pivot < rest[k].pivot
    ensures WellFormed(Node([b] + rest))
  {
    var bs := [b] + rest;
    forall k | 0 <= k < |bs|
      ensures Shaped(bs[k]) && WellFormed(bs[k].child)
    {
      if k > 0 {
        assert bs[k] == rest[k - 1];
      }
    }
    forall i, j | 0 <= i < j < |bs|
      ensures bs[i].pivot < bs[j].pivot
    {
      assert bs[j] == rest[j - 1];
      if i > 0 {
        assert bs[i] == rest[i - 1];
      }
    }
  }
}
