/** Packing the tree into 16-bit cells.

    A node with `bc` branches is laid out as
      bc | pivot 0 .. pivot bc-1 | record 0 .. record bc-1 | jump 1 .. jump bc-1
    followed by the encodings of its children, depth first in branch order.
    Jump `k` is the number of cells taken by the children of branches 0 to
    `k - 1`, so it is the distance from the end of the header to the child of
    branch `k`. The jump section is left out when every branch is a Leaf, and
    an empty node is encoded as nothing at all.
 */
module Layout {
  import opened Cells
  import opened Trie

  /** The cell array of a trie (Java `char[] data`). */
  type Blob = seq<Char16>

  /** The parts laid end to end. */
  function Flatten(parts: seq<Blob>): Blob
  {
    if |parts| == 0 then [] else parts[0] + Flatten(parts[1..])
  }

  /** The total size of the first `m` parts: where part `m` starts in
      `Flatten(parts)`. */
  function Offset(parts: seq<Blob>, m: nat): nat
    requires m <= |parts|
  {
    if m == 0 then 0 else |parts[0]| + Offset(parts[1..], m - 1)
  }

  /** Offsets grow with the number of parts they cover. */
  lemma {:induction false} OffsetMonotone(parts: seq<Blob>, m: nat, m': nat)
    requires m <= m' <= |parts|
    ensures Offset(parts, m) <= Offset(parts, m')
  {
    if m > 0 {
      OffsetMonotone(parts[1..], m - 1, m' - 1);
    }
  }

  /** `data` holds `s` starting at position `off`. */
  ghost predicate Embeds(data: Blob, off: nat, s: Blob) {
    off + |s| <= |data| && forall k {:trigger s[k]} :: 0 <= k < |s| ==> data[off + k] == s[k]
  }

  /** What holds a concatenation holds each half. */
  lemma EmbedsSplit(data: Blob, off: nat, a: Blob, b: Blob)
    requires Embeds(data, off, a + b)
    ensures Embeds(data, off, a) && Embeds(data, off + |a|, b)
  {
    forall k | 0 <= k < |a|
      ensures data[off + k] == a[k]
    {
      assert (a + b)[k] == a[k];
    }
    forall k | 0 <= k < |b|
      ensures data[off + |a| + k] == b[k]
    {
      assert (a + b)[|a| + k] == b[k];
    }
  }

  /** What holds a sequence holds each of its cells. */
  lemma EmbedsCell(data: Blob, off: nat, s: Blob, k: nat)
    requires Embeds(data, off, s) && k < |s|
    ensures data[off + k] == s[k]
  {
  }

  /** What holds a flattening holds every part at its offset. */
  lemma {:induction false} EmbedsPart(data: Blob, off: nat, parts: seq<Blob>, m: nat)
    requires Embeds(data, off, Flatten(parts)) && m < |parts|
    ensures Embeds(data, off + Offset(parts, m), parts[m])
    decreases m
  {
    EmbedsSplit(data, off, parts[0], Flatten(parts[1..]));
    if m > 0 {
      EmbedsPart(data, off + |parts[0]|, parts[1..], m - 1);
    }
  }

  /** The pivot section. */
  function Pivots(bs: seq<Branch>): (ps: Blob)
    ensures |ps| == |bs|
  {
    seq(|bs|, k requires 0 <= k < |bs| => bs[k].pivot)
  }

  /** The record section. */
  function Records(bs: seq<Branch>): (rs: Blob)
    ensures |rs| == |bs|
  {
    seq(|bs|, k requires 0 <= k < |bs| => EncodeRecord(bs[k].record))
  }

  /** The jump section: jump `k + 1` is the running total of the child sizes of
      branches 0 to `k`, cast to a `char`. */
  function Jumps(kids: seq<Blob>): (js: Blob)
    requires |kids| > 0
    ensures |js| == |kids| - 1
  {
    seq(|kids| - 1, k requires 0 <= k < |kids| - 1 => ToChar(Offset(kids, k + 1)))
  }

  /** Jump `k` of the jump section, for `k > 0`. */
  lemma JumpsCell(kids: seq<Blob>, k: nat)
    requires 0 < k < |kids|
    ensures Jumps(kids)[k - 1] == ToChar(Offset(kids, k))
  {
  }

  /** The header of a node with branches `bs` whose children encode to `kids`.
      It takes `3 * bc` cells, or `1 + 2 * bc` when every branch is a Leaf. */
  function Header(bs: seq<Branch>, kids: seq<Blob>): (h: Blob)
    requires |bs| > 0 && |kids| == |bs|
    ensures |h| == if AllLeaves(bs) then 1 + 2 * |bs| else 3 * |bs|
  {
    [ToChar(|bs|)] + Pivots(bs) + Records(bs) + (if AllLeaves(bs) then [] else Jumps(kids))
  }

  /** The cells `buildTrie` leaves in the buffer for a node: nothing for a
      node without branches; otherwise a header that starts with the branch
      count and holds at least the pivots and records, then the children. */
  function Encode(n: Node): (e: Blob)
    ensures e == [] <==> n.branches == []
    decreases n, 1
  {
    if |n.branches| == 0 then []
    else
      var kids := ChildCodes(n);
      Header(n.branches, kids) + Flatten(kids)
  }

  /** The encodings of a node's children, in branch order. */
  function ChildCodes(n: Node): (kids: seq<Blob>)
    ensures |kids| == |n.branches|
    decreases n, 0
  {
    seq(|n.branches|, k requires 0 <= k < |n.branches| => Encode(n.branches[k].child))
  }

  /** Every value the encoding stores survives its 16-bit cell: the branch
      count, every skip delta (below the bud tag) and every jump. */
  ghost predicate Fits(n: Node)
    decreases n
  {
    && |n.branches| < 0x1_0000
    && (|n.branches| > 1 ==> Offset(ChildCodes(n), |n.branches| - 1) < 0x1_0000)
    && forall k :: 0 <= k < |n.branches| ==>
         Encodable(n.branches[k].record) && Fits(n.branches[k].child)
  }

  /** A blob holding a header holds each of its sections. */
  lemma HeaderSections(data: Blob, off: nat, bs: seq<Branch>, kids: seq<Blob>)
    requires |bs| > 0 && |kids| == |bs|
    requires Embeds(data, off, Header(bs, kids))
    ensures data[off] == ToChar(|bs|)
    ensures Embeds(data, off + 1, Pivots(bs))
    ensures Embeds(data, off + 1 + |bs|, Records(bs))
    ensures !AllLeaves(bs) ==> Embeds(data, off + 1 + 2 * |bs|, Jumps(kids))
  {
    var head := [ToChar(|bs|)];
    var js := if AllLeaves(bs) then [] else Jumps(kids);
    assert Header(bs, kids) == head + Pivots(bs) + Records(bs) + js;
    EmbedsSplit(data, off, head + Pivots(bs) + Records(bs), js);
    EmbedsSplit(data, off, head + Pivots(bs), Records(bs));
    EmbedsSplit(data, off, head, Pivots(bs));
    EmbedsCell(data, off, head, 0);
  }

  /** A non-empty node encodes to its header followed by its children. */
  lemma EncodeSplit(n: Node)
    requires |n.branches| > 0
    ensures Encode(n) == Header(n.branches, ChildCodes(n)) + Flatten(ChildCodes(n))
  {
  }

  /** A blob holding a non-empty node holds its header, then its children. */
  lemma NodeSections(data: Blob, off: nat, n: Node)
    requires Embeds(data, off, Encode(n)) && |n.branches| > 0
    ensures Embeds(data, off, Header(n.branches, ChildCodes(n)))
    ensures Embeds(data, off + |Header(n.branches, ChildCodes(n))|, Flatten(ChildCodes(n)))
  {
    EncodeSplit(n);
    EmbedsSplit(data, off, Header(n.branches, ChildCodes(n)), Flatten(ChildCodes(n)));
  }

  /** A blob holding a non-empty node holds its branch count, its pivots and
      its records at the head of its header. */
  lemma HeaderAt(data: Blob, off: nat, n: Node)
    requires Embeds(data, off, Encode(n)) && |n.branches| > 0
    ensures data[off] == ToChar(|n.branches|)
    ensures Embeds(data, off + 1, Pivots(n.branches))
    ensures Embeds(data, off + 1 + |n.branches|, Records(n.branches))
  {
    NodeSections(data, off, n);
    HeaderSections(data, off, n.branches, ChildCodes(n));
  }

  /** A blob holding a node with a jump section holds it after the records. */
  lemma JumpsAt(data: Blob, off: nat, n: Node)
    requires Embeds(data, off, Encode(n)) && |n.branches| > 0 && !AllLeaves(n.branches)
    ensures Embeds(data, off + 1 + 2 * |n.branches|, Jumps(ChildCodes(n)))
  {
    NodeSections(data, off, n);
    HeaderSections(data, off, n.branches, ChildCodes(n));
  }

  /** The cells of a node, read from a blob that holds its encoding at `off`:
      its branch count, its pivots and the record of branch `b`. */
  lemma NodeCells(data: Blob, off: nat, n: Node, b: nat)
    requires Embeds(data, off, Encode(n)) && |n.branches| < 0x1_0000 && b < |n.branches|
    ensures data[off] == |n.branches|
    ensures Embeds(data, off + 1, Pivots(n.branches))
    ensures data[off + 1 + |n.branches| + b] == EncodeRecord(n.branches[b].record)
  {
    HeaderAt(data, off, n);
    EmbedsCell(data, off + 1 + |n.branches|, Records(n.branches), b);
  }

  /** Every jump of a node that fits is below 0x10000. */
  lemma JumpFits(n: Node, b: nat)
    requires Fits(n) && 0 < b < |n.branches|
    ensures Offset(ChildCodes(n), b) < 0x1_0000
  {
    OffsetMonotone(ChildCodes(n), b, |n.branches| - 1);
  }

  /** The jump cell of non-leaf branch `b > 0`, in a blob holding a node's
      encoding at `off`, is the size of the children before branch `b`, cast
      to a `char`. */
  lemma JumpCellCast(data: Blob, off: nat, n: Node, b: nat)
    requires Embeds(data, off, Encode(n)) && 0 < b < |n.branches|
    requires !n.branches[b].record.Leaf?
    ensures data[off + 2 * |n.branches| + b] == ToChar(Offset(ChildCodes(n), b))
  {
    assert !AllLeaves(n.branches);
    JumpsAt(data, off, n);
    EmbedsCell(data, off + 1 + 2 * |n.branches|, Jumps(ChildCodes(n)), b - 1);
    JumpsCell(ChildCodes(n), b);
  }

  /** The jump cell of non-leaf branch `b > 0` of a node that fits is the size
      of the children before branch `b`. */
  lemma JumpCell(data: Blob, off: nat, n: Node, b: nat)
    requires Embeds(data, off, Encode(n)) && Fits(n) && 0 < b < |n.branches|
    requires !n.branches[b].record.Leaf?
    ensures data[off + 2 * |n.branches| + b] == Offset(ChildCodes(n), b)
  {
    JumpCellCast(data, off, n, b);
    JumpFits(n, b);
  }

  /** The encoding of a node's child `b`. */
  lemma ChildCode(n: Node, b: nat)
    requires b < |n.branches|
    ensures ChildCodes(n)[b] == Encode(n.branches[b].child)
  {
  }

  /** A blob holding the encoding of a node with a jump section holds its
      children's encodings right after the `3 * bc` header cells. */
  lemma ChildrenAt(data: Blob, off: nat, n: Node)
    requires Embeds(data, off, Encode(n)) && |n.branches| > 0 && !AllLeaves(n.branches)
    ensures Embeds(data, off + 3 * |n.branches|, Flatten(ChildCodes(n)))
  {
    NodeSections(data, off, n);
  }

  /** A blob holding a node's encoding at `off` holds the child of non-leaf
      branch `b` at the end of the `3 * bc` header cells plus the size of the
      children before it. */
  lemma ChildAt(data: Blob, off: nat, n: Node, b: nat)
    requires Embeds(data, off, Encode(n)) && b < |n.branches|
    requires !n.branches[b].record.Leaf?
    ensures Embeds(data, off + 3 * |n.branches| + Offset(ChildCodes(n), b), Encode(n.branches[b].child))
  {
    assert !AllLeaves(n.branches);
    ChildrenAt(data, off, n);
    EmbedsPart(data, off + 3 * |n.branches|, ChildCodes(n), b);
    ChildCode(n, b);
  }
}
