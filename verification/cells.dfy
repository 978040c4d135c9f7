/** The 16-bit cell format shared by keys and trie blobs.

    A Java `char` is an unsigned 16-bit code unit; the trie stores every field of
    a node in one such cell. A branch record cell carries one of three meanings,
    selected by its two high bits:
      - bit 15 set: a Leaf, the low bits are the row index to return;
      - bit 14 set: a Bud, the low bits are the row index to return when the key
        ends here, otherwise the key advances by one;
      - neither set: a Skip, the cell is the number of key positions to advance.
 */
module Cells {

  /** A 16-bit code unit or trie cell (Java `char`). */
  type Char16 = c: int | 0 <= c < 0x1_0000

  /** Marks a leaf record; the remaining bits are the index to be returned. */
  const LEAF_MARKER: Char16 := 0x8000

  /** Marks a bud record; like a leaf, except the trie continues beneath it. */
  const BUD_MARKER: Char16 := 0x4000

  /** Maximum number of rows a single trie can index (14 index bits). */
  const MAX_ROWS_PER_TRIE: nat := 0x4000

  /** The "not found" answer of a query. */
  const NOT_FOUND: int := -1

  /** A branch record, decoded from its tag bits. */
  datatype Record = Leaf(index: nat) | Bud(index: nat) | Skip(delta: nat)

  /** The Java narrowing cast `(char) x` for a non-negative int. */
  function ToChar(x: nat): (c: Char16)
    ensures x < 0x1_0000 ==> c == x
    ensures c <= x
  {
    x % 0x1_0000
  }

  /** `row & (MAX_ROWS_PER_TRIE - 1)`: the 14 index bits kept for a row. */
  function LowBits(row: nat): (v: nat)
    ensures v < MAX_ROWS_PER_TRIE
    ensures row < MAX_ROWS_PER_TRIE ==> v == row
  {
    row % MAX_ROWS_PER_TRIE
  }

  /** `(c & LEAF_MARKER) != 0` for a 16-bit cell. */
  predicate HasLeafTag(c: Char16) {
    c >= LEAF_MARKER
  }

  /** `(c & BUD_MARKER) != 0` for a 16-bit cell: bit 14 is set in
      0x4000-0x7FFF and in 0xC000-0xFFFF. */
  predicate HasBudTag(c: Char16) {
    BUD_MARKER <= c < LEAF_MARKER || LEAF_MARKER + BUD_MARKER <= c
  }

  /** A record whose value survives the trip through one cell. */
  ghost predicate Encodable(r: Record) {
    match r
    case Leaf(v) => v < MAX_ROWS_PER_TRIE
    case Bud(v) => v < MAX_ROWS_PER_TRIE
    case Skip(d) => d < BUD_MARKER
  }

  /** The cell the builder writes for a record: `index | marker` for leaves and
      buds, `(char) delta` for skips. */
  function EncodeRecord(r: Record): (c: Char16)
    ensures r.Leaf? && Encodable(r) ==> HasLeafTag(c)
    ensures r.Bud? && Encodable(r) ==> HasBudTag(c) && !HasLeafTag(c)
    ensures r.Skip? && Encodable(r) ==> !HasBudTag(c) && !HasLeafTag(c)
  {
    match r
    case Leaf(v) => LEAF_MARKER + LowBits(v)
    case Bud(v) => BUD_MARKER + LowBits(v)
    case Skip(d) => ToChar(d)
  }

  /** How the query reads a record cell: a leaf tag wins, then a bud tag; the
      matching marker is cleared (`c & ~MARKER`), and an untagged cell is a key
      delta. */
  function DecodeRecord(c: Char16): (r: Record)
    ensures r.Leaf? <==> HasLeafTag(c)
    ensures r.Bud? <==> !HasLeafTag(c) && HasBudTag(c)
    ensures r.Leaf? ==> r.index < LEAF_MARKER
    ensures r.Bud? ==> r.index < BUD_MARKER
    ensures r.Skip? ==> r.delta < BUD_MARKER
  {
    if HasLeafTag(c) then Leaf(c - LEAF_MARKER)
    else if HasBudTag(c) then Bud(c - BUD_MARKER)
    else Skip(c)
  }

  /** Every encodable record is read back as itself. */
  lemma DecodeEncode(r: Record)
    requires Encodable(r)
    ensures DecodeRecord(EncodeRecord(r)) == r
  {
  }

  /** A record is encodable exactly when the read-back is the identity; a skip
      delta of 0x4000 or more is misread as a tagged record. */
  lemma EncodableIffRoundTrips(r: Record)
    ensures Encodable(r) <==> DecodeRecord(EncodeRecord(r)) == r
  {
  }
}
