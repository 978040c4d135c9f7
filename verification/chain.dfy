/** Overflow chaining: tables with more rows than one trie can index.

    `build` cuts the table into chunks of `MAX_ROWS_PER_TRIE` rows, starting
    at row 0, and builds a trie for each. Every chunk but the last is wrapped
    in an `Overflow` that holds the first string of the next chunk: keys that
    sort below it are answered by the chunk's own trie, and every other key is
    passed on to the rest of the chain, whose answer is offset by
    `MAX_ROWS_PER_TRIE`.
 */
module Chain {
  import opened Cells
  import opened Strings
  import opened Trie
  import opened Builder
  import opened Layout
  import opened Query

  /** What `build` returns: a single trie, or a trie that overflows into the
      rest of the chain for keys at or above `overflowKey`. */
  datatype Indexer =
    | Single(data: Blob)
    | Overflow(data: Blob, overflowKey: Key, next: Indexer)

  /** The number of tries in a chain. */
  function Chunks(ix: Indexer): nat
  {
    match ix
    case Single(_) => 1
    case Overflow(_, _, next) => 1 + Chunks(next)
  }

  /** `applyAsInt` of a chain: a key below the overflow key is looked up in
      the chunk's own trie; any other key is looked up in the rest of the
      chain, and what that returns is offset by `MAX_ROWS_PER_TRIE`. Each hop
      adds one chunk's worth to the answer, so a key routed past an overflow
      key never answers below `MAX_ROWS_PER_TRIE - 1`. */
  function Apply(ix: Indexer, key: Key): (o: Outcome)
    ensures o.Returned? ==>
      NOT_FOUND <= o.value < LEAF_MARKER + MAX_ROWS_PER_TRIE * (Chunks(ix) - 1)
    ensures ix.Overflow? && !Below(key, ix.overflowKey) && o.Returned? ==>
      o.value >= MAX_ROWS_PER_TRIE - 1
  {
    match ix
    case Single(data) => Lookup(data, key)
    case Overflow(data, overflowKey, next) =>
      if Below(key, overflowKey) then Lookup(data, key)
      else match Apply(next, key)
        case OutOfBounds => OutOfBounds
        case Returned(v) => Returned(MAX_ROWS_PER_TRIE + v)
  }

  /** The row just past the chunk that starts at `row`. */
  function ChunkEnd(row: nat, rowLimit: nat): (end: nat)
    requires row <= rowLimit
    ensures row <= end <= rowLimit && end - row <= MAX_ROWS_PER_TRIE
    ensures end < rowLimit <==> rowLimit - row > MAX_ROWS_PER_TRIE
  {
    if rowLimit > row + MAX_ROWS_PER_TRIE then row + MAX_ROWS_PER_TRIE else rowLimit
  }

  /** `ix` cuts rows `row` to `rowLimit - 1` into full chunks of
      `MAX_ROWS_PER_TRIE` rows and a last chunk of at most that many. */
  ghost predicate Spans(ix: Indexer, row: int, rowLimit: int)
    decreases ix
  {
    match ix
    case Single(_) => rowLimit - row <= MAX_ROWS_PER_TRIE
    case Overflow(_, _, next) =>
      rowLimit - row > MAX_ROWS_PER_TRIE && Spans(next, row + MAX_ROWS_PER_TRIE, rowLimit)
  }

  /** `build(buf, table, row, rowLimit)`: the trie of the chunk at `row`,
      overflowing into the chain built from the next chunk when rows remain. */
  function BuildFrom(t: Table, row: nat, rowLimit: nat): (ix: Indexer)
    requires Sorted(t) && NonEmptyRows(t) && row <= rowLimit <= |t|
    ensures ix.Overflow? <==> rowLimit - row > MAX_ROWS_PER_TRIE
    ensures ix.Overflow? ==> ix.overflowKey == t[row + MAX_ROWS_PER_TRIE]
    ensures Spans(ix, row, rowLimit)
    decreases rowLimit - row
  {
    var data := Encode(BuildTrie(t, row, ChunkEnd(row, rowLimit)));
    if rowLimit > row + MAX_ROWS_PER_TRIE then
      Overflow(data, t[row + MAX_ROWS_PER_TRIE], BuildFrom(t, row + MAX_ROWS_PER_TRIE, rowLimit))
    else
      Single(data)
  }

  /** `build(table)`: one trie per `MAX_ROWS_PER_TRIE` rows, rounded up, each
      but the last overflowing at the first row of the next chunk. */
  function Build(t: Table): (ix: Indexer)
    requires Sorted(t) && NonEmptyRows(t)
    ensures Spans(ix, 0, |t|)
    ensures ix.Overflow? <==> |t| > MAX_ROWS_PER_TRIE
    ensures ix.Overflow? ==> ix.overflowKey == t[MAX_ROWS_PER_TRIE]
    ensures |t| > 0 ==> Chunks(ix) == (|t| - 1) / MAX_ROWS_PER_TRIE + 1
  {
    var ix := BuildFrom(t, 0, |t|);
    if |t| == 0 then ix
    else ChunkCount(ix, 0, |t|); ix
  }

  /** Every chunk's trie stores only values that fit their 16-bit cells: the
      condition the source takes for granted of its input. */
  ghost predicate ChunksFit(t: Table, row: nat, rowLimit: nat)
    requires Sorted(t) && NonEmptyRows(t) && row <= rowLimit <= |t|
    decreases rowLimit - row
  {
    && Fits(BuildTrie(t, row, ChunkEnd(row, rowLimit)))
    && (rowLimit > row + MAX_ROWS_PER_TRIE ==> ChunksFit(t, row + MAX_ROWS_PER_TRIE, rowLimit))
  }

  /** A chain of `k` tries covers at most `MAX_ROWS_PER_TRIE * k` rows: the
      chain cutting up `m > 0` rows has `ceil(m / MAX_ROWS_PER_TRIE)` tries. */
  lemma {:induction false} ChunkCount(ix: Indexer, row: int, rowLimit: int)
    requires Spans(ix, row, rowLimit) && row < rowLimit
    ensures Chunks(ix) == (rowLimit - row - 1) / MAX_ROWS_PER_TRIE + 1
    decreases ix
  {
    if ix.Overflow? {
      ChunkCount(ix.next, row + MAX_ROWS_PER_TRIE, rowLimit);
    }
  }

  /** The table of one trie's worth of rows builds a single trie; one more row
      builds a chain of two. */
  lemma CapacityBoundary(t: Table)
    requires Sorted(t) && NonEmptyRows(t)
    ensures |t| <= MAX_ROWS_PER_TRIE ==> Build(t).Single?
    ensures |t| == MAX_ROWS_PER_TRIE + 1 ==> Build(t).Overflow? && Build(t).next.Single?
  {
  }

  /** The trie built for rows `row` to `rowLimit - 1` returns, for each of
      them, its 14 low index bits. */
  lemma TrieFindsRow(t: Table, row: nat, rowLimit: nat, i: nat)
    requires Sorted(t) && NonEmptyRows(t) && row <= i < rowLimit <= |t|
    requires Fits(BuildTrie(t, row, rowLimit))
    ensures Lookup(Encode(BuildTrie(t, row, rowLimit)), t[i]) == Returned(LowBits(i))
  {
    assert Embeds(Encode(BuildTrie(t, row, rowLimit)), 0, Encode(BuildTrie(t, row, rowLimit)));
    WalkFinds(Encode(BuildTrie(t, row, rowLimit)), 0, BuildTrie(t, row, rowLimit), t[i], 0);
    assert Slice(t, 0, row, rowLimit);
    FindBuiltRow(t, 0, row, rowLimit, i);
  }

  /** A built trie with rows answers NOT_FOUND or a value below
      `MAX_ROWS_PER_TRIE` for every key, and never reads outside its cells. */
  lemma TrieRange(t: Table, row: nat, rowLimit: nat, key: Key)
    requires Sorted(t) && NonEmptyRows(t) && row < rowLimit <= |t|
    requires Fits(BuildTrie(t, row, rowLimit))
    ensures Lookup(Encode(BuildTrie(t, row, rowLimit)), key).Returned?
    ensures NOT_FOUND <= Lookup(Encode(BuildTrie(t, row, rowLimit)), key).value < MAX_ROWS_PER_TRIE
  {
    assert Embeds(Encode(BuildTrie(t, row, rowLimit)), 0, Encode(BuildTrie(t, row, rowLimit)));
    WalkFinds(Encode(BuildTrie(t, row, rowLimit)), 0, BuildTrie(t, row, rowLimit), key, 0);
    FindRange(BuildTrie(t, row, rowLimit), key, 0);
  }

  /** Within a chunk that starts at a multiple of `MAX_ROWS_PER_TRIE`, the 14
      low bits of a row are its distance from the chunk's start. */
  lemma LowBitsInChunk(row: nat, i: nat)
    requires row % MAX_ROWS_PER_TRIE == 0 && row <= i < row + MAX_ROWS_PER_TRIE
    ensures LowBits(i) == i - row
  {
  }

  /** The trie `data` answers `key` without reading outside its cells, and
      below `MAX_ROWS_PER_TRIE`. */
  ghost predicate TrieAnswers(data: Blob, key: Key) {
    Lookup(data, key).Returned? && Lookup(data, key).value < MAX_ROWS_PER_TRIE
  }

  /** The trie `data` answers every key. */
  ghost predicate AnswersAll(data: Blob) {
    forall key :: TrieAnswers(data, key)
  }

  /** The trie built for a non-empty chunk that fits its cells answers every
      key. */
  lemma BuiltTrieAnswers(t: Table, row: nat, end: nat)
    requires Sorted(t) && NonEmptyRows(t) && row < end <= |t| && Fits(BuildTrie(t, row, end))
    ensures AnswersAll(Encode(BuildTrie(t, row, end)))
  {
    forall key
      ensures TrieAnswers(Encode(BuildTrie(t, row, end)), key)
    {
      TrieRange(t, row, end, key);
    }
  }

  /** The trie `data` maps each of rows `row` to `end - 1` to its 14 low
      index bits. */
  ghost predicate FindsRows(data: Blob, t: Table, row: nat, end: nat)
    requires row <= end <= |t|
  {
    forall i :: row <= i < end ==> Lookup(data, t[i]) == Returned(LowBits(i))
  }

  /** `ix` is a chain for rows `row` to `rowLimit - 1` as `build` lays it
      out: full chunks of `MAX_ROWS_PER_TRIE` rows, each trie finding its own
      rows and answering every key, each overflow key the first string of
      the next chunk. */
  ghost predicate ChainFor(ix: Indexer, t: Table, row: nat, rowLimit: nat)
    requires row <= rowLimit <= |t|
    decreases ix
  {
    match ix
    case Single(data) =>
      && rowLimit - row <= MAX_ROWS_PER_TRIE
      && FindsRows(data, t, row, rowLimit)
      && (row < rowLimit ==> AnswersAll(data))
    case Overflow(data, overflowKey, next) =>
      && rowLimit - row > MAX_ROWS_PER_TRIE
      && overflowKey == t[row + MAX_ROWS_PER_TRIE]
      && FindsRows(data, t, row, row + MAX_ROWS_PER_TRIE)
      && AnswersAll(data)
      && ChainFor(next, t, row + MAX_ROWS_PER_TRIE, rowLimit)
  }

  /** The trie built for rows `row` to `end - 1` finds each of them. */
  lemma TrieFindsRows(t: Table, row: nat, end: nat)
    requires Sorted(t) && NonEmptyRows(t) && row <= end <= |t| && Fits(BuildTrie(t, row, end))
    ensures FindsRows(Encode(BuildTrie(t, row, end)), t, row, end)
  {
    forall i | row <= i < end
      ensures Lookup(Encode(BuildTrie(t, row, end)), t[i]) == Returned(LowBits(i))
    {
      TrieFindsRow(t, row, end, i);
    }
  }

  /** The first chunk of rows `row` to `rowLimit - 1` fits its cells, and so
      do the chunks after it. */
  lemma ChunksFitParts(t: Table, row: nat, rowLimit: nat)
    requires Sorted(t) && NonEmptyRows(t) && row <= rowLimit <= |t| && ChunksFit(t, row, rowLimit)
    ensures rowLimit <= row + MAX_ROWS_PER_TRIE ==> Fits(BuildTrie(t, row, rowLimit))
    ensures rowLimit > row + MAX_ROWS_PER_TRIE ==>
      Fits(BuildTrie(t, row, row + MAX_ROWS_PER_TRIE)) && ChunksFit(t, row + MAX_ROWS_PER_TRIE, rowLimit)
  {
  }

  /** `build` from `row`: a single trie for the last chunk, otherwise the
      chunk's trie overflowing into the chain of the rows after it. */
  lemma BuildFromParts(t: Table, row: nat, rowLimit: nat)
    requires Sorted(t) && NonEmptyRows(t) && row <= rowLimit <= |t|
    ensures rowLimit <= row + MAX_ROWS_PER_TRIE ==>
      BuildFrom(t, row, rowLimit) == Single(Encode(BuildTrie(t, row, rowLimit)))
    ensures rowLimit > row + MAX_ROWS_PER_TRIE ==>
      BuildFrom(t, row, rowLimit) ==
        Overflow(Encode(BuildTrie(t, row, row + MAX_ROWS_PER_TRIE)), t[row + MAX_ROWS_PER_TRIE],
                 BuildFrom(t, row + MAX_ROWS_PER_TRIE, rowLimit))
  {
  }

  /** The chain `build` returns from a chunk boundary `row` has that shape. */
  lemma {:induction false} BuiltChain(t: Table, row: nat, rowLimit: nat)
    requires Sorted(t) && NonEmptyRows(t) && row <= rowLimit <= |t| && ChunksFit(t, row, rowLimit)
    ensures ChainFor(BuildFrom(t, row, rowLimit), t, row, rowLimit)
    decreases rowLimit - row
  {
    ChunksFitParts(t, row, rowLimit);
    BuildFromParts(t, row, rowLimit);
    if rowLimit > row + MAX_ROWS_PER_TRIE {
      TrieFindsRows(t, row, row + MAX_ROWS_PER_TRIE);
      BuiltTrieAnswers(t, row, row + MAX_ROWS_PER_TRIE);
      BuiltChain(t, row + MAX_ROWS_PER_TRIE, rowLimit);
    } else {
      TrieFindsRows(t, row, rowLimit);
      if row < rowLimit {
        BuiltTrieAnswers(t, row, rowLimit);
      }
    }
  }

  /** The round trip of a chain: a sorted table's chain from a chunk boundary
      `row` maps every later row to its distance from `row`, routing it by the
      overflow keys to the chunk that holds it. */
  lemma {:induction false} ApplyChain(ix: Indexer, t: Table, row: nat, rowLimit: nat, i: nat)
    requires Sorted(t) && row <= i < rowLimit <= |t| && row % MAX_ROWS_PER_TRIE == 0
    requires ChainFor(ix, t, row, rowLimit)
    ensures Apply(ix, t[i]) == Returned(i - row)
    decreases ix
  {
    match ix
    case Single(data) =>
      LowBitsInChunk(row, i);
    case Overflow(data, overflowKey, next) =>
      SortedSplitsAt(t, row + MAX_ROWS_PER_TRIE, i);
      if i < row + MAX_ROWS_PER_TRIE {
        LowBitsInChunk(row, i);
      } else {
        ApplyChain(next, t, row + MAX_ROWS_PER_TRIE, rowLimit, i);
      }
  }

  /** The round trip: the index built for a sorted table of non-empty strings
      maps every row back to its position, however many tries it takes. */
  lemma ApplyBuilt(t: Table, i: nat)
    requires Sorted(t) && NonEmptyRows(t) && i < |t| && ChunksFit(t, 0, |t|)
    ensures Apply(Build(t), t[i]) == Returned(i)
  {
    assert Build(t) == BuildFrom(t, 0, |t|);
    BuiltChain(t, 0, |t|);
    ApplyChain(BuildFrom(t, 0, |t|), t, 0, |t|, i);
  }

  /** NOT_FOUND is never a false negative: a key the built index reports as
      absent is no row of the table. */
  lemma NotFoundIsAbsent(t: Table, key: Key)
    requires Sorted(t) && NonEmptyRows(t) && ChunksFit(t, 0, |t|)
    requires Apply(Build(t), key) == Returned(NOT_FOUND)
    ensures forall i :: 0 <= i < |t| ==> t[i] != key
  {
    forall i | 0 <= i < |t|
      ensures t[i] != key
    {
      ApplyBuilt(t, i);
    }
  }

  /** One hop of the range bound: a chunk answering below `MAX_ROWS_PER_TRIE`
      in front of a chain answering below `MAX_ROWS_PER_TRIE` per trie. */
  lemma OverflowRange(data: Blob, overflowKey: Key, next: Indexer, key: Key)
    requires Lookup(data, key).Returned? && Lookup(data, key).value < MAX_ROWS_PER_TRIE
    requires Apply(next, key).Returned? && Apply(next, key).value < MAX_ROWS_PER_TRIE * Chunks(next)
    ensures Apply(Overflow(data, overflowKey, next), key).Returned?
    ensures Apply(Overflow(data, overflowKey, next), key).value
              < MAX_ROWS_PER_TRIE * Chunks(Overflow(data, overflowKey, next))
  {
  }

  /** A chain laid out for at least one row answers every key, below
      `MAX_ROWS_PER_TRIE` times its number of tries. */
  lemma {:induction false} ChainRange(ix: Indexer, t: Table, row: nat, rowLimit: nat, key: Key)
    requires row < rowLimit <= |t| && ChainFor(ix, t, row, rowLimit)
    ensures Apply(ix, key).Returned? && Apply(ix, key).value < MAX_ROWS_PER_TRIE * Chunks(ix)
    decreases ix
  {
    match ix
    case Single(data) =>
      assert TrieAnswers(data, key);
    case Overflow(data, overflowKey, next) =>
      assert TrieAnswers(data, key);
      ChainRange(next, t, row + MAX_ROWS_PER_TRIE, rowLimit, key);
      OverflowRange(data, overflowKey, next, key);
  }

  /** Every value a built chain whose tries fit their cells answers is
      NOT_FOUND or a position below `MAX_ROWS_PER_TRIE` times its number of
      tries, and a key passed on to the rest of the chain comes back as
      `MAX_ROWS_PER_TRIE - 1` or more. */
  lemma ApplyRange(t: Table, row: nat, rowLimit: nat, key: Key)
    requires Sorted(t) && NonEmptyRows(t) && row < rowLimit <= |t| && ChunksFit(t, row, rowLimit)
    ensures Apply(BuildFrom(t, row, rowLimit), key).Returned?
    ensures NOT_FOUND <= Apply(BuildFrom(t, row, rowLimit), key).value
                      < MAX_ROWS_PER_TRIE * Chunks(BuildFrom(t, row, rowLimit))
    ensures rowLimit - row > MAX_ROWS_PER_TRIE && !Below(key, t[row + MAX_ROWS_PER_TRIE]) ==>
      Apply(BuildFrom(t, row, rowLimit), key).value >= MAX_ROWS_PER_TRIE - 1
  {
    BuiltChain(t, row, rowLimit);
    ChainRange(BuildFrom(t, row, rowLimit), t, row, rowLimit, key);
  }

  /** A table with no rows builds an empty trie, which answers NOT_FOUND for
      the empty key and fails with an out-of-bounds read for every other key. */
  lemma EmptyTable(key: Key)
    ensures Apply(Build([]), key) == if |key| == 0 then Returned(NOT_FOUND) else OutOfBounds
  {
    assert BuildBranches([], 0, 0, 0) == [];
  }
}
