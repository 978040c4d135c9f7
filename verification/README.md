# ImmutableStringTrie in Dafny

This project models Guice's `ImmutableStringTrie`. It is a compact index over a
sorted table of strings. It maps each string of the table back to its row
number, in time proportional to the part of the key it has to look at. The
index lives in a `char[]` of 16-bit cells. Each node of the trie is laid out as:

- its branch count;
- its pivot characters, in ascending order;
- one record per branch: a Leaf (`0x8000 | row`), a Bud (`0x4000 | row`) or a
  key-skip delta;
- cumulative jumps to the children of branches 1 to n-1.

The children follow, depth first. A table with more than `0x4000` rows is cut
into chunks of that size. The chunks are chained through `Overflow` wrappers
that route a key by comparing it with the first string of the next chunk.

The model is layered the way the class is:

| file | module | what it holds |
|---|---|---|
| `cells.dfy` | `Cells` | 16-bit cells, the markers, `MAX_ROWS_PER_TRIE`, and record encoding and decoding |
| `strings.dfy` | `Strings` | Java strings as code-unit sequences, `String.compareTo`, sorted tables |
| `trie.dfy` | `Trie` | the trie as a tree of branches, and the reference query `Find` on it |
| `builder.dfy` | `Builder` | `buildTrie`, `nextPivotRow`, `nextPivotColumn`, as pure recursion over row range and column |
| `layout.dfy` | `Layout` | packing a tree into cells (`Encode`), and where each field of a node lands |
| `query.dfy` | `Query` | `applyAsInt`: `Arrays.binarySearch`, one pass of the loop (`StepAt`), the loop (`Walk`) |
| `chain.dfy` | `Chain` | `build`, the `Overflow` wrapper, and the end-to-end round trip |
| `samples.dfy` | `Samples` | the three tries drawn in the class documentation, rebuilt and walked |

The main results:

- The cell walk agrees with the tree-level query on every tree the builder can
  store (`Query.WalkFinds`).
- The built tree finds every row of its slice (`Builder.FindBuiltRow`).
- Overflow routing sends every row to the chunk that holds it
  (`Chain.ApplyChain`).
- Together these give `Apply(Build(t), t[i]) == Returned(i)` for every sorted
  table of non-empty strings whose chunk tries fit their cells
  (`Chain.ChunksFit`), of any size (`Chain.ApplyBuilt`).
- The three documented encodings are exactly what the builder produces
  (`Samples.SimpleExample`, `Samples.BudExample`, `Samples.ComplexExample`).

Java behaviour that the model writes out explicitly:

- An array read outside the cells, which throws in Java, is the `OutOfBounds`
  outcome.
- `(char)` casts are reduction modulo `0x10000` (`Cells.ToChar`).
- `row & (MAX_ROWS_PER_TRIE - 1)` is `row % 0x4000` (`Cells.LowBits`).
- Tag tests are range tests on the cell value.

The `StringBuilder` insert-and-delete mechanics of `buildTrie` are modelled as
the cell sequence they produce, built bottom-up as a concatenation (`Layout.Encode`).

What the code does beyond what its documentation says:

- **Empty table.** The class documentation of `applyAsInt` (lines 98-104)
  promises only that -1 means the string is absent. Built from an empty table,
  the cell array is empty, and any non-empty key makes the loop read `data[0]`
  and throw `ArrayIndexOutOfBoundsException`. `Chain.EmptyTable` states this:
  `OutOfBounds` for every non-empty key. On a table with rows whose chunk tries
  fit their cells (`Chain.ChunksFit`), the walk never leaves the cells
  (`Chain.TrieRange`, `Chain.ApplyRange`).
- **A third way to return -1.** The loop returns -1 for an empty key (line 112)
  and when a key unit is not among a node's pivots (lines 118-120). It also
  ends, and returns -1 at line 149, when a Skip moves the key position to or
  past the key's end. A Bud never does this: it advances the key by one only
  when the key has units left (lines 130-133). On a table whose chunk tries fit
  their cells (`Chain.ChunksFit`), this third case only happens for keys that
  are not in the table (`Chain.NotFoundIsAbsent`).
- **Deleting the jump section.** When every branch of a node is a Leaf, lines
  248-249 delete `branchCount` cells starting at the jump section, but only
  `branchCount - 1` jump cells exist. `StringBuilder.delete` clamps this to the
  end of the buffer. The model states the intended result: a node of leaves has
  no jump section (`Layout.Header`).

## Model

All source paths are under `core/src/com/google/inject/internal/aop/`; the cells below repeat the full path.

| member | source | states |
|---|---|---|
| Cells.ToChar | core/src/com/google/inject/internal/aop/ImmutableStringTrie.java:223 | the `(char)` cast keeps any value below 0x10000 unchanged and never increases a value |
| Cells.LowBits | core/src/com/google/inject/internal/aop/ImmutableStringTrie.java:230 | the masked row index is below `MAX_ROWS_PER_TRIE` and equals the row for rows below it |
| Cells.EncodeRecord | core/src/com/google/inject/internal/aop/ImmutableStringTrie.java:222-231 | a leaf cell carries the leaf tag; a bud cell carries the bud tag and not the leaf tag; a skip cell below `BUD_MARKER` carries neither tag |
| Cells.DecodeRecord | core/src/com/google/inject/internal/aop/ImmutableStringTrie.java:123-134 | a cell reads as a Leaf exactly when bit 15 is set, and as a Bud exactly when bit 15 is clear and bit 14 is set; clearing the tag leaves a leaf index below 0x8000, a bud index below 0x4000 and a skip delta below 0x4000 |
| Cells.DecodeEncode | core/src/com/google/inject/internal/aop/ImmutableStringTrie.java:86-90 | every record whose value fits its cell reads back as itself |
| Cells.EncodableIffRoundTrips | core/src/com/google/inject/internal/aop/ImmutableStringTrie.java:124-133 | a record survives its cell if and only if it fits; a skip delta of 0x4000 or more is misread as a tagged record |
| Strings.SortedSplitsAt | core/src/com/google/inject/internal/aop/ImmutableStringTrie.java:155 | in a sorted table, row `i` compares below row `p` exactly when `i < p` |
| Strings.PrefixBelow | core/src/com/google/inject/internal/aop/ImmutableStringTrie.java:155 | under `compareTo`, a string sorts below every proper extension of itself |
| Strings.DifferenceBelow | core/src/com/google/inject/internal/aop/ImmutableStringTrie.java:155 | under `compareTo`, of two strings with a common prefix, the one with the smaller next unit sorts first |
| Trie.FindAtNode | core/src/com/google/inject/internal/aop/ImmutableStringTrie.java:118-137 | one level of the tree query: no branch answers -1; a Leaf answers; a Bud answers on the key's last unit; otherwise the key advances by 1 or by the skip delta into the chosen child |
| Trie.FindRange | core/src/com/google/inject/internal/aop/ImmutableStringTrie.java:124-131 | on a well-formed tree, every answer for every key is -1 or a 14-bit index |
| Trie.BranchForUnique | core/src/com/google/inject/internal/aop/ImmutableStringTrie.java:113-116 | with ascending pivots, the branch a unit selects is the only one carrying that pivot |
| Builder.NextPivotRow | core/src/com/google/inject/internal/aop/ImmutableStringTrie.java:261-272 | the result is the first row after `row` that is too short for the column or has another unit there, and `rowLimit` if there is none; every row before it has the pivot |
| Builder.NextPivotColumn | core/src/com/google/inject/internal/aop/ImmutableStringTrie.java:280-292 | all later rows of the range agree with `row` from `column + 1` up to the result; when the result is inside the row, some later row differs from it, or ends, at the result |
| Builder.DecisionColumn | core/src/com/google/inject/internal/aop/ImmutableStringTrie.java:205-212 | the decision column lies past `column` and within the row, and the rows continuing below it form a slice there; a run of one row is decided at the row's end; when the row ends at the decision column and more rows follow, the decision column is right after the pivot, so a Bud can sit on the row's last unit; a decision column inside the row is where some later row differs or ends, or is the row's last unit with more rows following (the step back of lines 209-212) |
| Builder.BuildBranch | core/src/com/google/inject/internal/aop/ImmutableStringTrie.java:199-232 | the branch is a Leaf exactly for a run of one row, and a Bud exactly when more rows follow and the first row ends right after the pivot column; a Skip stays inside the row; Leaf and Bud carry the row's low bits |
| Builder.BuildBranches | core/src/com/google/inject/internal/aop/ImmutableStringTrie.java:195-242 | a node has no branches exactly for an empty row range, at most one branch per row, and no pivot below the first row's unit |
| Builder.BuiltWellFormed | core/src/com/google/inject/internal/aop/ImmutableStringTrie.java:195-242 | every node built has strictly ascending pivots; every skip delta is at least 1; Buds and Skips have non-empty children; Leaves have none |
| Builder.BuildTrie | core/src/com/google/inject/internal/aop/ImmutableStringTrie.java:184-252 | the trie of a chunk is well-formed, has at most one branch per row, and is empty exactly for an empty chunk |
| Builder.FindBuiltRow | core/src/com/google/inject/internal/aop/ImmutableStringTrie.java:184-252 | the tree built for a slice answers every row of the slice with that row's low bits |
| Builder.FindBuiltBranch | core/src/com/google/inject/internal/aop/ImmutableStringTrie.java:222-232 | each row of a branch is found by following that branch: through a Skip, through a Bud, or ending at a Leaf or at a Bud on its last unit |
| Layout.Encode | core/src/com/google/inject/internal/aop/ImmutableStringTrie.java:184-252 | `buildTrie` leaves no cells for a node without branches, and some cells for every other node |
| Layout.Header | core/src/com/google/inject/internal/aop/ImmutableStringTrie.java:244-250 | a node header takes `3 * bc` cells, or `1 + 2 * bc` when every branch is a Leaf |
| Layout.JumpCell | core/src/com/google/inject/internal/aop/ImmutableStringTrie.java:234-238 | the jump cell of non-leaf branch `k > 0` holds the total size of the children of branches before `k` |
| Layout.ChildAt | core/src/com/google/inject/internal/aop/ImmutableStringTrie.java:214-242 | a non-leaf branch's child is encoded right after the `3 * bc` header cells plus the sizes of the children before it |
| Layout.NodeCells | core/src/com/google/inject/internal/aop/ImmutableStringTrie.java:214-245 | when the branch count fits a cell, a stored node's first cell is its branch count, the pivots follow, then record `b` at `1 + bc + b` |
| Query.SearchRange | core/src/com/google/inject/internal/aop/ImmutableStringTrie.java:115-116 | the `binarySearch0` loop returns a position inside the range holding the key, or a negative value; over ascending cells, a negative value means the key is absent |
| Query.BinarySearch | core/src/com/google/inject/internal/aop/ImmutableStringTrie.java:115-116 | `Arrays.binarySearch(a, from, to, key)` returns a position in `[from, to)` holding the key, or a negative value, which over ascending cells means absence |
| Query.SearchPivots | core/src/com/google/inject/internal/aop/ImmutableStringTrie.java:113-120 | over a node's pivot cells, the search misses exactly when no branch carries the unit, and otherwise lands on the branch the tree query picks |
| Query.StepAt | core/src/com/google/inject/internal/aop/ImmutableStringTrie.java:112-147 | a pass of the loop that goes on always moves the cell position forward, so the loop ends on any cells |
| Query.PassNotFound | core/src/com/google/inject/internal/aop/ImmutableStringTrie.java:118-120 | a pass returns -1 exactly when the node's cells are present and the binary search misses |
| Query.Walk | core/src/com/google/inject/internal/aop/ImmutableStringTrie.java:112-149 | on any cells whatsoever, the loop returns -1 or a value below 0x8000, because clearing a tag bit leaves at most 15 bits; once the key position reaches the key's end it returns -1 |
| Query.Lookup | core/src/com/google/inject/internal/aop/ImmutableStringTrie.java:105-150 | `applyAsInt` answers -1 for the empty key, reads outside empty cells for any other key, and otherwise returns -1 or a value below 0x8000 |
| Query.StepAtMiss | core/src/com/google/inject/internal/aop/ImmutableStringTrie.java:118-120 | over a node's cells, a unit that selects no branch makes the pass return -1 |
| Query.StepAtHit | core/src/com/google/inject/internal/aop/ImmutableStringTrie.java:122-146 | over a node's cells, a unit that selects branch `b` acts on `b`'s record: it returns a Leaf's index; it returns a Bud's index on the key's last unit; otherwise it advances the key and moves to the header's end plus `b`'s jump |
| Query.NodePassCells | core/src/com/google/inject/internal/aop/ImmutableStringTrie.java:114-142 | a stored node holds every cell one pass reads: count, pivots, the chosen record, and its jump |
| Query.WalkOnCells | core/src/com/google/inject/internal/aop/ImmutableStringTrie.java:112-147 | at a node's cells, the loop answers as the tree node does, or continues exactly at the chosen child's cells with the advanced key position |
| Query.StoredIsLaid | core/src/com/google/inject/internal/aop/ImmutableStringTrie.java:139-146 | in the cells of a stored tree, every node's child sits where the loop's jump arithmetic looks for it |
| Query.WalkFindsLaid | core/src/com/google/inject/internal/aop/ImmutableStringTrie.java:105-150 | walking laid-out cells from any node gives the tree query's answer for every key |
| Query.WalkFinds | core/src/com/google/inject/internal/aop/ImmutableStringTrie.java:105-150 | for every key, the loop over a stored tree's cells returns exactly the tree query's answer and never reads outside the cells |
| Chain.BuildFrom | core/src/com/google/inject/internal/aop/ImmutableStringTrie.java:162-177 | `build` overflows exactly when more than `MAX_ROWS_PER_TRIE` rows remain; the overflow key is the row at `row + MAX_ROWS_PER_TRIE`; the chain cuts the rows into full chunks and one last chunk |
| Chain.Build | core/src/com/google/inject/internal/aop/ImmutableStringTrie.java:152-159 | `build(table)` returns a chain that cuts the rows into full chunks of 16384 and one last chunk, overflows exactly when the table has more than 16384 rows, with the row at 16384 as overflow key, and has `ceil(m / 0x4000)` tries for `m > 0` rows |
| Chain.Apply | core/src/com/google/inject/internal/aop/ImmutableStringTrie.java:309-313 | a chain answers -1 or a value below `0x8000` plus `0x4000` per extra trie, and a key at or above the overflow key gets at least `0x4000 - 1`, since the next trie's answer is never below -1 |
| Chain.ChunkCount | core/src/com/google/inject/internal/aop/ImmutableStringTrie.java:165-175 | a chain over `m > 0` rows has `ceil(m / 0x4000)` tries |
| Chain.CapacityBoundary | core/src/com/google/inject/internal/aop/ImmutableStringTrie.java:165-166 | a table of at most 16384 rows builds a single trie; 16385 rows build exactly two |
| Chain.TrieFindsRow | core/src/com/google/inject/internal/aop/ImmutableStringTrie.java:168-176 | a chunk's cell array answers each of its rows with that row's 14 low bits |
| Chain.TrieRange | core/src/com/google/inject/internal/aop/ImmutableStringTrie.java:105-150 | a chunk's cell array answers every key without reading outside the cells, with -1 or a value below `MAX_ROWS_PER_TRIE` |
| Chain.BuiltChain | core/src/com/google/inject/internal/aop/ImmutableStringTrie.java:162-177 | the chain built from a chunk boundary has full chunks, overflow keys that are each next chunk's first row, and tries that each find their own rows and answer every key inside their cells |
| Chain.ApplyChain | core/src/com/google/inject/internal/aop/ImmutableStringTrie.java:309-313 | routing by overflow keys, with the `MAX_ROWS_PER_TRIE` offset per hop, maps every row to its distance from the chain's first row |
| Chain.ApplyBuilt | core/src/com/google/inject/internal/aop/ImmutableStringTrie.java:152-159 | the round trip: the index built from a sorted table of non-empty strings answers every row with its own position, over any number of chunks |
| Chain.NotFoundIsAbsent | core/src/com/google/inject/internal/aop/ImmutableStringTrie.java:98-104 | when the built index answers -1, the key is definitely not in the table |
| Chain.ApplyRange | core/src/com/google/inject/internal/aop/ImmutableStringTrie.java:309-313 | every answer of a built chain is -1 or below `0x4000` times the number of tries; a key routed past a boundary gets at least `0x4000 - 1` |
| Chain.EmptyTable | core/src/com/google/inject/internal/aop/ImmutableStringTrie.java:106-116 | an empty table gives empty cells: -1 for the empty key, and an out-of-bounds read for every other key |
| Samples.OneBranchCells | core/src/com/google/inject/internal/aop/ImmutableStringTrie.java:29-43 | a one-branch node is count, pivot and record, followed by its child: it has no jump |
| Samples.TwoLeavesCells | core/src/com/google/inject/internal/aop/ImmutableStringTrie.java:51 | a node of two leaves has no jump section |
| Samples.LeafThenChildCells | core/src/com/google/inject/internal/aop/ImmutableStringTrie.java:29-43 | a Leaf followed by a non-leaf branch keeps one jump of 0, followed by the second child |
| Samples.SimpleExample | core/src/com/google/inject/internal/aop/ImmutableStringTrie.java:53-61 | getValue, setValue build `[2,'g','s',0x8000,0x8001]` |
| Samples.SimpleLookups | core/src/com/google/inject/internal/aop/ImmutableStringTrie.java:24-27 | the documented cells answer both rows; an absent key starting with `g` gets the false positive 0; one starting with `v` gets -1 |
| Samples.BudExample | core/src/com/google/inject/internal/aop/ImmutableStringTrie.java:63-72 | getName, getNameAndValue build `[1,'g',6,1,'e',0x4000,1,'A',0x8001]` |
| Samples.BudLookupName | core/src/com/google/inject/internal/aop/ImmutableStringTrie.java:128-132 | on those cells, getName stops at the Bud on its last unit and gets 0 |
| Samples.BudLookupNameAndValue | core/src/com/google/inject/internal/aop/ImmutableStringTrie.java:133-137 | on those cells, getNameAndValue passes the Bud with a key advance of 1 and gets 1 |
| Samples.ComplexExample | core/src/com/google/inject/internal/aop/ImmutableStringTrie.java:74-80 | getName, getValue, getVersion build `[1,'g',3,2,'N','V',0x8000,1,0,2,'a','e',0x8001,0x8002]` |
| Samples.ComplexLookupName | core/src/com/google/inject/internal/aop/ImmutableStringTrie.java:74-80 | on those cells, getName gets 0 |
| Samples.ComplexLookupVersion | core/src/com/google/inject/internal/aop/ImmutableStringTrie.java:140-146 | on those cells, getVersion takes `V`'s jump, which is 0 because `N` is a Leaf with no child, and reaches the leaf `e` and gets 2 |

## Left out

- `StringBuilder` mechanics (`insert` at computed offsets, `delete`, `getChars`, `setLength`) are not modelled one call at a time. The builder is modelled as the tree it decides (`Builder.BuildBranches`), and the buffer contents as that tree's encoding (`Layout.Encode`).
- Java's 32-bit `int` arithmetic is not modelled. `keyIndex += result`, `row + MAX_ROWS_PER_TRIE` and the jump sums could only overflow for keys or tables of about 2^31 units, which Java arrays cannot hold.
- Exceptions are not modelled as control flow. An out-of-range array read is the `OutOfBounds` outcome. `binarySearch`'s range check is left to the caller, because every call site passes a range inside the cells or reads outside them first.
- Chain.ApplyBuilt: holds for tables whose chunk tries fit their 16-bit cells (`Chain.ChunksFit`). That means every skip delta below 0x4000, every jump and every branch count below 0x10000. The source assumes this of its input without checking it. `Cells.EncodableIffRoundTrips` shows that a longer skip is misread.
- Chain.TrieFindsRow: requires the chunk's tree to fit its cells (`Layout.Fits`: jumps and branch counts below 0x10000, skip deltas below 0x4000). `Chain.ChunksFit` is this condition for every chunk.
- Chain.TrieRange: under the same `Layout.Fits` condition as `Chain.TrieFindsRow`.
- Chain.NotFoundIsAbsent: under the same `Chain.ChunksFit` condition as `Chain.ApplyBuilt`, for the same reason.
- Chain.ApplyRange: under the same `Chain.ChunksFit` condition, and it bounds false positives rather than characterizing them. The class documents that keys outside the table may get any index, so for such keys only the range and "-1 means absent" are stated.
- Builder.BuildTrie, Chain.BuildFrom, Chain.Build: require a strictly ascending table of non-empty strings. On other tables the source throws `StringIndexOutOfBoundsException` at line 199: for a table containing `""`, whose `charAt(0)` fails, and for a table with two equal rows such as `["a", "a"]`, where the second row is handed to a child at column 1 and `"a".charAt(1)` fails. Those exception paths are not modelled.
- Query.StepAt: its contract states only progress. What a pass computes is stated separately by `Query.PassNotFound`, `Query.StepAtMiss` and `Query.StepAtHit`.
- The other files of the repository are not part of this model: the AOP proxy machinery (`ProxyFactory`, `BytecodeGen`, `Enhancer`, `FastClass`) and the dependency-injection tests. They depend on reflection, bytecode generation and code outside the trie.
- The randomized test's `SecureRandom` string generation is not modelled. The property it checks is `Chain.ApplyBuilt`.
- `Samples.Units` converts only string literals whose characters lie in the Basic Multilingual Plane. Keys in general are arbitrary sequences of 16-bit code units, including lone surrogates.
