/** Java strings as sequences of 16-bit code units, ordered by `String.compareTo`.

    The trie is built from a table sorted by this ordinal, code-unit-wise order
    (no surrogate-pair awareness), and the overflow chain routes keys with it.
 */
module Strings {
  import opened Cells

  /** A Java `String`: a sequence of UTF-16 code units. */
  type Key = seq<Char16>

  /** The table of strings to index, one per row. */
  type Table = seq<Key>

  /** `a.compareTo(b)`: the difference of the first pair of differing code
      units, or else the difference of the lengths. */
  function CompareTo(a: Key, b: Key): int
  {
    if |a| == 0 || |b| == 0 then |a| - |b|
    else if a[0] != b[0] then a[0] - b[0]
    else CompareTo(a[1..], b[1..])
  }

  /** `a.compareTo(b) < 0`. */
  predicate Below(a: Key, b: Key) {
    CompareTo(a, b) < 0
  }

  /** The table is strictly ascending: sorted, and without duplicates. */
  ghost predicate Sorted(t: Table) {
    forall i, j :: 0 <= i < j < |t| ==> Below(t[i], t[j])
  }

  /** No row is the empty string. */
  ghost predicate NonEmptyRows(t: Table) {
    forall i :: 0 <= i < |t| ==> |t[i]| > 0
  }

  /** Both strings reach every column from `from` up to (not including) `to`,
      and agree on each of them. */
  ghost predicate AgreeOn(a: Key, b: Key, from: nat, to: nat) {
    && (from < to ==> to <= |a| && to <= |b|)
    && forall c :: from <= c < to ==> a[c] == b[c]
  }

  /** Comparing two strings that share a prefix compares what follows it. */
  lemma {:induction false} CompareAfterPrefix(a: Key, b: Key, n: nat)
    requires AgreeOn(a, b, 0, n)
    ensures n <= |a| && n <= |b|
    ensures CompareTo(a, b) == CompareTo(a[n..], b[n..])
  {
    if n > 0 {
      assert a[0] == b[0];
      assert AgreeOn(a[1..], b[1..], 0, n - 1) by {
        forall c | 0 <= c < n - 1
          ensures a[1..][c] == b[1..][c]
        {
          assert a[1..][c] == a[c + 1] && b[1..][c] == b[c + 1];
        }
      }
      CompareAfterPrefix(a[1..], b[1..], n - 1);
      assert a[1..][n - 1..] == a[n..];
      assert b[1..][n - 1..] == b[n..];
    }
  }

  /** Of two strings that share the first `n` units, the smaller one has the
      smaller (or equal) unit at column `n`. */
  lemma ColumnOrdered(a: Key, b: Key, n: nat)
    requires AgreeOn(a, b, 0, n) && n < |a| && n < |b|
    requires Below(a, b)
    ensures a[n] <= b[n]
  {
    CompareAfterPrefix(a, b, n);
    assert a[n..][0] == a[n] && b[n..][0] == b[n];
  }

  /** A string that extends another never sorts below it. */
  lemma ExtensionNotBelow(a: Key, b: Key)
    requires AgreeOn(a, b, 0, |a|)
    ensures !Below(b, a)
  {
    CompareAfterPrefix(b, a, |a|);
    assert a[|a|..] == [];
  }

  /** A string sorts below each of its proper extensions. */
  lemma PrefixBelow(a: Key, b: Key)
    requires |a| < |b| && AgreeOn(a, b, 0, |a|)
    ensures Below(a, b)
  {
    CompareAfterPrefix(a, b, |a|);
    assert a[|a|..] == [];
  }

  /** Of two strings that share the first `n` units, the one with the smaller
      unit at column `n` sorts below the other. */
  lemma DifferenceBelow(a: Key, b: Key, n: nat)
    requires AgreeOn(a, b, 0, n) && n < |a| && n < |b| && a[n] < b[n]
    ensures Below(a, b)
  {
    CompareAfterPrefix(a, b, n);
    assert a[n..][0] == a[n] && b[n..][0] == b[n];
  }

  /** `compareTo` is antisymmetric in sign. */
  lemma {:induction false} CompareToAntisymmetric(a: Key, b: Key)
    ensures CompareTo(b, a) == -CompareTo(a, b)
    decreases |a|
  {
    if |a| > 0 && |b| > 0 && a[0] == b[0] {
      CompareToAntisymmetric(a[1..], b[1..]);
    }
  }

  /** A string never sorts below itself, and two strings are never each below
      the other. */
  lemma BelowAsymmetric(a: Key, b: Key)
    ensures Below(a, b) ==> !Below(b, a)
    ensures !Below(a, a)
  {
    CompareToAntisymmetric(a, b);
    CompareToAntisymmetric(a, a);
  }

  /** In a sorted table, every row at or after `pivot` is not below row `pivot`,
      and every row before it is. */
  lemma SortedSplitsAt(t: Table, pivot: nat, i: nat)
    requires Sorted(t) && pivot < |t| && i < |t|
    ensures Below(t[i], t[pivot]) <==> i < pivot
  {
    if i < pivot {
    } else if i == pivot {
      BelowAsymmetric(t[i], t[i]);
    } else {
      BelowAsymmetric(t[pivot], t[i]);
    }
  }
}
