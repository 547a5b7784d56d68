/**
 * `Array.prototype.sort` with a comparator, which ECMAScript requires to be stable: the
 * comparator is captured by a sort key, the specification is insertion of each element after
 * every element whose key is not greater, and `SortInPlace` does that on the array itself.
 */
module Sorting {
  import Text
  import opened Seqs

  /** What a comparator compares: a number, or a string in code-point order. */
  datatype Key = Num(n: int) | Str(s: string)

  /** `a` may precede `b` (numbers before strings, although one sort never mixes the two). */
  predicate KeyLe(a: Key, b: Key) {
    match a
    case Num(x) => (match b case Num(y) => x <= y case Str(_) => true)
    case Str(x) => (match b case Num(_) => false case Str(y) => Text.LexLe(x, y))
  }

  /** `a` must follow `b`: the comparator is positive. */
  predicate KeyLt(a: Key, b: Key) {
    !KeyLe(b, a)
  }

  lemma KeyTotal(a: Key, b: Key)
    ensures KeyLe(a, b) || KeyLe(b, a)
  {
    if a.Str? && b.Str? {
      Text.LexTotal(a.s, b.s);
    }
  }

  lemma KeyReflexive(a: Key)
    ensures KeyLe(a, a)
  {
    if a.Str? {
      Text.LexReflexive(a.s);
    }
  }

  lemma KeyTransitive(a: Key, b: Key, c: Key)
    requires KeyLe(a, b) && KeyLe(b, c)
    ensures KeyLe(a, c)
  {
    if a.Str? && b.Str? && c.Str? {
      Text.LexTransitive(a.s, b.s, c.s);
    }
  }

  lemma KeyAntisymmetric(a: Key, b: Key)
    requires KeyLe(a, b) && KeyLe(b, a)
    ensures a == b
  {
    if a.Str? && b.Str? {
      Text.LexAntisymmetric(a.s, b.s);
    }
  }

  /** Every element is ordered no later than every element after it. */
  ghost predicate SortedBy<T>(s: seq<T>, key: T -> Key) {
    forall i, j :: 0 <= i < j < |s| ==> KeyLe(key(s[i]), key(s[j]))
  }

  function HasKey<T>(key: T -> Key, k: Key): T -> bool {
    x => key(x) == k
  }

  /** The elements whose key is exactly `k`, in order. */
  function WithKey<T>(s: seq<T>, key: T -> Key, k: Key): seq<T> {
    Filter(s, HasKey(key, k))
  }

  /** Insert `x` into `r` after every element whose key is not greater than `x`'s. */
  function Insert<T>(r: seq<T>, x: T, key: T -> Key): (out: seq<T>)
    ensures |out| == |r| + 1
    decreases |r|
  {
    if r == [] then [x]
    else if KeyLt(key(x), key(r[|r| - 1])) then Insert(r[..|r| - 1], x, key) + [r[|r| - 1]]
    else r + [x]
  }

  /** The stable sort of `s` by `key`: each element in turn inserted into the sorted prefix. */
  function SortByKey<T>(s: seq<T>, key: T -> Key): (r: seq<T>)
    ensures |r| == |s|
    decreases |s|
  {
    if s == [] then [] else Insert(SortByKey(s[..|s| - 1], key), s[|s| - 1], key)
  }

  lemma {:induction false} InsertMultiset<T>(r: seq<T>, x: T, key: T -> Key)
    ensures multiset(Insert(r, x, key)) == multiset(r) + multiset{x}
    decreases |r|
  {
    if r != [] && KeyLt(key(x), key(r[|r| - 1])) {
      InsertMultiset(r[..|r| - 1], x, key);
      assert r == r[..|r| - 1] + [r[|r| - 1]];
    }
  }

  /** Sorting only reorders: the result is a permutation of the input. */
  lemma {:induction false} SortPermutation<T>(s: seq<T>, key: T -> Key)
    ensures multiset(SortByKey(s, key)) == multiset(s)
    decreases |s|
  {
    if s != [] {
      SortPermutation(s[..|s| - 1], key);
      InsertMultiset(SortByKey(s[..|s| - 1], key), s[|s| - 1], key);
      assert s == s[..|s| - 1] + [s[|s| - 1]];
    }
  }

  lemma {:induction false} InsertSorted<T>(r: seq<T>, x: T, key: T -> Key)
    requires SortedBy(r, key)
    ensures SortedBy(Insert(r, x, key), key)
    decreases |r|
  {
    if r != [] {
      var last := r[|r| - 1];
      var init := r[..|r| - 1];
      if KeyLt(key(x), key(last)) {
        assert SortedBy(init, key);
        InsertSorted(init, x, key);
        InsertBelow(init, last, x, key);
        assert r == init + [last];
        SortedAppend(Insert(init, x, key), last, key);
      } else {
        KeyTotal(key(x), key(last));
        forall i | 0 <= i < |r| ensures KeyLe(key(r[i]), key(x)) {
          if i < |r| - 1 {
            KeyTransitive(key(r[i]), key(last), key(x));
          }
        }
        SortedAppend(r, x, key);
      }
    }
  }

  /** Appending an element that no element exceeds keeps a sequence sorted. */
  lemma SortedAppend<T>(r: seq<T>, x: T, key: T -> Key)
    requires SortedBy(r, key)
    requires forall i :: 0 <= i < |r| ==> KeyLe(key(r[i]), key(x))
    ensures SortedBy(r + [x], key)
  {
  }

  /** When `x` goes in front of `last`, everything the insertion yields is not greater than `last`. */
  lemma InsertBelow<T>(init: seq<T>, last: T, x: T, key: T -> Key)
    requires forall i :: 0 <= i < |init| ==> KeyLe(key(init[i]), key(last))
    requires KeyLt(key(x), key(last))
    ensures forall y :: y in Insert(init, x, key) ==> KeyLe(key(y), key(last))
  {
    InsertMultiset(init, x, key);
    var ins := Insert(init, x, key);
    forall y | y in ins
      ensures KeyLe(key(y), key(last))
    {
      assert y in multiset(ins);
      if y != x {
        assert y in multiset(init);
        var k :| 0 <= k < |init| && init[k] == y;
      } else {
        KeyTotal(key(x), key(last));
      }
    }
  }

  /** The sort's result is ordered by the key. */
  lemma {:induction false} SortSorted<T>(s: seq<T>, key: T -> Key)
    ensures SortedBy(SortByKey(s, key), key)
    decreases |s|
  {
    if s != [] {
      SortSorted(s[..|s| - 1], key);
      InsertSorted(SortByKey(s[..|s| - 1], key), s[|s| - 1], key);
    }
  }

  lemma WithKeySingle<T>(y: T, key: T -> Key, k: Key)
    ensures WithKey([y], key, k) == (if key(y) == k then [y] else [])
  {
    assert [y][1..] == [];
  }

  /** The step of `InsertWithKey` where `x` goes in before the last element. */
  lemma InsertWithKeyBefore<T>(init: seq<T>, last: T, x: T, key: T -> Key, k: Key)
    requires KeyLt(key(x), key(last))
    requires WithKey(Insert(init, x, key), key, k) == WithKey(init, key, k) + WithKey([x], key, k)
    ensures WithKey(Insert(init, x, key) + [last], key, k) == WithKey(init + [last], key, k) + WithKey([x], key, k)
  {
    FilterConcat(Insert(init, x, key), [last], HasKey(key, k));
    FilterConcat(init, [last], HasKey(key, k));
    KeyReflexive(key(x));
    WithKeySingle(x, key, k);
    WithKeySingle(last, key, k);
  }

  lemma {:induction false} InsertWithKey<T>(r: seq<T>, x: T, key: T -> Key, k: Key)
    ensures WithKey(Insert(r, x, key), key, k) == WithKey(r, key, k) + WithKey([x], key, k)
    decreases |r|
  {
    if r == [] {
      assert WithKey([], key, k) == [];
    } else {
      var last := r[|r| - 1];
      var init := r[..|r| - 1];
      assert r == init + [last];
      if KeyLt(key(x), key(last)) {
        InsertWithKey(init, x, key, k);
        InsertWithKeyBefore(init, last, x, key, k);
      } else {
        FilterConcat(r, [x], HasKey(key, k));
      }
    }
  }

  /** Stability: elements with equal keys keep their relative order. */
  lemma {:induction false} SortStable<T>(s: seq<T>, key: T -> Key, k: Key)
    ensures WithKey(SortByKey(s, key), key, k) == WithKey(s, key, k)
    decreases |s|
  {
    if s != [] {
      var init := s[..|s| - 1];
      SortStable(init, key, k);
      InsertWithKey(SortByKey(init, key), s[|s| - 1], key, k);
      assert s == init + [s[|s| - 1]];
      FilterConcat(init, [s[|s| - 1]], HasKey(key, k));
    }
  }

  /** An input that is already ordered is returned unchanged. */
  lemma {:induction false} SortOfSorted<T>(s: seq<T>, key: T -> Key)
    requires SortedBy(s, key)
    ensures SortByKey(s, key) == s
    decreases |s|
  {
    if s != [] {
      var init := s[..|s| - 1];
      assert SortedBy(init, key);
      SortOfSorted(init, key);
      if |init| > 0 {
        assert KeyLe(key(init[|init| - 1]), key(s[|s| - 1]));
      }
      assert s == init + [s[|s| - 1]];
    }
  }

  /** Sorting twice is sorting once. */
  lemma SortIdempotent<T>(s: seq<T>, key: T -> Key)
    ensures SortByKey(SortByKey(s, key), key) == SortByKey(s, key)
  {
    SortSorted(s, key);
    SortOfSorted(SortByKey(s, key), key);
  }

  /** One step of the insertion: `x` moves in front of a greater last element. */
  lemma InsertPast<T>(sorted: seq<T>, x: T, key: T -> Key, j: int)
    requires 0 < j <= |sorted|
    requires KeyLt(key(x), key(sorted[j - 1]))
    ensures Insert(sorted[..j], x, key) == Insert(sorted[..j - 1], x, key) + [sorted[j - 1]]
  {
    assert sorted[..j][..j - 1] == sorted[..j - 1];
  }

  /** The insertion stops in front of the first element from the right that is not greater. */
  lemma InsertStop<T>(sorted: seq<T>, x: T, key: T -> Key, j: int)
    requires 0 <= j <= |sorted|
    requires j == 0 || !KeyLt(key(x), key(sorted[j - 1]))
    ensures Insert(sorted[..j], x, key) == sorted[..j] + [x]
  {}

  /** Sorting one more element is inserting it into the sorted prefix. */
  lemma SortStep<T>(s: seq<T>, key: T -> Key, i: int)
    requires 0 <= i < |s|
    ensures SortByKey(s[..i + 1], key) == Insert(SortByKey(s[..i], key), s[i], key)
  {
    assert s[..i + 1][..i] == s[..i];
  }

  /** Insert `a[i]` into the sorted prefix `a[..i]` by shifting greater elements right. */
  method InsertInPlace<T>(a: array<T>, i: int, key: T -> Key)
    requires 0 <= i < a.Length
    modifies a
    ensures a[..i + 1] == Insert(old(a[..i]), old(a[i]), key)
    ensures a[i + 1..] == old(a[i + 1..])
  {
    ghost var sorted := a[..i];
    var x := a[i];
    var j := ShiftGreater(a, i, x, key, sorted);
    InsertStop(sorted, x, key, j);
    a[j] := x;
    Assemble(a[..], sorted, x, j, i);
    assert a[i + 1..] == old(a[i + 1..]);
  }

  /**
   * The shifting loop of the insertion: every element of `sorted` greater than `x`, taken from
   * the right, moves one place up; `j` is where `x` belongs.
   */
  method ShiftGreater<T>(a: array<T>, i: int, x: T, key: T -> Key, ghost sorted: seq<T>) returns (j: int)
    requires 0 <= i < a.Length && a[..i] == sorted
    modifies a
    ensures 0 <= j <= i
    ensures forall k :: 0 <= k < j ==> a[k] == sorted[k]
    ensures forall k :: j < k <= i ==> a[k] == sorted[k - 1]
    ensures forall k :: i < k < a.Length ==> a[k] == old(a[k])
    ensures j == 0 || !KeyLt(key(x), key(sorted[j - 1]))
    ensures Insert(sorted, x, key) == Insert(sorted[..j], x, key) + sorted[j..i]
  {
    j := i;
    assert sorted[..j] == sorted && sorted[j..i] == [];
    while j > 0 && KeyLt(key(x), key(a[j - 1]))
      invariant 0 <= j <= i
      invariant forall k :: 0 <= k < j ==> a[k] == sorted[k]
      invariant forall k :: j < k <= i ==> a[k] == sorted[k - 1]
      invariant forall k :: i < k < a.Length ==> a[k] == old(a[k])
      invariant Insert(sorted, x, key) == Insert(sorted[..j], x, key) + sorted[j..i]
    {
      ShiftStep(sorted, x, key, j, i);
      a[j] := a[j - 1];
      j := j - 1;
    }
  }

  /** The array after the shifts, read as the prefix below `j`, then `x`, then the shifted run. */
  lemma Assemble<T>(s: seq<T>, sorted: seq<T>, x: T, j: int, i: int)
    requires 0 <= j <= i == |sorted| < |s|
    requires forall k :: 0 <= k < j ==> s[k] == sorted[k]
    requires s[j] == x
    requires forall k :: j < k <= i ==> s[k] == sorted[k - 1]
    ensures s[..i + 1] == sorted[..j] + [x] + sorted[j..i]
  {}

  /** The insertion invariant carried one position to the left. */
  lemma ShiftStep<T>(sorted: seq<T>, x: T, key: T -> Key, j: int, i: int)
    requires 0 < j <= i == |sorted|
    requires KeyLt(key(x), key(sorted[j - 1]))
    requires Insert(sorted, x, key) == Insert(sorted[..j], x, key) + sorted[j..i]
    ensures Insert(sorted, x, key) == Insert(sorted[..j - 1], x, key) + sorted[j - 1..i]
  {
    InsertPast(sorted, x, key, j);
    assert sorted[j - 1..i] == [sorted[j - 1]] + sorted[j..i];
    Regroup(Insert(sorted[..j - 1], x, key), sorted[j - 1], sorted[j..i]);
  }

  lemma Regroup<T>(a: seq<T>, y: T, b: seq<T>)
    ensures (a + [y]) + b == a + ([y] + b)
  {}

  /** The stable insertion sort, in place, comparing keys as the comparator does. */
  method SortInPlace<T>(a: array<T>, key: T -> Key)
    modifies a
    ensures a[..] == SortByKey(old(a[..]), key)
  {
    ghost var input := a[..];
    var i := 0;
    while i < a.Length
      invariant 0 <= i <= a.Length
      invariant a[..i] == SortByKey(input[..i], key)
      invariant a[i..] == input[i..]
    {
      assert a[i] == input[i];
      InsertInPlace(a, i, key);
      SortStep(input, key, i);
      i := i + 1;
    }
    assert input[..a.Length] == input;
  }
}
