/** Sequence helpers shared by the store, the projection and the statistics:
    the source's Array.filter, a count of matching items, and a stable sort by
    an integer key (the source's Array.sort with a numeric comparator). All
    recursion peels the LAST element, so that a loop pushing onto an array
    matches the function at every step. */
module Seqs {

  function Filter<T(!new)>(s: seq<T>, p: T -> bool): (r: seq<T>)
    ensures |r| <= |s|
    ensures forall x :: x in r <==> x in s && p(x)
  {
    if |s| == 0 then []
    else
      assert s == s[..|s| - 1] + [s[|s| - 1]];
      Filter(s[..|s| - 1], p) + (if p(s[|s| - 1]) then [s[|s| - 1]] else [])
  }

  /** Filtering keeps a sequence unchanged exactly when every item passes. */
  lemma {:induction false} FilterAll<T(!new)>(s: seq<T>, p: T -> bool)
    ensures Filter(s, p) == s <==> forall x :: x in s ==> p(x)
  {
    if |s| > 0 {
      FilterAll(s[..|s| - 1], p);
      assert s == s[..|s| - 1] + [s[|s| - 1]];
      if Filter(s, p) == s {
        assert |Filter(s[..|s| - 1], p)| <= |s| - 1;
      }
    }
  }

  lemma {:induction false} FilterAppend<T(!new)>(a: seq<T>, b: seq<T>, p: T -> bool)
    ensures Filter(a + b, p) == Filter(a, p) + Filter(b, p)
    decreases |b|
  {
    if |b| == 0 {
      assert a + b == a;
    } else {
      var b' := b[..|b| - 1];
      assert (a + b)[..|a + b| - 1] == a + b';
      FilterAppend(a, b', p);
    }
  }

  /** Filtering twice by the same test is filtering once. */
  lemma FilterIdempotent<T(!new)>(s: seq<T>, p: T -> bool)
    ensures Filter(Filter(s, p), p) == Filter(s, p)
  {
    FilterAll(Filter(s, p), p);
  }

  /** An item passes or fails the test: the two filters split the sequence. */
  lemma {:induction false} FilterSplit<T(!new)>(s: seq<T>, p: T -> bool, q: T -> bool)
    requires forall x :: q(x) == !p(x)
    ensures multiset(Filter(s, p)) + multiset(Filter(s, q)) == multiset(s)
  {
    if |s| > 0 {
      var init, x := s[..|s| - 1], s[|s| - 1];
      FilterSplit(init, p, q);
      MultisetLast(s);
      if p(x) {
        assert Filter(s, q) == Filter(init, q) + [];
        assert multiset(Filter(s, p)) == multiset(Filter(init, p)) + multiset{x};
      } else {
        assert Filter(s, p) == Filter(init, p) + [];
        assert multiset(Filter(s, q)) == multiset(Filter(init, q)) + multiset{x};
      }
    }
  }

  /** The items of a prefix are items of the whole. */
  lemma PrefixItems<T>(p: seq<T>, s: seq<T>)
    requires p <= s
    ensures forall x :: x in p ==> x in s
  {
    forall x | x in p ensures x in s {
      var i :| 0 <= i < |p| && p[i] == x;
      assert s[i] == x;
    }
  }

  /** A prefix of a suffix is a slice. */
  lemma SliceOfSuffix<T>(s: seq<T>, i: nat, n: nat)
    requires i + n <= |s|
    ensures s[i..][..n] == s[i..i + n]
  {
  }

  /** A prefix of a suffix of `s` is a slice of `s`. */
  lemma PrefixOfSuffix<T>(s: seq<T>, t: seq<T>, r: seq<T>)
    requires |t| <= |s| && t == s[|s| - |t|..]
    requires |r| <= |t| && r == t[..|r|]
    ensures r == s[|s| - |t|..|s| - |t| + |r|]
  {
  }

  /** A non-empty sequence is its prefix followed by its last item. */
  lemma PrefixAndLast<T>(s: seq<T>)
    requires |s| > 0
    ensures s[..|s| - 1] + [s[|s| - 1]] == s
  {
  }

  /** The items of a non-empty sequence are those of its prefix and its last. */
  lemma MultisetLast<T>(s: seq<T>)
    requires |s| > 0
    ensures multiset(s) == multiset(s[..|s| - 1]) + multiset{s[|s| - 1]}
  {
    assert s == s[..|s| - 1] + [s[|s| - 1]];
  }

  /** How often an item occurs after filtering. */
  lemma {:induction false} FilterCount<T(!new)>(s: seq<T>, p: T -> bool, x: T)
    ensures multiset(Filter(s, p))[x] == if p(x) then multiset(s)[x] else 0
  {
    if |s| > 0 {
      FilterCount(s[..|s| - 1], p, x);
      assert s == s[..|s| - 1] + [s[|s| - 1]];
    }
  }

  /** Number of items passing a test. */
  function Count<T(!new)>(s: seq<T>, p: T -> bool): (n: nat)
    ensures n <= |s|
    ensures n == 0 <==> forall x :: x in s ==> !p(x)
  {
    var r := Filter(s, p);
    assert r != [] ==> r[0] in r;
    |r|
  }

  ghost predicate SortedBy<T>(s: seq<T>, key: T -> int)
  {
    forall i, j :: 0 <= i < j < |s| ==> key(s[i]) <= key(s[j])
  }

  /** Places x after every item whose key is not larger, so that among equal
      keys x comes last. */
  function Insert<T(!new)>(s: seq<T>, x: T, key: T -> int): seq<T>
  {
    if |s| == 0 then [x]
    else if key(s[|s| - 1]) <= key(x) then s + [x]
    else Insert(s[..|s| - 1], x, key) + [s[|s| - 1]]
  }

  /** Every item of a sorted list has a key no larger than the last one's. */
  lemma BoundedByLast<T>(s: seq<T>, key: T -> int)
    requires |s| > 0 && SortedBy(s, key)
    ensures forall y :: y in s ==> key(y) <= key(s[|s| - 1])
  {
    forall y | y in s ensures key(y) <= key(s[|s| - 1]) {
      var k :| 0 <= k < |s| && s[k] == y;
      if k < |s| - 1 {
        assert key(s[k]) <= key(s[|s| - 1]);
      }
    }
  }

  /** Appending an item with a key no smaller than any other keeps a list
      sorted. */
  lemma AppendSorted<T>(r: seq<T>, z: T, key: T -> int)
    requires SortedBy(r, key)
    requires forall y :: y in r ==> key(y) <= key(z)
    ensures SortedBy(r + [z], key)
  {
    var t := r + [z];
    forall i, j | 0 <= i < j < |t| ensures key(t[i]) <= key(t[j]) {
      assert t[i] == r[i] && t[i] in r;
      if j < |r| {
        assert t[j] == r[j];
      }
    }
  }

  /** Insertion adds exactly the one item. */
  lemma {:induction false} InsertMultiset<T(!new)>(s: seq<T>, x: T, key: T -> int)
    ensures multiset(Insert(s, x, key)) == multiset(s) + multiset{x}
  {
    if |s| > 0 && key(s[|s| - 1]) > key(x) {
      var s', last := s[..|s| - 1], s[|s| - 1];
      InsertMultiset(s', x, key);
      PrefixAndLast(s);
      assert Insert(s, x, key) == Insert(s', x, key) + [last];
    }
  }

  /** Insertion into a sorted list keeps it sorted. */
  lemma {:induction false} InsertSorted<T(!new)>(s: seq<T>, x: T, key: T -> int)
    requires SortedBy(s, key)
    ensures SortedBy(Insert(s, x, key), key)
    ensures multiset(Insert(s, x, key)) == multiset(s) + multiset{x}
  {
    InsertMultiset(s, x, key);
    if |s| == 0 {
    } else if key(s[|s| - 1]) <= key(x) {
      BoundedByLast(s, key);
      AppendSorted(s, x, key);
    } else {
      var s', last := s[..|s| - 1], s[|s| - 1];
      PrefixAndLast(s);
      SortedPrefix(s, key);
      InsertSorted(s', x, key);
      var r' := Insert(s', x, key);
      assert Insert(s, x, key) == r' + [last];
      BoundedByLast(s, key);
      PrefixItems(s', s);
      KeysBoundedByMultiset(r', s', x, key, key(last));
      AppendSorted(r', last, key);
    }
  }

  /** Dropping the last item keeps a list sorted. */
  lemma SortedPrefix<T>(s: seq<T>, key: T -> int)
    requires |s| > 0 && SortedBy(s, key)
    ensures SortedBy(s[..|s| - 1], key)
  {
  }

  /** A list holding the items of `t` and `x` has keys bounded by any bound
      of theirs. */
  lemma KeysBoundedByMultiset<T>(r: seq<T>, t: seq<T>, x: T, key: T -> int, b: int)
    requires multiset(r) == multiset(t) + multiset{x}
    requires key(x) <= b && forall y :: y in t ==> key(y) <= b
    ensures forall y :: y in r ==> key(y) <= b
  {
    forall y | y in r ensures key(y) <= b {
      assert y in multiset(r);
      if y != x {
        assert y in multiset(t);
      }
    }
  }

  /** Stable insertion sort by an integer key, ascending. */
  function SortBy<T(!new)>(s: seq<T>, key: T -> int): (r: seq<T>)
    ensures SortedBy(r, key)
    ensures multiset(r) == multiset(s)
  {
    if |s| == 0 then []
    else
      assert s == s[..|s| - 1] + [s[|s| - 1]];
      InsertSorted(SortBy(s[..|s| - 1], key), s[|s| - 1], key);
      Insert(SortBy(s[..|s| - 1], key), s[|s| - 1], key)
  }

  /** The test "has key `v`". */
  function HasKey<T>(key: T -> int, v: int): T -> bool
  {
    y => key(y) == v
  }

  /** Filtering a one-item list keeps the item exactly when it passes. */
  lemma FilterSingle<T(!new)>(x: T, p: T -> bool)
    ensures Filter([x], p) == if p(x) then [x] else []
  {
    assert [x][..0] == [];
  }

  /** Two pieces of which one is empty can be appended in either order. */
  lemma SwapAroundEmpty<T>(a: seq<T>, b: seq<T>, c: seq<T>)
    requires b == [] || c == []
    ensures a + b + c == a + c + b
  {
    if b == [] {
      assert a + b == a;
    } else {
      assert a + c == a;
    }
  }

  /** Insertion puts x after every item with its key, so the items with any
      one key keep their order, x last among its own. */
  lemma {:induction false} InsertStable<T(!new)>(s: seq<T>, x: T, key: T -> int, v: int)
    ensures Filter(Insert(s, x, key), HasKey(key, v)) == Filter(s, HasKey(key, v)) + Filter([x], HasKey(key, v))
  {
    var p := HasKey(key, v);
    FilterSingle(x, p);
    if |s| == 0 {
      assert Filter(s, p) == [];
    } else if key(s[|s| - 1]) <= key(x) {
      FilterAppend(s, [x], p);
    } else {
      var s', last := s[..|s| - 1], s[|s| - 1];
      assert Insert(s, x, key) == Insert(s', x, key) + [last];
      InsertStable(s', x, key, v);
      FilterAppend(Insert(s', x, key), [last], p);
      FilterSingle(last, p);
      PrefixAndLast(s);
      FilterAppend(s', [last], p);
      var a, fx, fl := Filter(s', p), Filter([x], p), Filter([last], p);
      assert Filter(Insert(s, x, key), p) == a + fx + fl;
      assert Filter(s, p) == a + fl;
      assert fx == [] || fl == [];
      SwapAroundEmpty(a, fx, fl);
    }
  }

  /** The sort is stable: the items with any one key come out in their input
      order. */
  lemma {:induction false} SortByStable<T(!new)>(s: seq<T>, key: T -> int, v: int)
    ensures Filter(SortBy(s, key), HasKey(key, v)) == Filter(s, HasKey(key, v))
  {
    if |s| > 0 {
      var s', last := s[..|s| - 1], s[|s| - 1];
      SortByStable(s', key, v);
      InsertStable(SortBy(s', key), last, key, v);
      PrefixAndLast(s);
      FilterAppend(s', [last], HasKey(key, v));
    }
  }

  /** Where an item first occurs. */
  function FirstIndex<T(==)>(s: seq<T>, x: T): (i: nat)
    requires x in s
    ensures i < |s| && s[i] == x && x !in s[..i]
  {
    if s[0] == x then 0
    else
      assert x in s[1..];
      var j := FirstIndex(s[1..], x);
      assert s[..j + 1] == [s[0]] + s[1..][..j];
      j + 1
  }

  /** An item that occurs in a prefix first occurs at the same place in the
      whole sequence. */
  lemma FirstIndexPrefix<T>(s: seq<T>, n: nat, x: T)
    requires n <= |s| && x in s[..n]
    ensures x in s && FirstIndex(s, x) == FirstIndex(s[..n], x)
  {
    var i := FirstIndex(s[..n], x);
    assert s[..n][..i] == s[..i];
  }

  /** An item found only at the end first occurs there. */
  lemma FirstIndexLast<T>(s: seq<T>, x: T)
    requires |s| > 0 && s[|s| - 1] == x && x !in s[..|s| - 1]
    ensures FirstIndex(s, x) == |s| - 1
  {
  }

  /** The items of `m` from index `lo` on all occur in `s`, in the order of
      their first occurrences there. */
  predicate OrderedIn<T(==)>(m: seq<T>, lo: nat, s: seq<T>)
  {
    (forall i :: lo <= i < |m| ==> m[i] in s) &&
    forall i, j :: lo <= i < j < |m| ==> FirstIndex(s, m[i]) < FirstIndex(s, m[j])
  }

  /** Items ordered in a prefix are ordered the same way in the whole
      sequence. */
  lemma OrderFromPrefix<T>(s: seq<T>, n: nat, m: seq<T>, lo: nat)
    requires n <= |s| && OrderedIn(m, lo, s[..n])
    ensures OrderedIn(m, lo, s)
  {
    forall i | lo <= i < |m| ensures m[i] in s && FirstIndex(s, m[i]) == FirstIndex(s[..n], m[i]) {
      FirstIndexPrefix(s, n, m[i]);
    }
  }

  /** Appending the last item of a sequence, new to the rest, to items
      ordered in the rest keeps them ordered in the whole. */
  lemma OrderAppendLast<T>(s: seq<T>, m: seq<T>, lo: nat)
    requires |s| > 0 && lo <= |m| && s[|s| - 1] !in s[..|s| - 1]
    requires OrderedIn(m, lo, s[..|s| - 1])
    ensures OrderedIn(m + [s[|s| - 1]], lo, s)
  {
    var n := |s| - 1;
    var t := m + [s[n]];
    FirstIndexLast(s, s[n]);
    OrderFromPrefix(s, n, m, lo);
    forall i | lo <= i < |m| ensures t[i] == m[i] && FirstIndex(s[..n], m[i]) < n {
    }
    assert t[|m|] == s[n];
  }

  /** Splicing out the item at `i` shifts the later items down by one and
      removes that one item from the multiset. */
  lemma SpliceOut<T>(s: seq<T>, i: nat, r: seq<T>)
    requires i < |s| && r == s[..i] + s[i + 1..]
    ensures |r| == |s| - 1
    ensures multiset(r) + multiset{s[i]} == multiset(s)
    ensures forall j :: 0 <= j < |r| ==> r[j] == (if j < i then s[j] else s[j + 1])
  {
    assert s == s[..i] + [s[i]] + s[i + 1..];
  }

  /** Filtering three items of which only the middle one fails. */
  lemma FilterDropMiddle<T(!new)>(x: T, y: T, z: T, p: T -> bool)
    requires p(x) && !p(y) && p(z)
    ensures Filter([x, y, z], p) == [x, z]
  {
    assert [x, y, z][..2] == [x, y];
    assert [x, y][..1] == [x];
    FilterSingle(x, p);
  }
}
