/** Stable ordering of a sequence by an integer key, largest key first, and
    the "first count of them" cut that follows it.

    Both in-memory film stores rank films the same way: they stream the stored
    films, sort them with a comparator on the like count reversed, and keep the
    first `count`. The stream over a HashMap's values is unordered, so the
    stream API does not promise a stable sort; OpenJDK's sequential `sorted`
    uses TimSort, which is stable, so films with equal counts keep the order in
    which the store yields them. That is what is modelled. The sort is
    modelled here once, as an insertion sort, and is proved to be the one and
    only stable descending sort of its input. */
module Ranking {

  /** The elements of `s` whose key is `k`, in the order they appear in `s`. */
  function WithKey<T>(s: seq<T>, key: T -> int, k: int): seq<T>
  {
    if s == [] then []
    else (if key(s[0]) == k then [s[0]] else []) + WithKey(s[1..], key, k)
  }

  /** Keys never increase from left to right. */
  ghost predicate SortedDesc<T>(s: seq<T>, key: T -> int)
  {
    forall i, j :: 0 <= i < j < |s| ==> key(s[i]) >= key(s[j])
  }

  /** `out` is `s` sorted by descending key, and every group of equal keys
      keeps its order from `s`: what a stable sort with a reversed comparator
      produces. */
  ghost predicate IsStableSortDesc<T>(out: seq<T>, s: seq<T>, key: T -> int)
  {
    SortedDesc(out, key) && forall k :: WithKey(out, key, k) == WithKey(s, key, k)
  }

  /** Puts `x` in front of the first element whose key is not larger than its own. */
  function Insert<T>(x: T, s: seq<T>, key: T -> int): (r: seq<T>)
    ensures |r| == |s| + 1
    ensures multiset(r) == multiset(s) + multiset{x}
  {
    if s == [] || key(s[0]) <= key(x) then
      [x] + s
    else
      assert s == [s[0]] + s[1..];
      [s[0]] + Insert(x, s[1..], key)
  }

  /** Inserting into a sorted sequence keeps it sorted. */
  lemma {:induction false} InsertSorted<T>(x: T, s: seq<T>, key: T -> int)
    requires SortedDesc(s, key)
    ensures SortedDesc(Insert(x, s, key), key)
  {
    if s != [] && key(s[0]) > key(x) {
      var rest := Insert(x, s[1..], key);
      InsertSorted(x, s[1..], key);
      assert s == [s[0]] + s[1..];
      forall j | 0 <= j < |rest| ensures key(s[0]) >= key(rest[j]) {
        assert rest[j] in multiset(rest);
        if rest[j] != x {
          assert rest[j] in multiset(s[1..]);
          var i :| 0 <= i < |s[1..]| && s[1..][i] == rest[j];
          assert s[i + 1] == rest[j];
        }
      }
      assert Insert(x, s, key) == [s[0]] + rest;
    }
  }

  /** Stable insertion sort, largest key first. */
  function SortDesc<T>(s: seq<T>, key: T -> int): (r: seq<T>)
    ensures |r| == |s|
    ensures multiset(r) == multiset(s)
    ensures SortedDesc(r, key)
  {
    if s == [] then []
    else
      assert s == [s[0]] + s[1..];
      InsertSorted(s[0], SortDesc(s[1..], key), key);
      Insert(s[0], SortDesc(s[1..], key), key)
  }

  /** Cutting off a first element splits the groups. */
  lemma {:induction false} WithKeyCons<T>(x: T, s: seq<T>, key: T -> int, k: int)
    ensures WithKey([x] + s, key, k) == (if key(x) == k then [x] else []) + WithKey(s, key, k)
  {
    assert ([x] + s)[1..] == s;
  }

  /** An element is in the group of `k` exactly when it is in `s` and has key `k`. */
  lemma {:induction false} WithKeyMember<T>(s: seq<T>, key: T -> int, k: int, y: T)
    ensures y in WithKey(s, key, k) <==> y in s && key(y) == k
  {
    if s != [] {
      WithKeyMember(s[1..], key, k, y);
      assert s == [s[0]] + s[1..];
    }
  }

  /** Inserting `x` adds it in front of its own group and leaves every other
      group alone: the elements it passes have larger keys. */
  lemma {:induction false} WithKeyInsert<T>(x: T, s: seq<T>, key: T -> int, k: int)
    ensures WithKey(Insert(x, s, key), key, k) == (if key(x) == k then [x] else []) + WithKey(s, key, k)
  {
    if s == [] || key(s[0]) <= key(x) {
      assert Insert(x, s, key) == [x] + s;
      WithKeyCons(x, s, key, k);
    } else {
      var rest := Insert(x, s[1..], key);
      assert Insert(x, s, key) == [s[0]] + rest;
      assert s == [s[0]] + s[1..];
      WithKeyCons(s[0], rest, key, k);
      WithKeyCons(s[0], s[1..], key, k);
      WithKeyInsert(x, s[1..], key, k);
      if key(s[0]) == k {
        // x has a smaller key than s[0], so it is not in this group.
        assert WithKey(rest, key, k) == WithKey(s[1..], key, k);
      } else {
        assert WithKey(Insert(x, s, key), key, k) == WithKey(rest, key, k);
        assert WithKey(s, key, k) == WithKey(s[1..], key, k);
      }
    }
  }

  /** The sort keeps each group of equal keys in input order. */
  lemma {:induction false} SortDescStable<T>(s: seq<T>, key: T -> int, k: int)
    ensures WithKey(SortDesc(s, key), key, k) == WithKey(s, key, k)
  {
    if s != [] {
      var sortedRest := SortDesc(s[1..], key);
      assert SortDesc(s, key) == Insert(s[0], sortedRest, key);
      SortDescStable(s[1..], key, k);
      WithKeyInsert(s[0], sortedRest, key, k);
      assert s == [s[0]] + s[1..];
      WithKeyCons(s[0], s[1..], key, k);
    }
  }

  /** SortDesc is a stable descending sort. */
  lemma SortDescIsStableSort<T>(s: seq<T>, key: T -> int)
    ensures IsStableSortDesc(SortDesc(s, key), s, key)
  {
    forall k ensures WithKey(SortDesc(s, key), key, k) == WithKey(s, key, k) {
      SortDescStable(s, key, k);
    }
  }

  /** Two sequences sorted by descending key with the same groups are equal:
      a stable sort has only one possible result. */
  lemma {:induction false} StableSortUnique<T>(a: seq<T>, b: seq<T>, key: T -> int)
    requires SortedDesc(a, key) && SortedDesc(b, key)
    requires forall k :: WithKey(a, key, k) == WithKey(b, key, k)
    ensures a == b
    decreases |a|
  {
    if a == [] || b == [] {
      if a != [] {
        assert a[0] in WithKey(a, key, key(a[0])) by { WithKeyMember(a, key, key(a[0]), a[0]); }
        WithKeyMember(b, key, key(a[0]), a[0]);
      } else if b != [] {
        assert b[0] in WithKey(b, key, key(b[0])) by { WithKeyMember(b, key, key(b[0]), b[0]); }
        WithKeyMember(a, key, key(b[0]), b[0]);
      }
    } else {
      assert a == [a[0]] + a[1..];
      assert b == [b[0]] + b[1..];
      // The heads carry the largest key of either sequence.
      WithKeyMember(b, key, key(b[0]), b[0]);
      WithKeyMember(a, key, key(b[0]), b[0]);
      WithKeyMember(a, key, key(a[0]), a[0]);
      WithKeyMember(b, key, key(a[0]), a[0]);
      var i :| 0 <= i < |a| && a[i] == b[0];
      var j :| 0 <= j < |b| && b[j] == a[0];
      assert key(a[0]) >= key(b[0]) by { if i > 0 { } }
      assert key(b[0]) >= key(a[0]) by { if j > 0 { } }
      var top := key(a[0]);
      WithKeyCons(a[0], a[1..], key, top);
      WithKeyCons(b[0], b[1..], key, top);
      assert WithKey(a, key, top)[0] == a[0];
      assert WithKey(b, key, top)[0] == b[0];
      forall k ensures WithKey(a[1..], key, k) == WithKey(b[1..], key, k) {
        WithKeyCons(a[0], a[1..], key, k);
        WithKeyCons(b[0], b[1..], key, k);
        var head := if key(a[0]) == k then [a[0]] else [];
        assert WithKey(a, key, k) == head + WithKey(a[1..], key, k);
        assert WithKey(b, key, k) == head + WithKey(b[1..], key, k);
        assert WithKey(a[1..], key, k) == WithKey(a, key, k)[|head|..];
        assert WithKey(b[1..], key, k) == WithKey(b, key, k)[|head|..];
      }
      StableSortUnique(a[1..], b[1..], key);
    }
  }

  /** Any stable descending sort of `s` is SortDesc(s). */
  lemma StableSortIsSortDesc<T>(out: seq<T>, s: seq<T>, key: T -> int)
    requires IsStableSortDesc(out, s, key)
    ensures out == SortDesc(s, key)
  {
    SortDescIsStableSort(s, key);
    StableSortUnique(out, SortDesc(s, key), key);
  }

  /** When every key is the same, nothing moves. */
  lemma {:induction false} SortDescEqualKeys<T>(s: seq<T>, key: T -> int, c: int)
    requires forall i :: 0 <= i < |s| ==> key(s[i]) == c
    ensures SortDesc(s, key) == s
  {
    if s != [] {
      SortDescEqualKeys(s[1..], key, c);
      assert s == [s[0]] + s[1..];
    }
  }

  /** The first `count` elements of the descending sort of `s` (all of them
      when there are fewer). */
  function Top<T>(s: seq<T>, key: T -> int, count: nat): (r: seq<T>)
    ensures |r| == if count < |s| then count else |s|
    ensures SortedDesc(r, key)
    ensures multiset(r) <= multiset(s)
    ensures r == SortDesc(s, key)[..|r|]
  {
    var sorted := SortDesc(s, key);
    var n := if count < |s| then count else |s|;
    assert sorted == sorted[..n] + sorted[n..];
    assert multiset(sorted) == multiset(sorted[..n]) + multiset(sorted[n..]);
    sorted[..n]
  }

  /** Nothing left out of the cut has a larger key than anything kept. */
  lemma TopKeepsLargest<T>(s: seq<T>, key: T -> int, count: nat, y: T)
    requires y in s && y !in Top(s, key, count)
    ensures forall x :: x in Top(s, key, count) ==> key(x) >= key(y)
  {
    var sorted := SortDesc(s, key);
    var r := Top(s, key, count);
    assert y in multiset(sorted);
    var j :| 0 <= j < |sorted| && sorted[j] == y;
    assert j >= |r|;
    forall x | x in r ensures key(x) >= key(y) {
      var i :| 0 <= i < |r| && r[i] == x;
      assert sorted[i] == x;
    }
  }
}
