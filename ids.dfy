/** Facts about the ids the stores hand out from their counters, and the
    listing of a store in the order its ids were handed out. */
module Ids {

  /** The values of a sequence, as a set. */
  ghost function Values(s: seq<int>): set<int>
  {
    if s == [] then {} else {s[0]} + Values(s[1..])
  }

  /** A value is in the set exactly when it is in the sequence. */
  lemma {:induction false} ValuesMember(s: seq<int>, x: int)
    ensures x in Values(s) <==> x in s
  {
    if s != [] {
      ValuesMember(s[1..], x);
      assert s == [s[0]] + s[1..];
    }
  }

  /** A strictly increasing sequence has as many elements as its set of values. */
  lemma {:induction false} IncreasingCard(s: seq<int>)
    requires forall i, j :: 0 <= i < j < |s| ==> s[i] < s[j]
    ensures |Values(s)| == |s|
  {
    if s != [] {
      IncreasingCard(s[1..]);
      ValuesMember(s[1..], s[0]);
      assert s[0] !in s[1..] by {
        forall j | 0 <= j < |s[1..]| ensures s[1..][j] != s[0] {
          assert s[1..][j] == s[j + 1];
        }
      }
    }
  }

  /** `order` holds each key of `m` once, in increasing order. */
  ghost predicate Listed<R>(m: map<int, R>, order: seq<int>)
  {
    && (forall i :: 0 <= i < |order| ==> order[i] in m)
    && (forall k :: k in m ==> k in order)
    && (forall i, j :: 0 <= i < j < |order| ==> order[i] < order[j])
  }

  /** The records of `m` listed in the order of `order`. */
  function ListInOrder<R>(m: map<int, R>, order: seq<int>): (r: seq<R>)
    requires Listed(m, order)
    ensures |r| == |order| == |m|
    ensures forall i :: 0 <= i < |r| ==> r[i] == m[order[i]]
  {
    var r := seq(|order|, i requires 0 <= i < |order| => m[order[i]]);
    assert m.Keys == Values(order) by {
      forall x ensures x in m.Keys <==> x in Values(order) {
        ValuesMember(order, x);
      }
    }
    IncreasingCard(order);
    r
  }

  /** Storing a record under a new key that goes last in the order lists it
      last. */
  lemma ListInOrderAppend<R>(m: map<int, R>, order: seq<int>, k: int, v: R)
    requires Listed(m, order)
    requires k !in m && forall i :: 0 <= i < |order| ==> order[i] < k
    ensures ListInOrder(m[k := v], order + [k]) == ListInOrder(m, order) + [v]
  {
    var m', order' := m[k := v], order + [k];
    assert Listed(m', order') by {
      forall i | 0 <= i < |order'| ensures order'[i] in m' {
        if i < |order| { assert order'[i] == order[i]; }
      }
      forall x | x in m' ensures x in order' {
        if x != k {
          var i :| 0 <= i < |order| && order[i] == x;
          assert order'[i] == x;
        } else {
          assert order'[|order|] == k;
        }
      }
      forall i, j | 0 <= i < j < |order'| ensures order'[i] < order'[j] {
        assert order'[i] == order[i];
        if j < |order| { assert order'[j] == order[j]; }
      }
    }
    var before, after := ListInOrder(m, order), ListInOrder(m', order');
    forall i | 0 <= i < |order| ensures after[i] == before[i] {
      assert order'[i] == order[i];
    }
  }
}
