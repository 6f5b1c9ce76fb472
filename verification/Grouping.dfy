/** Totals of a list split into groups: whichever way the list is grouped, the groups add up to it. */
module Grouping {

  /** What addition of whole numbers and of reals have in common. */
  ghost predicate Additive<W(!new)>(add: (W, W) -> W, zero: W) {
    && (forall a :: add(zero, a) == a)
    && (forall a, b :: add(a, b) == add(b, a))
    && (forall a, b, c :: add(add(a, b), c) == add(a, add(b, c)))
  }

  function AddInt(): (int, int) -> int { (a, b) => a + b }

  function AddReal(): (real, real) -> real { (a, b) => a + b }

  function Total<T, W>(ts: seq<T>, w: T -> W, add: (W, W) -> W, zero: W): W {
    if ts == [] then zero else add(w(ts[0]), Total(ts[1..], w, add, zero))
  }

  /** The members of one group, in their order. */
  function Pick<T, K(==)>(ts: seq<T>, key: T -> K, k: K): seq<T> {
    if ts == [] then []
    else if key(ts[0]) == k then [ts[0]] + Pick(ts[1..], key, k)
    else Pick(ts[1..], key, k)
  }

  function TotalOfGroups<T, K(==), W>(ts: seq<T>, key: T -> K, ks: seq<K>, w: T -> W, add: (W, W) -> W, zero: W): W {
    if ks == [] then zero
    else add(Total(Pick(ts, key, ks[0]), w, add, zero), TotalOfGroups(ts, key, ks[1..], w, add, zero))
  }

  lemma {:induction false} PickedMembers<T(!new), K>(ts: seq<T>, key: T -> K, k: K)
    ensures forall t :: t in Pick(ts, key, k) <==> t in ts && key(t) == k
  {
    if ts != [] {
      PickedMembers(ts[1..], key, k);
      assert forall t :: t in ts <==> t == ts[0] || t in ts[1..];
    }
  }

  lemma {:induction false} PickConcat<T, K>(xs: seq<T>, ys: seq<T>, key: T -> K, k: K)
    ensures Pick(xs + ys, key, k) == Pick(xs, key, k) + Pick(ys, key, k)
  {
    if xs == [] {
      assert xs + ys == ys;
    } else {
      assert (xs + ys)[1..] == xs[1..] + ys;
      PickConcat(xs[1..], ys, key, k);
    }
  }

  lemma {:induction false} NothingAddsNothing<T, K, W(!new)>(key: T -> K, ks: seq<K>, w: T -> W,
                                             add: (W, W) -> W, zero: W)
    requires Additive(add, zero)
    ensures TotalOfGroups([], key, ks, w, add, zero) == zero
  {
    if ks != [] {
      NothingAddsNothing(key, ks[1..], w, add, zero);
    }
  }

  /** One more member adds its weight once if its group is listed once, and nothing if it is not listed. */
  lemma {:induction false} OneMoreMember<T, K, W(!new)>(ts: seq<T>, key: T -> K, ks: seq<K>, w: T -> W,
                                             add: (W, W) -> W, zero: W)
    requires Additive(add, zero) && ts != []
    requires forall i, j :: 0 <= i < j < |ks| ==> ks[i] != ks[j]
    ensures TotalOfGroups(ts, key, ks, w, add, zero)
         == if key(ts[0]) in ks then add(w(ts[0]), TotalOfGroups(ts[1..], key, ks, w, add, zero))
            else TotalOfGroups(ts[1..], key, ks, w, add, zero)
  {
    if ks != [] {
      OneMoreMember(ts, key, ks[1..], w, add, zero);
      var here := Total(Pick(ts[1..], key, ks[0]), w, add, zero);
      var there := TotalOfGroups(ts[1..], key, ks[1..], w, add, zero);
      if key(ts[0]) == ks[0] {
        assert key(ts[0]) !in ks[1..];
        assert Pick(ts, key, ks[0])[1..] == Pick(ts[1..], key, ks[0]);
        assert add(add(w(ts[0]), here), there) == add(w(ts[0]), add(here, there));
      } else {
        assert key(ts[0]) in ks <==> key(ts[0]) in ks[1..];
        var x := w(ts[0]);
        assert add(here, add(x, there)) == add(add(here, x), there);
        assert add(add(x, here), there) == add(x, add(here, there));
      }
    }
  }

  /** Distinct groups that between them cover the list add up to the list. */
  lemma {:induction false} GroupsAddUp<T, K, W(!new)>(ts: seq<T>, key: T -> K, ks: seq<K>, w: T -> W,
                                           add: (W, W) -> W, zero: W)
    requires Additive(add, zero)
    requires forall i, j :: 0 <= i < j < |ks| ==> ks[i] != ks[j]
    requires forall i :: 0 <= i < |ts| ==> key(ts[i]) in ks
    ensures TotalOfGroups(ts, key, ks, w, add, zero) == Total(ts, w, add, zero)
  {
    if ts == [] {
      NothingAddsNothing(key, ks, w, add, zero);
    } else {
      OneMoreMember(ts, key, ks, w, add, zero);
      assert key(ts[0]) in ks;
      GroupsAddUp(ts[1..], key, ks, w, add, zero);
    }
  }

  function Filter<T>(ts: seq<T>, keep: T -> bool): seq<T> {
    if ts == [] then [] else (if keep(ts[0]) then [ts[0]] else []) + Filter(ts[1..], keep)
  }

  lemma {:induction false} FilterConcat<T>(xs: seq<T>, ys: seq<T>, keep: T -> bool)
    ensures Filter(xs + ys, keep) == Filter(xs, keep) + Filter(ys, keep)
  {
    if xs == [] {
      assert xs + ys == ys;
    } else {
      assert (xs + ys)[1..] == xs[1..] + ys;
      FilterConcat(xs[1..], ys, keep);
      var head := if keep(xs[0]) then [xs[0]] else [];
      Reassociate(head, Filter(xs[1..], keep), Filter(ys, keep));
    }
  }

  lemma Reassociate<T>(a: seq<T>, b: seq<T>, c: seq<T>)
    ensures (a + b) + c == a + (b + c)
  {
  }

  lemma FilterSnoc<T>(xs: seq<T>, y: T, keep: T -> bool)
    ensures Filter(xs + [y], keep) == if keep(y) then Filter(xs, keep) + [y] else Filter(xs, keep)
  {
    FilterConcat(xs, [y], keep);
    assert [y][1..] == [];
    assert Filter([y], keep) == if keep(y) then [y] else [];
    assert Filter(xs, keep) + [] == Filter(xs, keep);
  }

  lemma {:induction false} FilterMembers<T(!new)>(ts: seq<T>, keep: T -> bool)
    ensures forall t :: t in Filter(ts, keep) <==> t in ts && keep(t)
  {
    if ts != [] {
      FilterMembers(ts[1..], keep);
      assert forall t :: t in ts <==> t == ts[0] || t in ts[1..];
    }
  }

  lemma {:induction false} FilterNone<T>(ts: seq<T>, keep: T -> bool)
    requires forall i :: 0 <= i < |ts| ==> !keep(ts[i])
    ensures Filter(ts, keep) == []
  {
    if ts != [] {
      FilterNone(ts[1..], keep);
    }
  }

  lemma {:induction false} FilterAll<T>(ts: seq<T>, keep: T -> bool)
    requires forall i :: 0 <= i < |ts| ==> keep(ts[i])
    ensures Filter(ts, keep) == ts
  {
    if ts != [] {
      FilterAll(ts[1..], keep);
    }
  }

  /** What is kept are exactly the elements at positions lo..hi. */
  lemma {:induction false} FilterSlice<T>(ts: seq<T>, keep: T -> bool, lo: nat, hi: nat)
    requires lo <= hi <= |ts|
    requires forall i :: 0 <= i < |ts| ==> (keep(ts[i]) <==> lo <= i < hi)
    ensures Filter(ts, keep) == ts[lo..hi]
  {
    if lo > 0 {
      FilterSlice(ts[1..], keep, lo - 1, hi - 1);
      assert ts[1..][lo - 1..hi - 1] == ts[lo..hi];
    } else if hi > 0 {
      FilterSlice(ts[1..], keep, 0, hi - 1);
      assert [ts[0]] + ts[1..][0..hi - 1] == ts[0..hi];
    } else {
      FilterNone(ts, keep);
    }
  }

  /** The groups that occur, in the order of their first members. */
  function Keys<T, K(==)>(ts: seq<T>, key: T -> K): seq<K> {
    if ts == [] then []
    else
      var ks := Keys(ts[..|ts| - 1], key);
      if key(ts[|ts| - 1]) in ks then ks else ks + [key(ts[|ts| - 1])]
  }

  lemma {:induction false} KeysCover<T, K>(ts: seq<T>, key: T -> K)
    ensures forall i :: 0 <= i < |ts| ==> key(ts[i]) in Keys(ts, key)
    ensures forall k :: k in Keys(ts, key) ==> exists i :: 0 <= i < |ts| && key(ts[i]) == k
    ensures forall i, j :: 0 <= i < j < |Keys(ts, key)| ==> Keys(ts, key)[i] != Keys(ts, key)[j]
  {
    if ts != [] {
      var front, z := ts[..|ts| - 1], ts[|ts| - 1];
      KeysCover(front, key);
      forall i | 0 <= i < |ts| ensures key(ts[i]) in Keys(ts, key) {
        if i < |ts| - 1 {
          assert front[i] == ts[i];
        }
      }
      forall k | k in Keys(ts, key) ensures exists i :: 0 <= i < |ts| && key(ts[i]) == k {
        if k in Keys(front, key) {
          var i :| 0 <= i < |front| && key(front[i]) == k;
          assert key(ts[i]) == k;
        } else {
          assert key(ts[|ts| - 1]) == k;
        }
      }
    }
  }
}
