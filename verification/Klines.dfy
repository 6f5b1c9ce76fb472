/** Price bars and their N-to-1 merge (protocol/model_kline.go). Prices are whole milli-yuan, volumes
    and amounts unbounded integers. */
module Klines {
  import Grouping

  datatype Kline = Kline(last: int, open: int, high: int, low: int, close: int,
                         order: int, volume: int, amount: int, time: int, upCount: int, downCount: int)

  /** Milli-yuan to yuan. */
  function Yuan(price: int): real { price as real / 1000.0 }

  /** A bar spans its own open and close. */
  ghost predicate Sound(k: Kline) {
    k.low <= k.open <= k.high && k.low <= k.close <= k.high
  }

  function Max(a: int, b: int): int { if a < b then b else a }

  function Min(a: int, b: int): int { if a > b then b else a }

  function HighOf(ks: seq<Kline>): int
    requires ks != []
  {
    if |ks| == 1 then ks[0].high else Max(ks[0].high, HighOf(ks[1..]))
  }

  function LowOf(ks: seq<Kline>): int
    requires ks != []
  {
    if |ks| == 1 then ks[0].low else Min(ks[0].low, LowOf(ks[1..]))
  }

  /** The first open that is not zero; zero when all are. */
  function OpenOf(ks: seq<Kline>): int
    requires ks != []
  {
    if |ks| == 1 || ks[0].open != 0 then ks[0].open else OpenOf(ks[1..])
  }

  function VolumeOf(ks: seq<Kline>): int {
    if ks == [] then 0 else ks[0].volume + VolumeOf(ks[1..])
  }

  function AmountOf(ks: seq<Kline>): int {
    if ks == [] then 0 else ks[0].amount + AmountOf(ks[1..])
  }

  /** The one bar that a non-empty run of bars amounts to, stamped `time`. */
  function Whole(ks: seq<Kline>, time: int): Kline
    requires ks != []
  {
    Kline(0, OpenOf(ks), HighOf(ks), LowOf(ks), ks[|ks| - 1].close, 0, VolumeOf(ks), AmountOf(ks), time, 0, 0)
  }

  /** What the one bar says of the many: its high and low are bounds that some of them attain, its open is the first
      that is not zero, or zero if all are, and its close is the last. */
  lemma {:induction false} WholeSays(ks: seq<Kline>, time: int) returns (hi: nat, lo: nat, o: nat)
    requires ks != []
    ensures var k := Whole(ks, time);
      && (forall i :: 0 <= i < |ks| ==> k.low <= ks[i].low && ks[i].high <= k.high)
      && hi < |ks| && k.high == ks[hi].high && lo < |ks| && k.low == ks[lo].low
      && o < |ks| && k.open == ks[o].open && (forall i :: 0 <= i < o ==> ks[i].open == 0)
      && (k.open == 0 ==> forall i :: 0 <= i < |ks| ==> ks[i].open == 0)
      && k.close == ks[|ks| - 1].close && k.time == time
  {
    hi, lo, o := 0, 0, 0;
    if |ks| > 1 {
      var rest := ks[1..];
      var h, l, p := WholeSays(rest, time);
      hi := if ks[0].high < HighOf(rest) then h + 1 else 0;
      lo := if ks[0].low > LowOf(rest) then l + 1 else 0;
      o := if ks[0].open != 0 then 0 else p + 1;
      assert forall i :: 0 < i < |ks| ==> ks[i] == rest[i - 1];
    }
  }

  /** Two neighbouring bars taken together. */
  function Join(x: Kline, y: Kline): Kline {
    Kline(0, if x.open != 0 then x.open else y.open, Max(x.high, y.high), Min(x.low, y.low), y.close,
          0, x.volume + y.volume, x.amount + y.amount, y.time, 0, 0)
  }

  lemma {:induction false} SumsConcat(xs: seq<Kline>, ys: seq<Kline>)
    ensures VolumeOf(xs + ys) == VolumeOf(xs) + VolumeOf(ys)
    ensures AmountOf(xs + ys) == AmountOf(xs) + AmountOf(ys)
  {
    if xs == [] {
      assert xs + ys == ys;
    } else {
      assert (xs + ys)[1..] == xs[1..] + ys;
      SumsConcat(xs[1..], ys);
    }
  }

  lemma WholeOfOne(k: Kline, t: int)
    ensures Whole([k], t) == k.(last := 0, order := 0, time := t, upCount := 0, downCount := 0)
  {
    assert [k][1..] == [];
    assert VolumeOf([k]) == k.volume && AmountOf([k]) == k.amount;
  }

  /** Taking bars together is compositional: this is what makes merging in stages possible. */
  lemma {:induction false} WholeConcat(xs: seq<Kline>, ys: seq<Kline>, s: int, t: int)
    requires xs != [] && ys != []
    ensures Whole(xs + ys, t) == Join(Whole(xs, s), Whole(ys, t))
  {
    SumsConcat(xs, ys);
    assert (xs + ys)[1..] == xs[1..] + ys;
    if |xs| > 1 {
      WholeConcat(xs[1..], ys, s, t);
    } else {
      assert xs[1..] + ys == ys;
    }
  }

  /** Klines.Kline: the bar for a run of bars, or a flat bar at `last` when there are none. */
  method Aggregate(ks: seq<Kline>, t: int, last: int) returns (k: Kline)
    ensures ks != [] ==> k == Whole(ks, t)
    ensures ks == [] ==> k == Kline(0, last, last, last, last, 0, 0, 0, t, 0, 0)
  {
    k := Kline(0, last, last, last, last, 0, 0, 0, t, 0, 0);
    for i := 0 to |ks|
      invariant i == 0 ==> k == Kline(0, last, last, last, last, 0, 0, 0, t, 0, 0)
      invariant i > 0 ==> k == Whole(ks[..i], t)
    {
      var v := ks[i];
      if i == 0 {
        k := k.(open := v.open, high := v.high, low := v.low, close := v.close);
      } else {
        if k.open == 0 {
          k := k.(open := v.open);
        }
        k := k.(high := Max(k.high, v.high), low := Min(k.low, v.low));
        WholeConcat(ks[..i], [v], t, t);
      }
      WholeOfOne(v, t);
      assert i == 0 ==> ks[..i + 1] == [v];
      k := k.(close := v.close, volume := k.volume + v.volume, amount := k.amount + v.amount);
      assert ks[..i + 1] == ks[..i] + [v];
    }
    assert ks[..|ks|] == ks;
  }

  /** Bars in consecutive groups of n, the last group possibly shorter; n <= 1 leaves them alone. */
  function Merged(ks: seq<Kline>, n: int): seq<Kline> {
    if n <= 1 || ks == [] then ks
    else if |ks| <= n then [Whole(ks, ks[|ks| - 1].time)]
    else [Whole(ks[..n], ks[n - 1].time)] + Merged(ks[n..], n)
  }

  /** The first full group comes first. */
  lemma FirstGroup(ks: seq<Kline>, n: int)
    requires 1 < n <= |ks|
    ensures Merged(ks, n) == [Whole(ks[..n], ks[n - 1].time)] + Merged(ks[n..], n)
  {
    if |ks| == n {
      assert ks[..n] == ks && ks[n..] == [];
    }
  }

  /** c is m times a, counted up. */
  ghost predicate Times(m: nat, a: int, c: int) {
    if m == 0 then c == 0 else Times(m - 1, a, c - a)
  }

  lemma {:induction false} TimesIsProduct(m: nat, a: int, c: int)
    ensures Times(m, a, c) <==> c == m * a
  {
    if m > 0 {
      TimesIsProduct(m - 1, a, c - a);
      NextMultiple(m - 1, a);
    }
  }

  lemma {:induction false} TimesIsPositive(m: nat, a: int, c: int)
    requires a > 1 && Times(m, a, c)
    ensures c >= m
  {
    if m > 0 {
      TimesIsPositive(m - 1, a, c - a);
    }
  }

  /** Bars from place `from` on, n of them or to the last. */
  function RunFrom(ks: seq<Kline>, from: nat, n: int): seq<Kline>
    requires n > 0 && from < |ks|
  {
    ks[from..if from + n < |ks| then from + n else |ks|]
  }

  lemma {:induction false} MergedRun(ks: seq<Kline>, n: int, i: nat, from: int)
    requires n > 1 && Times(i, n, from)
    ensures from >= 0 && (i < |Merged(ks, n)| <==> from < |ks|)
    ensures from < |ks| ==>
      var run := RunFrom(ks, from, n);
      Merged(ks, n)[i] == Whole(run, run[|run| - 1].time)
    decreases i
  {
    TimesIsPositive(i, n, from);
    if i == 0 {
      FirstRun(ks, n);
    } else if n < |ks| {
      MergedRun(ks[n..], n, i - 1, from - n);
      FirstGroup(ks, n);
      if from < |ks| {
        assert RunFrom(ks[n..], from - n, n) == RunFrom(ks, from, n);
      }
    } else {
      TimesIsPositive(i - 1, n, from - n);
    }
  }

  lemma FirstRun(ks: seq<Kline>, n: int)
    requires n > 1
    ensures |Merged(ks, n)| > 0 <==> |ks| > 0
    ensures ks != [] ==> var run := RunFrom(ks, 0, n); Merged(ks, n)[0] == Whole(run, run[|run| - 1].time)
  {
    if n <= |ks| {
      FirstGroup(ks, n);
      assert RunFrom(ks, 0, n) == ks[..n];
    } else if ks != [] {
      assert RunFrom(ks, 0, n) == ks;
    }
  }

  /** Bar i of the merged bars is the one bar of the bars from place i*n on, n of them or to the last, and bears the
      time of the last of them; and there is one for each place where such a run begins. */
  lemma MergedBar(ks: seq<Kline>, n: int, i: nat)
    requires n > 1
    ensures 0 <= i * n && (i < |Merged(ks, n)| <==> i * n < |ks|)
    ensures i * n < |ks| ==>
      var run := RunFrom(ks, i * n, n);
      Merged(ks, n)[i] == Whole(run, run[|run| - 1].time)
  {
    TimesIsProduct(i, n, i * n);
    MergedRun(ks, n, i, i * n);
  }

  method Merge(ks: seq<Kline>, n: int) returns (res: seq<Kline>)
    ensures res == Merged(ks, n)
  {
    if n <= 1 {
      return ks;
    }
    res := [];
    var i := 0;
    ghost var from := 0;
    ghost var rest := Merged(ks, n);
    ghost var all := rest;
    assert ks[0..] == ks;
    while true
      invariant i >= 0 && from >= 0 && Times(i, n, from)
      invariant rest == MergedFrom(ks, from, n)
      invariant res + rest == all
      decreases |ks| - from
    {
      var ls := Group(ks, i, n, from);
      if |ls| == 0 {
        assert rest == [];
        break;
      }
      var last := ls[|ls| - 1];
      var k := Aggregate(ls, last.time, ls[0].open);
      rest := NextGroup(ks, from, n, ls, k, res, rest);
      res := res + [k];
      i := i + 1;
      from := from + n;
    }
  }

  /** Group i: its slice of the bars, empty past the end. */
  method Group(ks: seq<Kline>, i: nat, n: int, ghost from: nat) returns (ls: seq<Kline>)
    requires n > 1 && Times(i, n, from)
    ensures ls == if |ks| <= from then [] else if |ks| < from + n then ks[from..] else ks[from..from + n]
  {
    TimesIsProduct(i, n, from);
    NextMultiple(i, n);
    if |ks| <= i * n {
      return [];
    }
    ls := if |ks| < (i + 1) * n then ks[i * n..] else ks[i * n..(i + 1) * n];
  }

  lemma NextMultiple(i: int, n: int)
    ensures (i + 1) * n == i * n + n
  {
  }

  function MergedFrom(ks: seq<Kline>, from: nat, n: int): seq<Kline> {
    if from <= |ks| then Merged(ks[from..], n) else []
  }

  lemma NextGroup(ks: seq<Kline>, from: nat, n: int, ls: seq<Kline>, k: Kline, res: seq<Kline>, rest: seq<Kline>)
    returns (after: seq<Kline>)
    requires n > 1 && from < |ks| && ls == (if |ks| < from + n then ks[from..] else ks[from..from + n])
    requires k == Whole(ls, ls[|ls| - 1].time) && rest == MergedFrom(ks, from, n)
    ensures after == MergedFrom(ks, from + n, n)
    ensures (res + [k]) + after == res + rest
  {
    var front := ks[from..];
    after := MergedFrom(ks, from + n, n);
    if from + n <= |ks| {
      FirstGroup(front, n);
      assert front[..n] == ls && front[n..] == ks[from + n..];
    }
    assert rest == [k] + after;
    Grouping.Reassociate(res, [k], after);
  }

  /** Merging keeps the whole: the merged bars amount to the same bar as the bars themselves. */
  lemma {:induction false} WholeOfMerged(ks: seq<Kline>, n: int, t: int)
    requires ks != [] && n > 1
    ensures Merged(ks, n) != []
    ensures Merged(ks, n)[|Merged(ks, n)| - 1].time == ks[|ks| - 1].time
    ensures Whole(Merged(ks, n), t) == Whole(ks, t)
  {
    if |ks| <= n {
      WholeOfOne(Whole(ks, ks[|ks| - 1].time), t);
    } else {
      var front, back := ks[..n], ks[n..];
      var head := Whole(front, ks[n - 1].time);
      WholeOfMerged(back, n, t);
      WholeConcat([head], Merged(back, n), head.time, t);
      WholeOfOne(head, head.time);
      WholeConcat(front, back, head.time, t);
      assert ks == front + back;
    }
  }

  /** Full groups in front merge by themselves. */
  lemma {:induction false} MergedConcat(xs: seq<Kline>, ys: seq<Kline>, a: int, m: nat)
    requires a > 1 && Times(m, a, |xs|)
    ensures m == |Merged(xs, a)|
    ensures Merged(xs + ys, a) == Merged(xs, a) + Merged(ys, a)
    decreases m
  {
    if m == 0 {
      assert xs + ys == ys;
    } else {
      TimesIsPositive(m - 1, a, |xs| - a);
      var rest := xs[a..];
      MergedConcat(rest, ys, a, m - 1);
      FirstGroup(xs, a);
      FirstGroup(xs + ys, a);
      assert (xs + ys)[..a] == xs[..a];
      assert (xs + ys)[a..] == rest + ys;
      Grouping.Reassociate([Whole(xs[..a], xs[a - 1].time)], Merged(rest, a), Merged(ys, a));
    }
  }

  lemma MoreThanOnce(m: nat, a: int, c: int)
    requires 0 < a < c && Times(m, a, c)
    ensures m > 1
  {
    TimesIsProduct(m, a, c);
  }

  /** How many bars a merge leaves: one per group, the ragged last one included. */
  lemma {:induction false} MergedLength(ks: seq<Kline>, a: int, m: nat, c: int)
    requires a > 1 && Times(m, a, c) && |ks| <= c
    ensures |Merged(ks, a)| <= m
    decreases m
  {
    if |ks| > a {
      MoreThanOnce(m, a, c);
      MergedLength(ks[a..], a, m - 1, c - a);
    }
  }

  /** Merging by a and then by b is merging by a*b, ragged groups included, on every field. */
  lemma {:induction false} MergeTwice(ks: seq<Kline>, a: int, b: int)
    requires a >= 1 && b >= 1
    ensures Merged(Merged(ks, a), b) == Merged(ks, a * b)
  {
    if a == 1 {
      assert a * b == b;
    } else if b == 1 {
      assert a * b == a;
    } else {
      TimesIsProduct(b, a, b * a);
      TimesIsPositive(b, a, b * a);
      MergeInStages(ks, a, b, b * a);
      assert a * b == b * a;
    }
  }

  lemma {:induction false} MergeInStages(ks: seq<Kline>, a: int, b: int, c: int)
    requires a > 1 && b > 1 && Times(b, a, c) && c > 1
    ensures Merged(Merged(ks, a), b) == Merged(ks, c)
    decreases |ks|
  {
    if ks != [] {
      if |ks| <= c {
        MergedLength(ks, a, b, c);
        WholeOfMerged(ks, a, ks[|ks| - 1].time);
      } else {
        var front, back := ks[..c], ks[c..];
        assert ks == front + back;
        MergedConcat(front, back, a, b);
        var ms, rest := Merged(front, a), Merged(back, a);
        WholeOfMerged(front, a, front[|front| - 1].time);
        MergeInStages(back, a, b, c);
        FirstGroup(ms + rest, b);
        assert (ms + rest)[..b] == ms && (ms + rest)[b..] == rest;
      }
    }
  }

  /** No volume and no amount is gained or lost by merging. */
  lemma {:induction false} MergeConserves(ks: seq<Kline>, n: int)
    ensures VolumeOf(Merged(ks, n)) == VolumeOf(ks)
    ensures AmountOf(Merged(ks, n)) == AmountOf(ks)
  {
    if n <= 1 || ks == [] {
    } else {
      WholeOfMerged(ks, n, 0);
    }
  }
}
