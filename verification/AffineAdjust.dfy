/** The two-finger walk of PreKlines.Factors: days and events both from the newest to the oldest, each
    event composed once. What composing means is left to the caller. */
module BackwardSweep {
  import opened Sorting

  /** The events composed, newest first, onto a starting state. */
  function Fold<S, E>(step: (S, E) -> S, init: S, es: seq<E>): S {
    if es == [] then init else step(Fold(step, init, es[1..]), es[0])
  }

  /** Fold of the list from position k on. */
  function FoldFrom<S, E>(step: (S, E) -> S, init: S, es: seq<E>, k: nat): S
    requires k <= |es|
    decreases |es| - k
  {
    if k == |es| then init else step(FoldFrom(step, init, es, k + 1), es[k])
  }

  lemma {:induction false} FoldFromIsFold<S, E>(step: (S, E) -> S, init: S, es: seq<E>, k: nat)
    requires k <= |es|
    ensures FoldFrom(step, init, es, k) == Fold(step, init, es[k..])
    decreases |es| - k
  {
    if k < |es| {
      FoldFromIsFold(step, init, es, k + 1);
      assert es[k..][1..] == es[k + 1..];
    }
  }

  /** The tail of an ordered list that lies after time t. */
  function After<E>(es: seq<E>, when: E -> int, t: int): seq<E> {
    if es == [] || when(es[0]) > t then es else After(es[1..], when, t)
  }

  lemma {:induction false} AfterSplits<E>(es: seq<E>, when: E -> int, t: int, n: nat)
    requires SortedBy(es, when) && n <= |es|
    requires n > 0 ==> when(es[n - 1]) <= t
    requires n < |es| ==> when(es[n]) > t
    ensures After(es, when, t) == es[n..]
  {
    if n > 0 {
      assert when(es[0]) <= when(es[n - 1]);
      AfterSplits(es[1..], when, t, n - 1);
      assert es[1..][n - 1..] == es[n..];
    }
  }

  lemma {:induction false} AfterMembers<E(!new)>(es: seq<E>, when: E -> int, t: int)
    requires StrictlyBy(es, when)
    ensures StrictlyBy(After(es, when, t), when)
    ensures forall e :: e in After(es, when, t) <==> e in es && when(e) > t
  {
    if es != [] {
      FirstIsLeast(es, when);
      if when(es[0]) <= t {
        AfterMembers(es[1..], when, t);
      }
    }
  }

  lemma CaughtUp<S, E>(step: (S, E) -> S, init: S, es: seq<E>, when: E -> int, t: int, n: nat)
    requires SortedBy(es, when) && n <= |es|
    requires n > 0 ==> when(es[n - 1]) <= t
    requires n < |es| ==> when(es[n]) > t
    ensures FoldFrom(step, init, es, n) == Fold(step, init, After(es, when, t))
  {
    AfterSplits(es, when, t, n);
    FoldFromIsFold(step, init, es, n);
  }

  /** Composes the events that are later than a day and not composed yet. */
  method CatchUp<S, E>(step: (S, E) -> S, ghost init: S, es: seq<E>, when: E -> int, start: int, f0: S, t: int)
    returns (f: S, ei: int)
    requires -1 <= start < |es| && f0 == FoldFrom(step, init, es, start + 1)
    requires start + 1 < |es| ==> when(es[start + 1]) > t
    ensures -1 <= ei <= start && f == FoldFrom(step, init, es, ei + 1)
    ensures ei + 1 < |es| ==> when(es[ei + 1]) > t
    ensures ei >= 0 ==> when(es[ei]) <= t
  {
    f, ei := f0, start;
    while ei >= 0 && when(es[ei]) > t
      invariant -1 <= ei <= start && f == FoldFrom(step, init, es, ei + 1)
      invariant ei + 1 < |es| ==> when(es[ei + 1]) > t
      decreases ei
    {
      f := step(f, es[ei]);
      ei := ei - 1;
    }
  }

  method Sweep<S, E>(step: (S, E) -> S, init: S, days: seq<int>, es: seq<E>, when: E -> int) returns (qs: array<S>)
    requires SortedBy(es, when)
    requires forall i, j :: 0 <= i < j < |days| ==> days[i] <= days[j]
    ensures fresh(qs) && qs.Length == |days|
    ensures forall i :: 0 <= i < |days| ==> qs[i] == Fold(step, init, After(es, when, days[i]))
  {
    qs := new S[|days|](_ => init);
    var f := init;
    var ei := |es| - 1;
    var i := |days| - 1;
    while i >= 0
      invariant -1 <= i < |days| && -1 <= ei < |es|
      invariant f == FoldFrom(step, init, es, ei + 1)
      invariant ei + 1 < |es| ==> i + 1 < |days| && when(es[ei + 1]) > days[i + 1]
      invariant forall j :: i < j < |days| ==> qs[j] == Fold(step, init, After(es, when, days[j]))
    {
      f, ei := CatchUp(step, init, es, when, ei, f, days[i]);
      CaughtUp(step, init, es, when, days[i], ei + 1);
      qs[i] := f;
      i := i - 1;
    }
  }
}

/** Dividend and rights adjustment of prices (protocol/model_gbbq.go). Every ex-day is an affine map on
    prices; the backward sweep of Factors composes them. Prices in yuan and coefficients are exact reals. */
module AffineAdjust {
  import opened BackwardSweep
  import opened Klines
  import opened Sorting

  datatype XRXD = XRXD(time: int, fenhong: real, peigujia: real, songzhuangu: real, peigu: real)

  /** One ex-day as an affine map: the price before it, less c, divided by m. */
  datatype ExDay = ExDay(t: int, m: real, c: real)
  type Event = e: ExDay | e.m != 0.0 witness ExDay(0, 1.0, 0.0)

  /** XRXD.mc. */
  function EventOf(x: XRXD): Event {
    var m := (10.0 + x.songzhuangu + x.peigu) / 10.0;
    var c := (x.fenhong - x.peigu * x.peigujia) / 10.0;
    ExDay(x.time, if m == 0.0 then 1.0 else m, c)
  }

  function ExPrice(e: Event, p: real): real { (p - e.c) / e.m }

  /** XRXD.Pre on a price in yuan, before its result is cut to whole milli-yuan. */
  function ReferencePrice(x: XRXD, p: real): real {
    var numerator := (p * 10.0 - x.fenhong) + (x.peigu * x.peigujia);
    var denominator := 10.0 + x.songzhuangu + x.peigu;
    if denominator == 0.0 then p else numerator / denominator
  }

  /** The comment on mc claims that (P - c) / m is XRXD.Pre. It is so for every price exactly when the share
      terms do not cancel to zero or no cash is paid: with a zero denominator Pre leaves the price alone,
      while mc still takes the cash off. */
  lemma ReferencePriceIsExPrice(x: XRXD)
    ensures (forall p :: ReferencePrice(x, p) == ExPrice(EventOf(x), p))
       <==> 10.0 + x.songzhuangu + x.peigu != 0.0 || x.fenhong == x.peigu * x.peigujia
  {
    var paid := x.peigu * x.peigujia;
    if 10.0 + x.songzhuangu + x.peigu != 0.0 {
      forall p ensures ReferencePrice(x, p) == ExPrice(EventOf(x), p) {
        Tenths((p * 10.0 - x.fenhong) + paid, 10.0 + x.songzhuangu + x.peigu);
        assert p - (x.fenhong - paid) / 10.0 == ((p * 10.0 - x.fenhong) + paid) / 10.0;
      }
    } else {
      assert EventOf(x) == ExDay(x.time, 1.0, (x.fenhong - paid) / 10.0);
      assert ReferencePrice(x, 0.0) == 0.0;
      assert ExPrice(EventOf(x), 0.0) == -((x.fenhong - paid) / 10.0);
      assert forall p :: ReferencePrice(x, p) == p;
      assert x.fenhong == paid ==> forall p :: ExPrice(EventOf(x), p) == p;
    }
  }

  /** What Go's conversion to an integer does: everything after the point is dropped. */
  function Cut(v: real): int { if v >= 0.0 then v.Floor else -((-v).Floor) }

  /** XRXD.Pre, on whole milli-yuan. */
  function Pre(x: XRXD, p: int): int {
    if 10.0 + x.songzhuangu + x.peigu == 0.0 then p else Cut(ReferencePrice(x, Yuan(p)) * 1000.0)
  }

  /** The affine ex-price, cut to whole milli-yuan like Pre. */
  function CutExPrice(x: XRXD, p: int): int { Cut(ExPrice(EventOf(x), Yuan(p)) * 1000.0) }

  /** The cut changes nothing about that condition: on whole milli-yuan, too, Pre is the affine ex-price of every
      price if and only if the share terms do not cancel to zero or no cash is paid. */
  lemma PreIsCutExPrice(x: XRXD)
    ensures (forall p :: Pre(x, p) == CutExPrice(x, p))
       <==> 10.0 + x.songzhuangu + x.peigu != 0.0 || x.fenhong == x.peigu * x.peigujia
  {
    ReferencePriceIsExPrice(x);
    if 10.0 + x.songzhuangu + x.peigu != 0.0 {
      forall p ensures Pre(x, p) == CutExPrice(x, p) {
        assert ReferencePrice(x, Yuan(p)) == ExPrice(EventOf(x), Yuan(p));
      }
    } else {
      var c := EventOf(x).c;
      forall p ensures CutExPrice(x, p) == Cut(p as real - 1000.0 * c) {
        assert EventOf(x).m == 1.0;
        assert ExPrice(EventOf(x), Yuan(p)) == Yuan(p) - c;
      }
      CashShows(c);
      assert Pre(x, 1) == 1 && Pre(x, -1) == -1;
      if x.fenhong == x.peigu * x.peigujia {
        forall p ensures Pre(x, p) == CutExPrice(x, p) {
          CutOfWhole(p);
        }
      }
    }
  }

  /** Cash taken off or added shows at a price of one milli-yuan more or less than nothing. */
  lemma CashShows(c: real)
    ensures c > 0.0 ==> Cut(1.0 - 1000.0 * c) != 1
    ensures c < 0.0 ==> Cut(-1.0 - 1000.0 * c) != -1
  {
  }

  lemma CutOfWhole(p: int)
    ensures Cut(p as real) == p
  {
  }

  lemma Tenths(n: real, d: real)
    requires d != 0.0
    ensures (n / 10.0) / (d / 10.0) == n / d
  {
    var q := n / d;
    assert q * d == n;
    assert q * (d / 10.0) == n / 10.0;
  }

  /** Five yuan of cash on ten shares that are all taken away, at ten yuan: Pre leaves the price, the formula behind
      mc takes half a yuan off. */
  lemma AnEventWherePreAndMcDiffer()
    ensures var x := XRXD(0, 5.0, 0.0, -10.0, 0.0); Pre(x, 10000) == 10000 && CutExPrice(x, 10000) == 9500
  {
  }

  datatype Affine = Affine(mul: real, add: real)

  const IDENTITY := Affine(1.0, 0.0)

  function Apply(f: Affine, p: real): real { f.mul * p + f.add }

  /** A price carried through events one after the other, oldest first: what adjustment means. */
  function Through(es: seq<Event>, p: real): real {
    if es == [] then p else Through(es[1..], ExPrice(es[0], p))
  }

  /** The step of the sweep: one older event composed under what has been composed so far. */
  function Under(f: Affine, e: Event): Affine {
    var a := f.mul / e.m;
    Affine(a, f.add - a * e.c)
  }

  function Step(): (Affine, Event) -> Affine { (f: Affine, e: Event) => Under(f, e) }

  function Composed(es: seq<Event>): Affine { Fold(Step(), IDENTITY, es) }

  lemma UnderComposes(f: Affine, e: Event, p: real)
    ensures Apply(Under(f, e), p) == Apply(f, ExPrice(e, p))
  {
    var a, q := f.mul / e.m, (p - e.c) / e.m;
    assert a * e.m == f.mul;
    assert q * e.m == p - e.c;
    assert a * (p - e.c) == a * (q * e.m) == (a * e.m) * q;
  }

  /** The composed coefficients are the chronological composition of the events. */
  lemma {:induction false} ComposedIsThrough(es: seq<Event>, p: real)
    ensures Apply(Composed(es), p) == Through(es, p)
  {
    if es != [] {
      UnderComposes(Composed(es[1..]), es[0], p);
      ComposedIsThrough(es[1..], ExPrice(es[0], p));
    }
  }

  lemma {:induction false} ComposedIsInjective(es: seq<Event>)
    ensures Composed(es).mul != 0.0
    ensures (forall e :: e in es ==> e.m > 0.0) ==> Composed(es).mul > 0.0
  {
    if es != [] {
      ComposedIsInjective(es[1..]);
      var a := Composed(es[1..]).mul / es[0].m;
      assert a * es[0].m == Composed(es[1..]).mul;
      assert es[0] in es && forall e :: e in es[1..] ==> e in es;
    }
  }

  lemma {:induction false} ThroughConcat(xs: seq<Event>, ys: seq<Event>, p: real)
    ensures Through(xs + ys, p) == Through(ys, Through(xs, p))
  {
    if xs == [] {
      assert xs + ys == ys;
    } else {
      assert (xs + ys)[1..] == xs[1..] + ys;
      ThroughConcat(xs[1..], ys, ExPrice(xs[0], p));
    }
  }

  // ---------------------------------------------------------------- Factors

  /** One trading day's coefficients: forward-adjusted (QFQ) and back-adjusted (HFQ). */
  datatype Factor = Factor(time: int, qfq: Affine, hfq: Affine)

  function ByTime(): Kline -> int { (k: Kline) => k.time }
  function ByExDay(): Event -> int { (e: Event) => e.t }

  /** Ex-days after the latest trading day are announced but not yet in force. */
  function InForce(xs: seq<XRXD>, latest: int): (es: seq<Event>)
    ensures forall e :: e in es <==> exists x :: x in xs && x.time <= latest && e == EventOf(x)
  {
    if xs == [] then []
    else
      var rest := InForce(xs[1..], latest);
      assert forall x :: x in xs <==> x == xs[0] || x in xs[1..];
      if xs[0].time > latest then rest else [EventOf(xs[0])] + rest
  }

  ghost predicate OneEventPerDay(xs: seq<XRXD>) {
    forall i, j :: 0 <= i < j < |xs| ==> xs[i].time != xs[j].time
  }

  lemma {:induction false} InForceIsDistinct(xs: seq<XRXD>, latest: int)
    requires OneEventPerDay(xs)
    ensures DistinctBy(InForce(xs, latest), ByExDay())
  {
    if xs != [] {
      InForceIsDistinct(xs[1..], latest);
      var rest := InForce(xs[1..], latest);
      forall e | e in rest ensures e.t != xs[0].time {
        var x :| x in xs[1..] && x.time <= latest && e == EventOf(x);
      }
      forall j | 0 <= j < |rest| ensures rest[j].t != xs[0].time {
        assert rest[j] in rest;
      }
    }
  }

  /** The events in force, oldest first. */
  function Schedule(xs: seq<XRXD>, latest: int): seq<Event> { SortBy(InForce(xs, latest), ByExDay()) }

  lemma ScheduleInOrder(xs: seq<XRXD>, latest: int)
    requires OneEventPerDay(xs)
    ensures StrictlyBy(Schedule(xs, latest), ByExDay())
  {
    InForceIsDistinct(xs, latest);
    SortStrict(InForce(xs, latest), ByExDay());
  }

  function Rebased(f: Affine, anchor: Affine): Affine {
    if anchor.mul != 0.0 then Affine(f.mul / anchor.mul, (f.add - anchor.add) / anchor.mul) else IDENTITY
  }

  /** The coefficients of days in time order, for events in order of their ex-days. */
  function FactorsBy(days: seq<Kline>, es: seq<Event>): (fs: seq<Factor>)
    ensures |fs| == |days|
  {
    if days == [] then []
    else
      var anchor := Composed(After(es, ByExDay(), days[0].time));
      seq(|days|, i requires 0 <= i < |days| =>
        var q := Composed(After(es, ByExDay(), days[i].time));
        Factor(days[i].time, q, Rebased(q, anchor)))
  }

  /** The same, from the ex-days of a security. */
  function FactorsOf(days: seq<Kline>, xs: seq<XRXD>): (fs: seq<Factor>)
    ensures |fs| == |days|
  {
    if days == [] then [] else FactorsBy(days, Schedule(xs, days[|days| - 1].time))
  }

  /** One list in order, as sort.Slice may leave it: which of two equal keys comes first is open. */
  ghost predicate Sorted<T>(s: seq<T>, of: seq<T>, key: T -> int) {
    SortedBy(s, key) && multiset(s) == multiset(of)
  }

  /** PreKlines.Factors on the days and ex-days of one security, given in any order. Where several fall on one
      day, the contract leaves open in which order the sort puts them. */
  method Factors(ks: seq<Kline>, xs: seq<XRXD>) returns (ls: seq<Factor>, ghost days: seq<Kline>, ghost es: seq<Event>)
    ensures Sorted(days, ks, ByTime())
    ensures days != [] ==> Sorted(es, InForce(xs, days[|days| - 1].time), ByExDay())
    ensures ls == FactorsBy(days, es)
  {
    SortSorts(ks, ByTime());
    var ds := SortBy(ks, ByTime());
    days, es := ds, [];
    if |ks| == 0 {
      return [], days, es;
    }
    var latest := ds[|ds| - 1].time;
    SortSorts(InForce(xs, latest), ByExDay());
    var evs := Schedule(xs, latest);
    es := evs;
    ls := FactorsInOrder(ds, evs);
  }

  /** Factors, after the sorting: the sweep, and then the back factors from the earliest day's. */
  method FactorsInOrder(days: seq<Kline>, es: seq<Event>) returns (ls: seq<Factor>)
    requires days != [] && SortedBy(days, ByTime()) && SortedBy(es, ByExDay())
    ensures ls == FactorsBy(days, es)
  {
    var times := seq(|days|, i requires 0 <= i < |days| => days[i].time);
    forall i, j | 0 <= i < j < |days| ensures times[i] <= times[j] {
      assert ByTime()(days[i]) <= ByTime()(days[j]);
    }
    var qs := Sweep(Step(), IDENTITY, times, es, ByExDay());
    var anchor := qs[0];
    ls := [];
    for i := 0 to |days|
      invariant ls == FactorsBy(days, es)[..i]
    {
      var hfq := if anchor.mul != 0.0 then Affine(qs[i].mul / anchor.mul, (qs[i].add - anchor.add) / anchor.mul)
                 else IDENTITY;
      ls := ls + [Factor(days[i].time, qs[i], hfq)];
    }
  }

  /** With one bar a day and one event a day there is only one order. */
  lemma OneOrder(ks: seq<Kline>, xs: seq<XRXD>, days: seq<Kline>, es: seq<Event>)
    requires DistinctBy(ks, ByTime()) && OneEventPerDay(xs) && Sorted(days, ks, ByTime())
    requires days != [] ==> Sorted(es, InForce(xs, days[|days| - 1].time), ByExDay())
    ensures days == SortBy(ks, ByTime()) && FactorsBy(days, es) == FactorsOf(SortBy(ks, ByTime()), xs)
  {
    SortSorts(ks, ByTime());
    SortStrict(ks, ByTime());
    OneSorting(days, SortBy(ks, ByTime()), ByTime());
    if days != [] {
      var latest := days[|days| - 1].time;
      SortSorts(InForce(xs, latest), ByExDay());
      ScheduleInOrder(xs, latest);
      OneSorting(es, Schedule(xs, latest), ByExDay());
    }
  }

  // ---------------------------------------------------------------- what the factors mean

  /** `es` lists, oldest first, exactly the ex-days of xs in (lo, hi]. */
  ghost predicate EventsBetween(es: seq<Event>, xs: seq<XRXD>, lo: int, hi: int) {
    && StrictlyBy(es, ByExDay())
    && forall e :: e in es <==> exists x :: x in xs && lo < x.time <= hi && e == EventOf(x)
  }

  lemma ScheduleAfter(xs: seq<XRXD>, latest: int, t: int)
    requires OneEventPerDay(xs)
    ensures EventsBetween(After(Schedule(xs, latest), ByExDay(), t), xs, t, latest)
  {
    ScheduleInOrder(xs, latest);
    AfterMembers(Schedule(xs, latest), ByExDay(), t);
  }

  lemma SameEvents(a: seq<Event>, b: seq<Event>, xs: seq<XRXD>, lo: int, hi: int)
    requires EventsBetween(a, xs, lo, hi) && EventsBetween(b, xs, lo, hi)
    ensures a == b
  {
    StrictOrderIsUnique(a, b, ByExDay());
  }

  lemma JoinEvents(a: seq<Event>, b: seq<Event>, xs: seq<XRXD>, lo: int, mid: int, hi: int)
    requires EventsBetween(a, xs, lo, mid) && EventsBetween(b, xs, mid, hi) && lo <= mid <= hi
    ensures EventsBetween(a + b, xs, lo, hi)
  {
    forall e ensures e in a + b <==> exists x :: x in xs && lo < x.time <= hi && e == EventOf(x) {
      if e in a {
        var x :| x in xs && lo < x.time <= mid && e == EventOf(x);
      }
      if e in b {
        var x :| x in xs && mid < x.time <= hi && e == EventOf(x);
      }
      if x :| x in xs && lo < x.time <= hi && e == EventOf(x) {
        assert e in a || e in b;
      }
    }
    forall i, j | 0 <= i < j < |a + b| ensures ByExDay()((a + b)[i]) < ByExDay()((a + b)[j]) {
      if i < |a| <= j {
        assert a[i] in a && b[j - |a|] in b;
      }
    }
  }

  /** Several events on one day included: each day's forward coefficients carry a price through the events after
      that day, one after the other, in the order the sort left them in. */
  lemma QfqFollowsTheSort(days: seq<Kline>, es: seq<Event>, i: nat, p: real)
    requires i < |days|
    ensures Apply(FactorsBy(days, es)[i].qfq, p) == Through(After(es, ByExDay(), days[i].time), p)
  {
    ComposedIsThrough(After(es, ByExDay(), days[i].time), p);
  }

  /** Forward adjustment: on every trading day the swept coefficients carry a price through exactly the
      ex-days after that day up to the latest trading day, in order; the latest day is left alone. */
  lemma QfqIsThroughLaterEvents(days: seq<Kline>, xs: seq<XRXD>, i: nat, es: seq<Event>, p: real)
    requires StrictlyBy(days, ByTime()) && OneEventPerDay(xs) && i < |days|
    requires EventsBetween(es, xs, days[i].time, days[|days| - 1].time)
    ensures Apply(FactorsOf(days, xs)[i].qfq, p) == Through(es, p)
    ensures i == |days| - 1 ==> FactorsOf(days, xs)[i].qfq == IDENTITY
  {
    var latest := days[|days| - 1].time;
    var tail := After(Schedule(xs, latest), ByExDay(), days[i].time);
    ScheduleAfter(xs, latest, days[i].time);
    SameEvents(es, tail, xs, days[i].time, latest);
    ComposedIsThrough(tail, p);
    if i == |days| - 1 {
      SameEvents([], tail, xs, latest, latest);
    }
  }

  lemma RebasedApply(f: Affine, anchor: Affine, p: real)
    requires anchor.mul != 0.0
    ensures Apply(Rebased(f, anchor), p) == (Apply(f, p) - anchor.add) / anchor.mul
  {
    var u, v := f.mul / anchor.mul, (f.add - anchor.add) / anchor.mul;
    assert u * anchor.mul == f.mul && v * anchor.mul == f.add - anchor.add;
    assert (u * p + v) * anchor.mul == (u * anchor.mul) * p + v * anchor.mul;
  }

  lemma AffineInjective(f: Affine, x: real, y: real)
    requires f.mul != 0.0 && Apply(f, x) == Apply(f, y)
    ensures x == y
  {
    assert f.mul * (x - y) == 0.0;
  }

  lemma RebasedUndoes(f: Affine, anchor: Affine, g: real, p: real)
    requires anchor.mul != 0.0 && Apply(anchor, p) == Apply(f, g)
    ensures Apply(Rebased(f, anchor), g) == p
  {
    RebasedApply(f, anchor, g);
    Undo(anchor, p);
  }

  lemma RebasedIsUndone(f: Affine, anchor: Affine, g: real, p: real)
    requires anchor.mul != 0.0 && f.mul != 0.0
    requires Apply(anchor, Apply(Rebased(f, anchor), p)) == Apply(f, g)
    ensures g == p
  {
    var y := Apply(Rebased(f, anchor), p);
    RebasedApply(f, anchor, p);
    assert y * anchor.mul == Apply(f, p) - anchor.add;
    AffineInjective(f, g, p);
  }

  /** Re-anchoring the later events' map on the whole map leaves the inverse of the earlier events. */
  lemma RebasedIsInverse(es: seq<Event>, tail: seq<Event>, p: real)
    ensures var h := Rebased(Composed(tail), Composed(es + tail));
      Apply(h, Through(es, p)) == p && Through(es, Apply(h, p)) == p
  {
    var anchor, f := Composed(es + tail), Composed(tail);
    ComposedIsInjective(es + tail);
    ComposedIsInjective(tail);
    WholeIsTail(es, tail, p);
    RebasedUndoes(f, anchor, Through(es, p), p);
    var y := Apply(Rebased(f, anchor), p);
    WholeIsTail(es, tail, y);
    RebasedIsUndone(f, anchor, Through(es, y), p);
  }

  lemma WholeIsTail(es: seq<Event>, tail: seq<Event>, y: real)
    ensures Apply(Composed(es + tail), y) == Apply(Composed(tail), Through(es, y))
  {
    ComposedIsThrough(es + tail, y);
    ThroughConcat(es, tail, y);
    ComposedIsThrough(tail, Through(es, y));
  }

  lemma Undo(f: Affine, p: real)
    requires f.mul != 0.0
    ensures (Apply(f, p) - f.add) / f.mul == p
  {
  }

  /** Back adjustment: the coefficients of a day undo, and are undone by, the ex-days in
      (first day, that day]. */
  lemma HfqInvertsEarlierEvents(days: seq<Kline>, xs: seq<XRXD>, i: nat, es: seq<Event>, p: real)
    requires StrictlyBy(days, ByTime()) && OneEventPerDay(xs) && i < |days|
    requires EventsBetween(es, xs, days[0].time, days[i].time)
    ensures Apply(FactorsOf(days, xs)[i].hfq, Through(es, p)) == p
    ensures Through(es, Apply(FactorsOf(days, xs)[i].hfq, p)) == p
  {
    var latest := days[|days| - 1].time;
    var all := Schedule(xs, latest);
    var head, tail := After(all, ByExDay(), days[0].time), After(all, ByExDay(), days[i].time);
    ScheduleAfter(xs, latest, days[0].time);
    ScheduleAfter(xs, latest, days[i].time);
    assert i > 0 ==> ByTime()(days[0]) < ByTime()(days[i]);
    assert i < |days| - 1 ==> ByTime()(days[i]) < ByTime()(days[|days| - 1]);
    JoinEvents(es, tail, xs, days[0].time, days[i].time, latest);
    SameEvents(es + tail, head, xs, days[0].time, latest);
    RebasedIsInverse(es, tail, p);
  }

  /** Two affine maps that agree at two places are the same. */
  lemma AffineUnique(f: Affine, g: Affine, x: real, y: real)
    requires x != y && Apply(f, x) == Apply(g, x) && Apply(f, y) == Apply(g, y)
    ensures f == g
  {
    assert (f.mul - g.mul) * (x - y) == 0.0;
  }

  function EventList(xs: seq<XRXD>, lo: int, hi: int): seq<Event> { After(Schedule(xs, hi), ByExDay(), lo) }

  /** Nothing that happens after a day changes its back-adjusted coefficients: further trading days, and
      further ex-days dated after it, leave them as they are. */
  lemma HfqIgnoresTheFuture(days: seq<Kline>, later: seq<Kline>, xs: seq<XRXD>, more: seq<XRXD>, i: nat)
    requires StrictlyBy(days + later, ByTime()) && i < |days|
    requires OneEventPerDay(xs) && OneEventPerDay(more)
    requires forall x :: x in more && x.time <= days[i].time <==> x in xs && x.time <= days[i].time
    ensures FactorsOf(days + later, more)[i].hfq == FactorsOf(days, xs)[i].hfq
  {
    var all := days + later;
    assert StrictlyBy(days, ByTime()) by {
      forall a, b | 0 <= a < b < |days| ensures ByTime()(days[a]) < ByTime()(days[b]) {
        assert all[a] == days[a] && all[b] == days[b];
      }
    }
    var es := EventList(xs, days[0].time, days[i].time);
    ScheduleAfter(xs, days[i].time, days[0].time);
    assert EventsBetween(es, more, days[0].time, days[i].time) by {
      forall e ensures e in es <==> exists x :: x in more && days[0].time < x.time <= days[i].time && e == EventOf(x) {
        if x :| x in more && days[0].time < x.time <= days[i].time && e == EventOf(x) {
          assert x in xs;
        }
        if e in es {
          var x :| x in xs && days[0].time < x.time <= days[i].time && e == EventOf(x);
          assert x in more;
        }
      }
    }
    var f, g := FactorsOf(days, xs)[i].hfq, FactorsOf(all, more)[i].hfq;
    var x, y := Through(es, 0.0), Through(es, 1.0);
    HfqInvertsEarlierEvents(days, xs, i, es, 0.0);
    HfqInvertsEarlierEvents(days, xs, i, es, 1.0);
    HfqInvertsEarlierEvents(all, more, i, es, 0.0);
    HfqInvertsEarlierEvents(all, more, i, es, 1.0);
    AffineUnique(f, g, x, y);
  }
}
