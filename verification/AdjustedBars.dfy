/** Factors applied to whole bars, rounded to the cent (protocol/model_gbbq.go, applyFQ). */
module AdjustedBars {
  import opened AffineAdjust
  import opened Klines
  import opened Results
  import opened Sorting

  /** math.Round: to the nearest whole number, halves away from zero. */
  function Round(x: real): int {
    if x >= 0.0 then (x + 0.5).Floor else -((-x + 0.5).Floor)
  }

  /** roundHalfUpYuan: yuan to whole cents, in milli-yuan. */
  function RoundHalfUpYuan(yuan: real): int { Round(yuan * 100.0) * 10 }

  /** Factor.QFQPrice and Factor.HFQPrice. */
  function AdjustedPrice(f: Affine, raw: int): int { RoundHalfUpYuan(Apply(f, Yuan(raw))) }

  lemma RoundIsNearest(x: real)
    ensures -0.5 <= Round(x) as real - x <= 0.5
  {
  }

  /** n is the whole number nearest to x, and of two equally near the one farther from zero. */
  ghost predicate IsRounded(x: real, n: int) {
    var d := n as real - x;
    -0.5 < d < 0.5 || (d == 0.5 && x > 0.0) || (d == -0.5 && x < 0.0)
  }

  lemma RoundIsRounded(x: real)
    ensures IsRounded(x, Round(x)) && forall n :: IsRounded(x, n) ==> n == Round(x)
  {
  }

  lemma RoundIsMonotone(x: real, y: real)
    requires x <= y
    ensures Round(x) <= Round(y)
  {
  }

  /** `price` is a whole cent, at most half a cent from the exact affine value of `raw`, and where that is half way
      between two cents the one farther from zero. */
  ghost predicate Lands(f: Affine, raw: int, price: int) {
    && price % 10 == 0 && -5.0 <= price as real - 1000.0 * Apply(f, Yuan(raw)) <= 5.0
    && IsRounded(100.0 * Apply(f, Yuan(raw)), price / 10)
  }

  lemma AdjustedPriceIsNear(f: Affine, raw: int)
    ensures Lands(f, raw, AdjustedPrice(f, raw))
  {
    RoundIsNearest(Apply(f, Yuan(raw)) * 100.0);
    RoundIsRounded(Apply(f, Yuan(raw)) * 100.0);
  }

  lemma AdjustedPriceIsMonotone(f: Affine, p: int, q: int)
    requires f.mul > 0.0 && p <= q
    ensures AdjustedPrice(f, p) <= AdjustedPrice(f, q)
  {
    assert f.mul * (Yuan(q) - Yuan(p)) >= 0.0;
    RoundIsMonotone(Apply(f, Yuan(p)) * 100.0, Apply(f, Yuan(q)) * 100.0);
  }

  function AdjustBar(k: Kline, f: Affine): Kline {
    k.(last := AdjustedPrice(f, k.last), open := AdjustedPrice(f, k.open), high := AdjustedPrice(f, k.high),
       low := AdjustedPrice(f, k.low), close := AdjustedPrice(f, k.close))
  }

  /** The factor on record for a time; of several, the last. */
  function FactorAt(fs: seq<Factor>, t: int): Option<Factor> {
    if fs == [] then None
    else if fs[|fs| - 1].time == t then Some(fs[|fs| - 1])
    else FactorAt(fs[..|fs| - 1], t)
  }

  function AdjustWith(k: Kline, fs: seq<Factor>, qfq: bool): Kline {
    match FactorAt(fs, k.time)
    case None => k
    case Some(f) => AdjustBar(k, if qfq then f.qfq else f.hfq)
  }

  /** applyFQ. */
  method ApplyFQ(ks: seq<Kline>, fs: seq<Factor>, qfq: bool) returns (out: seq<Kline>)
    ensures |out| == |ks|
    ensures forall i :: 0 <= i < |ks| ==> out[i] == AdjustWith(ks[i], fs, qfq)
  {
    var fm: map<int, Factor> := map[];
    for i := 0 to |fs|
      invariant forall t :: t in fm <==> FactorAt(fs[..i], t).Some?
      invariant forall t :: t in fm ==> FactorAt(fs[..i], t) == Some(fm[t])
    {
      forall t ensures FactorAt(fs[..i + 1], t) == if fs[i].time == t then Some(fs[i]) else FactorAt(fs[..i], t) {
        assert fs[..i + 1][..i] == fs[..i];
      }
      fm := fm[fs[i].time := fs[i]];
    }
    assert fs[..|fs|] == fs;
    out := [];
    for i := 0 to |ks|
      invariant |out| == i
      invariant forall j :: 0 <= j < i ==> out[j] == AdjustWith(ks[j], fs, qfq)
    {
      var nk := ks[i];
      if nk.time in fm {
        var f := if qfq then fm[nk.time].qfq else fm[nk.time].hfq;
        nk := nk.(last := AdjustedPrice(f, nk.last), open := AdjustedPrice(f, nk.open),
                  high := AdjustedPrice(f, nk.high),
                  low := AdjustedPrice(f, nk.low), close := AdjustedPrice(f, nk.close));
      }
      out := out + [nk];
    }
  }

  lemma {:induction false} FactorAtItsTime(fs: seq<Factor>, i: nat)
    requires i < |fs|
    requires forall a, b :: 0 <= a < b < |fs| ==> fs[a].time != fs[b].time
    ensures FactorAt(fs, fs[i].time) == Some(fs[i])
  {
    if i < |fs| - 1 {
      FactorAtItsTime(fs[..|fs| - 1], i);
    }
  }

  ghost predicate BarLands(f: Affine, k: Kline, out: Kline) {
    && Lands(f, k.last, out.last) && Lands(f, k.open, out.open) && Lands(f, k.high, out.high)
    && Lands(f, k.low, out.low) && Lands(f, k.close, out.close)
    && out == k.(last := out.last, open := out.open, high := out.high, low := out.low, close := out.close)
  }

  lemma AdjustKeepsOrder(k: Kline, f: Affine)
    requires f.mul > 0.0 && Sound(k)
    ensures Sound(AdjustBar(k, f)) && BarLands(f, k, AdjustBar(k, f))
  {
    AdjustedPriceIsNear(f, k.last);
    AdjustedPriceIsNear(f, k.open);
    AdjustedPriceIsNear(f, k.high);
    AdjustedPriceIsNear(f, k.low);
    AdjustedPriceIsNear(f, k.close);
    AdjustedPriceIsMonotone(f, k.low, k.open);
    AdjustedPriceIsMonotone(f, k.low, k.close);
    AdjustedPriceIsMonotone(f, k.open, k.high);
    AdjustedPriceIsMonotone(f, k.close, k.high);
  }

  /** No ex-day takes away more than all of the shares. */
  ghost predicate SharesStayPositive(xs: seq<XRXD>) {
    forall x :: x in xs ==> 10.0 + x.songzhuangu + x.peigu >= 0.0
  }

  lemma PositiveQuotient(x: real, y: real)
    requires x > 0.0 && y > 0.0
    ensures x / y > 0.0
  {
    var q := x / y;
    assert q * y == x;
  }

  lemma ComposedIsPositive(xs: seq<XRXD>, t: int, latest: int)
    requires OneEventPerDay(xs) && SharesStayPositive(xs)
    ensures Composed(EventList(xs, t, latest)).mul > 0.0
  {
    var es := EventList(xs, t, latest);
    ScheduleAfter(xs, latest, t);
    forall e | e in es ensures e.m > 0.0 {
      var x :| x in xs && e == EventOf(x);
    }
    ComposedIsInjective(es);
  }

  lemma MulsArePositive(days: seq<Kline>, xs: seq<XRXD>, i: nat)
    requires StrictlyBy(days, ByTime()) && OneEventPerDay(xs) && i < |days| && SharesStayPositive(xs)
    ensures FactorsOf(days, xs)[i].qfq.mul > 0.0 && FactorsOf(days, xs)[i].hfq.mul > 0.0
  {
    var latest := days[|days| - 1].time;
    ComposedIsPositive(xs, days[0].time, latest);
    ComposedIsPositive(xs, days[i].time, latest);
    PositiveQuotient(Composed(EventList(xs, days[i].time, latest)).mul,
                     Composed(EventList(xs, days[0].time, latest)).mul);
  }

  lemma FactorOfDay(ks: seq<Kline>, xs: seq<XRXD>, i: nat) returns (d: nat)
    requires DistinctBy(ks, ByTime()) && i < |ks|
    ensures var days := SortBy(ks, ByTime());
      d < |days| && days[d] == ks[i] && StrictlyBy(days, ByTime())
      && FactorAt(FactorsOf(days, xs), ks[i].time) == Some(FactorsOf(days, xs)[d])
  {
    var days := SortBy(ks, ByTime());
    var fs := FactorsOf(days, xs);
    SortStrict(ks, ByTime());
    assert ks[i] in days;
    d :| d < |days| && days[d] == ks[i];
    forall a, b | 0 <= a < b < |fs| ensures fs[a].time != fs[b].time {
      assert ByTime()(days[a]) < ByTime()(days[b]);
    }
    FactorAtItsTime(fs, d);
  }

  /** Every bar of a history meets the factor of its own day, keeps low <= open, close <= high, and each of
      its prices lands within half a cent of the exact affine value. */
  lemma AdjustedHistoryIsSound(ks: seq<Kline>, xs: seq<XRXD>, qfq: bool, i: nat) returns (d: nat)
    requires DistinctBy(ks, ByTime()) && OneEventPerDay(xs) && SharesStayPositive(xs)
    requires i < |ks| && Sound(ks[i])
    ensures var days := SortBy(ks, ByTime());
      var fs := FactorsOf(days, xs);
      var out := AdjustWith(ks[i], fs, qfq);
      && d < |days| && days[d] == ks[i]
      && (var f := if qfq then fs[d].qfq else fs[d].hfq; out == AdjustBar(ks[i], f) && BarLands(f, ks[i], out))
      && Sound(out)
  {
    d := FactorOfDay(ks, xs, i);
    var fs := FactorsOf(SortBy(ks, ByTime()), xs);
    MulsArePositive(SortBy(ks, ByTime()), xs, d);
    AdjustKeepsOrder(ks[i], if qfq then fs[d].qfq else fs[d].hfq);
  }
}
