/** What Adjust (extend/research/model.go) does to bars that are not in date order: it pairs prices and bars by
    position, and is right for all prices exactly on the orders in which that is harmless. */
module AdjustOrder {
  import opened AdjustedBars
  import opened AffineAdjust
  import opened BackwardSweep
  import opened Grouping
  import opened HistoryPaging
  import opened Klines
  import opened Results
  import opened Sorting

  /** A bar adjusted by the factor on record for its own date. */
  function OwnAdjusted(b: Bar, fs: seq<Factor>, mode: Mode, fund: bool): Bar {
    match FactorAt(fs, b.date)
    case None => b
    case Some(f) => AdjustedBar(b, ModeFactor(f, mode), fund)
  }

  function AllOwn(known: seq<Bar>, fs: seq<Factor>, mode: Mode, fund: bool): (out: seq<Bar>)
    ensures |out| == |known|
  {
    seq(|known|, i requires 0 <= i < |known| => OwnAdjusted(known[i], fs, mode, fund))
  }

  function OwnFactors(bars: seq<Bar>, actions: seq<Action>, asOf: int): seq<Factor> {
    FactorsOf(SortBy(KlinesOf(Filter(bars, Known(asOf))), ByTime()), ExDays(Filter(actions, KnownAction(asOf))))
  }

  /** What adjustment should give, whatever the order: each bar up to the date adjusted by its own day's factor. */
  function Dated(bars: seq<Bar>, actions: seq<Action>, mode: Mode, asOf: int, fund: bool): Result<seq<Bar>> {
    var known := Filter(bars, Known(asOf));
    if mode == Raw then Ok(known)
    else if HasConversion(Filter(actions, KnownAction(asOf))) then Err
    else
      Ok(AllOwn(known, OwnFactors(bars, actions, asOf), mode, fund))
  }

  /** The bars up to the date are in order; for a fund, none after the date comes before them either. */
  predicate InOrder(dates: seq<int>, asOf: int, fund: bool) {
    && (forall i, j :: 0 <= i < j < |dates| && dates[i] <= asOf && dates[j] <= asOf ==> dates[i] < dates[j])
    && (fund ==> forall i, j :: 0 <= i < j < |dates| && dates[j] <= asOf ==> dates[i] <= asOf)
  }

  function DatesOf(bars: seq<Bar>): (dates: seq<int>)
    ensures |dates| == |bars|
  {
    seq(|bars|, i requires 0 <= i < |bars| => bars[i].date)
  }

  predicate AllDiffer(dates: seq<int>) { forall i, j :: 0 <= i < j < |dates| ==> dates[i] != dates[j] }

  // ---------------------------------------------------------------- in order: right

  lemma {:induction false} OrderedIsStrict(bars: seq<Bar>, asOf: int)
    requires InOrder(DatesOf(bars), asOf, false)
    ensures StrictlyBy(Filter(bars, Known(asOf)), ByDate())
  {
    if bars != [] {
      TailInOrder(bars, asOf);
      OrderedIsStrict(bars[1..], asOf);
      var rest := Filter(bars[1..], Known(asOf));
      FilterMembers(bars[1..], Known(asOf));
      if bars[0].date <= asOf {
        forall j | 0 <= j < |rest| ensures bars[0].date < rest[j].date {
          assert rest[j] in rest;
          var k :| 0 <= k < |bars[1..]| && bars[1..][k] == rest[j];
          assert DatesOf(bars)[0] < DatesOf(bars)[k + 1];
        }
        PrependKeepsOrder(bars[0], rest);
      }
    }
  }

  lemma TailInOrder(bars: seq<Bar>, asOf: int)
    requires bars != [] && InOrder(DatesOf(bars), asOf, false)
    ensures InOrder(DatesOf(bars[1..]), asOf, false)
  {
    var ds, es := DatesOf(bars), DatesOf(bars[1..]);
    forall i, j | 0 <= i < j < |es| && es[i] <= asOf && es[j] <= asOf ensures es[i] < es[j] {
      assert ds[i + 1] == es[i] && ds[j + 1] == es[j];
    }
  }

  lemma {:induction false} KnownIsFront(bars: seq<Bar>, asOf: int)
    requires forall i, j :: 0 <= i < j < |bars| && bars[j].date <= asOf ==> bars[i].date <= asOf
    ensures Filter(bars, Known(asOf)) <= bars
  {
    if bars != [] {
      if bars[0].date <= asOf {
        KnownIsFront(bars[1..], asOf);
        assert bars == [bars[0]] + bars[1..];
      } else {
        FilterNone(bars, Known(asOf));
      }
    }
  }

  /** Bars that meet the factors of their own days by position. */
  lemma EachMeetsItsOwn(known: seq<Bar>, fs: seq<Factor>, bars: seq<Bar>, mode: Mode, fund: bool)
    requires |known| == |fs| <= |bars| && (fund ==> known <= bars)
    requires forall i :: 0 <= i < |fs| ==> fs[i].time == known[i].date
    requires forall a, b :: 0 <= a < b < |fs| ==> fs[a].time != fs[b].time
    ensures Overlaid(known, bars, KlinesOf(known), fs, mode, fund) == AllOwn(known, fs, mode, fund)
  {
    forall i | 0 <= i < |known|
      ensures Overlaid(known, bars, KlinesOf(known), fs, mode, fund)[i] == AllOwn(known, fs, mode, fund)[i]
    {
      FactorAtItsTime(fs, i);
    }
  }

  lemma FundsFirst(bars: seq<Bar>, asOf: int)
    requires InOrder(DatesOf(bars), asOf, true)
    ensures Filter(bars, Known(asOf)) <= bars
  {
    var ds := DatesOf(bars);
    forall i, j | 0 <= i < j < |bars| && bars[j].date <= asOf ensures bars[i].date <= asOf {
      assert ds[j] <= asOf ==> ds[i] <= asOf;
    }
    KnownIsFront(bars, asOf);
  }

  /** Sorting leaves bars in order alone. */
  lemma NothingToSort(bars: seq<Bar>, asOf: int, fund: bool) returns (known: seq<Bar>)
    requires InOrder(DatesOf(bars), asOf, fund)
    ensures known == Filter(bars, Known(asOf)) && |known| <= |bars| && (fund ==> known <= bars)
    ensures StrictlyBy(KlinesOf(known), ByTime()) && SortBy(KlinesOf(known), ByTime()) == KlinesOf(known)
  {
    known := Filter(bars, Known(asOf));
    FilterIsShorter(bars, Known(asOf));
    OrderedIsStrict(bars, asOf);
    KlinesInOrder(known);
    StrictIsSorted(KlinesOf(known));
    SortOfSorted(KlinesOf(known), ByTime());
    if fund {
      FundsFirst(bars, asOf);
    }
  }

  lemma InOrderIsRight(bars: seq<Bar>, actions: seq<Action>, mode: Mode, asOf: int, fund: bool)
    requires InOrder(DatesOf(bars), asOf, fund)
    ensures AdjustedInPlace(bars, actions, mode, asOf, fund) == Dated(bars, actions, mode, asOf, fund)
  {
    var known := NothingToSort(bars, asOf, fund);
    var xs := ExDays(Filter(actions, KnownAction(asOf)));
    FactorsHaveDistinctTimes(KlinesOf(known), xs);
    EachMeetsItsOwn(known, FactorsOf(KlinesOf(known), xs), bars, mode, fund);
  }

  // ---------------------------------------------------------------- out of order: wrong for some prices

  /** Bars of the given dates, each at a price of its own. */
  function Sample(dates: seq<int>): (bars: seq<Bar>)
    ensures |bars| == |dates| && DatesOf(bars) == dates
  {
    seq(|dates|, i requires 0 <= i < |dates| =>
      Bar(dates[i], 1000 * (i + 1), 1000 * (i + 1), 1000 * (i + 1), 1000 * (i + 1), 0, 0.0))
  }

  lemma OpensDiffer(dates: seq<int>, a: Bar, b: Bar)
    requires a in Sample(dates) && b in Sample(dates) && a != b
    ensures a.open != b.open
  {
  }

  lemma SampleIsDistinct(dates: seq<int>)
    requires AllDiffer(dates)
    ensures DistinctBy(Sample(dates), ByDate())
  {
  }

  /** Without actions every factor leaves prices alone. */
  lemma NoActionsNoChange(days: seq<Kline>, i: nat)
    requires i < |days|
    ensures FactorsOf(days, [])[i].qfq == IDENTITY
  {
  }

  lemma IdentityPrices(p: int)
    requires p % 10 == 0
    ensures AdjustedPrice(IDENTITY, p) == p && FundPrice(IDENTITY, p) == p
  {
  }

  /** A price of the sample after adjustment without actions. */
  lemma SamplePrice(dates: seq<int>, b: Bar, fund: bool)
    requires b in Sample(dates)
    ensures AdjustedBar(b, IDENTITY, fund).open == b.open
    ensures AdjustedPrice(IDENTITY, b.open) == b.open && FundPrice(IDENTITY, b.open) == b.open
  {
    OpenOfSample(dates, b);
    IdentityPrices(b.open);
  }

  lemma OwnIsIdentity(fs: seq<Factor>, b: Bar, fund: bool)
    requires forall i :: 0 <= i < |fs| ==> fs[i].qfq == IDENTITY
    requires AdjustedBar(b, IDENTITY, fund).open == b.open
    ensures OwnAdjusted(b, fs, QFQ, fund).open == b.open
  {
    FactorFrom(fs, b.date);
  }

  lemma {:induction false} FactorFrom(fs: seq<Factor>, t: int)
    ensures FactorAt(fs, t).Some? ==> FactorAt(fs, t).value in fs && FactorAt(fs, t).value.time == t
  {
    if fs != [] && fs[|fs| - 1].time != t {
      FactorFrom(fs[..|fs| - 1], t);
    }
  }

  lemma AllIdentity(days: seq<Kline>)
    ensures forall i :: 0 <= i < |days| ==> FactorsOf(days, [])[i].qfq == IDENTITY
  {
    forall i | 0 <= i < |days| ensures FactorsOf(days, [])[i].qfq == IDENTITY {
      NoActionsNoChange(days, i);
    }
  }

  /** What adjustment should give at a place, without actions. */
  lemma ShouldStay(dates: seq<int>, asOf: int, fund: bool, m: nat)
    requires m < |Filter(Sample(dates), Known(asOf))|
    ensures var known := Filter(Sample(dates), Known(asOf));
      && Dated(Sample(dates), [], QFQ, asOf, fund).Ok?
      && Dated(Sample(dates), [], QFQ, asOf, fund).value[m].open == known[m].open
  {
    var known := Filter(Sample(dates), Known(asOf));
    FilterMembers(Sample(dates), Known(asOf));
    assert known[m] in known;
    AllIdentity(SortBy(KlinesOf(known), ByTime()));
    SamplePrice(dates, known[m], fund);
    OwnIsIdentity(FactorsOf(SortBy(KlinesOf(known), ByTime()), []), known[m], fund);
  }

  lemma OverlaidOpen(known: seq<Bar>, bars: seq<Bar>, days: seq<Kline>, fs: seq<Factor>, fund: bool, m: nat)
    requires m < |days| == |fs| == |known| <= |bars|
    ensures Overlaid(known, bars, days, fs, QFQ, fund)[m].open
         == if fund then FundPrice(fs[m].qfq, bars[m].open) else AdjustedPrice(fs[m].qfq, days[m].open)
  {
  }

  lemma OpenOfSample(dates: seq<int>, b: Bar)
    requires b in Sample(dates)
    ensures b.open % 10 == 0
  {
    var i :| 0 <= i < |dates| && Sample(dates)[i] == b;
    Thousands(i + 1);
  }

  lemma Thousands(x: int)
    ensures 1000 * x % 10 == 0
  {
  }

  lemma DayOfSample(dates: seq<int>, asOf: int, m: nat)
    requires m < |Filter(Sample(dates), Known(asOf))|
    ensures SortBy(KlinesOf(Filter(Sample(dates), Known(asOf))), ByTime())[m].open % 10 == 0
  {
    var known := Filter(Sample(dates), Known(asOf));
    FilterMembers(Sample(dates), Known(asOf));
    var k := SortBy(KlinesOf(known), ByTime())[m];
    assert k in KlinesOf(known);
    var i :| 0 <= i < |known| && KlinesOf(known)[i] == k;
    assert known[i] in known && known[i] in Sample(dates);
    OpenOfSample(dates, known[i]);
  }

  lemma PlainOpen(known: seq<Bar>, bars: seq<Bar>, days: seq<Kline>, fs: seq<Factor>, fund: bool, m: nat, p: int)
    requires m < |days| == |fs| == |known| <= |bars| && fs[m].qfq == IDENTITY
    requires p == (if fund then bars[m].open else days[m].open) && p % 10 == 0
    ensures Overlaid(known, bars, days, fs, QFQ, fund)[m].open == p
  {
    OverlaidOpen(known, bars, days, fs, fund, m);
    IdentityPrices(p);
  }

  lemma NoActions(bars: seq<Bar>, asOf: int, fund: bool) returns (known: seq<Bar>, days: seq<Kline>)
    ensures known == Filter(bars, Known(asOf)) && days == SortBy(KlinesOf(known), ByTime())
    ensures |days| == |known| <= |bars|
    ensures AdjustedInPlace(bars, [], QFQ, asOf, fund)
         == Ok(Overlaid(known, bars, days, FactorsOf(days, []), QFQ, fund))
  {
    known := Filter(bars, Known(asOf));
    days := SortBy(KlinesOf(known), ByTime());
    FilterIsShorter(bars, Known(asOf));
  }

  /** What Adjust gives there: the price of the bar that was at that place after sorting, or for a fund before
      anything was left out. */
  lemma WithoutActions(dates: seq<int>, asOf: int, fund: bool, m: nat) returns (days: seq<Kline>)
    requires m < |Filter(Sample(dates), Known(asOf))|
    ensures var bars := Sample(dates);
      var known := Filter(bars, Known(asOf));
      && days == SortBy(KlinesOf(known), ByTime()) && |days| == |known| <= |bars|
      && AdjustedInPlace(bars, [], QFQ, asOf, fund).Ok?
      && AdjustedInPlace(bars, [], QFQ, asOf, fund).value[m].open == (if fund then bars[m].open else days[m].open)
  {
    var bars, known := Sample(dates), [];
    known, days := NoActions(bars, asOf, fund);
    NoActionsNoChange(days, m);
    DayOfSample(dates, asOf, m);
    OpenOfSample(dates, bars[m]);
    PlainOpen(known, bars, days, FactorsOf(days, []), fund, m, if fund then bars[m].open else days[m].open);
  }

  /** A list that is not in order after all its known dates were found in order would be. */
  lemma {:induction false} InBothPlaces(bars: seq<Bar>, keep: Bar -> bool, i: nat, j: nat) returns (a: nat, b: nat)
    requires i < j < |bars| && keep(bars[i]) && keep(bars[j])
    ensures a < b < |Filter(bars, keep)| && Filter(bars, keep)[a] == bars[i] && Filter(bars, keep)[b] == bars[j]
  {
    if i == 0 {
      FilterMembers(bars[1..], keep);
      assert bars[1..][j - 1] in Filter(bars[1..], keep);
      var k :| 0 <= k < |Filter(bars[1..], keep)| && Filter(bars[1..], keep)[k] == bars[j];
      a, b := 0, k + 1;
    } else {
      var x, y := InBothPlaces(bars[1..], keep, i - 1, j - 1);
      a, b := if keep(bars[0]) then x + 1 else x, if keep(bars[0]) then y + 1 else y;
    }
  }

  /** If sorting changes nothing, the known dates were in order. */
  lemma SortedMeansOrdered(bars: seq<Bar>, asOf: int)
    requires DistinctBy(bars, ByDate())
    requires var ks := KlinesOf(Filter(bars, Known(asOf))); SortBy(ks, ByTime()) == ks
    ensures InOrder(DatesOf(bars), asOf, false)
  {
    var known, ds := Filter(bars, Known(asOf)), DatesOf(bars);
    KnownAreDistinct(bars, asOf);
    KlinesAreDistinct(known);
    SortStrict(KlinesOf(known), ByTime());
    forall i, j | 0 <= i < j < |ds| && ds[i] <= asOf && ds[j] <= asOf ensures ds[i] < ds[j] {
      var a, b := InBothPlaces(bars, Known(asOf), i, j);
      assert ByTime()(KlinesOf(known)[a]) < ByTime()(KlinesOf(known)[b]);
    }
  }

  /** If the known bars are the first ones, no later date comes before one of them. */
  lemma FrontMeansFirst(bars: seq<Bar>, asOf: int)
    requires DistinctBy(bars, ByDate()) && Filter(bars, Known(asOf)) <= bars
    ensures forall i, j :: 0 <= i < j < |bars| && bars[j].date <= asOf ==> bars[i].date <= asOf
  {
    var known := Filter(bars, Known(asOf));
    FilterMembers(bars, Known(asOf));
    forall i, j | 0 <= i < j < |bars| && bars[j].date <= asOf ensures bars[i].date <= asOf {
      assert bars[j] in known;
      var k :| 0 <= k < |known| && known[k] == bars[j];
      assert ByDate()(bars[k]) == ByDate()(bars[j]);
      assert k == j;
      assert known[i] in known && known[i] == bars[i];
    }
  }

  /** A dividend of one yuan a share in force from day D on. */
  function Dividend(day: int): Action { Action(day, 1, 10.0, 0.0, 0.0, 0.0) }

  lemma DividendTerms(day: int)
    ensures ExDays([Dividend(day)]) == [XRXD(day, 10.0, 0.0, 0.0, 0.0)]
    ensures EventOf(XRXD(day, 10.0, 0.0, 0.0, 0.0)) == ExDay(day, 1.0, 1.0)
  {
    assert [Dividend(day)][1..] == [];
    assert Hundredths(10.0) == 10.0 && Hundredths(0.0) == 0.0;
  }

  /** The forward factor of a day under that dividend. */
  lemma DividendFactor(days: seq<Kline>, i: nat, day: int)
    requires i < |days| && day <= days[|days| - 1].time
    ensures FactorsOf(days, [XRXD(day, 10.0, 0.0, 0.0, 0.0)])[i].qfq
         == if days[i].time < day then Affine(1.0, -1.0) else IDENTITY
  {
    var xs := [XRXD(day, 10.0, 0.0, 0.0, 0.0)];
    DividendTerms(day);
    var e: Event := ExDay(day, 1.0, 1.0);
    var es: seq<Event> := [e];
    var none: seq<Event> := [];
    assert xs[1..] == [] && es[1..] == none;
    assert InForce(xs, days[|days| - 1].time) == es;
    assert Schedule(xs, days[|days| - 1].time) == es;
    if days[i].time < day {
      ComposedOfOne(e);
    } else {
      assert After(es, ByExDay(), days[i].time) == none;
      assert Composed(none) == IDENTITY;
    }
  }

  lemma ComposedOfOne(e: Event)
    requires e == ExDay(e.t, 1.0, 1.0)
    ensures Composed([e]) == Affine(1.0, -1.0)
  {
    var es: seq<Event> := [e];
    assert es[1..] == [];
    assert Composed(es) == Step()(Composed(es[1..]), e);
    assert Composed(es[1..]) == IDENTITY;
    assert Under(IDENTITY, e) == Affine(1.0, -1.0);
  }

  /** Every bar of the sample at one price. */
  function Flat(dates: seq<int>): (bars: seq<Bar>)
    ensures |bars| == |dates| && DatesOf(bars) == dates
  {
    seq(|dates|, i requires 0 <= i < |dates| => Bar(dates[i], 10000, 10000, 10000, 10000, 0, 0.0))
  }

  /** The fund price of ten yuan under either factor. */
  lemma TenYuan()
    ensures FundPrice(Affine(1.0, -1.0), 10000) == 9000 && FundPrice(IDENTITY, 10000) == 10000
  {
  }

  lemma SomewhereElse<T>(a: seq<T>, b: seq<T>) returns (m: nat)
    requires |a| == |b| && a != b
    ensures m < |a| && a[m] != b[m]
  {
    m :| m < |a| && a[m] != b[m];
  }

  /** A list of distinct dates out of order is changed by sorting. */
  lemma SortingMoves(bars: seq<Bar>, asOf: int) returns (m: nat)
    requires DistinctBy(bars, ByDate()) && !InOrder(DatesOf(bars), asOf, false)
    ensures var ks := KlinesOf(Filter(bars, Known(asOf))); m < |ks| && SortBy(ks, ByTime())[m] != ks[m]
  {
    var ks := KlinesOf(Filter(bars, Known(asOf)));
    if SortBy(ks, ByTime()) == ks {
      SortedMeansOrdered(bars, asOf);
      assert false;
    }
    m := SomewhereElse(SortBy(ks, ByTime()), ks);
  }

  ghost predicate Wrong(bars: seq<Bar>, actions: seq<Action>, asOf: int, fund: bool) {
    AdjustedInPlace(bars, actions, QFQ, asOf, fund) != Dated(bars, actions, QFQ, asOf, fund)
  }

  /** Stocks out of order get each other's prices. */
  lemma StocksGoWrong(dates: seq<int>, asOf: int)
    requires AllDiffer(dates) && !InOrder(dates, asOf, false)
    ensures Wrong(Sample(dates), [], asOf, false)
  {
    var known := Filter(Sample(dates), Known(asOf));
    SampleIsDistinct(dates);
    var m := SortingMoves(Sample(dates), asOf);
    var days := WithoutActions(dates, asOf, false, m);
    ShouldStay(dates, asOf, false, m);
    FilterMembers(Sample(dates), Known(asOf));
    assert days[m] in KlinesOf(known);
    var k :| 0 <= k < |known| && KlinesOf(known)[k] == days[m];
    assert known[k] in known && known[m] in known;
    OpensDiffer(dates, known[k], known[m]);
  }

  /** Funds get the prices of bars after the date if those come first. */
  lemma FundsGoWrong(dates: seq<int>, asOf: int, m: nat)
    requires m < |Filter(Sample(dates), Known(asOf))| <= |dates|
    requires Sample(dates)[m] != Filter(Sample(dates), Known(asOf))[m]
    ensures Wrong(Sample(dates), [], asOf, true)
  {
    var known := Filter(Sample(dates), Known(asOf));
    var days := WithoutActions(dates, asOf, true, m);
    ShouldStay(dates, asOf, true, m);
    FilterMembers(Sample(dates), Known(asOf));
    assert known[m] in known;
    OpensDiffer(dates, Sample(dates)[m], known[m]);
  }

  lemma FlatIsDistinct(dates: seq<int>)
    requires AllDiffer(dates)
    ensures DistinctBy(Flat(dates), ByDate())
  {
  }

  /** The days of a flat list, and the place at which sorting put another day. */
  lemma FlatDays(dates: seq<int>, asOf: int) returns (m: nat, days: seq<Kline>, day: int)
    requires AllDiffer(dates) && !InOrder(dates, asOf, false)
    ensures var ks := KlinesOf(Filter(Flat(dates), Known(asOf)));
      && days == SortBy(ks, ByTime()) && m < |days| == |ks| && DistinctBy(ks, ByTime())
      && days[m].time != ks[m].time && day == Max(days[m].time, ks[m].time)
      && day <= asOf && day <= days[|days| - 1].time
  {
    var known := Filter(Flat(dates), Known(asOf));
    var ks := KlinesOf(known);
    FlatIsDistinct(dates);
    m := SortingMoves(Flat(dates), asOf);
    days := SortBy(ks, ByTime());
    KnownAreDistinct(Flat(dates), asOf);
    KlinesAreDistinct(known);
    SortStrict(ks, ByTime());
    FlatKnown(dates, asOf, days[m]);
    FlatKnown(dates, asOf, ks[m]);
    day := Max(days[m].time, ks[m].time);
    LastIsLatest(days, days[m]);
    LastIsLatest(days, ks[m]);
  }

  lemma FlatKnown(dates: seq<int>, asOf: int, k: Kline)
    requires k in KlinesOf(Filter(Flat(dates), Known(asOf)))
    ensures k == Kline(0, 10000, 10000, 10000, 10000, 0, 0, 0, k.time, 0, 0) && k.time <= asOf
  {
    var known := Filter(Flat(dates), Known(asOf));
    FilterMembers(Flat(dates), Known(asOf));
    var i :| 0 <= i < |known| && KlinesOf(known)[i] == k;
    assert known[i] in known;
    assert known[i] in Flat(dates);
  }

  lemma LastIsLatest(days: seq<Kline>, k: Kline)
    requires StrictlyBy(days, ByTime()) && k in days
    ensures k.time <= days[|days| - 1].time
  {
    var i :| 0 <= i < |days| && days[i] == k;
    if i < |days| - 1 {
      assert ByTime()(days[i]) < ByTime()(days[|days| - 1]);
    }
  }

  lemma OneDividend(day: int, asOf: int)
    requires day <= asOf
    ensures Filter([Dividend(day)], KnownAction(asOf)) == [Dividend(day)]
    ensures !HasConversion([Dividend(day)]) && OneActionPerKey([Dividend(day)])
  {
    FilterAll([Dividend(day)], KnownAction(asOf));
  }

  /** Funds out of order get each other's factors. */
  lemma FundFactorsGoWrong(dates: seq<int>, asOf: int) returns (actions: seq<Action>)
    requires AllDiffer(dates) && !InOrder(dates, asOf, false)
    ensures OneActionPerKey(actions) && Wrong(Flat(dates), actions, asOf, true)
  {
    var m, days, day := FlatDays(dates, asOf);
    actions := [Dividend(day)];
    OneDividend(day, asOf);
    var known := Filter(Flat(dates), Known(asOf));
    var fs := PaidOut(Flat(dates), asOf, day, days);
    var d := FactorOfDay(KlinesOf(known), [XRXD(day, 10.0, 0.0, 0.0, 0.0)], m);
    DividendFactor(days, m, day);
    DividendFactor(days, d, day);
    TenYuan();
    FlatKnown(dates, asOf, KlinesOf(known)[m]);
    FilterIsShorter(Flat(dates), Known(asOf));
    OverlaidOpen(known, Flat(dates), days, fs, true, m);
    OwnOpen(known, fs, m, fs[d].qfq);
  }

  lemma OwnOpen(known: seq<Bar>, fs: seq<Factor>, m: nat, f: Affine)
    requires m < |known| && FactorAt(fs, known[m].date).Some? && FactorAt(fs, known[m].date).value.qfq == f
    ensures AllOwn(known, fs, QFQ, true)[m].open == FundPrice(f, known[m].open)
  {
  }

  /** Both results for a fund under one dividend. */
  lemma PaidOut(bars: seq<Bar>, asOf: int, day: int, days: seq<Kline>) returns (fs: seq<Factor>)
    requires day <= asOf && days == SortBy(KlinesOf(Filter(bars, Known(asOf))), ByTime())
    ensures fs == FactorsOf(days, [XRXD(day, 10.0, 0.0, 0.0, 0.0)])
    ensures |days| == |Filter(bars, Known(asOf))| <= |bars|
    ensures var known := Filter(bars, Known(asOf));
      && AdjustedInPlace(bars, [Dividend(day)], QFQ, asOf, true) == Ok(Overlaid(known, bars, days, fs, QFQ, true))
      && Dated(bars, [Dividend(day)], QFQ, asOf, true) == Ok(AllOwn(known, fs, QFQ, true))
  {
    OneDividend(day, asOf);
    DividendTerms(day);
    FilterIsShorter(bars, Known(asOf));
    fs := FactorsOf(days, [XRXD(day, 10.0, 0.0, 0.0, 0.0)]);
  }

  lemma FundsOutOfOrder(dates: seq<int>, asOf: int) returns (bars: seq<Bar>, actions: seq<Action>)
    requires AllDiffer(dates) && !InOrder(dates, asOf, true)
    ensures DatesOf(bars) == dates && OneActionPerKey(actions) && Wrong(bars, actions, asOf, true)
  {
    if !InOrder(dates, asOf, false) {
      bars := Flat(dates);
      actions := FundFactorsGoWrong(dates, asOf);
    } else {
      bars, actions := Sample(dates), [];
      var m := NotInFront(dates, asOf);
      FundsGoWrong(dates, asOf, m);
    }
  }

  lemma NotInFront(dates: seq<int>, asOf: int) returns (m: nat)
    requires AllDiffer(dates) && InOrder(dates, asOf, false) && !InOrder(dates, asOf, true)
    ensures m < |Filter(Sample(dates), Known(asOf))| <= |dates|
    ensures Sample(dates)[m] != Filter(Sample(dates), Known(asOf))[m]
  {
    var known := Filter(Sample(dates), Known(asOf));
    FilterIsShorter(Sample(dates), Known(asOf));
    SampleIsDistinct(dates);
    var i, j :| 0 <= i < j < |dates| && dates[j] <= asOf && dates[i] > asOf;
    assert Sample(dates)[j].date <= asOf < Sample(dates)[i].date;
    if known <= Sample(dates) {
      FrontMeansFirst(Sample(dates), asOf);
      assert false;
    }
    m := SomewhereElse(Sample(dates)[..|known|], known);
  }

  /** Adjust is right whatever the prices and actions, on distinct dates in a given order, if and only if the
      bars up to the date are in order and, for a fund, none after the date comes before them. */
  lemma AdjustIsRightExactlyInOrder(dates: seq<int>, asOf: int, fund: bool)
    requires AllDiffer(dates)
    ensures (forall bars, actions, mode :: DatesOf(bars) == dates && OneActionPerKey(actions) ==>
               AdjustedInPlace(bars, actions, mode, asOf, fund) == Dated(bars, actions, mode, asOf, fund))
       <==> InOrder(dates, asOf, fund)
  {
    if InOrder(dates, asOf, fund) {
      forall bars, actions, mode | DatesOf(bars) == dates && OneActionPerKey(actions)
        ensures AdjustedInPlace(bars, actions, mode, asOf, fund) == Dated(bars, actions, mode, asOf, fund)
      {
        InOrderIsRight(bars, actions, mode, asOf, fund);
      }
    } else if fund {
      var bars, actions := FundsOutOfOrder(dates, asOf);
      assert Wrong(bars, actions, asOf, fund);
    } else {
      StocksGoWrong(dates, asOf);
      assert DatesOf(Sample(dates)) == dates;
    }
  }
}
