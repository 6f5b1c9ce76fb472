/** As-of adjustment (extend/research/model.go) and cursor paging over a versioned store of daily bars
    (extend/research/history.go, extend/research/store.go). */
module HistoryPaging {
  import opened AdjustedBars
  import opened AffineAdjust
  import opened Grouping
  import opened Klines
  import opened Results
  import opened Sorting

  /** One symbol's daily bar; prices in milli-yuan, dates as day numbers. */
  datatype Bar = Bar(date: int, open: int, high: int, low: int, close: int, volume: int, amount: real)

  /** A share-capital record; category 1 is an ex-day, 11 and 12 are share conversions. */
  datatype Action = Action(date: int, category: int, c1: real, c2: real, c3: real, c4: real)

  datatype Mode = Raw | QFQ | HFQ

  function ByDate(): Bar -> int { (b: Bar) => b.date }

  // ---------------------------------------------------------------- adjustment as of a date

  function Known(asOf: int): Bar -> bool { (b: Bar) => b.date <= asOf }
  function KnownAction(asOf: int): Action -> bool { (a: Action) => a.date <= asOf }

  /** Gbbq.XRXD: its four terms to two decimals. */
  function ExDayOf(a: Action): XRXD {
    XRXD(a.date, Hundredths(a.c1), Hundredths(a.c2), Hundredths(a.c3), Hundredths(a.c4))
  }

  function Hundredths(v: real): real { Round(v * 100.0) as real / 100.0 }

  function ExDays(actions: seq<Action>): seq<XRXD> {
    if actions == [] then []
    else (if actions[0].category == 1 then [ExDayOf(actions[0])] else []) + ExDays(actions[1..])
  }

  predicate HasConversion(actions: seq<Action>) {
    exists i :: 0 <= i < |actions| && (actions[i].category == 11 || actions[i].category == 12)
  }

  /** A bar as the price helpers take it; both bars and ex-days carry 15:00, so the day stands for the time. */
  function KlineOf(b: Bar): Kline { Kline(0, b.open, b.high, b.low, b.close, 0, 0, 0, b.date, 0, 0) }

  function KlinesOf(bars: seq<Bar>): (ks: seq<Kline>)
    ensures |ks| == |bars|
  {
    seq(|bars|, i requires 0 <= i < |bars| => KlineOf(bars[i]))
  }

  /** Funds keep milli-yuan where the price helpers round to cents. */
  function FundPrice(f: Affine, raw: int): int { Round(Apply(f, Yuan(raw)) * 1000.0) }

  function AdjustedBar(b: Bar, f: Affine, fund: bool): Bar {
    if fund then b.(open := FundPrice(f, b.open), high := FundPrice(f, b.high),
                    low := FundPrice(f, b.low), close := FundPrice(f, b.close))
    else b.(open := AdjustedPrice(f, b.open), high := AdjustedPrice(f, b.high),
            low := AdjustedPrice(f, b.low), close := AdjustedPrice(f, b.close))
  }

  function ModeFactor(f: Factor, mode: Mode): Affine { if mode == QFQ then f.qfq else f.hfq }

  function Readjusted(known: seq<Bar>, fs: seq<Factor>, mode: Mode, fund: bool): (out: seq<Bar>)
    requires |fs| == |known|
    ensures |out| == |known|
  {
    seq(|known|, i requires 0 <= i < |known| => AdjustedBar(known[i], ModeFactor(fs[i], mode), fund))
  }

  /** The bars up to asOf, adjusted by the actions up to asOf. */
  function AdjustedAsOf(bars: seq<Bar>, actions: seq<Action>, mode: Mode, asOf: int, fund: bool): Result<seq<Bar>> {
    var known := Filter(bars, Known(asOf));
    var acts := Filter(actions, KnownAction(asOf));
    if mode == Raw then Ok(known)
    else if HasConversion(acts) then Err
    else
      Ok(Readjusted(known, FactorsOf(KlinesOf(known), ExDays(acts)), mode, fund))
  }

  ghost predicate OneActionPerKey(actions: seq<Action>) {
    forall i, j :: 0 <= i < j < |actions| ==>
      actions[i].date != actions[j].date || actions[i].category != actions[j].category
  }

  lemma {:induction false} ExDaysMembers(actions: seq<Action>)
    ensures forall x :: x in ExDays(actions) <==> exists a :: a in actions && a.category == 1 && x == ExDayOf(a)
  {
    if actions != [] {
      ExDaysMembers(actions[1..]);
      assert forall a :: a in actions <==> a == actions[0] || a in actions[1..];
    }
  }

  lemma {:induction false} ExDaysAreDistinct(actions: seq<Action>)
    requires OneActionPerKey(actions)
    ensures OneEventPerDay(ExDays(actions))
  {
    if actions != [] {
      var rest := actions[1..];
      ExDaysAreDistinct(rest);
      ExDaysMembers(rest);
      forall i | 0 <= i < |ExDays(rest)| && actions[0].category == 1
        ensures ExDays(rest)[i].time != actions[0].date
      {
        assert ExDays(rest)[i] in ExDays(rest);
        var a :| a in rest && a.category == 1 && ExDays(rest)[i] == ExDayOf(a);
        var k :| 0 <= k < |rest| && rest[k] == a;
        assert actions[k + 1] == a;
      }
    }
  }

  lemma {:induction false} FilteredKeys(actions: seq<Action>, asOf: int)
    requires OneActionPerKey(actions)
    ensures OneActionPerKey(Filter(actions, KnownAction(asOf)))
  {
    if actions != [] {
      FilteredKeys(actions[1..], asOf);
      var rest := Filter(actions[1..], KnownAction(asOf));
      FilterMembers(actions[1..], KnownAction(asOf));
      forall i | 0 <= i < |rest|
        ensures rest[i].date != actions[0].date || rest[i].category != actions[0].category
      {
        assert rest[i] in rest;
        var k :| 0 <= k < |actions[1..]| && actions[1..][k] == rest[i];
        assert actions[k + 1] == rest[i];
      }
    }
  }

  /** In date order, the bars up to a date are the first n of them. */
  lemma {:induction false} KnownIsPrefix(bars: seq<Bar>, asOf: int) returns (n: nat)
    requires StrictlyBy(bars, ByDate())
    ensures n <= |bars| && Filter(bars, Known(asOf)) == bars[..n]
    ensures forall i :: 0 <= i < |bars| ==> (bars[i].date <= asOf <==> i < n)
  {
    n := Rank(bars, asOf + 1);
    FilterSlice(bars, Known(asOf), 0, n);
  }

  /** How many bars lie before a date. */
  lemma {:induction false} Rank(bars: seq<Bar>, date: int) returns (n: nat)
    requires StrictlyBy(bars, ByDate())
    ensures n <= |bars|
    ensures forall i :: 0 <= i < |bars| ==> (bars[i].date < date <==> i < n)
  {
    if bars == [] {
      n := 0;
    } else if bars[|bars| - 1].date < date {
      n := |bars|;
      forall i | 0 <= i < |bars| ensures bars[i].date < date {
        assert i < |bars| - 1 ==> ByDate()(bars[i]) < ByDate()(bars[|bars| - 1]);
      }
    } else {
      n := Rank(bars[..|bars| - 1], date);
      forall i | 0 <= i < |bars| ensures bars[i].date < date <==> i < n {
        if i < |bars| - 1 {
          assert bars[..|bars| - 1][i] == bars[i];
        }
      }
    }
  }

  lemma ExDaysSnoc(actions: seq<Action>, a: Action)
    ensures ExDays(actions + [a]) == if a.category == 1 then ExDays(actions) + [ExDayOf(a)] else ExDays(actions)
  {
    if actions == [] {
      assert [a][1..] == [] && [] + [a] == [a];
    } else {
      assert (actions + [a])[1..] == actions[1..] + [a];
      ExDaysSnoc(actions[1..], a);
    }
  }

  lemma OneMoreKnown(bars: seq<Bar>, i: nat, asOf: int)
    requires i < |bars|
    ensures var out := Filter(bars[..i], Known(asOf));
      Filter(bars[..i + 1], Known(asOf)) == if bars[i].date > asOf then out else out + [bars[i]]
  {
    FilterSnoc(bars[..i], bars[i], Known(asOf));
    assert bars[..i + 1] == bars[..i] + [bars[i]];
  }

  lemma KlinesSnoc(bars: seq<Bar>, b: Bar)
    ensures KlinesOf(bars + [b]) == KlinesOf(bars) + [KlineOf(b)]
  {
  }

  method KeepKnown(bars: seq<Bar>, asOf: int) returns (out: seq<Bar>, ks: seq<Kline>)
    ensures out == Filter(bars, Known(asOf)) && ks == KlinesOf(out)
  {
    out, ks := [], [];
    for i := 0 to |bars|
      invariant out == Filter(bars[..i], Known(asOf)) && ks == KlinesOf(out)
    {
      OneMoreKnown(bars, i, asOf);
      if bars[i].date > asOf {
        continue;
      }
      KlinesSnoc(out, bars[i]);
      out, ks := out + [bars[i]], ks + [KlineOf(bars[i])];
    }
    assert bars[..|bars|] == bars;
  }

  predicate Converts(a: Action, asOf: int) { a.date <= asOf && (a.category == 11 || a.category == 12) }

  lemma OneMoreAction(actions: seq<Action>, i: nat, asOf: int)
    requires i < |actions|
    ensures ExDays(Filter(actions[..i + 1], KnownAction(asOf)))
         == ExDays(Filter(actions[..i], KnownAction(asOf)))
            + if actions[i].date <= asOf && actions[i].category == 1 then [ExDayOf(actions[i])] else []
  {
    var acts, a := Filter(actions[..i], KnownAction(asOf)), actions[i];
    FilterSnoc(actions[..i], a, KnownAction(asOf));
    assert actions[..i + 1] == actions[..i] + [a];
    ExDaysSnoc(acts, a);
    assert ExDays(acts) + [] == ExDays(acts);
  }

  lemma ConversionShows(actions: seq<Action>, asOf: int)
    ensures HasConversion(Filter(actions, KnownAction(asOf)))
       <==> exists i :: 0 <= i < |actions| && Converts(actions[i], asOf)
  {
    var acts := Filter(actions, KnownAction(asOf));
    FilterMembers(actions, KnownAction(asOf));
    if i :| 0 <= i < |actions| && Converts(actions[i], asOf) {
      assert actions[i] in acts;
      var k :| 0 <= k < |acts| && acts[k] == actions[i];
    }
    if HasConversion(acts) {
      var k :| 0 <= k < |acts| && (acts[k].category == 11 || acts[k].category == 12);
      assert acts[k] in acts;
      var i :| 0 <= i < |actions| && actions[i] == acts[k];
      assert Converts(actions[i], asOf);
    }
  }

  method KeepExDays(actions: seq<Action>, asOf: int) returns (xs: seq<XRXD>, refused: bool)
    ensures refused == HasConversion(Filter(actions, KnownAction(asOf)))
    ensures !refused ==> xs == ExDays(Filter(actions, KnownAction(asOf)))
  {
    xs := [];
    ConversionShows(actions, asOf);
    for i := 0 to |actions|
      invariant forall k :: 0 <= k < i ==> !Converts(actions[k], asOf)
      invariant xs == ExDays(Filter(actions[..i], KnownAction(asOf)))
    {
      var a := actions[i];
      if a.date <= asOf && (a.category == 11 || a.category == 12) {
        assert Converts(actions[i], asOf);
        return xs, true;
      }
      OneMoreAction(actions, i, asOf);
      if a.date <= asOf && a.category == 1 {
        xs := xs + [ExDayOf(a)];
      }
    }
    assert actions[..|actions|] == actions;
    refused := false;
  }

  lemma KlinesInOrder(bars: seq<Bar>)
    requires StrictlyBy(bars, ByDate())
    ensures StrictlyBy(KlinesOf(bars), ByTime())
  {
    var ks := KlinesOf(bars);
    forall i, j | 0 <= i < j < |ks| ensures ByTime()(ks[i]) < ByTime()(ks[j]) {
      assert ByDate()(bars[i]) < ByDate()(bars[j]);
    }
  }

  lemma {:induction false} FilterIsShorter<T>(ts: seq<T>, keep: T -> bool)
    ensures |Filter(ts, keep)| <= |ts|
  {
    if ts != [] {
      FilterIsShorter(ts[1..], keep);
    }
  }

  /** Adjusted prices written over the kept bars, by position: for stocks those of the days in time order, for
      funds those of the bars as they came in. */
  function Overlaid(known: seq<Bar>, bars: seq<Bar>, days: seq<Kline>, fs: seq<Factor>,
                    mode: Mode, fund: bool): (out: seq<Bar>)
    requires |days| == |fs| == |known| <= |bars|
    ensures |out| == |known|
  {
    seq(|known|, i requires 0 <= i < |known| =>
      var f := ModeFactor(fs[i], mode);
      if fund then known[i].(open := FundPrice(f, bars[i].open), high := FundPrice(f, bars[i].high),
                             low := FundPrice(f, bars[i].low), close := FundPrice(f, bars[i].close))
      else known[i].(open := AdjustedPrice(f, days[i].open), high := AdjustedPrice(f, days[i].high),
                     low := AdjustedPrice(f, days[i].low), close := AdjustedPrice(f, days[i].close)))
  }

  /** What Adjust makes of bars in any order. */
  function AdjustedInPlace(bars: seq<Bar>, actions: seq<Action>, mode: Mode, asOf: int, fund: bool): Result<seq<Bar>> {
    var known := Filter(bars, Known(asOf));
    var acts := Filter(actions, KnownAction(asOf));
    if mode == Raw then Ok(known)
    else if HasConversion(acts) then Err
    else
      FilterIsShorter(bars, Known(asOf));
      var days := SortBy(KlinesOf(known), ByTime());
      Ok(Overlaid(known, bars, days, FactorsOf(days, ExDays(acts)), mode, fund))
  }

  lemma KlinesAreDistinct(bars: seq<Bar>)
    requires DistinctBy(bars, ByDate())
    ensures DistinctBy(KlinesOf(bars), ByTime())
  {
    var ks := KlinesOf(bars);
    forall i, j | 0 <= i < j < |ks| ensures ByTime()(ks[i]) != ByTime()(ks[j]) {
      assert ByDate()(bars[i]) != ByDate()(bars[j]);
    }
  }

  lemma {:induction false} KnownAreDistinct(bars: seq<Bar>, asOf: int)
    requires DistinctBy(bars, ByDate())
    ensures DistinctBy(Filter(bars, Known(asOf)), ByDate())
  {
    if bars != [] {
      forall i, j | 0 <= i < j < |bars[1..]| ensures ByDate()(bars[1..][i]) != ByDate()(bars[1..][j]) {
        assert ByDate()(bars[i + 1]) != ByDate()(bars[j + 1]);
      }
      KnownAreDistinct(bars[1..], asOf);
      var rest := Filter(bars[1..], Known(asOf));
      FilterMembers(bars[1..], Known(asOf));
      forall j | 0 <= j < |rest| ensures ByDate()(bars[0]) != ByDate()(rest[j]) {
        assert rest[j] in bars[1..];
        var k :| 0 <= k < |bars[1..]| && bars[1..][k] == rest[j];
        assert ByDate()(bars[0]) != ByDate()(bars[k + 1]);
      }
    }
  }

  /** Adjust, on bars of distinct dates in any order. */
  method Adjust(bars: seq<Bar>, actions: seq<Action>, mode: Mode, asOf: int, fund: bool) returns (r: Result<seq<Bar>>)
    requires DistinctBy(bars, ByDate()) && OneActionPerKey(actions)
    ensures r == AdjustedInPlace(bars, actions, mode, asOf, fund)
  {
    var out, ks := KeepKnown(bars, asOf);
    if mode == Raw {
      return Ok(out);
    }
    var xs, refused := KeepExDays(actions, asOf);
    if refused {
      return Err;
    }
    FilteredKeys(actions, asOf);
    ExDaysAreDistinct(Filter(actions, KnownAction(asOf)));
    KnownAreDistinct(bars, asOf);
    KlinesAreDistinct(out);
    FilterIsShorter(bars, Known(asOf));
    out := AdjustKnown(out, bars, ks, xs, mode, fund);
    r := Ok(out);
  }

  /** The factors, on the bars sorted in place, and their prices over the kept bars. */
  method AdjustKnown(known: seq<Bar>, bars: seq<Bar>, ks: seq<Kline>, xs: seq<XRXD>, mode: Mode, fund: bool)
    returns (out: seq<Bar>)
    requires ks == KlinesOf(known) && DistinctBy(ks, ByTime()) && OneEventPerDay(xs) && |known| <= |bars| && mode != Raw
    ensures var days := SortBy(ks, ByTime()); out == Overlaid(known, bars, days, FactorsOf(days, xs), mode, fund)
  {
    var sorted, fs := SortedFactors(ks, xs);
    FactorsHaveDistinctTimes(sorted, xs);
    out := Overwrite(known, bars, sorted, fs, mode, fund);
  }

  method SortedFactors(ks: seq<Kline>, xs: seq<XRXD>) returns (sorted: seq<Kline>, fs: seq<Factor>)
    requires DistinctBy(ks, ByTime()) && OneEventPerDay(xs)
    ensures sorted == SortBy(ks, ByTime()) && StrictlyBy(sorted, ByTime()) && fs == FactorsOf(sorted, xs)
  {
    sorted := SortBy(ks, ByTime());
    SortStrict(ks, ByTime());
    StrictIsDistinctToo(sorted);
    ghost var days, es;
    fs, days, es := Factors(sorted, xs);
    OneOrder(sorted, xs, days, es);
    StrictIsSorted(sorted);
    SortOfSorted(sorted, ByTime());
  }

  lemma StrictIsSorted(ks: seq<Kline>)
    requires StrictlyBy(ks, ByTime())
    ensures SortedBy(ks, ByTime())
  {
  }

  lemma StrictIsDistinctToo(ks: seq<Kline>)
    requires StrictlyBy(ks, ByTime())
    ensures DistinctBy(ks, ByTime())
  {
  }

  /** The adjusted prices put over the kept bars; funds are recomputed from the input bars. */
  method Overwrite(known: seq<Bar>, bars: seq<Bar>, ks: seq<Kline>, fs: seq<Factor>, mode: Mode, fund: bool)
    returns (out: seq<Bar>)
    requires |ks| == |fs| == |known| <= |bars| && mode != Raw
    requires forall i :: 0 <= i < |fs| ==> fs[i].time == ks[i].time
    requires forall a, b :: 0 <= a < b < |fs| ==> fs[a].time != fs[b].time
    ensures out == Overlaid(known, bars, ks, fs, mode, fund)
  {
    var adjusted := ApplyFQ(ks, fs, mode == QFQ);
    out := known;
    ghost var goal := Overlaid(known, bars, ks, fs, mode, fund);
    for i := 0 to |adjusted|
      invariant |out| == |known|
      invariant forall j :: 0 <= j < i ==> out[j] == goal[j]
      invariant forall j :: i <= j < |out| ==> out[j] == known[j]
    {
      var k := adjusted[i];
      FactorAtItsTime(fs, i);
      var b := out[i].(open := k.open, high := k.high, low := k.low, close := k.close);
      if fund {
        var f := if mode == HFQ then fs[i].hfq else fs[i].qfq;
        b := b.(open := FundPrice(f, bars[i].open), high := FundPrice(f, bars[i].high),
                low := FundPrice(f, bars[i].low), close := FundPrice(f, bars[i].close));
      }
      out := out[i := b];
    }
  }

  /** On bars in date order, as the store keeps them, that is the adjustment as of the date. */
  lemma InOrderIsAdjusted(bars: seq<Bar>, actions: seq<Action>, mode: Mode, asOf: int, fund: bool)
    requires StrictlyBy(bars, ByDate())
    ensures AdjustedInPlace(bars, actions, mode, asOf, fund) == AdjustedAsOf(bars, actions, mode, asOf, fund)
  {
    var known := Filter(bars, Known(asOf));
    var n := KnownIsPrefix(bars, asOf);
    KlinesInOrder(known);
    StrictIsSorted(KlinesOf(known));
    SortOfSorted(KlinesOf(known), ByTime());
    var fs := FactorsOf(KlinesOf(known), ExDays(Filter(actions, KnownAction(asOf))));
    if mode != Raw {
      FilterIsShorter(bars, Known(asOf));
      assert Overlaid(known, bars, KlinesOf(known), fs, mode, fund) == Readjusted(known, fs, mode, fund);
    }
  }

  lemma FactorsHaveDistinctTimes(days: seq<Kline>, xs: seq<XRXD>)
    requires StrictlyBy(days, ByTime())
    ensures forall a, b :: 0 <= a < b < |days| ==> FactorsOf(days, xs)[a].time != FactorsOf(days, xs)[b].time
  {
    forall a, b | 0 <= a < b < |days| ensures FactorsOf(days, xs)[a].time != FactorsOf(days, xs)[b].time {
      assert ByTime()(days[a]) < ByTime()(days[b]);
    }
  }

  // ---------------------------------------------------------------- the store

  /** What is stored for one symbol: bars by date, actions by (date, category). */
  datatype Series = Series(bars: seq<Bar>, actions: seq<Action>, checked: bool)

  const NO_SERIES := Series([], [], false)

  ghost predicate Keyed(s: Series) {
    StrictlyBy(s.bars, ByDate()) && OneActionPerKey(s.actions)
  }

  datatype Contents = Contents(series: map<string, Series>, revision: nat) {
    function Of(symbol: string): Series { if symbol in series then series[symbol] else NO_SERIES }

    ghost predicate Valid() { forall s :: s in series ==> Keyed(series[s]) }
  }

  /** INSERT ... ON CONFLICT DO UPDATE on the primary key (symbol, date). */
  function PutBar(bars: seq<Bar>, b: Bar): seq<Bar> {
    if bars == [] || b.date < bars[0].date then [b] + bars
    else if b.date == bars[0].date then [b] + bars[1..]
    else [bars[0]] + PutBar(bars[1..], b)
  }

  function PutBars(bars: seq<Bar>, more: seq<Bar>): seq<Bar>
    decreases more
  {
    if more == [] then bars else PutBars(PutBar(bars, more[0]), more[1..])
  }

  predicate SameKey(a: Action, b: Action) { a.date == b.date && a.category == b.category }

  function PutAction(actions: seq<Action>, a: Action): seq<Action> {
    if actions == [] then [a]
    else if SameKey(actions[0], a) then [a] + actions[1..]
    else [actions[0]] + PutAction(actions[1..], a)
  }

  function PutActions(actions: seq<Action>, more: seq<Action>): seq<Action>
    decreases more
  {
    if more == [] then actions else PutActions(PutAction(actions, more[0]), more[1..])
  }

  /** A committed Upsert: bars laid over the stored ones, actions replaced as a whole when they were
      fetched, marked unchecked when they were not, and a new revision. */
  function Upserted(c: Contents, symbol: string, bars: seq<Bar>, actions: Option<seq<Action>>): Contents {
    var stored := c.Of(symbol);
    Contents(c.series[symbol := Series(PutBars(stored.bars, bars),
                                       if actions.Some? then PutActions([], actions.value) else stored.actions,
                                       actions.Some?)],
             c.revision + 1)
  }

  lemma {:induction false} PutBarKeepsOrder(bars: seq<Bar>, b: Bar)
    requires StrictlyBy(bars, ByDate())
    ensures StrictlyBy(PutBar(bars, b), ByDate())
    ensures forall x :: x in PutBar(bars, b) <==> x == b || (x in bars && x.date != b.date)
  {
    if bars != [] {
      FirstIsLeast(bars, ByDate());
      PutBarKeepsOrder(bars[1..], b);
      var r := PutBar(bars, b);
      var t := if b.date < bars[0].date then bars
               else if b.date == bars[0].date then bars[1..] else PutBar(bars[1..], b);
      assert r == [r[0]] + t;
      forall x | x in t ensures ByDate()(r[0]) < ByDate()(x) {
      }
      PrependKeepsOrder(r[0], t);
    }
  }

  lemma PrependKeepsOrder(b: Bar, bars: seq<Bar>)
    requires StrictlyBy(bars, ByDate())
    requires forall x :: x in bars ==> ByDate()(b) < ByDate()(x)
    ensures StrictlyBy([b] + bars, ByDate())
  {
    forall j | 0 <= j < |bars| ensures ByDate()(b) < ByDate()(bars[j]) {
      assert bars[j] in bars;
    }
  }

  lemma {:induction false} PutBarsInOrder(bars: seq<Bar>, more: seq<Bar>)
    requires StrictlyBy(bars, ByDate())
    ensures StrictlyBy(PutBars(bars, more), ByDate())
    decreases more
  {
    if more != [] {
      PutBarKeepsOrder(bars, more[0]);
      PutBarsInOrder(PutBar(bars, more[0]), more[1..]);
    }
  }

  /** The last of the new bars with a date wins. */
  function LastFor(more: seq<Bar>, date: int): Option<Bar> {
    if more == [] then None
    else
      var r := LastFor(more[1..], date);
      if r == None && more[0].date == date then Some(more[0]) else r
  }

  /** A refresh never loses a date: a date stored afterwards holds the last new bar for it if there is one, and
      the bar stored before if there is not. */
  lemma {:induction false} RefreshOverlays(bars: seq<Bar>, more: seq<Bar>, x: Bar)
    requires StrictlyBy(bars, ByDate())
    ensures x in PutBars(bars, more)
       <==> (LastFor(more, x.date) == Some(x) || (LastFor(more, x.date) == None && x in bars))
    decreases more
  {
    if more != [] {
      PutBarKeepsOrder(bars, more[0]);
      RefreshOverlays(PutBar(bars, more[0]), more[1..], x);
    }
  }

  lemma {:induction false} PutActionMembers(actions: seq<Action>, a: Action)
    ensures forall x :: x in PutAction(actions, a) ==> x == a || x in actions
  {
    if actions != [] {
      PutActionMembers(actions[1..], a);
    }
  }

  lemma {:induction false} PutActionKeepsKeys(actions: seq<Action>, a: Action)
    requires OneActionPerKey(actions)
    ensures OneActionPerKey(PutAction(actions, a))
  {
    if actions != [] {
      PutActionKeepsKeys(actions[1..], a);
      PutActionMembers(actions[1..], a);
      var r := PutAction(actions, a);
      forall j | 1 <= j < |r| ensures !SameKey(r[0], r[j]) {
        if !SameKey(actions[0], a) {
          assert r[j] == PutAction(actions[1..], a)[j - 1];
          assert r[j] in PutAction(actions[1..], a);
          if r[j] != a {
            var k :| 0 <= k < |actions[1..]| && actions[1..][k] == r[j];
            assert actions[k + 1] == r[j];
          }
        }
      }
      forall i, j | 1 <= i < j < |r| ensures !SameKey(r[i], r[j]) {
        if SameKey(actions[0], a) {
          assert r[i] == actions[i] && r[j] == actions[j];
        } else {
          assert r[i] == PutAction(actions[1..], a)[i - 1] && r[j] == PutAction(actions[1..], a)[j - 1];
        }
      }
    }
  }

  lemma {:induction false} PutActionsKeepsKeys(actions: seq<Action>, more: seq<Action>)
    requires OneActionPerKey(actions)
    ensures OneActionPerKey(PutActions(actions, more))
    decreases more
  {
    if more != [] {
      PutActionKeepsKeys(actions, more[0]);
      PutActionsKeepsKeys(PutAction(actions, more[0]), more[1..]);
    }
  }

  lemma UpsertKeepsKeys(c: Contents, symbol: string, bars: seq<Bar>, actions: Option<seq<Action>>)
    requires c.Valid()
    ensures Upserted(c, symbol, bars, actions).Valid()
  {
    assert Keyed(c.Of(symbol));
    PutBarsInOrder(c.Of(symbol).bars, bars);
    if actions.Some? {
      PutActionsKeepsKeys([], actions.value);
    }
  }

  // ---------------------------------------------------------------- pages

  /** A request for one page: newest first within [start, end], before the cursor. */
  datatype Query = Query(symbol: string, fund: bool, mode: Mode, start: Option<int>, end: int, limit: int)

  datatype Page = Page(version: nat, bars: seq<Bar>, hasMore: bool, nextBefore: Option<int>)

  predicate In(start: Option<int>, before: Option<int>, b: Bar) {
    (start.Some? ==> b.date >= start.value) && (before.Some? ==> b.date < before.value)
  }

  function Inside(start: Option<int>, before: Option<int>): Bar -> bool { (b: Bar) => In(start, before, b) }

  /** The whole answer, unpaged: the history adjusted as of the end date, cut to the window. */
  function Answer(c: Contents, q: Query): Result<seq<Bar>> {
    var s := c.Of(q.symbol);
    if q.mode != Raw && (!s.checked || Filter(s.bars, Known(q.end)) == []) then Err
    else AdjustedAsOf(s.bars, s.actions, q.mode, q.end, q.fund)
  }

  function Cut(window: seq<Bar>, limit: nat, version: nat): Page
    requires limit >= 1
  {
    if |window| <= limit then Page(version, window, false, None)
    else
      var bars := window[|window| - limit..];
      Page(version, bars, true, Some(bars[0].date))
  }

  predicate Wellformed(q: Query) {
    (q.start.Some? ==> q.start.value <= q.end) && 1 <= q.limit <= 1000
  }

  function PageAt(c: Contents, q: Query, before: Option<int>, version: Option<nat>): Result<Page> {
    if !Wellformed(q) || (version.Some? && version.value != c.revision) then Err
    else match Answer(c, q)
      case Err => Err
      case Ok(bars) => Ok(Cut(Filter(bars, Inside(q.start, before)), q.limit, c.revision))
  }

  lemma {:induction false} PutInTwo(bars: seq<Bar>, xs: seq<Bar>, ys: seq<Bar>)
    ensures PutBars(bars, xs + ys) == PutBars(PutBars(bars, xs), ys)
    decreases xs
  {
    if xs == [] {
      assert xs + ys == ys;
    } else {
      assert (xs + ys)[1..] == xs[1..] + ys;
      PutInTwo(PutBar(bars, xs[0]), xs[1..], ys);
    }
  }

  function Reversed(bars: seq<Bar>): (r: seq<Bar>)
    ensures |r| == |bars|
  {
    seq(|bars|, i requires 0 <= i < |bars| => bars[|bars| - 1 - i])
  }

  lemma OneOlder(bars: seq<Bar>, i: nat, keep: Bar -> bool, latest: seq<Bar>)
    requires i < |bars|
    ensures keep(bars[i]) ==>
      Filter(bars[..i + 1], keep) + Reversed(latest) == Filter(bars[..i], keep) + Reversed(latest + [bars[i]])
    ensures !keep(bars[i]) ==> Filter(bars[..i + 1], keep) == Filter(bars[..i], keep)
  {
    FilterSnoc(bars[..i], bars[i], keep);
    assert bars[..i + 1] == bars[..i] + [bars[i]];
    assert Reversed(latest + [bars[i]]) == [bars[i]] + Reversed(latest);
  }

  /** The newest bars of the window, newest first, and at most one more than the limit. */
  method Collect(bars: seq<Bar>, start: Option<int>, before: Option<int>, limit: nat)
    returns (latest: seq<Bar>, ghost older: seq<Bar>)
    ensures Filter(bars, Inside(start, before)) == older + Reversed(latest)
    ensures |latest| <= limit + 1 && (|latest| <= limit ==> older == [])
  {
    ghost var keep := Inside(start, before);
    latest := [];
    var i := |bars| - 1;
    older := Filter(bars, keep);
    ghost var window := older;
    assert bars[..|bars|] == bars && window + Reversed(latest) == window;
    while i >= 0 && |latest| <= limit
      invariant -1 <= i < |bars| && |latest| <= limit + 1
      invariant older == Filter(bars[..i + 1], keep) && window == older + Reversed(latest)
    {
      var b := bars[i];
      OneOlder(bars, i, keep, latest);
      if In(start, before, b) {
        latest := latest + [b];
      }
      older := Filter(bars[..i], keep);
      i := i - 1;
    }
  }

  lemma CutOfCollected(window: seq<Bar>, older: seq<Bar>, latest: seq<Bar>, limit: nat, version: nat)
    requires limit >= 1 && window == older + Reversed(latest)
    requires |latest| <= limit + 1 && (|latest| <= limit ==> older == [])
    ensures |latest| <= limit ==> Cut(window, limit, version) == Page(version, Reversed(latest), false, None)
    ensures |latest| > limit ==>
      var out := Reversed(latest[..limit]); Cut(window, limit, version) == Page(version, out, true, Some(out[0].date))
  {
    if |latest| > limit {
      assert Reversed(latest[..limit]) == window[|window| - limit..];
    } else {
      assert [] + Reversed(latest) == Reversed(latest);
    }
  }

  /** The page's bars in chronological order. */
  method Turned(latest: seq<Bar>) returns (out: seq<Bar>)
    ensures out == Reversed(latest)
  {
    out := [];
    for j := 0 to |latest|
      invariant out == Reversed(latest)[..j]
    {
      out := out + [latest[|latest| - 1 - j]];
    }
  }

  /** One page out of the bars: at most limit + 1 are collected from the newest down. */
  method Newest(bars: seq<Bar>, start: Option<int>, before: Option<int>, limit: nat, version: nat) returns (page: Page)
    requires limit >= 1
    ensures page == Cut(Filter(bars, Inside(start, before)), limit, version)
  {
    var latest, older := Collect(bars, start, before, limit);
    CutOfCollected(Filter(bars, Inside(start, before)), older, latest, limit, version);
    var hasMore := |latest| > limit;
    if hasMore {
      latest := latest[..limit];
    }
    var out := Turned(latest);
    page := Page(version, out, hasMore, if hasMore then Some(out[0].date) else None);
  }

  // ---------------------------------------------------------------- following the cursor

  /** Adjustment keeps the dates, so an answer is in date order. */
  lemma AnswerInOrder(c: Contents, q: Query)
    requires c.Valid() && Answer(c, q).Ok?
    ensures StrictlyBy(Answer(c, q).value, ByDate())
  {
    var s := c.Of(q.symbol);
    assert Keyed(s);
    var n := KnownIsPrefix(s.bars, q.end);
    var bars := Answer(c, q).value;
    forall i, j | 0 <= i < j < |bars| ensures ByDate()(bars[i]) < ByDate()(bars[j]) {
      assert bars[i].date == s.bars[i].date && bars[j].date == s.bars[j].date;
      assert ByDate()(s.bars[i]) < ByDate()(s.bars[j]);
    }
  }

  /** In date order a window is a stretch of the bars. */
  lemma WindowIsSlice(bars: seq<Bar>, start: Option<int>, before: Option<int>) returns (lo: nat, hi: nat)
    requires StrictlyBy(bars, ByDate())
    ensures lo <= hi <= |bars|
    ensures forall i :: 0 <= i < |bars| ==> (In(start, before, bars[i]) <==> lo <= i < hi)
    ensures Filter(bars, Inside(start, before)) == bars[lo..hi]
  {
    lo, hi := 0, |bars|;
    if start.Some? {
      lo := Rank(bars, start.value);
    }
    if before.Some? {
      hi := Rank(bars, before.value);
    }
    hi := if hi < lo then lo else hi;
    FilterSlice(bars, Inside(start, before), lo, hi);
  }

  /** The cursor of a page leaves exactly the bars older than the page. */
  lemma CursorLeavesTheRest(bars: seq<Bar>, start: Option<int>, before: Option<int>, limit: nat)
    requires StrictlyBy(bars, ByDate()) && limit >= 1
    requires limit < |Filter(bars, Inside(start, before))|
    ensures var w := Filter(bars, Inside(start, before));
      Filter(bars, Inside(start, Some(w[|w| - limit].date))) == w[..|w| - limit]
  {
    var lo, hi := WindowIsSlice(bars, start, before);
    var cut := hi - limit;
    assert bars[lo..hi][|bars[lo..hi]| - limit] == bars[cut];
    assert In(start, before, bars[lo]);
    forall i | 0 <= i < |bars| ensures In(start, Some(bars[cut].date), bars[i]) <==> lo <= i < cut {
      if i < cut {
        assert ByDate()(bars[i]) < ByDate()(bars[cut]);
        assert In(start, before, bars[i]) <==> lo <= i;
        assert before.Some? ==> bars[cut].date < before.value by {
          assert In(start, before, bars[cut]);
        }
      } else if cut < i {
        assert ByDate()(bars[cut]) < ByDate()(bars[i]);
      }
    }
    FilterSlice(bars, Inside(start, Some(bars[cut].date)), lo, cut);
    assert bars[lo..hi][..|bars[lo..hi]| - limit] == bars[lo..cut];
  }

  /** Pages read one after the other: each from the cursor of the one before, until none is left. */
  ghost predicate Followed(c: Contents, q: Query, before: Option<int>, pages: seq<Page>)
    decreases pages
  {
    && pages != []
    && PageAt(c, q, before, Some(c.revision)) == Ok(pages[0])
    && (if pages[0].hasMore then Followed(c, q, pages[0].nextBefore, pages[1..]) else |pages| == 1)
  }

  /** The pages put together, oldest bars first. */
  function Joined(pages: seq<Page>): seq<Bar> {
    if pages == [] then [] else Joined(pages[1..]) + pages[0].bars
  }

  /** Following the cursor to its end returns every bar of the window exactly once, in order, and each as the
      one-shot adjustment as of the end date has it. */
  lemma {:induction false} PagesAreTheAnswer(c: Contents, q: Query, before: Option<int>, pages: seq<Page>)
    requires c.Valid() && Followed(c, q, before, pages)
    ensures Answer(c, q).Ok?
    ensures Joined(pages) == Filter(Answer(c, q).value, Inside(q.start, before))
    decreases pages
  {
    AnswerInOrder(c, q);
    var w := Filter(Answer(c, q).value, Inside(q.start, before));
    assert pages == [pages[0]] + pages[1..];
    if pages[0].hasMore {
      CursorLeavesTheRest(Answer(c, q).value, q.start, before, q.limit);
      PagesAreTheAnswer(c, q, pages[0].nextBefore, pages[1..]);
    } else {
      assert Joined(pages[1..]) == [];
    }
  }

  /** The number of pages that n bars need. */
  function PagesFor(n: nat, limit: nat): nat
    requires limit >= 1
  {
    if n <= limit then 1 else 1 + PagesFor(n - limit, limit)
  }

  /** The cursor always comes to an end, after as many pages as the limit makes necessary and no more. */
  lemma {:induction false} FollowingEnds(c: Contents, q: Query, before: Option<int>) returns (pages: seq<Page>)
    requires c.Valid() && Wellformed(q) && Answer(c, q).Ok?
    ensures Followed(c, q, before, pages)
    ensures |pages| == PagesFor(|Filter(Answer(c, q).value, Inside(q.start, before))|, q.limit)
    decreases |Filter(Answer(c, q).value, Inside(q.start, before))|
  {
    var page := PageAt(c, q, before, Some(c.revision)).value;
    pages := [page];
    if page.hasMore {
      AnswerInOrder(c, q);
      CursorLeavesTheRest(Answer(c, q).value, q.start, before, q.limit);
      var rest := FollowingEnds(c, q, page.nextBefore);
      pages := [page] + rest;
      assert pages[1..] == rest;
    }
  }

  // ---------------------------------------------------------------- paging while the store changes

  datatype Refresh = Refresh(symbol: string, bars: seq<Bar>, actions: Option<seq<Action>>)

  function Replay(c: Contents, ups: seq<Refresh>): Contents
    decreases ups
  {
    if ups == [] then c else Replay(Upserted(c, ups[0].symbol, ups[0].bars, ups[0].actions), ups[1..])
  }

  lemma {:induction false} RevisionCounts(c: Contents, ups: seq<Refresh>)
    ensures Replay(c, ups).revision == c.revision + |ups|
    decreases ups
  {
    if ups != [] {
      RevisionCounts(Upserted(c, ups[0].symbol, ups[0].bars, ups[0].actions), ups[1..]);
    }
  }

  /** Pages read while commits happen in between, every page after the first naming the first one's version. */
  ghost predicate FollowedAcross(c: Contents, q: Query, before: Option<int>, version: nat,
                                 pages: seq<Page>, between: seq<seq<Refresh>>)
    decreases pages
  {
    && pages != [] && |between| == |pages|
    && var now := Replay(c, between[0]);
       && PageAt(now, q, before, Some(version)) == Ok(pages[0])
       && (if pages[0].hasMore then FollowedAcross(now, q, pages[0].nextBefore, version, pages[1..], between[1..])
           else |pages| == 1)
  }

  /** A paged read either meets ErrHistoryVersionChanged or is as if the store had stood still: pages that were
      all served under one version join to the answer at that version. */
  lemma {:induction false} PagingIsStable(c: Contents, q: Query, before: Option<int>,
                                         pages: seq<Page>, between: seq<seq<Refresh>>)
    requires c.Valid() && FollowedAcross(c, q, before, c.revision, pages, between)
    ensures Followed(c, q, before, pages)
    ensures Answer(c, q).Ok? && Joined(pages) == Filter(Answer(c, q).value, Inside(q.start, before))
    decreases pages
  {
    RevisionCounts(c, between[0]);
    assert between[0] == [];
    if pages[0].hasMore {
      PagingIsStable(c, q, pages[0].nextBefore, pages[1..], between[1..]);
    }
    PagesAreTheAnswer(c, q, before, pages);
  }

  lemma {:induction false} LaterBarsStayOut(bars: seq<Bar>, more: seq<Bar>, end: int)
    requires StrictlyBy(bars, ByDate())
    requires forall i :: 0 <= i < |more| ==> more[i].date > end
    ensures Filter(PutBars(bars, more), Known(end)) == Filter(bars, Known(end))
    decreases more
  {
    if more != [] {
      LaterBarStaysOut(bars, more[0], end);
      PutBarKeepsOrder(bars, more[0]);
      LaterBarsStayOut(PutBar(bars, more[0]), more[1..], end);
    }
  }

  lemma {:induction false} LaterBarStaysOut(bars: seq<Bar>, b: Bar, end: int)
    requires b.date > end
    ensures Filter(PutBar(bars, b), Known(end)) == Filter(bars, Known(end))
  {
    if bars == [] || b.date < bars[0].date {
      assert ([b] + bars)[1..] == bars;
    } else if b.date == bars[0].date {
      assert ([b] + bars[1..])[1..] == bars[1..];
    } else {
      LaterBarStaysOut(bars[1..], b, end);
    }
  }

  /** A refresh of another symbol, or one that brings only bars after `end` and, up to then, the same actions. */
  ghost predicate Later(u: Refresh, symbol: string, end: int, actions: seq<Action>) {
    u.symbol != symbol
    || ((forall i :: 0 <= i < |u.bars| ==> u.bars[i].date > end)
        && u.actions.Some?
        && Filter(PutActions([], u.actions.value), KnownAction(end)) == Filter(actions, KnownAction(end)))
  }

  lemma OneLater(c: Contents, q: Query, u: Refresh)
    requires c.Valid() && c.Of(q.symbol).checked && Later(u, q.symbol, q.end, c.Of(q.symbol).actions)
    ensures var d := Upserted(c, u.symbol, u.bars, u.actions);
      && d.Valid() && d.Of(q.symbol).checked && Answer(d, q) == Answer(c, q)
      && Filter(d.Of(q.symbol).actions, KnownAction(q.end)) == Filter(c.Of(q.symbol).actions, KnownAction(q.end))
  {
    assert Keyed(c.Of(q.symbol));
    UpsertKeepsKeys(c, u.symbol, u.bars, u.actions);
    if u.symbol == q.symbol {
      LaterBarsStayOut(c.Of(q.symbol).bars, u.bars, q.end);
    }
  }

  /** Commits for other symbols, and commits that add only bars and actions dated after `end`, however many and
      in whatever order, change no answer that ends there. */
  lemma {:induction false} AnswerIgnoresTheFuture(c: Contents, q: Query, ups: seq<Refresh>)
    requires c.Valid() && c.Of(q.symbol).checked
    requires forall i :: 0 <= i < |ups| ==> Later(ups[i], q.symbol, q.end, c.Of(q.symbol).actions)
    ensures Answer(Replay(c, ups), q) == Answer(c, q)
    decreases |ups|
  {
    if ups != [] {
      OneLater(c, q, ups[0]);
      var d := Upserted(c, ups[0].symbol, ups[0].bars, ups[0].actions);
      forall i | 0 <= i < |ups[1..]| ensures Later(ups[1..][i], q.symbol, q.end, d.Of(q.symbol).actions) {
        assert Later(ups[i + 1], q.symbol, q.end, c.Of(q.symbol).actions);
      }
      AnswerIgnoresTheFuture(d, q, ups[1..]);
    }
  }
}
