/** What adjusted prices are worth, in terms of the stored actions' own numbers (protocol/model_gbbq.go,
    extend/research/model.go): ten shares at a price, less the cash paid out, more what the rights cost, divided among
    the shares there are then. */
module ExRights {
  import opened AdjustedBars
  import opened AffineAdjust
  import opened Grouping
  import opened HistoryPaging
  import Klines
  import opened Results
  import opened Sorting

  /** v to two decimals, a half going away from zero. */
  ghost predicate ToCents(v: real, r: real) {
    var n := (r * 100.0).Floor; r * 100.0 == n as real && IsRounded(v * 100.0, n)
  }

  lemma HundredthsAreCents(v: real)
    ensures ToCents(v, Hundredths(v))
  {
    RoundIsRounded(v * 100.0);
  }

  /** The four terms of a category 1 action: cash paid, price of the rights, bonus shares and rights, on ten shares. */
  ghost predicate HasTerms(a: Action, cash: real, rightsPrice: real, bonus: real, rights: real) {
    ToCents(a.c1, cash) && ToCents(a.c2, rightsPrice) && ToCents(a.c3, bonus) && ToCents(a.c4, rights)
  }

  /** Ten shares at x, less the cash, more what the rights cost, are so many shares at y; if none are left, only the
      cash is taken off. */
  ghost predicate ExchangesFor(cash: real, rightsPrice: real, bonus: real, rights: real, x: real, y: real) {
    if 10.0 + bonus + rights == 0.0 then y == x - (cash - rights * rightsPrice) / 10.0
    else y * (10.0 + bonus + rights) == 10.0 * x - cash + rights * rightsPrice
  }

  /** y is the price of the day of the action that price x of the day before amounts to. */
  ghost predicate Exchanges(a: Action, x: real, y: real) {
    forall cash, rightsPrice, bonus, rights :: HasTerms(a, cash, rightsPrice, bonus, rights) ==>
      ExchangesFor(cash, rightsPrice, bonus, rights, x, y)
  }

  lemma OneRounding(v: real, r: real, s: real)
    requires ToCents(v, r) && ToCents(v, s)
    ensures r == s
  {
    RoundIsRounded(v * 100.0);
  }

  lemma TermsAreThese(a: Action, cash: real, rightsPrice: real, bonus: real, rights: real)
    ensures HasTerms(a, cash, rightsPrice, bonus, rights)
       <==> cash == Hundredths(a.c1) && rightsPrice == Hundredths(a.c2) && bonus == Hundredths(a.c3)
            && rights == Hundredths(a.c4)
  {
    HundredthsAreCents(a.c1);
    HundredthsAreCents(a.c2);
    HundredthsAreCents(a.c3);
    HundredthsAreCents(a.c4);
    if HasTerms(a, cash, rightsPrice, bonus, rights) {
      OneRounding(a.c1, cash, Hundredths(a.c1));
      OneRounding(a.c2, rightsPrice, Hundredths(a.c2));
      OneRounding(a.c3, bonus, Hundredths(a.c3));
      OneRounding(a.c4, rights, Hundredths(a.c4));
    }
  }

  lemma ExchangesByTerms(a: Action, x: real, y: real)
    ensures Exchanges(a, x, y)
       <==> ExchangesFor(Hundredths(a.c1), Hundredths(a.c2), Hundredths(a.c3), Hundredths(a.c4), x, y)
  {
    TermsAreThese(a, Hundredths(a.c1), Hundredths(a.c2), Hundredths(a.c3), Hundredths(a.c4));
    forall cash, rightsPrice, bonus, rights | HasTerms(a, cash, rightsPrice, bonus, rights)
      ensures cash == Hundredths(a.c1) && rightsPrice == Hundredths(a.c2) && bonus == Hundredths(a.c3)
              && rights == Hundredths(a.c4)
    {
      TermsAreThese(a, cash, rightsPrice, bonus, rights);
    }
  }

  lemma Divided(y: real, n: real, d: real)
    requires d != 0.0
    ensures y == n / d <==> y * d == n
  {
    var q := n / d;
    assert q * d == n;
    if y * d == n {
      assert (y - q) * d == 0.0;
    }
  }

  lemma TermsOfEvent(e: XRXD, n: real, d: real, x: real)
    requires d == 10.0 + e.songzhuangu + e.peigu && n == 10.0 * x - (e.fenhong - e.peigu * e.peigujia)
    ensures EventOf(e).m == if d == 0.0 then 1.0 else d / 10.0
    ensures x - EventOf(e).c == n / 10.0
  {
  }

  lemma ExPriceByTerms(e: XRXD, x: real, y: real)
    ensures y == ExPrice(EventOf(e), x) <==> ExchangesFor(e.fenhong, e.peigujia, e.songzhuangu, e.peigu, x, y)
  {
    var n, d := 10.0 * x - (e.fenhong - e.peigu * e.peigujia), 10.0 + e.songzhuangu + e.peigu;
    TermsOfEvent(e, n, d, x);
    if d != 0.0 {
      Tenths(n, d);
      Divided(y, n, d);
    }
  }

  /** The event of an action moves prices as the action says. */
  lemma EventExchanges(a: Action, x: real, y: real)
    ensures Exchanges(a, x, y) <==> y == ExPrice(EventOf(ExDayOf(a)), x)
  {
    ExchangesByTerms(a, x, y);
    ExPriceByTerms(ExDayOf(a), x, y);
  }

  /** xs are the prices one amounts to after each of some actions, the first of them that price itself. */
  ghost predicate CarriedThrough(es: seq<Action>, xs: seq<real>) {
    |xs| == |es| + 1 && forall i :: 0 <= i < |es| ==> Exchanges(es[i], xs[i], xs[i + 1])
  }

  function ByDay(): Action -> int { (a: Action) => a.date }

  /** es are the actions of category 1 after one day and up to another, oldest first. */
  ghost predicate ActionsBetween(es: seq<Action>, actions: seq<Action>, lo: int, hi: int) {
    && StrictlyBy(es, ByDay())
    && forall a :: a in es <==> a in actions && a.category == 1 && lo < a.date <= hi
  }

  function EventsOf(es: seq<Action>): (r: seq<Event>)
    ensures |r| == |es|
  {
    seq(|es|, i requires 0 <= i < |es| => EventOf(ExDayOf(es[i])))
  }

  lemma {:induction false} CarriedIsThrough(es: seq<Action>, xs: seq<real>)
    requires CarriedThrough(es, xs)
    ensures Through(EventsOf(es), xs[0]) == xs[|es|]
  {
    if es != [] {
      EventExchanges(es[0], xs[0], xs[1]);
      assert EventsOf(es)[1..] == EventsOf(es[1..]);
      forall i | 0 <= i < |es[1..]| ensures Exchanges(es[1..][i], xs[1..][i], xs[1..][i + 1]) {
        assert Exchanges(es[i + 1], xs[i + 1], xs[i + 2]);
      }
      CarriedIsThrough(es[1..], xs[1..]);
    }
  }

  lemma {:induction false} SomeCarriage(es: seq<Action>, x: real) returns (xs: seq<real>)
    ensures CarriedThrough(es, xs) && xs[0] == x
  {
    xs := [x];
    if es != [] {
      var y := ExPrice(EventOf(ExDayOf(es[0])), x);
      EventExchanges(es[0], x, y);
      var rest := SomeCarriage(es[1..], y);
      xs := [x] + rest;
    }
  }

  lemma ExDayIsEvent(es: seq<Action>, actions: seq<Action>, asOf: int, lo: int, hi: int, x: XRXD)
    requires ActionsBetween(es, actions, lo, hi) && x in ExDays(Filter(actions, KnownAction(asOf)))
    requires lo < x.time <= hi
    ensures EventOf(x) in EventsOf(es)
  {
    ExDaysMembers(Filter(actions, KnownAction(asOf)));
    FilterMembers(actions, KnownAction(asOf));
    var a :| a in Filter(actions, KnownAction(asOf)) && a.category == 1 && x == ExDayOf(a);
    assert a in es;
    var i :| 0 <= i < |es| && es[i] == a;
    assert EventsOf(es)[i] == EventOf(x);
  }

  lemma EventsOfActions(es: seq<Action>, actions: seq<Action>, asOf: int, lo: int, hi: int)
    requires ActionsBetween(es, actions, lo, hi) && hi <= asOf
    ensures EventsBetween(EventsOf(es), ExDays(Filter(actions, KnownAction(asOf))), lo, hi)
  {
    var xs, events := ExDays(Filter(actions, KnownAction(asOf))), EventsOf(es);
    ExDaysMembers(Filter(actions, KnownAction(asOf)));
    FilterMembers(actions, KnownAction(asOf));
    forall e ensures e in events <==> exists x :: x in xs && lo < x.time <= hi && e == EventOf(x) {
      if e in events {
        var i :| 0 <= i < |events| && events[i] == e;
        assert es[i] in es;
        assert ExDayOf(es[i]) in xs;
      }
      if x :| x in xs && lo < x.time <= hi && e == EventOf(x) {
        ExDayIsEvent(es, actions, asOf, lo, hi, x);
      }
    }
    forall i, j | 0 <= i < j < |events| ensures ByExDay()(events[i]) < ByExDay()(events[j]) {
      assert ByDay()(es[i]) < ByDay()(es[j]);
    }
  }

  /** A price in milli-yuan is the one x yuan are rounded to: to the cent, for a fund to the milli-yuan. */
  ghost predicate RoundedPrice(x: real, price: int, fund: bool) {
    if fund then IsRounded(x * 1000.0, price) else price % 10 == 0 && IsRounded(x * 100.0, price / 10)
  }

  /** A price of the day before the actions, in milli-yuan, and what it becomes. */
  ghost predicate ForwardAdjusted(es: seq<Action>, raw: int, price: int, fund: bool) {
    forall xs :: CarriedThrough(es, xs) && xs[0] * 1000.0 == raw as real ==> RoundedPrice(xs[|es|], price, fund)
  }

  /** A price of the day after the actions, and what it would have been before them. */
  ghost predicate BackAdjusted(es: seq<Action>, raw: int, price: int, fund: bool) {
    forall xs :: CarriedThrough(es, xs) && xs[|es|] * 1000.0 == raw as real ==> RoundedPrice(xs[0], price, fund)
  }

  lemma PriceIsRounded(f: Affine, raw: int, x: real, fund: bool)
    requires Apply(f, Klines.Yuan(raw)) == x
    ensures RoundedPrice(x, if fund then FundPrice(f, raw) else AdjustedPrice(f, raw), fund)
  {
    RoundIsRounded(x * 1000.0);
    RoundIsRounded(x * 100.0);
  }

  lemma ForwardPrice(es: seq<Action>, f: Affine, raw: int, fund: bool)
    requires forall p :: Apply(f, p) == Through(EventsOf(es), p)
    ensures ForwardAdjusted(es, raw, if fund then FundPrice(f, raw) else AdjustedPrice(f, raw), fund)
  {
    forall xs | CarriedThrough(es, xs) && xs[0] * 1000.0 == raw as real
      ensures RoundedPrice(xs[|es|], if fund then FundPrice(f, raw) else AdjustedPrice(f, raw), fund)
    {
      CarriedIsThrough(es, xs);
      PriceIsRounded(f, raw, xs[|es|], fund);
    }
  }

  lemma BackPrice(es: seq<Action>, f: Affine, raw: int, fund: bool)
    requires forall p :: Apply(f, Through(EventsOf(es), p)) == p
    ensures BackAdjusted(es, raw, if fund then FundPrice(f, raw) else AdjustedPrice(f, raw), fund)
  {
    forall xs | CarriedThrough(es, xs) && xs[|es|] * 1000.0 == raw as real
      ensures RoundedPrice(xs[0], if fund then FundPrice(f, raw) else AdjustedPrice(f, raw), fund)
    {
      CarriedIsThrough(es, xs);
      assert Apply(f, Klines.Yuan(raw)) == xs[0];
      PriceIsRounded(f, raw, xs[0], fund);
    }
  }

  // ---------------------------------------------------------------- whole answers

  /** b is a bar up to a date, and z the latest such bar. */
  ghost predicate KnownWithLatest(bars: seq<Bar>, asOf: int, b: Bar, z: Bar) {
    && b in bars && b.date <= asOf && z in bars && z.date <= asOf
    && forall x :: x in bars && x.date <= asOf ==> x.date <= z.date
  }

  ghost predicate KnownWithFirst(bars: seq<Bar>, b: Bar, a: Bar) {
    b in bars && a in bars && forall x :: x in bars ==> a.date <= x.date
  }

  /** Place of a known bar, and that the last place is the latest's and the first place the first's. */
  lemma PlaceOfKnown(bars: seq<Bar>, asOf: int, b: Bar) returns (known: seq<Bar>, i: nat)
    requires StrictlyBy(bars, ByDate()) && b in bars && b.date <= asOf
    ensures known == Filter(bars, Known(asOf)) && i < |known| && known[i] == b && StrictlyBy(known, ByDate())
    ensures forall x :: x in known <==> x in bars && x.date <= asOf
  {
    known := Filter(bars, Known(asOf));
    FilterMembers(bars, Known(asOf));
    i :| i < |known| && known[i] == b;
    var n := KnownIsPrefix(bars, asOf);
    forall j, k | 0 <= j < k < |known| ensures ByDate()(known[j]) < ByDate()(known[k]) {
      assert ByDate()(bars[j]) < ByDate()(bars[k]);
    }
  }

  lemma LastIs(known: seq<Bar>, z: Bar)
    requires StrictlyBy(known, ByDate()) && z in known && forall x :: x in known ==> x.date <= z.date
    ensures known[|known| - 1].date == z.date
  {
    var l := known[|known| - 1];
    assert l in known;
    var k :| 0 <= k < |known| && known[k] == z;
    assert k < |known| - 1 ==> ByDate()(known[k]) < ByDate()(l);
  }

  lemma FirstIs(known: seq<Bar>, a: Bar)
    requires StrictlyBy(known, ByDate()) && a in known && forall x :: x in known ==> a.date <= x.date
    ensures known[0].date == a.date
  {
    assert known[0] in known;
    var k :| 0 <= k < |known| && known[k] == a;
    assert k > 0 ==> ByDate()(known[0]) < ByDate()(known[k]);
  }

  /** The forward factor of a day carries prices through the actions after it. */
  lemma ForwardFactor(known: seq<Bar>, actions: seq<Action>, asOf: int, i: nat, es: seq<Action>)
    requires StrictlyBy(known, ByDate()) && OneActionPerKey(actions) && i < |known| && known[|known| - 1].date <= asOf
    requires ActionsBetween(es, actions, known[i].date, known[|known| - 1].date)
    ensures var f := FactorsOf(KlinesOf(known), ExDays(Filter(actions, KnownAction(asOf))))[i].qfq;
      forall p :: Apply(f, p) == Through(EventsOf(es), p)
  {
    var days, xs := KlinesOf(known), ExDays(Filter(actions, KnownAction(asOf)));
    KlinesInOrder(known);
    FilteredKeys(actions, asOf);
    ExDaysAreDistinct(Filter(actions, KnownAction(asOf)));
    EventsOfActions(es, actions, asOf, known[i].date, known[|known| - 1].date);
    forall p ensures Apply(FactorsOf(days, xs)[i].qfq, p) == Through(EventsOf(es), p) {
      QfqIsThroughLaterEvents(days, xs, i, EventsOf(es), p);
    }
  }

  /** The back factor of a day undoes the actions up to it. */
  lemma BackFactor(known: seq<Bar>, actions: seq<Action>, asOf: int, i: nat, es: seq<Action>)
    requires StrictlyBy(known, ByDate()) && OneActionPerKey(actions) && i < |known| && known[i].date <= asOf
    requires ActionsBetween(es, actions, known[0].date, known[i].date)
    ensures var f := FactorsOf(KlinesOf(known), ExDays(Filter(actions, KnownAction(asOf))))[i].hfq;
      forall p :: Apply(f, Through(EventsOf(es), p)) == p
  {
    var days, xs := KlinesOf(known), ExDays(Filter(actions, KnownAction(asOf)));
    KlinesInOrder(known);
    FilteredKeys(actions, asOf);
    ExDaysAreDistinct(Filter(actions, KnownAction(asOf)));
    EventsOfActions(es, actions, asOf, known[0].date, known[i].date);
    forall p ensures Apply(FactorsOf(days, xs)[i].hfq, Through(EventsOf(es), p)) == p {
      HfqInvertsEarlierEvents(days, xs, i, EventsOf(es), p);
    }
  }

  /** Out is bar b with each of its prices adjusted through es. */
  ghost predicate BarForward(es: seq<Action>, b: Bar, out: Bar, fund: bool) {
    && ForwardAdjusted(es, b.open, out.open, fund) && ForwardAdjusted(es, b.high, out.high, fund)
    && ForwardAdjusted(es, b.low, out.low, fund) && ForwardAdjusted(es, b.close, out.close, fund)
    && out == b.(open := out.open, high := out.high, low := out.low, close := out.close)
  }

  ghost predicate BarBack(es: seq<Action>, b: Bar, out: Bar, fund: bool) {
    && BackAdjusted(es, b.open, out.open, fund) && BackAdjusted(es, b.high, out.high, fund)
    && BackAdjusted(es, b.low, out.low, fund) && BackAdjusted(es, b.close, out.close, fund)
    && out == b.(open := out.open, high := out.high, low := out.low, close := out.close)
  }

  lemma AdjustedForward(es: seq<Action>, b: Bar, f: Affine, fund: bool)
    requires forall p :: Apply(f, p) == Through(EventsOf(es), p)
    ensures BarForward(es, b, AdjustedBar(b, f, fund), fund)
  {
    ForwardPrice(es, f, b.open, fund);
    ForwardPrice(es, f, b.high, fund);
    ForwardPrice(es, f, b.low, fund);
    ForwardPrice(es, f, b.close, fund);
  }

  lemma AdjustedBack(es: seq<Action>, b: Bar, f: Affine, fund: bool)
    requires forall p :: Apply(f, Through(EventsOf(es), p)) == p
    ensures BarBack(es, b, AdjustedBar(b, f, fund), fund)
  {
    BackPrice(es, f, b.open, fund);
    BackPrice(es, f, b.high, fund);
    BackPrice(es, f, b.low, fund);
    BackPrice(es, f, b.close, fund);
  }

  /** Forward adjustment as of a date: each stored bar up to it comes out with its prices carried through the category 1
      actions after its day and not after the latest bar's, in date order, and rounded. */
  lemma ForwardByTheActions(bars: seq<Bar>, actions: seq<Action>, asOf: int, fund: bool, b: Bar, z: Bar,
                            es: seq<Action>)
    returns (i: nat)
    requires StrictlyBy(bars, ByDate()) && OneActionPerKey(actions) && KnownWithLatest(bars, asOf, b, z)
    requires ActionsBetween(es, actions, b.date, z.date) && AdjustedAsOf(bars, actions, QFQ, asOf, fund).Ok?
    ensures var out := AdjustedAsOf(bars, actions, QFQ, asOf, fund).value;
      i < |out| && BarForward(es, b, out[i], fund)
  {
    var known;
    known, i := PlaceOfKnown(bars, asOf, b);
    LastIs(known, z);
    ForwardFactor(known, actions, asOf, i, es);
    AdjustedForward(es, b, FactorsOf(KlinesOf(known), ExDays(Filter(actions, KnownAction(asOf))))[i].qfq, fund);
  }

  /** Back adjustment as of a date: each stored bar up to it comes out at the prices that the category 1 actions after
      the first bar's day and not after its own would carry to its own, rounded. */
  lemma BackByTheActions(bars: seq<Bar>, actions: seq<Action>, asOf: int, fund: bool, b: Bar, a: Bar,
                         es: seq<Action>)
    returns (i: nat)
    requires StrictlyBy(bars, ByDate()) && OneActionPerKey(actions) && b.date <= asOf && KnownWithFirst(bars, b, a)
    requires ActionsBetween(es, actions, a.date, b.date) && AdjustedAsOf(bars, actions, HFQ, asOf, fund).Ok?
    ensures var out := AdjustedAsOf(bars, actions, HFQ, asOf, fund).value;
      i < |out| && BarBack(es, b, out[i], fund)
  {
    var known;
    known, i := PlaceOfKnown(bars, asOf, b);
    FirstIs(known, a);
    BackFactor(known, actions, asOf, i, es);
    AdjustedBack(es, b, FactorsOf(KlinesOf(known), ExDays(Filter(actions, KnownAction(asOf))))[i].hfq, fund);
  }

  /** Without an action of category 1 in between, a price that needs no rounding stays. */
  lemma NothingHappened(raw: int, price: int, fund: bool)
    requires ForwardAdjusted([], raw, price, fund) || BackAdjusted([], raw, price, fund)
    requires fund || raw % 10 == 0
    ensures price == raw
  {
    var x := raw as real / 1000.0;
    assert CarriedThrough([], [x]);
    RoundIsRounded(x * 1000.0);
    RoundIsRounded(x * 100.0);
    assert IsRounded(x * 1000.0, raw) && (raw % 10 == 0 ==> IsRounded(x * 100.0, raw / 10));
  }
}
