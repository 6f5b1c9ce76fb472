/** Intraday trades to one-minute bars (protocol/model_trade.go): 241 bars a day on a fixed grid. */
module TradeBars {
  import opened Calendar
  import opened Grouping
  import opened Klines
  import opened Sorting

  /** A trade happens in some minute of some day; prices are milli-yuan, volumes lots. */
  datatype Trade = Trade(day: int, minute: Minute, price: int, volume: int, number: int)

  type Minute = m: int | 0 <= m < 1440

  const SLOTS: nat := 241

  /** Grid point i: 9:30 to 11:30, then 13:01 to 15:00. */
  function GridMinute(i: nat): int { if i <= 120 then 570 + i else 660 + i }

  function Grid(): (g: seq<int>)
    ensures |g| == SLOTS
  {
    seq(SLOTS, i requires 0 <= i < SLOTS => GridMinute(i))
  }

  /** The grid minute a trade is booked to: the end of its minute, with the opening auction at 9:30,
      the lunch break at 11:30 and everything late at 15:00. */
  function Slot(minute: Minute): int {
    var t := (if minute < 569 then 569 else minute) + 1;
    var t := if t > 690 && t <= 780 then 690 else t;
    if t > 900 then 900 else t
  }

  function SlotOf(): Trade -> int { (t: Trade) => Slot(t.minute) }
  function DayOf(): Trade -> int { (t: Trade) => t.day }
  function Itself(): int -> int { (d: int) => d }

  lemma GridIsDistinct()
    ensures forall i, j :: 0 <= i < j < SLOTS ==> Grid()[i] < Grid()[j]
  {
  }

  /** Every minute of the day is booked to exactly one grid point: within a session to its own end, the opening auction
      to 9:30, the lunch break to 11:30, and what is late to 15:00. */
  lemma EverySlotIsOnTheGrid(minute: Minute)
    ensures Slot(minute) in Grid()
    ensures 570 <= minute < 690 || 780 <= minute < 900 ==> Slot(minute) == minute + 1
    ensures minute < 570 ==> Slot(minute) == 570
    ensures 690 <= minute < 780 ==> Slot(minute) == 690
    ensures 900 <= minute ==> Slot(minute) == 900
  {
    var s := Slot(minute);
    var i := if s <= 690 then s - 570 else s - 660;
    assert 0 <= i < SLOTS && Grid()[i] == s;
  }

  /** What the bars are about: trades at a positive price. */
  function Priced(ts: seq<Trade>): seq<Trade> {
    if ts == [] then [] else (if ts[0].price > 0 then [ts[0]] else []) + Priced(ts[1..])
  }

  function HighestPrice(ts: seq<Trade>): int
    requires ts != []
  {
    if |ts| == 1 then ts[0].price else Max(HighestPrice(ts[..|ts| - 1]), ts[|ts| - 1].price)
  }

  function LowestPrice(ts: seq<Trade>): int
    requires ts != []
  {
    if |ts| == 1 then ts[0].price else Min(LowestPrice(ts[..|ts| - 1]), ts[|ts| - 1].price)
  }

  function Lots(): Trade -> int { (t: Trade) => if t.price > 0 then t.volume else 0 }
  function Orders(): Trade -> int { (t: Trade) => if t.price > 0 then t.number else 0 }
  function Turnover(): Trade -> int { (t: Trade) => if t.price > 0 then t.price * t.volume * 100 else 0 }

  function Sum(ts: seq<Trade>, w: Trade -> int): int { Total(ts, w, AddInt(), 0) }

  /** The bar of one group of trades: a flat bar at `last` unless some trade has a price. */
  function TradeBar(ts: seq<Trade>, time: int, last: int): Kline {
    var ps := Priced(ts);
    if ps == [] then Kline(last, last, last, last, last, 0, 0, 0, time, 0, 0)
    else Kline(last, ps[0].price, HighestPrice(ps), LowestPrice(ps), ps[|ps| - 1].price,
               Sum(ts, Orders()), Sum(ts, Lots()), Sum(ts, Turnover()), time, 0, 0)
  }

  lemma {:induction false} PricedConcat(xs: seq<Trade>, ys: seq<Trade>)
    ensures Priced(xs + ys) == Priced(xs) + Priced(ys)
  {
    if xs == [] {
      assert xs + ys == ys;
    } else {
      assert (xs + ys)[1..] == xs[1..] + ys;
      PricedConcat(xs[1..], ys);
    }
  }

  lemma {:induction false} SumConcat(xs: seq<Trade>, ys: seq<Trade>, w: Trade -> int)
    ensures Sum(xs + ys, w) == Sum(xs, w) + Sum(ys, w)
  {
    if xs == [] {
      assert xs + ys == ys;
    } else {
      assert (xs + ys)[1..] == xs[1..] + ys;
      SumConcat(xs[1..], ys, w);
    }
  }

  lemma SumOfOne(t: Trade, w: Trade -> int)
    ensures Sum([t], w) == w(t)
  {
    assert [t][1..] == [];
    assert Total([t], w, AddInt(), 0) == AddInt()(w(t), Total([], w, AddInt(), 0));
  }

  lemma {:induction false} UnpricedWeighNothing(ts: seq<Trade>)
    requires Priced(ts) == []
    ensures Sum(ts, Lots()) == 0 && Sum(ts, Orders()) == 0 && Sum(ts, Turnover()) == 0
  {
    if ts != [] {
      UnpricedWeighNothing(ts[1..]);
    }
  }

  lemma PricedSnoc(ts: seq<Trade>, v: Trade)
    ensures Priced(ts + [v]) == if v.price > 0 then Priced(ts) + [v] else Priced(ts)
  {
    PricedConcat(ts, [v]);
    assert Priced([v]) == if v.price > 0 then [v] else [] by { assert [v][1..] == []; }
    assert Priced(ts) + [] == Priced(ts);
  }

  lemma OneMoreTrade(ts: seq<Trade>, v: Trade)
    ensures Priced(ts + [v]) == if v.price > 0 then Priced(ts) + [v] else Priced(ts)
    ensures Sum(ts + [v], Lots()) == Sum(ts, Lots()) + Lots()(v)
    ensures Sum(ts + [v], Orders()) == Sum(ts, Orders()) + Orders()(v)
    ensures Sum(ts + [v], Turnover()) == Sum(ts, Turnover()) + Turnover()(v)
  {
    PricedSnoc(ts, v);
    SumConcat(ts, [v], Lots());
    SumConcat(ts, [v], Orders());
    SumConcat(ts, [v], Turnover());
    SumOfOne(v, Lots());
    SumOfOne(v, Orders());
    SumOfOne(v, Turnover());
  }

  lemma NextPriced(ts: seq<Trade>, v: Trade, time: int, last: int, k: Kline)
    requires k == TradeBar(ts, time, last) && v.price > 0 && Priced(ts) != []
    ensures TradeBar(ts + [v], time, last) ==
      Kline(last, k.open, Max(k.high, v.price), Min(k.low, v.price), v.price,
            k.order + v.number, k.volume + v.volume, k.amount + v.price * v.volume * 100, time, 0, 0)
  {
    OneMoreTrade(ts, v);
    var ps := Priced(ts);
    assert (ps + [v])[..|ps|] == ps;
  }

  lemma FirstPriced(ts: seq<Trade>, v: Trade, time: int, last: int)
    requires v.price > 0 && Priced(ts) == []
    ensures TradeBar(ts + [v], time, last) ==
      Kline(last, v.price, v.price, v.price, v.price, v.number, v.volume, v.price * v.volume * 100, time, 0, 0)
  {
    OneMoreTrade(ts, v);
    UnpricedWeighNothing(ts);
  }

  lemma NotPriced(ts: seq<Trade>, v: Trade, time: int, last: int)
    requires v.price <= 0
    ensures TradeBar(ts + [v], time, last) == TradeBar(ts, time, last)
  {
    OneMoreTrade(ts, v);
  }

  lemma NextTradeBar(ts: seq<Trade>, v: Trade, time: int, last: int, k: Kline)
    requires k == TradeBar(ts, time, last)
    ensures |Priced(ts + [v])| == |Priced(ts)| + (if v.price > 0 then 1 else 0)
    ensures TradeBar(ts + [v], time, last) ==
      if v.price <= 0 then k
      else if Priced(ts) == [] then Kline(last, v.price, v.price, v.price, v.price, v.number, v.volume,
                                         v.price * v.volume * 100, time, 0, 0)
      else Kline(last, k.open, Max(k.high, v.price), Min(k.low, v.price), v.price,
                 k.order + v.number, k.volume + v.volume, k.amount + v.price * v.volume * 100, time, 0, 0)
  {
    PricedSnoc(ts, v);
    if v.price <= 0 {
      NotPriced(ts, v, time, last);
    } else if Priced(ts) == [] {
      FirstPriced(ts, v, time, last);
    } else {
      NextPriced(ts, v, time, last, k);
    }
  }

  /** Trades.Kline. */
  method BarOfTrades(ts: seq<Trade>, time: int, last: int) returns (k: Kline)
    ensures k == TradeBar(ts, time, last)
  {
    k := Kline(last, last, last, last, last, 0, 0, 0, time, 0, 0);
    var first := 0;
    for i := 0 to |ts|
      invariant first == |Priced(ts[..i])|
      invariant k == TradeBar(ts[..i], time, last)
    {
      var v := ts[i];
      NextTradeBar(ts[..i], v, time, last, k);
      assert ts[..i + 1] == ts[..i] + [v];
      if v.price <= 0 {
        continue;
      }
      if first == 0 {
        k := k.(open := v.price, high := v.price, low := v.price, close := v.price);
      } else {
        k := k.(high := Max(k.high, v.price), low := Min(k.low, v.price));
      }
      k := k.(close := v.price, volume := k.volume + v.volume, order := k.order + v.number,
              amount := k.amount + v.price * v.volume * 100);
      first := first + 1;
    }
    assert ts[..|ts|] == ts;
  }

  /** The first positive price of the day, which the bars before the first trade are flat at. */
  function FirstPrice(ts: seq<Trade>): int {
    if Priced(ts) == [] then 0 else Priced(ts)[0].price
  }

  /** The day's bars at the given grid points, when the bar before closed at `open`. */
  function BarsAt(ts: seq<Trade>, day: int, keys: seq<int>, open: int): seq<Kline> {
    if keys == [] then []
    else
      var k := TradeBar(Pick(ts, SlotOf(), keys[0]), day * DAY + keys[0] * 60, open);
      [k] + BarsAt(ts, day, keys[1..], k.close)
  }

  function DayBars(ts: seq<Trade>, day: int): seq<Kline> { BarsAt(ts, day, Grid(), FirstPrice(ts)) }

  lemma NextBar(ts: seq<Trade>, day: int, keys: seq<int>, i: nat, open: int, k: Kline) returns (tail: seq<Kline>)
    requires i < |keys| && k == TradeBar(Pick(ts, SlotOf(), keys[i]), day * DAY + keys[i] * 60, open)
    ensures tail == BarsAt(ts, day, keys[i + 1..], k.close)
    ensures BarsAt(ts, day, keys[i..], open) == [k] + tail
  {
    tail := BarsAt(ts, day, keys[i + 1..], k.close);
    assert keys[i..][1..] == keys[i + 1..];
  }

  /** The grid in order, and an empty group for each grid point. */
  method EmptyGrid() returns (keys: seq<int>, m: map<int, seq<Trade>>)
    ensures keys == Grid()
    ensures forall k :: k in m <==> k in keys
    ensures forall k :: k in m ==> m[k] == []
  {
    keys, m := [], map[];
    for i := 0 to 121
      invariant keys == Grid()[..i]
      invariant forall k :: k in m <==> k in keys
      invariant forall k :: k in m ==> m[k] == []
    {
      keys, m := keys + [570 + i], m[570 + i := []];
    }
    for i := 1 to 121
      invariant keys == Grid()[..120 + i]
      invariant forall k :: k in m <==> k in keys
      invariant forall k :: k in m ==> m[k] == []
    {
      keys, m := keys + [780 + i], m[780 + i := []];
    }
  }

  method OpeningPrice(ts: seq<Trade>) returns (open: int)
    ensures open == FirstPrice(ts)
  {
    open := 0;
    for i := 0 to |ts|
      invariant open == 0 && Priced(ts[..i]) == []
    {
      PricedConcat(ts[..i], [ts[i]]);
      assert ts[..i + 1] == ts[..i] + [ts[i]];
      if ts[i].price > 0 {
        PricedConcat(ts[..i] + [ts[i]], ts[i + 1..]);
        assert ts == ts[..i] + [ts[i]] + ts[i + 1..];
        return ts[i].price;
      }
    }
    assert ts[..|ts|] == ts;
  }

  method GroupBySlot(ts: seq<Trade>, empty: map<int, seq<Trade>>) returns (m: map<int, seq<Trade>>)
    requires forall k :: k in empty <==> k in Grid()
    requires forall k :: k in empty ==> empty[k] == []
    ensures m.Keys == empty.Keys
    ensures forall k :: k in m ==> m[k] == Pick(ts, SlotOf(), k)
  {
    m := empty;
    for i := 0 to |ts|
      invariant m.Keys == empty.Keys
      invariant forall k :: k in m ==> m[k] == Pick(ts[..i], SlotOf(), k)
    {
      var v := ts[i];
      var t := if v.minute < 569 then 569 else v.minute;
      t := t + 1;
      t := if t > 690 && t <= 780 then 690 else t;
      t := if t > 900 then 900 else t;
      EverySlotIsOnTheGrid(v.minute);
      assert ts[..i + 1] == ts[..i] + [v];
      forall k | k in m ensures Pick(ts[..i + 1], SlotOf(), k) == m[k] + if k == t then [v] else [] {
        PickConcat(ts[..i], [v], SlotOf(), k);
      }
      m := m[t := m[t] + [v]];
    }
    assert ts[..|ts|] == ts;
  }

  /** The grouped trades to bars, each starting from the close of the one before. */
  method Chain(ghost ts: seq<Trade>, day: int, keys: seq<int>, m: map<int, seq<Trade>>, first: int)
    returns (ls: seq<Kline>)
    requires forall k :: k in keys ==> k in m && m[k] == Pick(ts, SlotOf(), k)
    ensures ls == BarsAt(ts, day, keys, first)
  {
    var open := first;
    ls := [];
    for i := 0 to |keys|
      invariant ls + BarsAt(ts, day, keys[i..], open) == BarsAt(ts, day, keys, first)
    {
      var k := BarOfTrades(m[keys[i]], day * DAY + keys[i] * 60, open);
      ghost var tail := NextBar(ts, day, keys, i, open, k);
      assert ls + ([k] + tail) == ls + [k] + tail;
      open := k.close;
      ls := ls + [k];
    }
  }

  /** Trades.klinesForDay. */
  method KlinesForDay(ts: seq<Trade>, day: int) returns (ls: seq<Kline>)
    ensures ls == DayBars(ts, day)
  {
    var keys, empty := EmptyGrid();
    var open := OpeningPrice(ts);
    var m := GroupBySlot(ts, empty);
    ls := Chain(ts, day, keys, m, open);
  }

  lemma {:induction false} PriceRange(ts: seq<Trade>)
    requires ts != []
    ensures forall t :: t in ts ==> LowestPrice(ts) <= t.price <= HighestPrice(ts)
  {
    if |ts| > 1 {
      var rest, z := ts[..|ts| - 1], ts[|ts| - 1];
      PriceRange(rest);
      assert ts == rest + [z];
      assert forall t :: t in ts ==> t in rest || t == z;
    }
  }

  lemma {:induction false} PricesOccur(ts: seq<Trade>) returns (hi: nat, lo: nat)
    requires ts != []
    ensures hi < |ts| && ts[hi].price == HighestPrice(ts)
    ensures lo < |ts| && ts[lo].price == LowestPrice(ts)
  {
    hi, lo := |ts| - 1, |ts| - 1;
    if |ts| > 1 {
      var front := ts[..|ts| - 1];
      var h, l := PricesOccur(front);
      hi := if HighestPrice(front) < ts[hi].price then hi else h;
      lo := if LowestPrice(front) > ts[lo].price then lo else l;
    }
  }

  lemma {:induction false} PricedMembers(ts: seq<Trade>)
    ensures forall t :: t in Priced(ts) <==> t in ts && t.price > 0
  {
    if ts != [] {
      PricedMembers(ts[1..]);
      assert forall t :: t in ts <==> t == ts[0] || t in ts[1..];
    }
  }

  lemma {:induction false} PricedStart(ts: seq<Trade>) returns (a: nat)
    requires Priced(ts) != []
    ensures a < |ts| && Priced(ts)[0] == ts[a] && ts[a].price > 0 && forall j :: 0 <= j < a ==> ts[j].price <= 0
  {
    a := 0;
    if ts[0].price <= 0 {
      var b := PricedStart(ts[1..]);
      a := b + 1;
      assert forall j :: 0 < j < a ==> ts[j] == ts[1..][j - 1];
    }
  }

  lemma {:induction false} PricedEnd(ts: seq<Trade>) returns (z: nat)
    requires Priced(ts) != []
    ensures z < |ts| && Priced(ts)[|Priced(ts)| - 1] == ts[z] && ts[z].price > 0
    ensures forall j :: z < j < |ts| ==> ts[j].price <= 0
  {
    var front, v := ts[..|ts| - 1], ts[|ts| - 1];
    z := |ts| - 1;
    PricedSnoc(front, v);
    assert ts == front + [v];
    if v.price <= 0 {
      z := PricedEnd(front);
      assert forall j :: z < j < |front| ==> ts[j] == front[j];
    }
  }

  /** The bar of trades one of which has a price: it opens at the first of those that have, closes at the last, and
      its high and low are bounds of theirs that some of them attain. */
  lemma BarOfPriced(ts: seq<Trade>, time: int, last: int) returns (a: nat, z: nat, hi: Trade, lo: Trade)
    requires exists i :: 0 <= i < |ts| && ts[i].price > 0
    ensures a < |ts| && ts[a].price > 0 && forall j :: 0 <= j < a ==> ts[j].price <= 0
    ensures z < |ts| && ts[z].price > 0 && forall j :: z < j < |ts| ==> ts[j].price <= 0
    ensures hi in ts && hi.price > 0 && lo in ts && lo.price > 0
    ensures forall t :: t in ts && t.price > 0 ==> lo.price <= t.price <= hi.price
    ensures var k := TradeBar(ts, time, last);
      k.open == ts[a].price && k.close == ts[z].price && k.high == hi.price && k.low == lo.price && k.last == last
  {
    var i :| 0 <= i < |ts| && ts[i].price > 0;
    PricedMembers(ts);
    assert ts[i] in Priced(ts);
    a := PricedStart(ts);
    z := PricedEnd(ts);
    var h, l := PricesOccur(Priced(ts));
    hi, lo := Priced(ts)[h], Priced(ts)[l];
    PriceRange(Priced(ts));
  }

  ghost predicate Flat(k: Kline, last: int) {
    k.open == last && k.high == last && k.low == last && k.close == last && k.volume == 0 && k.amount == 0
  }

  /** A bar of the group g: stamped, sound, continuing from `last`, and flat there if nothing in g has a price. */
  ghost predicate Fits(k: Kline, g: seq<Trade>, time: int, last: int) {
    && k.time == time && k.last == last && Sound(k)
    && (Priced(g) == [] ==> Flat(k, last))
  }

  lemma TradeBarFits(g: seq<Trade>, time: int, last: int)
    ensures Fits(TradeBar(g, time, last), g, time, last)
  {
    var ps := Priced(g);
    if ps != [] {
      PriceRange(ps);
      assert ps[0] in ps && ps[|ps| - 1] in ps;
    }
  }

  /** How many bars, when, and how each continues the one before. */
  lemma {:induction false} BarsAtShape(ts: seq<Trade>, day: int, keys: seq<int>, open: int)
    ensures var ls := BarsAt(ts, day, keys, open);
      && |ls| == |keys|
      && (forall j :: 0 <= j < |ls| ==>
            ls[j] == TradeBar(Pick(ts, SlotOf(), keys[j]), day * DAY + keys[j] * 60,
                              if j == 0 then open else ls[j - 1].close))
  {
    if keys != [] {
      var k := TradeBar(Pick(ts, SlotOf(), keys[0]), day * DAY + keys[0] * 60, open);
      BarsAtShape(ts, day, keys[1..], k.close);
    }
  }

  lemma {:induction false} BarsAtTotals(ts: seq<Trade>, day: int, keys: seq<int>, open: int)
    ensures VolumeOf(BarsAt(ts, day, keys, open)) == TotalOfGroups(ts, SlotOf(), keys, Lots(), AddInt(), 0)
    ensures AmountOf(BarsAt(ts, day, keys, open)) == TotalOfGroups(ts, SlotOf(), keys, Turnover(), AddInt(), 0)
  {
    if keys != [] {
      var g := Pick(ts, SlotOf(), keys[0]);
      var k := TradeBar(g, day * DAY + keys[0] * 60, open);
      BarsAtTotals(ts, day, keys[1..], k.close);
      if Priced(g) == [] { UnpricedWeighNothing(g); }
      assert BarsAt(ts, day, keys, open)[1..] == BarsAt(ts, day, keys[1..], k.close);
    }
  }

  /** Whatever trades a day brings: 241 bars at the grid times, each sound, each starting from the close
      of the one before, and flat at it where nothing traded. */
  lemma DayOfBars(ts: seq<Trade>, day: int)
    ensures |DayBars(ts, day)| == SLOTS
    ensures forall j :: 0 <= j < SLOTS ==>
      Fits(DayBars(ts, day)[j], Pick(ts, SlotOf(), GridMinute(j)), day * DAY + GridMinute(j) * 60,
           if j == 0 then FirstPrice(ts) else DayBars(ts, day)[j - 1].close)
  {
    BarsAtShape(ts, day, Grid(), FirstPrice(ts));
    forall j | 0 <= j < SLOTS
      ensures Fits(DayBars(ts, day)[j], Pick(ts, SlotOf(), GridMinute(j)), day * DAY + GridMinute(j) * 60,
                   if j == 0 then FirstPrice(ts) else DayBars(ts, day)[j - 1].close)
    {
      TradeBarFits(Pick(ts, SlotOf(), GridMinute(j)), day * DAY + GridMinute(j) * 60,
                   if j == 0 then FirstPrice(ts) else DayBars(ts, day)[j - 1].close);
    }
  }

  /** A day's bars together hold every priced trade's volume and amount. */
  lemma DayConserves(ts: seq<Trade>, day: int)
    ensures VolumeOf(DayBars(ts, day)) == Sum(ts, Lots())
    ensures AmountOf(DayBars(ts, day)) == Sum(ts, Turnover())
  {
    BarsAtTotals(ts, day, Grid(), FirstPrice(ts));
    GridIsDistinct();
    forall i | 0 <= i < |ts| ensures SlotOf()(ts[i]) in Grid() {
      EverySlotIsOnTheGrid(ts[i].minute);
    }
    GroupsAddUp(ts, SlotOf(), Grid(), Lots(), AddInt(), 0);
    GroupsAddUp(ts, SlotOf(), Grid(), Turnover(), AddInt(), 0);
  }

  /** The days that occur, in order. */
  function Days(ts: seq<Trade>): (ds: seq<int>)
    ensures forall d :: d in ds <==> exists i :: 0 <= i < |ts| && ts[i].day == d
  {
    if ts == [] then []
    else
      var ds := Days(ts[1..]);
      if ts[0].day in ds then ds else Insert(ts[0].day, ds, Itself())
  }

  lemma {:induction false} DaysInOrder(ts: seq<Trade>)
    ensures StrictlyBy(Days(ts), Itself())
  {
    if ts != [] {
      DaysInOrder(ts[1..]);
      if ts[0].day !in Days(ts[1..]) {
        InsertStrict(ts[0].day, Days(ts[1..]), Itself());
      }
    }
  }

  function BarsOfDays(ts: seq<Trade>, ds: seq<int>): seq<Kline> {
    if ds == [] then [] else DayBars(Pick(ts, DayOf(), ds[0]), ds[0]) + BarsOfDays(ts, ds[1..])
  }

  /** Trades split by day. */
  method GroupByDay(ts: seq<Trade>) returns (m: map<int, seq<Trade>>)
    ensures forall d :: d in m <==> d in Days(ts)
    ensures forall d :: d in m ==> m[d] == Pick(ts, DayOf(), d)
  {
    m := map[];
    for i := 0 to |ts|
      invariant Split(m, ts[..i])
    {
      OneMoreSplit(m, ts[..i], ts[i]);
      assert ts[..i + 1] == ts[..i] + [ts[i]];
      var v := ts[i];
      m := m[v.day := (if v.day in m then m[v.day] else []) + [v]];
    }
    assert ts[..|ts|] == ts;
  }

  ghost predicate Split(m: map<int, seq<Trade>>, ts: seq<Trade>) {
    (forall d :: d in m <==> d in Days(ts)) && (forall d :: d in m ==> m[d] == Pick(ts, DayOf(), d))
  }

  lemma OneMoreSplit(m: map<int, seq<Trade>>, ts: seq<Trade>, v: Trade)
    requires Split(m, ts)
    ensures Split(m[v.day := (if v.day in m then m[v.day] else []) + [v]], ts + [v])
  {
    forall d ensures d in Days(ts + [v]) <==> d in Days(ts) || d == v.day {
      OneMoreDay(ts, v, d);
    }
    forall d ensures Pick(ts + [v], DayOf(), d) == Pick(ts, DayOf(), d) + if d == v.day then [v] else [] {
      PickConcat(ts, [v], DayOf(), d);
    }
    if v.day !in m {
      NoneOfThatDay(ts, v.day);
    }
  }

  lemma OneMoreDay(ts: seq<Trade>, v: Trade, d: int)
    ensures d in Days(ts + [v]) <==> d in Days(ts) || d == v.day
  {
    var all := ts + [v];
    if d in Days(ts) {
      var i :| 0 <= i < |ts| && ts[i].day == d;
      assert all[i].day == d;
    }
    assert all[|ts|].day == v.day;
    if d in Days(all) && d != v.day {
      var i :| 0 <= i < |all| && all[i].day == d;
      assert ts[i].day == d;
    }
  }

  lemma NextDayBars(ts: seq<Trade>, ds: seq<int>, i: nat, ls: seq<Kline>, bars: seq<Kline>, rest: seq<Kline>)
    returns (tail: seq<Kline>)
    requires i < |ds| && bars == DayBars(Pick(ts, DayOf(), ds[i]), ds[i]) && rest == BarsOfDays(ts, ds[i..])
    ensures tail == BarsOfDays(ts, ds[i + 1..])
    ensures (ls + bars) + tail == ls + rest
  {
    tail := BarsOfDays(ts, ds[i + 1..]);
    assert ds[i..][1..] == ds[i + 1..];
    Reassociate(ls, bars, tail);
  }

  /** The grouped trades to bars, day after day. */
  method ChainDays(ghost ts: seq<Trade>, ds: seq<int>, m: map<int, seq<Trade>>) returns (ls: seq<Kline>)
    requires forall d :: d in ds ==> d in m && m[d] == Pick(ts, DayOf(), d)
    ensures ls == BarsOfDays(ts, ds)
  {
    ls := [];
    ghost var rest := BarsOfDays(ts, ds);
    ghost var all := rest;
    assert ds[0..] == ds;
    for i := 0 to |ds|
      invariant rest == BarsOfDays(ts, ds[i..]) && ls + rest == all
    {
      var bars := KlinesForDay(m[ds[i]], ds[i]);
      rest := NextDayBars(ts, ds, i, ls, bars, rest);
      ls := ls + bars;
    }
  }

  /** Trades.Klines: the bars of every day that has a trade, day after day. */
  method TradeKlines(ts: seq<Trade>) returns (ls: seq<Kline>)
    ensures ls == BarsOfDays(ts, Days(ts))
  {
    var m := GroupByDay(ts);
    var ds := SortedDays(m.Keys);
    DaysInOrder(ts);
    StrictOrderIsUnique(ds, Days(ts), Itself());
    ls := ChainDays(ts, ds, m);
  }

  lemma {:induction false} NoneOfThatDay(ts: seq<Trade>, d: int)
    requires d !in Days(ts)
    ensures Pick(ts, DayOf(), d) == []
  {
    if ts != [] {
      assert ts[0].day != d;
      forall e | e in Days(ts[1..]) ensures e in Days(ts) {
      }
      NoneOfThatDay(ts[1..], d);
    }
  }

  /** A map's keys in order. */
  method SortedDays(keys: set<int>) returns (ds: seq<int>)
    ensures StrictlyBy(ds, Itself())
    ensures forall d :: d in ds <==> d in keys
  {
    ds := [];
    var rest := keys;
    while rest != {}
      invariant rest <= keys
      invariant forall d :: d in ds <==> d in keys && d !in rest
      invariant forall i, j :: 0 <= i < j < |ds| ==> ds[i] != ds[j]
      decreases rest
    {
      var d := AnyOf(rest);
      ds, rest := ds + [d], rest - {d};
    }
    SortStrict(ds, Itself());
    ds := SortBy(ds, Itself());
  }

  lemma {:induction false} BarsOfDaysTotals(ts: seq<Trade>, ds: seq<int>)
    ensures |BarsOfDays(ts, ds)| == SLOTS * |ds|
    ensures VolumeOf(BarsOfDays(ts, ds)) == TotalOfGroups(ts, DayOf(), ds, Lots(), AddInt(), 0)
    ensures AmountOf(BarsOfDays(ts, ds)) == TotalOfGroups(ts, DayOf(), ds, Turnover(), AddInt(), 0)
  {
    if ds != [] {
      BarsOfDaysTotals(ts, ds[1..]);
      DayOfBars(Pick(ts, DayOf(), ds[0]), ds[0]);
      DayConserves(Pick(ts, DayOf(), ds[0]), ds[0]);
      SumsConcat(DayBars(Pick(ts, DayOf(), ds[0]), ds[0]), BarsOfDays(ts, ds[1..]));
    }
  }

  /** Over any number of days: 241 bars for each day that has a trade, and every priced trade's volume
      and amount in exactly one of them. */
  lemma KlinesConserve(ts: seq<Trade>)
    ensures var ls := BarsOfDays(ts, Days(ts));
      && |ls| == SLOTS * |Days(ts)|
      && VolumeOf(ls) == Sum(ts, Lots())
      && AmountOf(ls) == Sum(ts, Turnover())
  {
    BarsOfDaysTotals(ts, Days(ts));
    DaysInOrder(ts);
    forall i | 0 <= i < |ts| ensures DayOf()(ts[i]) in Days(ts) {
      assert ts[i].day == ts[i].day;
    }
    forall i, j | 0 <= i < j < |Days(ts)| ensures Days(ts)[i] != Days(ts)[j] {
      assert Itself()(Days(ts)[i]) < Itself()(Days(ts)[j]);
    }
    GroupsAddUp(ts, DayOf(), Days(ts), Lots(), AddInt(), 0);
    GroupsAddUp(ts, DayOf(), Days(ts), Turnover(), AddInt(), 0);
  }
}
