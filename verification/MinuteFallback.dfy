/** Missing minute days rebuilt from trades (extend/pull/market/fallback.go). */
module MinuteFallback {
  import opened Calendar
  import opened Klines
  import opened MinuteStore
  import opened Results
  import opened Sorting
  import opened TradeBars

  /** What a daily bar says here: when, and whether anything traded. */
  datatype DayBar = DayBar(time: int, volume: int)

  /** A day's trades as delivered; an entry may be missing. */
  type Delivery = seq<Option<Trade>>

  /** When slot i of a day is. */
  function At(day: int, i: nat): int { Midnight(day) + GridMinute(i) * 60 }

  ghost predicate HasDay(rows: Rows, day: int) {
    forall i :: 0 <= i < SLOTS ==> At(day, i) in rows
  }

  lemma AtIsThatDay(day: int, i: nat)
    requires i < SLOTS
    ensures Day(At(day, i)) == day
  {
  }

  /** hasMinuteDay: a few rows do not make a day. */
  method HasMinuteDay(rows: Rows, day: int) returns (has: bool)
    ensures has <==> HasDay(rows, day)
  {
    for m := 570 to 901
      invariant forall i :: 0 <= i < SLOTS && GridMinute(i) < m ==> At(day, i) in rows
    {
      if m > 690 && m <= 780 {
        continue;
      }
      if Midnight(day) + m / 60 * 3600 + m % 60 * 60 !in rows {
        ghost var i := if m <= 690 then m - 570 else m - 660;
        assert GridMinute(i) == m && 0 <= i < SLOTS;
        assert At(day, i) == Midnight(day) + m / 60 * 3600 + m % 60 * 60;
        return false;
      }
    }
    return true;
  }

  /** A trade of that day, in or shortly before a session, at a positive price. */
  predicate Usable(t: Option<Trade>, day: int) {
    && t.Some?
    && t.value.day == day && t.value.price > 0 && t.value.volume >= 0
    && (565 <= t.value.minute <= 690 || 780 <= t.value.minute <= 900)
  }

  ghost predicate AllUsable(ts: Delivery, day: int) {
    forall i :: 0 <= i < |ts| ==> Usable(ts[i], day)
  }

  function ByMinute(): Trade -> int { (t: Trade) => t.minute }

  const SHARES_A_LOT: int := 100

  /** A bar as stored, marked as synthesized; the time keeps its clock reading on that day. */
  function Synthesized(k: Kline, day: int): KlineMinute {
    KlineMinute(Midnight(day) + k.time % DAY / 60 * 60,
                Bar(Yuan(k.open), Yuan(k.high), Yuan(k.low), Yuan(k.close),
                    k.volume * SHARES_A_LOT, Yuan(k.amount), false))
  }

  function AllSynthesized(ks: seq<Kline>, day: int): (r: seq<KlineMinute>)
    ensures |r| == |ks|
  {
    seq(|ks|, i requires 0 <= i < |ks| => Synthesized(ks[i], day))
  }

  /** tradesToMinutes as a function: the day's bars of the trades in time order, unless there are none,
      one is unusable, or nothing was traded. */
  ghost function Minutes(day: int, ts: Delivery): Result<seq<KlineMinute>> {
    if ts == [] || !AllUsable(ts, day) || Sum(Values(ts), Lots()) == 0 then Err
    else Ok(AllSynthesized(DayBars(SortBy(Values(ts), ByMinute()), day), day))
  }

  lemma NextValue(ts: Delivery, i: nat)
    requires i < |ts| && forall j :: 0 <= j < |ts| ==> ts[j].Some?
    ensures Values(ts[..i + 1]) == Values(ts[..i]) + [ts[i].value]
    ensures Sum(Values(ts[..i + 1]), Lots()) == Sum(Values(ts[..i]), Lots()) + Lots()(ts[i].value)
  {
    assert Values(ts[..i + 1]) == Values(ts[..i]) + [ts[i].value];
    SumConcat(Values(ts[..i]), [ts[i].value], Lots());
    SumOfOne(ts[i].value, Lots());
  }

  /** The first part of tradesToMinutes: everything usable, and the volume in total. */
  method Normalized(day: int, trades: Delivery) returns (r: Result<(seq<Trade>, int)>)
    ensures r == Err <==> !AllUsable(trades, day)
    ensures r.Ok? ==> r.value == (Values(trades), Sum(Values(trades), Lots()))
  {
    var normalized, volume := [], 0;
    for i := 0 to |trades|
      invariant AllUsable(trades[..i], day)
      invariant normalized == Values(trades[..i]) && volume == Sum(Values(trades[..i]), Lots())
    {
      if trades[i] == None {
        return Err;
      }
      var t := trades[i].value;
      if t.day != day || t.price <= 0 || t.volume < 0
         || !((t.minute >= 565 && t.minute <= 690) || (t.minute >= 780 && t.minute <= 900)) {
        return Err;
      }
      NextValue(trades[..i + 1], i);
      assert trades[..i + 1][..i] == trades[..i] && trades[..i + 1][..i + 1] == trades[..i + 1];
      normalized, volume := normalized + [t], volume + t.volume;
    }
    assert trades[..|trades|] == trades;
    return Ok((normalized, volume));
  }

  lemma {:induction false} OneDayOnly(ts: seq<Trade>, day: int)
    requires ts != [] && forall i :: 0 <= i < |ts| ==> ts[i].day == day
    ensures Days(ts) == [day]
    ensures Grouping.Pick(ts, DayOf(), day) == ts
  {
    if |ts| == 1 {
      assert ts[1..] == [];
      assert Days(ts[1..]) == [];
      assert Grouping.Pick(ts[1..], DayOf(), day) == [];
    } else {
      OneDayOnly(ts[1..], day);
    }
  }

  lemma OneDaysBars(ts: seq<Trade>, day: int)
    requires ts != [] && forall i :: 0 <= i < |ts| ==> ts[i].day == day
    ensures BarsOfDays(ts, Days(ts)) == DayBars(ts, day)
  {
    OneDayOnly(ts, day);
    BarsOfADay(ts, Days(ts), day);
  }

  lemma BarsOfADay(ts: seq<Trade>, days: seq<int>, day: int)
    requires |days| == 1 && days[0] == day && Grouping.Pick(ts, DayOf(), day) == ts
    ensures BarsOfDays(ts, days) == DayBars(ts, day)
  {
    var rest := days[1..];
    assert BarsOfDays(ts, rest) == [];
  }

  /** tradesToMinutes. */
  method TradesToMinutes(day: int, trades: Delivery) returns (r: Result<seq<KlineMinute>>)
    ensures r == Minutes(day, trades)
  {
    if trades == [] {
      return Err;
    }
    var n := Normalized(day, trades);
    if n == Err {
      return Err;
    }
    var (normalized, volume) := n.value;
    if volume == 0 {
      return Err;
    }
    var out := BarsRebuilt(normalized, day);
    return Ok(out);
  }

  /** The bars of a day's usable trades, as rows. */
  method BarsRebuilt(normalized: seq<Trade>, day: int) returns (out: seq<KlineMinute>)
    requires normalized != [] && forall i :: 0 <= i < |normalized| ==> normalized[i].day == day
    ensures out == AllSynthesized(DayBars(SortBy(normalized, ByMinute()), day), day)
  {
    var sorted := SortBy(normalized, ByMinute());
    SameDay(normalized, sorted, day);
    OneDaysBars(sorted, day);
    var ks := TradeKlines(sorted);
    out := Marked(ks, day);
  }

  method Marked(ks: seq<Kline>, day: int) returns (out: seq<KlineMinute>)
    ensures out == AllSynthesized(ks, day)
  {
    out := [];
    for i := 0 to |ks|
      invariant out == AllSynthesized(ks[..i], day)
    {
      out := out + [Synthesized(ks[i], day)];
    }
    assert ks[..|ks|] == ks;
  }

  lemma SameDay(ts: seq<Trade>, sorted: seq<Trade>, day: int)
    requires forall t :: t in sorted <==> t in ts
    requires forall i :: 0 <= i < |ts| ==> ts[i].day == day
    ensures forall i :: 0 <= i < |sorted| ==> sorted[i].day == day
  {
    forall i | 0 <= i < |sorted| ensures sorted[i].day == day {
      assert sorted[i] in ts;
    }
  }

  /** A synthesized day has a row for each of its 241 minutes, and nothing else. */
  lemma MinutesCoverTheDay(day: int, ts: Delivery)
    requires Minutes(day, ts).Ok?
    ensures var ks := Minutes(day, ts).value;
      |ks| == SLOTS && forall i :: 0 <= i < SLOTS ==> ks[i].unix == At(day, i) && !ks[i].bar.native
  {
    var sorted := SortBy(Values(ts), ByMinute());
    var bars := DayBars(sorted, day);
    BarsAtShape(sorted, day, Grid(), FirstPrice(sorted));
    forall i | 0 <= i < SLOTS ensures Synthesized(bars[i], day).unix == At(day, i) {
      var last := if i == 0 then FirstPrice(sorted) else bars[i - 1].close;
      assert bars[i] == TradeBar(Grouping.Pick(sorted, SlotOf(), Grid()[i]), day * DAY + Grid()[i] * 60, last);
      ClockReading(day, GridMinute(i));
    }
  }

  lemma ClockReading(day: int, minute: int)
    requires 0 <= minute < 1440
    ensures (day * DAY + minute * 60) % DAY / 60 * 60 == minute * 60
  {
    assert (day * DAY + minute * 60) / DAY == day;
  }

  function Shares(ks: seq<KlineMinute>): int { if ks == [] then 0 else ks[0].bar.volume + Shares(ks[1..]) }

  lemma {:induction false} SharesOf(ks: seq<Kline>, day: int)
    ensures Shares(AllSynthesized(ks, day)) == VolumeOf(ks) * SHARES_A_LOT
  {
    if ks != [] {
      SharesOf(ks[1..], day);
      assert AllSynthesized(ks, day)[1..] == AllSynthesized(ks[1..], day);
    }
  }

  lemma {:induction false} InsertSums(x: Trade, ts: seq<Trade>, key: Trade -> int, w: Trade -> int)
    ensures Sum(Insert(x, ts, key), w) == w(x) + Sum(ts, w)
  {
    if ts == [] || key(x) <= key(ts[0]) {
      assert ([x] + ts)[1..] == ts;
    } else {
      InsertSums(x, ts[1..], key, w);
      assert ([ts[0]] + Insert(x, ts[1..], key))[1..] == Insert(x, ts[1..], key);
    }
  }

  lemma {:induction false} SortSums(ts: seq<Trade>, key: Trade -> int, w: Trade -> int)
    ensures Sum(SortBy(ts, key), w) == Sum(ts, w)
  {
    if ts != [] {
      SortSums(ts[1..], key, w);
      InsertSums(ts[0], SortBy(ts[1..], key), key, w);
    }
  }

  lemma {:induction false} PricedVolume(ts: seq<Trade>)
    requires forall i :: 0 <= i < |ts| ==> ts[i].price > 0
    ensures Sum(ts, Lots()) == Sum(ts, Volume())
  {
    if ts != [] {
      PricedVolume(ts[1..]);
    }
  }

  function Volume(): Trade -> int { (t: Trade) => t.volume }

  /** The shares of a synthesized day are those of all its trades. */
  lemma MinutesConserve(day: int, ts: Delivery)
    requires Minutes(day, ts).Ok?
    ensures Shares(Minutes(day, ts).value) == Sum(Values(ts), Volume()) * SHARES_A_LOT
  {
    var sorted := SortBy(Values(ts), ByMinute());
    SharesOf(DayBars(sorted, day), day);
    DayConserves(sorted, day);
    SortSums(Values(ts), ByMinute(), Lots());
    PricedVolume(Values(ts));
  }

  // The dates to look at.

  predicate Candidate(k: DayBar, lo: int, hi: int) { k.volume > 0 && lo <= Day(k.time) < hi }

  /** The days with volume from lo up to before hi, in order. */
  function Dates(days: seq<DayBar>, lo: int, hi: int): (ds: seq<int>)
    ensures forall d :: d in ds <==> exists i :: 0 <= i < |days| && Candidate(days[i], lo, hi) && Day(days[i].time) == d
  {
    if days == [] then []
    else
      var ds := Dates(days[1..], lo, hi);
      if Candidate(days[0], lo, hi) && Day(days[0].time) !in ds then Insert(Day(days[0].time), ds, Itself()) else ds
  }

  lemma {:induction false} DatesInOrder(days: seq<DayBar>, lo: int, hi: int)
    ensures StrictlyBy(Dates(days, lo, hi), Itself())
  {
    if days != [] {
      DatesInOrder(days[1..], lo, hi);
      if Candidate(days[0], lo, hi) && Day(days[0].time) !in Dates(days[1..], lo, hi) {
        InsertStrict(Day(days[0].time), Dates(days[1..], lo, hi), Itself());
      }
    }
  }

  lemma OnTheList(days: seq<DayBar>, lo: int, hi: int, i: nat)
    requires i < |days| && Candidate(days[i], lo, hi)
    ensures Day(days[i].time) in Dates(days, lo, hi)
  {
  }

  /** The dates of a list of daily bars, each once, in order. */
  method PickDates(days: seq<DayBar>, lo: int, hi: int) returns (dates: seq<int>)
    ensures dates == Dates(days, lo, hi)
  {
    var seen: set<int> := {};
    dates := [];
    for i := 0 to |days|
      invariant forall d :: d in dates <==> d in seen
      invariant forall d :: d in dates ==> d in Dates(days, lo, hi)
      invariant forall j :: 0 <= j < i && Candidate(days[j], lo, hi) ==> Day(days[j].time) in dates
      invariant DistinctBy(dates, Itself())
    {
      var day := Day(days[i].time);
      if days[i].volume <= 0 || day < lo || day >= hi || day in seen {
        continue;
      }
      OnTheList(days, lo, hi, i);
      seen := seen + {day};
      dates := dates + [day];
    }
    SortStrict(dates, Itself());
    DatesInOrder(days, lo, hi);
    dates := SortBy(dates, Itself());
    StrictOrderIsUnique(dates, Dates(days, lo, hi), Itself());
  }

  // Filling.

  datatype Filled = Filled(rows: Rows, ok: bool)

  /** Rows put where there are none yet, from `from` on. */
  function AddMissing(rows: Rows, from: int, ks: seq<KlineMinute>): Rows {
    if ks == [] then rows
    else
      var r := AddMissing(rows, from, ks[..|ks| - 1]);
      var k := ks[|ks| - 1];
      if k.unix >= from && k.unix !in r then r[k.unix := k.bar] else r
  }

  /** What one date does to the rows. */
  ghost function FillDay(rows: Rows, from: int, day: int, delivered: Result<Delivery>): Filled {
    if HasDay(rows, day) then Filled(rows, true)
    else if delivered == Err || Minutes(day, delivered.value) == Err then Filled(rows, false)
    else Filled(AddMissing(rows, from, Minutes(day, delivered.value).value), true)
  }

  ghost function FillDays(rows: Rows, from: int, dates: seq<int>, trades: int -> Result<Delivery>): Filled {
    if dates == [] then Filled(rows, true)
    else
      var before := FillDays(rows, from, dates[..|dates| - 1], trades);
      var here := FillDay(before.rows, from, dates[|dates| - 1], trades(dates[|dates| - 1]));
      Filled(here.rows, before.ok && here.ok)
  }

  /** The day the exchange's own bars take over, no later than the day of `end`. */
  function Limit(end: int, boundary: int): int { if boundary > Day(end) then Day(end) else boundary }

  /** fill as a function, on the local rows read and the exchange's rows fetched. */
  ghost function Fill(local: Rows, native: seq<KlineMinute>, from: int, end: int, boundary: int,
                      days: Result<seq<DayBar>>, trades: int -> Result<Delivery>): Filled
  {
    var rows := local + AsRows(native);
    var b := Limit(end, boundary);
    if from >= Midnight(b) then Filled(rows, true)
    else if days == Err then Filled(rows, false)
    else FillDays(rows, from, Dates(days.value, Day(from), b), trades)
  }

  /** What a list of local rows and one of the exchange's make, later ones replacing earlier ones. */
  method Overlay(rows: Rows, ks: seq<KlineMinute>) returns (out: Rows)
    ensures out == rows + AsRows(ks)
  {
    out := rows;
    assert ks[..0] == [];
    for i := 0 to |ks|
      invariant out == rows + AsRows(ks[..i])
    {
      assert ks[..i + 1][..i] == ks[..i];
      out := out[ks[i].unix := ks[i].bar];
    }
    assert ks[..|ks|] == ks;
  }

  /** The synthesized rows of a day put in the gaps. */
  method FillGaps(rows: Rows, from: int, ks: seq<KlineMinute>) returns (out: Rows)
    ensures out == AddMissing(rows, from, ks)
  {
    out := rows;
    for i := 0 to |ks|
      invariant out == AddMissing(rows, from, ks[..i])
    {
      assert ks[..i + 1][..i] == ks[..i];
      if ks[i].unix >= from && ks[i].unix !in out {
        out := out[ks[i].unix := ks[i].bar];
      }
    }
    assert ks[..|ks|] == ks;
  }

  /** One turn of fill's loop over the dates. */
  method FillOne(rows: Rows, from: int, day: int, delivered: Result<Delivery>) returns (out: Rows, ok: bool)
    ensures Filled(out, ok) == FillDay(rows, from, day, delivered)
  {
    var has := HasMinuteDay(rows, day);
    if has {
      return rows, true;
    }
    if delivered == Err {
      return rows, false;
    }
    var ks := TradesToMinutes(day, delivered.value);
    if ks == Err {
      return rows, false;
    }
    out := FillGaps(rows, from, ks.value);
    return out, true;
  }

  /** fill; `local` is what the store answered, and nothing is returned if it did not. */
  method FillRows(local: Result<seq<KlineMinute>>, native: seq<KlineMinute>, from: int, end: int, boundary: int,
                  days: Result<seq<DayBar>>, trades: int -> Result<Delivery>)
    returns (out: seq<KlineMinute>, ok: bool)
    ensures local == Err ==> out == [] && !ok
    ensures local.Ok? ==>
      var f := Fill(AsRows(local.value), native, from, end, boundary, days, trades);
      out == Listed(f.rows) && ok == f.ok
  {
    if local == Err {
      return [], false;
    }
    var rows := Overlay(map[], local.value);
    assert map[] + AsRows(local.value) == AsRows(local.value);
    rows := Overlay(rows, native);
    var b := Limit(end, boundary);
    if from >= Midnight(b) {
      out := Sorted(rows);
      return out, true;
    }
    if days == Err {
      out := Sorted(rows);
      return out, false;
    }
    var dates := PickDates(days.value, Day(from), b);
    rows, ok := FillDates(rows, from, dates, trades);
    out := Sorted(rows);
  }

  method FillDates(before: Rows, from: int, dates: seq<int>, trades: int -> Result<Delivery>)
    returns (rows: Rows, ok: bool)
    ensures Filled(rows, ok) == FillDays(before, from, dates, trades)
  {
    rows, ok := before, true;
    for i := 0 to |dates|
      invariant Filled(rows, ok) == FillDays(before, from, dates[..i], trades)
    {
      assert dates[..i + 1][..i] == dates[..i];
      var done;
      rows, done := FillOne(rows, from, dates[i], trades(dates[i]));
      ok := ok && done;
    }
    assert dates[..|dates|] == dates;
  }

  // What filling guarantees.

  lemma {:induction false} AddedRows(rows: Rows, from: int, ks: seq<KlineMinute>)
    ensures var r := AddMissing(rows, from, ks);
      && (forall u :: u in rows ==> u in r && r[u] == rows[u])
      && (forall u :: u in r && u !in rows ==> u >= from && KlineMinute(u, r[u]) in ks)
      && (forall i :: 0 <= i < |ks| && ks[i].unix >= from ==> ks[i].unix in r)
  {
    if ks != [] {
      AddedRows(rows, from, ks[..|ks| - 1]);
      assert forall i :: 0 <= i < |ks| - 1 ==> ks[i] == ks[..|ks| - 1][i];
    }
  }

  /** Nothing that was there changes; what is new is synthesized, of that day and not before `from`. */
  ghost predicate Grown(rows: Rows, r: Rows, from: int, dates: seq<int>) {
    && (forall u :: u in rows ==> u in r && r[u] == rows[u])
    && (forall u :: u in r && u !in rows ==> u >= from && !r[u].native && Day(u) in dates)
  }

  /** Every minute of the dates from `from` on has a row. */
  ghost predicate Complete(rows: Rows, from: int, dates: seq<int>) {
    forall d, i :: d in dates && 0 <= i < SLOTS && At(d, i) >= from ==> At(d, i) in rows
  }

  lemma FilledDay(rows: Rows, from: int, day: int, delivered: Result<Delivery>)
    ensures var f := FillDay(rows, from, day, delivered);
      && Grown(rows, f.rows, from, [day])
      && (f.ok ==> Complete(f.rows, from, [day]))
  {
    var f := FillDay(rows, from, day, delivered);
    if !HasDay(rows, day) && f.ok {
      var ks := Minutes(day, delivered.value).value;
      MinutesCoverTheDay(day, delivered.value);
      AddedRows(rows, from, ks);
      forall u | u in f.rows && u !in rows ensures !f.rows[u].native && Day(u) == day {
        var i :| 0 <= i < |ks| && ks[i] == KlineMinute(u, f.rows[u]);
        AtIsThatDay(day, i);
      }
      forall i | 0 <= i < SLOTS && At(day, i) >= from ensures At(day, i) in f.rows {
        assert ks[i].unix == At(day, i);
      }
    }
  }

  lemma {:induction false} FilledDays(rows: Rows, from: int, dates: seq<int>, trades: int -> Result<Delivery>)
    ensures var f := FillDays(rows, from, dates, trades);
      && Grown(rows, f.rows, from, dates)
      && (f.ok ==> Complete(f.rows, from, dates))
  {
    if dates != [] {
      var front, d := dates[..|dates| - 1], dates[|dates| - 1];
      FilledDays(rows, from, front, trades);
      var before := FillDays(rows, from, front, trades);
      FilledDay(before.rows, from, d, trades(d));
      assert forall e :: e in dates <==> e in front || e == d;
    }
  }
}
