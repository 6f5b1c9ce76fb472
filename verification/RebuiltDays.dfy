/** What a minute day rebuilt from trades (extend/pull/market/fallback.go) says, in terms of the trades as they were
    delivered and of the clock. */
module RebuiltDays {
  import opened Grouping
  import opened Klines
  import opened MinuteFallback
  import opened MinuteStore
  import opened Results
  import opened Sorting
  import opened TradeBars

  // ---------------------------------------------------------------- a stable sort

  /** Of the elements that count, s[j] comes first: by key, and among equals by place. */
  ghost predicate FirstBy<T>(s: seq<T>, keep: T -> bool, key: T -> int, j: nat) {
    && j < |s| && keep(s[j])
    && forall k :: 0 <= k < |s| && keep(s[k]) ==> key(s[j]) < key(s[k]) || (key(s[j]) == key(s[k]) && j <= k)
  }

  ghost predicate LastBy<T>(s: seq<T>, keep: T -> bool, key: T -> int, j: nat) {
    && j < |s| && keep(s[j])
    && forall k :: 0 <= k < |s| && keep(s[k]) ==> key(s[k]) < key(s[j]) || (key(s[k]) == key(s[j]) && k <= j)
  }

  lemma {:induction false} InsertUnkept<T(!new)>(x: T, t: seq<T>, keep: T -> bool, key: T -> int)
    requires !keep(x)
    ensures Filter(Insert(x, t, key), keep) == Filter(t, keep)
  {
    if t == [] || key(x) <= key(t[0]) {
      assert ([x] + t)[1..] == t;
    } else {
      InsertUnkept(x, t[1..], keep, key);
      assert ([t[0]] + Insert(x, t[1..], key))[1..] == Insert(x, t[1..], key);
    }
  }

  lemma {:induction false} InsertFirst<T(!new)>(x: T, t: seq<T>, keep: T -> bool, key: T -> int)
    requires keep(x) && forall y :: y in t && keep(y) ==> key(x) <= key(y)
    ensures var g := Filter(Insert(x, t, key), keep); g != [] && g[0] == x
  {
    if t == [] || key(x) <= key(t[0]) {
      assert ([x] + t)[0] == x;
    } else {
      InsertFirst(x, t[1..], keep, key);
      assert t[0] in t;
      assert ([t[0]] + Insert(x, t[1..], key))[1..] == Insert(x, t[1..], key);
    }
  }

  lemma {:induction false} InsertBehind<T(!new)>(x: T, t: seq<T>, keep: T -> bool, key: T -> int)
    requires SortedBy(t, key) && Filter(t, keep) != [] && keep(x) && key(Filter(t, keep)[0]) < key(x)
    ensures var g := Filter(Insert(x, t, key), keep); g != [] && g[0] == Filter(t, keep)[0]
  {
    FilterMembers(t, keep);
    assert Filter(t, keep)[0] in t;
    var i :| 0 <= i < |t| && t[i] == Filter(t, keep)[0];
    assert key(t[0]) <= key(t[i]);
    assert ([t[0]] + Insert(x, t[1..], key))[1..] == Insert(x, t[1..], key);
    if !keep(t[0]) {
      InsertBehind(x, t[1..], keep, key);
    }
  }

  lemma NoneBehind<T>(x: T, t: seq<T>, keep: T -> bool, key: T -> int)
    requires SortedBy(t, key) && (t != [] ==> key(x) <= key(t[0])) && forall y :: y in t && keep(y) ==> key(y) < key(x)
    ensures Filter(t, keep) == []
  {
    forall i | 0 <= i < |t| ensures !keep(t[i]) {
      assert t[i] in t && key(t[0]) <= key(t[i]);
    }
    FilterNone(t, keep);
  }

  lemma {:induction false} InsertLast<T(!new)>(x: T, t: seq<T>, keep: T -> bool, key: T -> int)
    requires SortedBy(t, key) && keep(x) && forall y :: y in t && keep(y) ==> key(y) < key(x)
    ensures var g := Filter(Insert(x, t, key), keep); g != [] && g[|g| - 1] == x
  {
    if t == [] || key(x) <= key(t[0]) {
      NoneBehind(x, t, keep, key);
      assert ([x] + t)[1..] == t;
    } else {
      InsertLast(x, t[1..], keep, key);
      assert ([t[0]] + Insert(x, t[1..], key))[1..] == Insert(x, t[1..], key);
    }
  }

  lemma {:induction false} InsertBefore<T(!new)>(x: T, t: seq<T>, keep: T -> bool, key: T -> int, z: T)
    requires Filter(t, keep) != [] && z == Filter(t, keep)[|Filter(t, keep)| - 1] && keep(x) && key(x) <= key(z)
    ensures var g := Filter(Insert(x, t, key), keep); g != [] && g[|g| - 1] == z
  {
    if t == [] || key(x) <= key(t[0]) {
      assert ([x] + t)[1..] == t;
    } else {
      assert ([t[0]] + Insert(x, t[1..], key))[1..] == Insert(x, t[1..], key);
      assert Filter(t[1..], keep) != [];
      InsertBefore(x, t[1..], keep, key, z);
    }
  }

  lemma StillFirst<T(!new)>(x: T, t: seq<T>, keep: T -> bool, key: T -> int, a: T)
    requires SortedBy(t, key) && (keep(x) ==> key(a) < key(x))
    requires var g := Filter(t, keep); g != [] && g[0] == a
    ensures var g := Filter(Insert(x, t, key), keep); g != [] && g[0] == a
  {
    if keep(x) {
      InsertBehind(x, t, keep, key);
    } else {
      InsertUnkept(x, t, keep, key);
    }
  }

  lemma StillLast<T(!new)>(x: T, t: seq<T>, keep: T -> bool, key: T -> int, z: T)
    requires keep(x) ==> key(x) <= key(z)
    requires var g := Filter(t, keep); g != [] && g[|g| - 1] == z
    ensures var g := Filter(Insert(x, t, key), keep); g != [] && g[|g| - 1] == z
  {
    if keep(x) {
      InsertBefore(x, t, keep, key, z);
    } else {
      InsertUnkept(x, t, keep, key);
    }
  }

  lemma TailOfFirst<T>(s: seq<T>, keep: T -> bool, key: T -> int, j: nat)
    requires FirstBy(s, keep, key, j) && j > 0
    ensures FirstBy(s[1..], keep, key, j - 1) && (keep(s[0]) ==> key(s[j]) < key(s[0]))
  {
    forall k | 0 <= k < |s[1..]| && keep(s[1..][k])
      ensures key(s[j]) < key(s[1..][k]) || (key(s[j]) == key(s[1..][k]) && j - 1 <= k)
    {
      assert s[1..][k] == s[k + 1];
    }
  }

  lemma TailOfLast<T>(s: seq<T>, keep: T -> bool, key: T -> int, j: nat)
    requires LastBy(s, keep, key, j) && j > 0
    ensures LastBy(s[1..], keep, key, j - 1) && (keep(s[0]) ==> key(s[0]) <= key(s[j]))
  {
    forall k | 0 <= k < |s[1..]| && keep(s[1..][k])
      ensures key(s[1..][k]) < key(s[j]) || (key(s[1..][k]) == key(s[j]) && k <= j - 1)
    {
      assert s[1..][k] == s[k + 1];
    }
  }

  lemma NoneSooner<T>(s: seq<T>, keep: T -> bool, key: T -> int)
    requires FirstBy(s, keep, key, 0)
    ensures forall y :: y in s[1..] && keep(y) ==> key(s[0]) <= key(y)
  {
    forall y | y in s[1..] && keep(y) ensures key(s[0]) <= key(y) {
      var k :| 0 <= k < |s[1..]| && s[1..][k] == y;
      assert s[k + 1] == y;
    }
  }

  lemma NoneLater<T>(s: seq<T>, keep: T -> bool, key: T -> int)
    requires LastBy(s, keep, key, 0)
    ensures forall y :: y in s[1..] && keep(y) ==> key(y) < key(s[0])
  {
    forall y | y in s[1..] && keep(y) ensures key(y) < key(s[0]) {
      var k :| 0 <= k < |s[1..]| && s[1..][k] == y;
      assert s[k + 1] == y;
    }
  }

  /** The first of the elements that count is the same before and after a stable sort. */
  lemma {:induction false} FirstOfSorted<T(!new)>(s: seq<T>, keep: T -> bool, key: T -> int, j: nat)
    requires FirstBy(s, keep, key, j)
    ensures var g := Filter(SortBy(s, key), keep); g != [] && g[0] == s[j]
  {
    var t := SortBy(s[1..], key);
    SortSorts(s[1..], key);
    if j == 0 {
      NoneSooner(s, keep, key);
      InsertFirst(s[0], t, keep, key);
    } else {
      TailOfFirst(s, keep, key, j);
      FirstOfSorted(s[1..], keep, key, j - 1);
      StillFirst(s[0], t, keep, key, s[j]);
    }
  }

  lemma LastComesFirst<T(!new)>(s: seq<T>, keep: T -> bool, key: T -> int)
    requires LastBy(s, keep, key, 0)
    ensures var g := Filter(SortBy(s, key), keep); g != [] && g[|g| - 1] == s[0]
  {
    SortSorts(s[1..], key);
    NoneLater(s, keep, key);
    InsertLast(s[0], SortBy(s[1..], key), keep, key);
  }

  /** So is the last. */
  lemma {:induction false} LastOfSorted<T(!new)>(s: seq<T>, keep: T -> bool, key: T -> int, j: nat)
    requires LastBy(s, keep, key, j)
    ensures var g := Filter(SortBy(s, key), keep); g != [] && g[|g| - 1] == s[j]
  {
    if j == 0 {
      LastComesFirst(s, keep, key);
    } else {
      TailOfLast(s, keep, key, j);
      LastOfSorted(s[1..], keep, key, j - 1);
      StillLast(s[0], SortBy(s[1..], key), keep, key, s[j]);
    }
  }

  lemma {:induction false} FirstExists<T>(s: seq<T>, keep: T -> bool, key: T -> int, i: nat) returns (j: nat)
    requires i < |s| && keep(s[i])
    ensures FirstBy(s, keep, key, j)
  {
    var front := s[..|s| - 1];
    if k: nat :| k < |front| && keep(front[k]) {
      j := FirstExists(front, keep, key, k);
      assert forall m :: 0 <= m < |front| ==> front[m] == s[m];
      if keep(s[|s| - 1]) && key(s[|s| - 1]) < key(s[j]) {
        j := |s| - 1;
      }
    } else {
      j := |s| - 1;
      assert forall m :: 0 <= m < |front| ==> front[m] == s[m];
    }
  }

  lemma {:induction false} LastExists<T>(s: seq<T>, keep: T -> bool, key: T -> int, i: nat) returns (j: nat)
    requires i < |s| && keep(s[i])
    ensures LastBy(s, keep, key, j)
  {
    var front := s[..|s| - 1];
    if k: nat :| k < |front| && keep(front[k]) {
      j := LastExists(front, keep, key, k);
      assert forall m :: 0 <= m < |front| ==> front[m] == s[m];
      if keep(s[|s| - 1]) && key(s[j]) <= key(s[|s| - 1]) {
        j := |s| - 1;
      }
    } else {
      j := |s| - 1;
      assert forall m :: 0 <= m < |front| ==> front[m] == s[m];
    }
  }

  lemma {:induction false} PickIsFilter<T, K>(ts: seq<T>, key: T -> K, k: K, keep: T -> bool)
    requires forall t :: t in ts ==> (keep(t) <==> key(t) == k)
    ensures Pick(ts, key, k) == Filter(ts, keep)
  {
    if ts != [] {
      assert ts[0] in ts;
      PickIsFilter(ts[1..], key, k, keep);
    }
  }

  // ---------------------------------------------------------------- the clock

  /** Which minutes of the clock row i of a day stands for: all up to 9:29 for 9:30, then one each, 11:29 and the
      lunch break for 11:30, one each again from 13:00 on, and all from 14:59 on for 15:00. */
  predicate FallsTo(minute: int, i: int) {
    if i == 0 then minute <= 569
    else if i < 120 then minute == 569 + i
    else if i == 120 then 689 <= minute < 780
    else if i < 240 then minute == 659 + i
    else 899 <= minute
  }

  lemma FallsToItsSlot(minute: Minute, i: nat)
    requires i < 241
    ensures FallsTo(minute, i) <==> Slot(minute) == GridMinute(i)
  {
  }

  /** Trade j of a delivery falls to row i. */
  ghost predicate Falls(ts: Delivery, i: int, j: int) {
    0 <= j < |ts| && ts[j].Some? && FallsTo(ts[j].value.minute, i)
  }

  /** Trade j comes no later than trade k: by the minute, and within a minute as delivered. */
  ghost predicate Sooner(ts: Delivery, j: int, k: int)
    requires 0 <= j < |ts| && 0 <= k < |ts| && ts[j].Some? && ts[k].Some?
  {
    ts[j].value.minute < ts[k].value.minute || (ts[j].value.minute == ts[k].value.minute && j <= k)
  }

  /** Of the trades that fall to row i, a comes first and z last. */
  ghost predicate Spans(ts: Delivery, i: int, a: int, z: int) {
    && Falls(ts, i, a) && Falls(ts, i, z)
    && (forall k :: Falls(ts, i, k) ==> Sooner(ts, a, k) && Sooner(ts, k, z))
  }

  /** A price in yuan and one in milli-yuan are the same. */
  ghost predicate IsPrice(yuan: real, price: int) { yuan * 1000.0 == price as real }

  function Within(i: nat): Trade -> bool { (t: Trade) => FallsTo(t.minute, i) }

  function Any(): Trade -> bool { (t: Trade) => true }

  /** The trades that row i is made of. */
  ghost function Group(ts: Delivery, i: nat): seq<Trade>
    requires forall j :: 0 <= j < |ts| ==> ts[j].Some?
  {
    Pick(SortBy(Values(ts), ByMinute()), SlotOf(), GridMinute(i))
  }

  lemma GroupIsFilter(ts: Delivery, i: nat)
    requires i < 241 && forall j :: 0 <= j < |ts| ==> ts[j].Some?
    ensures Group(ts, i) == Filter(SortBy(Values(ts), ByMinute()), Within(i))
    ensures forall t :: t in Group(ts, i) <==> t in Values(ts) && Within(i)(t)
  {
    var sorted := SortBy(Values(ts), ByMinute());
    forall t | t in sorted ensures Within(i)(t) <==> SlotOf()(t) == GridMinute(i) {
      FallsToItsSlot(t.minute, i);
    }
    PickIsFilter(sorted, SlotOf(), GridMinute(i), Within(i));
    FilterMembers(sorted, Within(i));
  }

  lemma {:induction false} AllPriced(ts: seq<Trade>)
    requires forall t :: t in ts ==> t.price > 0
    ensures Priced(ts) == ts
  {
    if ts != [] {
      assert ts[0] in ts;
      AllPriced(ts[1..]);
    }
  }

  lemma UsablePrices(day: int, ts: Delivery)
    requires AllUsable(ts, day)
    ensures forall t :: t in Values(ts) ==> t.price > 0
  {
    forall t | t in Values(ts) ensures t.price > 0 {
      var j :| 0 <= j < |ts| && Values(ts)[j] == t;
      assert Usable(ts[j], day);
    }
  }

  /** Bar i of a day, as the bar of its group. */
  lemma BarOfGroup(sorted: seq<Trade>, day: int, i: nat, bars: seq<Kline>)
    requires i < 241 && bars == DayBars(sorted, day)
    ensures |bars| == 241
    ensures bars[i] == TradeBar(Pick(sorted, SlotOf(), GridMinute(i)), day * 86400 + GridMinute(i) * 60,
                                if i == 0 then FirstPrice(sorted) else bars[i - 1].close)
  {
    BarsAtShape(sorted, day, Grid(), FirstPrice(sorted));
  }

  lemma RowsOfBars(day: int, ts: Delivery, bars: seq<Kline>)
    requires Minutes(day, ts).Ok? && bars == DayBars(SortBy(Values(ts), ByMinute()), day)
    ensures |Minutes(day, ts).value| == |bars|
    ensures forall i :: 0 <= i < |bars| ==> Minutes(day, ts).value[i] == Synthesized(bars[i], day)
  {
  }

  /** A row says what its bar says, in yuan and shares. */
  ghost predicate Says(b: Bar, k: Kline) {
    && IsPrice(b.open, k.open) && IsPrice(b.high, k.high) && IsPrice(b.low, k.low) && IsPrice(b.close, k.close)
    && b.volume == 100 * k.volume && IsPrice(b.amount, k.amount)
  }

  lemma SynthesizedSays(k: Kline, day: int)
    ensures Says(Synthesized(k, day).bar, k)
  {
  }

  /** Row i of a day and the bar it is made of. */
  lemma RowBar(day: int, ts: Delivery, i: nat) returns (k: Kline, last: int)
    requires Minutes(day, ts).Ok? && i < 241
    ensures |Minutes(day, ts).value| == 241 && Group(ts, i) == Filter(SortBy(Values(ts), ByMinute()), Within(i))
    ensures k == TradeBar(Group(ts, i), day * 86400 + GridMinute(i) * 60, last) && Priced(Group(ts, i)) == Group(ts, i)
    ensures Says(Minutes(day, ts).value[i].bar, k)
    ensures i == 0 ==> last == FirstPrice(SortBy(Values(ts), ByMinute()))
    ensures i > 0 ==> IsPrice(Minutes(day, ts).value[i - 1].bar.close, last)
  {
    var sorted := SortBy(Values(ts), ByMinute());
    var bars := DayBars(sorted, day);
    BarOfGroup(sorted, day, i, bars);
    RowsOfBars(day, ts, bars);
    k := bars[i];
    last := if i == 0 then FirstPrice(sorted) else bars[i - 1].close;
    SynthesizedSays(k, day);
    if i > 0 {
      SynthesizedSays(bars[i - 1], day);
    }
    GroupIsFilter(ts, i);
    UsablePrices(day, ts);
    AllPriced(Group(ts, i));
  }

  lemma FirstInGroup(ts: Delivery, i: nat, a: nat, z: nat)
    requires i < 241 && (forall j :: 0 <= j < |ts| ==> ts[j].Some?) && Spans(ts, i, a, z)
    ensures var g := Filter(SortBy(Values(ts), ByMinute()), Within(i));
      g != [] && g[0] == ts[a].value && g[|g| - 1] == ts[z].value
  {
    var vs := Values(ts);
    forall k | 0 <= k < |vs| && Within(i)(vs[k])
      ensures vs[a].minute < vs[k].minute || (vs[a].minute == vs[k].minute && a <= k)
      ensures vs[k].minute < vs[z].minute || (vs[k].minute == vs[z].minute && k <= z)
    {
      assert Falls(ts, i, k);
    }
    FirstOfSorted(vs, Within(i), ByMinute(), a);
    LastOfSorted(vs, Within(i), ByMinute(), z);
  }

  lemma SomeFall(ts: Delivery, i: nat, j: nat) returns (a: nat, z: nat)
    requires (forall j :: 0 <= j < |ts| ==> ts[j].Some?) && Falls(ts, i, j)
    ensures Spans(ts, i, a, z)
  {
    var vs := Values(ts);
    a := FirstExists(vs, Within(i), ByMinute(), j);
    z := LastExists(vs, Within(i), ByMinute(), j);
    forall k | Falls(ts, i, k) ensures Sooner(ts, a, k) && Sooner(ts, k, z) {
      assert Within(i)(vs[k]);
    }
  }

  /** A trade of a group is one that was delivered. */
  lemma Delivered(ts: Delivery, i: nat, t: Trade) returns (j: nat)
    requires i < 241 && (forall j :: 0 <= j < |ts| ==> ts[j].Some?) && t in Group(ts, i)
    ensures Falls(ts, i, j) && ts[j].value == t
  {
    GroupIsFilter(ts, i);
    j :| j < |ts| && Values(ts)[j] == t;
  }

  /** A rebuilt row to which trades fall, in yuan: it opens at the first of them in time, within a minute as delivered,
      and closes at the last; its high and low are bounds of theirs that some of them attain. */
  lemma RowWithTrades(day: int, ts: Delivery, i: nat, some: nat) returns (a: nat, z: nat, hi: nat, lo: nat)
    requires Minutes(day, ts).Ok? && i < 241 && Falls(ts, i, some)
    ensures |Minutes(day, ts).value| == 241
    ensures Spans(ts, i, a, z) && Falls(ts, i, hi) && Falls(ts, i, lo)
    ensures var b := Minutes(day, ts).value[i].bar;
      && IsPrice(b.open, ts[a].value.price) && IsPrice(b.close, ts[z].value.price)
      && IsPrice(b.high, ts[hi].value.price) && IsPrice(b.low, ts[lo].value.price)
    ensures forall j :: Falls(ts, i, j) ==> ts[lo].value.price <= ts[j].value.price <= ts[hi].value.price
  {
    var k, last := RowBar(day, ts, i);
    a, z := SomeFall(ts, i, some);
    FirstInGroup(ts, i, a, z);
    var g := Group(ts, i);
    var h, l := PricesOccur(g);
    hi := Delivered(ts, i, g[h]);
    lo := Delivered(ts, i, g[l]);
    GroupIsFilter(ts, i);
    PriceRange(g);
    forall j | Falls(ts, i, j) ensures ts[lo].value.price <= ts[j].value.price <= ts[hi].value.price {
      assert Values(ts)[j] in Values(ts);
      assert Values(ts)[j] in g;
    }
  }

  /** The trade that comes first of all. */
  ghost predicate Earliest(ts: Delivery, a: int) {
    0 <= a < |ts| && ts[a].Some? && forall k :: 0 <= k < |ts| && ts[k].Some? ==> Sooner(ts, a, k)
  }

  lemma FirstOfTheDay(day: int, ts: Delivery) returns (a: nat)
    requires ts != [] && AllUsable(ts, day)
    ensures Earliest(ts, a) && FirstPrice(SortBy(Values(ts), ByMinute())) == ts[a].value.price
  {
    var vs := Values(ts);
    a := FirstExists(vs, Any(), ByMinute(), 0);
    FirstOfSorted(vs, Any(), ByMinute(), a);
    FilterAll(SortBy(vs, ByMinute()), Any());
    UsablePrices(day, ts);
    AllPriced(SortBy(vs, ByMinute()));
    forall k | 0 <= k < |ts| && ts[k].Some? ensures Sooner(ts, a, k) {
      assert Any()(vs[k]);
    }
  }

  /** A rebuilt row to which no trade falls is flat at the close of the row before, the first row at the price of the
      day's first trade, and nothing was traded in it. */
  lemma RowWithoutTrades(day: int, ts: Delivery, i: nat) returns (a: nat)
    requires Minutes(day, ts).Ok? && i < 241 && forall j :: !Falls(ts, i, j)
    ensures |Minutes(day, ts).value| == 241 && Earliest(ts, a)
    ensures var b := Minutes(day, ts).value[i].bar;
      && b.open == b.high == b.low == b.close && b.volume == 0 && b.amount == 0.0
      && (i == 0 ==> IsPrice(b.close, ts[a].value.price))
      && (i > 0 ==> b.close == Minutes(day, ts).value[i - 1].bar.close)
  {
    var k, last := RowBar(day, ts, i);
    a := FirstOfTheDay(day, ts);
    if Group(ts, i) != [] {
      var j := Delivered(ts, i, Group(ts, i)[0]);
      assert false;
    }
  }

  /** The lots, and the turnover in milli-yuan at a hundred shares a lot, of the trades that fall to row i. */
  function LotsIn(ts: seq<Trade>, i: nat): int {
    if ts == [] then 0 else (if FallsTo(ts[0].minute, i) then ts[0].volume else 0) + LotsIn(ts[1..], i)
  }

  function TurnoverIn(ts: seq<Trade>, i: nat): int {
    if ts == [] then 0
    else (if FallsTo(ts[0].minute, i) then ts[0].price * ts[0].volume * 100 else 0) + TurnoverIn(ts[1..], i)
  }

  function OnlyIn(i: nat, w: Trade -> int): Trade -> int { (t: Trade) => if FallsTo(t.minute, i) then w(t) else 0 }

  lemma SumHead(ts: seq<Trade>, w: Trade -> int)
    requires ts != []
    ensures Sum(ts, w) == w(ts[0]) + Sum(ts[1..], w)
  {
  }

  lemma {:induction false} SumOfFilter(ts: seq<Trade>, i: nat, w: Trade -> int)
    ensures Sum(Filter(ts, Within(i)), w) == Sum(ts, OnlyIn(i, w))
  {
    if ts != [] {
      SumOfFilter(ts[1..], i, w);
      SumHead(ts, OnlyIn(i, w));
      var rest := Filter(ts[1..], Within(i));
      assert ([ts[0]] + rest)[1..] == rest;
      if FallsTo(ts[0].minute, i) {
        SumHead([ts[0]] + rest, w);
        assert Filter(ts, Within(i)) == [ts[0]] + rest;
      } else {
        assert Filter(ts, Within(i)) == [] + rest == rest;
      }
    }
  }

  lemma OneTrade(t: Trade, i: nat)
    requires t.price > 0
    ensures OnlyIn(i, Lots())(t) == if FallsTo(t.minute, i) then t.volume else 0
    ensures OnlyIn(i, Turnover())(t) == if FallsTo(t.minute, i) then t.price * t.volume * 100 else 0
  {
  }

  lemma {:induction false} SumsAreTotals(ts: seq<Trade>, i: nat)
    requires forall t :: t in ts ==> t.price > 0
    ensures Sum(ts, OnlyIn(i, Lots())) == LotsIn(ts, i) && Sum(ts, OnlyIn(i, Turnover())) == TurnoverIn(ts, i)
  {
    if ts != [] {
      assert ts[0] in ts;
      SumsAreTotals(ts[1..], i);
      SumHead(ts, OnlyIn(i, Lots()));
      SumHead(ts, OnlyIn(i, Turnover()));
      OneTrade(ts[0], i);
    }
  }

  /** A rebuilt row has a hundred shares for each lot of the trades that fall to it, and their turnover. */
  lemma RowTotals(day: int, ts: Delivery, i: nat)
    requires Minutes(day, ts).Ok? && i < 241
    ensures |Minutes(day, ts).value| == 241
    ensures var b := Minutes(day, ts).value[i].bar;
      b.volume == 100 * LotsIn(Values(ts), i) && IsPrice(b.amount, TurnoverIn(Values(ts), i))
  {
    var k, last := RowBar(day, ts, i);
    var vs := Values(ts);
    SumOfFilter(SortBy(vs, ByMinute()), i, Lots());
    SumOfFilter(SortBy(vs, ByMinute()), i, Turnover());
    SortSums(vs, ByMinute(), OnlyIn(i, Lots()));
    SortSums(vs, ByMinute(), OnlyIn(i, Turnover()));
    UsablePrices(day, ts);
    SumsAreTotals(vs, i);
    if Group(ts, i) == [] {
      UnpricedWeighNothing(Group(ts, i));
    }
  }

  /** Row i stands for minute 570 + i of the day, the second half of the rows one and a half hours later. */
  lemma RowTime(day: int, ts: Delivery, i: nat)
    requires Minutes(day, ts).Ok? && i < 241
    ensures |Minutes(day, ts).value| == 241
    ensures Minutes(day, ts).value[i].unix == day * 86400 + (570 + i + if i > 120 then 90 else 0) * 60
    ensures !Minutes(day, ts).value[i].bar.native
  {
    MinutesCoverTheDay(day, ts);
  }

  /** A trade that can be used: there, of that day, at a price, from 9:25 to 11:30 or from 13:00 to 15:00. */
  ghost predicate InHours(t: Option<Trade>, day: int) {
    && t.Some? && t.value.day == day && t.value.price > 0 && t.value.volume >= 0
    && (9 * 60 + 25 <= t.value.minute <= 11 * 60 + 30 || 13 * 60 <= t.value.minute <= 15 * 60)
  }

  lemma {:induction false} SumOfLots(ts: seq<Trade>)
    requires forall t :: t in ts ==> t.price > 0 && t.volume >= 0
    ensures Sum(ts, Lots()) >= 0 && (Sum(ts, Lots()) == 0 <==> forall t :: t in ts ==> t.volume == 0)
  {
    if ts != [] {
      assert ts[0] in ts;
      SumOfLots(ts[1..]);
      SumHead(ts, Lots());
      assert forall t :: t in ts <==> t == ts[0] || t in ts[1..];
    }
  }

  /** A day is rebuilt exactly when all that was delivered can be used and some of it has volume. */
  lemma RebuiltExactlyWhen(day: int, ts: Delivery)
    ensures Minutes(day, ts).Ok?
       <==> (forall j :: 0 <= j < |ts| ==> InHours(ts[j], day)) && exists j :: 0 <= j < |ts| && ts[j].value.volume > 0
  {
    assert AllUsable(ts, day) <==> forall j :: 0 <= j < |ts| ==> InHours(ts[j], day) by {
      forall j | 0 <= j < |ts| ensures Usable(ts[j], day) <==> InHours(ts[j], day) {
      }
    }
    if AllUsable(ts, day) {
      VolumeShows(day, ts);
    }
  }

  lemma VolumeShows(day: int, ts: Delivery)
    requires AllUsable(ts, day)
    ensures Sum(Values(ts), Lots()) == 0 <==> forall j :: 0 <= j < |ts| ==> ts[j].value.volume == 0
    ensures forall j :: 0 <= j < |ts| ==> ts[j].value.volume >= 0
  {
    var vs := Values(ts);
    forall t | t in vs ensures t.price > 0 && t.volume >= 0 {
      var j :| 0 <= j < |ts| && vs[j] == t;
      assert Usable(ts[j], day);
    }
    SumOfLots(vs);
    forall j | 0 <= j < |ts| ensures vs[j] in vs && ts[j].value.volume >= 0 {
      assert Usable(ts[j], day);
    }
    if forall j :: 0 <= j < |ts| ==> ts[j].value.volume == 0 {
      forall t | t in vs ensures t.volume == 0 {
        var j :| 0 <= j < |ts| && vs[j] == t;
      }
    }
  }

  // ---------------------------------------------------------------- when filling succeeds

  /** What was delivered for a day is enough to rebuild it. */
  ghost predicate Rebuildable(delivered: Result<Delivery>, day: int) {
    && delivered.Ok?
    && (forall j :: 0 <= j < |delivered.value| ==> InHours(delivered.value[j], day))
    && exists j :: 0 <= j < |delivered.value| && delivered.value[j].value.volume > 0
  }

  lemma OneDayFills(rows: Rows, from: int, day: int, delivered: Result<Delivery>)
    ensures FillDay(rows, from, day, delivered).ok <==> HasDay(rows, day) || Rebuildable(delivered, day)
  {
    if delivered.Ok? {
      RebuiltExactlyWhen(day, delivered.value);
    }
  }

  lemma OtherDaysDoNotHelp(rows: Rows, r: Rows, from: int, dates: seq<int>, day: int)
    requires Grown(rows, r, from, dates) && day !in dates
    ensures HasDay(r, day) <==> HasDay(rows, day)
  {
    forall i | 0 <= i < 241 ensures At(day, i) in r <==> At(day, i) in rows {
      AtIsThatDay(day, i);
    }
  }

  /** Filling succeeds exactly when each of the dates has all its minutes already or was delivered well enough to be
      rebuilt. */
  lemma {:induction false} FillSucceedsExactlyWhen(rows: Rows, from: int, dates: seq<int>,
                                                   trades: int -> Result<Delivery>)
    requires forall i, j :: 0 <= i < j < |dates| ==> dates[i] != dates[j]
    ensures FillDays(rows, from, dates, trades).ok
       <==> forall d :: d in dates ==> HasDay(rows, d) || Rebuildable(trades(d), d)
  {
    if dates != [] {
      var front, d := dates[..|dates| - 1], dates[|dates| - 1];
      FillSucceedsExactlyWhen(rows, from, front, trades);
      FilledDays(rows, from, front, trades);
      var before := FillDays(rows, from, front, trades);
      OtherDaysDoNotHelp(rows, before.rows, from, front, d);
      OneDayFills(before.rows, from, d, trades(d));
      assert forall e :: e in dates <==> e in front || e == d;
    }
  }
}
