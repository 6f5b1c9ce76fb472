/** The research database (extend/research/store.go, extend/research/history.go): what it lets in, what it keeps,
    and what its answers are worth. */
module ResearchStore {
  import opened AdjustedBars
  import opened AffineAdjust
  import opened Grouping
  import opened HistoryPaging
  import opened Klines
  import opened Results

  /** A date as text: left out, not a date, or a date. */
  datatype DateText = Absent | Malformed | On(date: int)

  /** A bar as it comes in, in yuan. */
  datatype NewBar = NewBar(symbol: string, date: DateText, open: real, high: real, low: real, close: real,
                           volume: int, amount: real)

  /** An action as it comes in; its time may be the zero time. */
  datatype NewAction = NewAction(code: string, date: Option<int>, category: int, c1: real, c2: real, c3: real, c4: real)

  /** A source record that could not be used. */
  datatype Issue = Issue(symbol: string, dateText: string, row: int, fileHash: string, reason: string, rawHex: string)

  predicate IsDigit(c: char) { '0' <= c <= '9' }

  /** The pattern of a symbol: exchange and six digits. */
  predicate ValidSymbol(s: string) {
    |s| == 8 && s[..2] in ["sh", "sz", "bj"] && forall i :: 2 <= i < 8 ==> IsDigit(s[i])
  }

  /** Bar.validate. */
  predicate ValidBar(b: NewBar) {
    && ValidSymbol(b.symbol) && b.date.On?
    && b.open >= 0.0 && b.high >= 0.0 && b.low >= 0.0 && b.close >= 0.0 && b.amount >= 0.0
    && !(b.open <= 0.0 || b.low <= 0.0 || b.close <= 0.0
         || b.high < (if b.open < b.close then b.close else b.open)
         || b.low > (if b.open < b.close then b.open else b.close)
         || b.volume < 0)
  }

  /** milli: yuan to whole milli-yuan. */
  function Milli(v: real): int { Round(v * 1000.0) }

  function Stored(b: NewBar): Bar
    requires b.date.On?
  {
    Bar(b.date.date, Milli(b.open), Milli(b.high), Milli(b.low), Milli(b.close), b.volume, b.amount)
  }

  predicate AllDated(bars: seq<NewBar>) { forall i :: 0 <= i < |bars| ==> bars[i].date.On? }

  function AllStored(bars: seq<NewBar>): (r: seq<Bar>)
    requires AllDated(bars)
    ensures |r| == |bars|
  {
    seq(|bars|, i requires 0 <= i < |bars| => Stored(bars[i]))
  }

  predicate GoodAction(a: Option<NewAction>, symbol: string) {
    a.Some? && a.value.code == symbol && a.value.date.Some?
  }

  predicate GoodActions(actions: seq<Option<NewAction>>, symbol: string) {
    forall i :: 0 <= i < |actions| ==> GoodAction(actions[i], symbol)
  }

  function Recorded(a: NewAction): Action
    requires a.date.Some?
  {
    Action(a.date.value, a.category, a.c1, a.c2, a.c3, a.c4)
  }

  function AllRecorded(actions: seq<Option<NewAction>>): (r: seq<Action>)
    requires forall i :: 0 <= i < |actions| ==> actions[i].Some? && actions[i].value.date.Some?
    ensures |r| == |actions|
  {
    seq(|actions|, i requires 0 <= i < |actions| => Recorded(actions[i].value))
  }

  /** What UpsertWithIssues lets in: one symbol's bars, actions and issues, all of them in order. */
  predicate Acceptable(symbol: string, bars: seq<NewBar>, actions: Option<seq<Option<NewAction>>>, issues: seq<Issue>) {
    && ValidSymbol(symbol)
    && (forall i :: 0 <= i < |bars| ==> bars[i].symbol == symbol && ValidBar(bars[i]))
    && (actions.Some? ==> GoodActions(actions.value, symbol))
    && (forall i :: 0 <= i < |issues| ==> issues[i].symbol == symbol)
  }

  /** The key of an issue. */
  type IssueKey = (string, string, int)

  function KeyOfIssue(e: Issue): IssueKey { (e.symbol, e.fileHash, e.row) }

  /** INSERT ... ON CONFLICT DO NOTHING: what is on record stays. */
  function PutIssues(known: map<IssueKey, Issue>, issues: seq<Issue>): map<IssueKey, Issue> {
    if issues == [] then known
    else
      var m := PutIssues(known, issues[..|issues| - 1]);
      var e := issues[|issues| - 1];
      if KeyOfIssue(e) in m then m else m[KeyOfIssue(e) := e]
  }

  /** A request for a page, as it comes in. */
  datatype Request = Request(symbol: string, fund: bool, adjust: Option<Mode>,
                             start: DateText, end: DateText, limit: int)

  function Bound(t: DateText): Option<int> { if t.On? then Some(t.date) else None }

  /** The query a request and its cursor stand for, unless they are malformed. */
  function Understood(r: Request, before: DateText): Option<Query> {
    if !ValidSymbol(r.symbol) || !r.end.On? || r.start.Malformed? || before.Malformed? || r.adjust == None then None
    else Some(Query(r.symbol, r.fund, r.adjust.value, Bound(r.start), r.end.date, r.limit))
  }

  /** Every stored bar spans its own open and close. */
  ghost predicate AllSound(c: Contents) {
    forall s, b :: s in c.series && b in c.series[s].bars ==> Sound(KlineOf(b))
  }

  /** Rounding to milli-yuan keeps a bar that was let in sound. */
  lemma StoredIsSound(b: NewBar)
    requires ValidBar(b)
    ensures Sound(KlineOf(Stored(b)))
  {
    RoundIsMonotone(b.low * 1000.0, b.open * 1000.0);
    RoundIsMonotone(b.low * 1000.0, b.close * 1000.0);
    RoundIsMonotone(b.open * 1000.0, b.high * 1000.0);
    RoundIsMonotone(b.close * 1000.0, b.high * 1000.0);
  }

  lemma {:induction false} LastForIsOne(more: seq<Bar>, date: int)
    ensures LastFor(more, date).Some? ==> LastFor(more, date).value in more
  {
    if more != [] {
      LastForIsOne(more[1..], date);
    }
  }

  /** An accepted upsert of bars that were let in keeps every stored bar sound. */
  lemma UpsertKeepsSound(c: Contents, symbol: string, bars: seq<NewBar>, actions: Option<seq<Action>>)
    requires c.Valid() && AllSound(c) && AllDated(bars) && forall i :: 0 <= i < |bars| ==> ValidBar(bars[i])
    ensures AllSound(Upserted(c, symbol, AllStored(bars), actions))
  {
    var more := AllStored(bars);
    assert Keyed(c.Of(symbol));
    forall b | b in PutBars(c.Of(symbol).bars, more) ensures Sound(KlineOf(b)) {
      RefreshOverlays(c.Of(symbol).bars, more, b);
      LastForIsOne(more, b.date);
      if b in more {
        var i :| 0 <= i < |more| && more[i] == b;
        StoredIsSound(bars[i]);
      }
    }
  }

  class Store {
    var contents: Contents
    var issues: map<IssueKey, Issue>

    constructor ()
      ensures contents == Contents(map[], 0) && issues == map[] && Valid()
    {
      contents, issues := Contents(map[], 0), map[];
    }

    /** Keys are unique, and every bar is sound. */
    ghost predicate Valid()
      reads this
    {
      contents.Valid() && AllSound(contents)
    }

    /** The checks before the transaction. */
    method Check(symbol: string, bars: seq<NewBar>, actions: seq<Option<NewAction>>) returns (ok: bool)
      ensures ok <==> Acceptable(symbol, bars, Some(actions), [])
    {
      if !ValidSymbol(symbol) {
        return false;
      }
      for i := 0 to |bars|
        invariant forall j :: 0 <= j < i ==> bars[j].symbol == symbol && ValidBar(bars[j])
      {
        if bars[i].symbol != symbol || !ValidBar(bars[i]) {
          return false;
        }
      }
      for i := 0 to |actions|
        invariant forall j :: 0 <= j < i ==> GoodAction(actions[j], symbol)
      {
        if actions[i] == None || actions[i].value.code != symbol || actions[i].value.date == None {
          return false;
        }
      }
      return true;
    }

    /** The stored bars with the new ones laid over them, a thousand rows a statement. */
    method LayOver(stored: seq<Bar>, bars: seq<Bar>) returns (rows: seq<Bar>)
      ensures rows == PutBars(stored, bars)
    {
      rows := stored;
      var start := 0;
      while start < |bars|
        invariant 0 <= start <= |bars| && PutBars(rows, bars[start..]) == PutBars(stored, bars)
      {
        var end := if start + 1000 > |bars| then |bars| else start + 1000;
        PutInTwo(rows, bars[start..end], bars[end..]);
        assert bars[start..end] + bars[end..] == bars[start..];
        rows := PutBars(rows, bars[start..end]);
        start := end;
      }
    }

    /** The issues of one symbol added to those on record; refused if one is of another symbol. */
    method Quarantine(symbol: string, news: seq<Issue>) returns (r: Result<map<IssueKey, Issue>>)
      ensures r.Ok? <==> forall i :: 0 <= i < |news| ==> news[i].symbol == symbol
      ensures r.Ok? ==> r.value == PutIssues(issues, news)
    {
      var m := issues;
      for i := 0 to |news|
        invariant forall j :: 0 <= j < i ==> news[j].symbol == symbol
        invariant m == PutIssues(issues, news[..i])
      {
        if news[i].symbol != symbol {
          return Err;
        }
        assert news[..i + 1][..i] == news[..i];
        var key := KeyOfIssue(news[i]);
        m := if key in m then m else m[key := news[i]];
      }
      assert news[..|news|] == news;
      return Ok(m);
    }

    /** UpsertWithIssues: checked first, then one transaction, rolled back as a whole when anything in it fails;
        nil actions are actions that were not checked. */
    method Upsert(symbol: string, bars: seq<NewBar>, actions: Option<seq<Option<NewAction>>>,
                  news: seq<Issue>, fails: bool)
      returns (ok: bool)
      requires Valid()
      modifies this
      ensures Valid() && (ok <==> Acceptable(symbol, bars, actions, news) && !fails)
      ensures ok ==>
        contents == Upserted(old(contents), symbol, AllStored(bars),
                             if actions.Some? then Some(AllRecorded(actions.value)) else None)
      ensures ok ==> issues == PutIssues(old(issues), news)
      ensures !ok ==> contents == old(contents) && issues == old(issues)
    {
      ok := Check(symbol, bars, if actions.Some? then actions.value else []);
      if !ok {
        return;
      }
      ghost var before := contents;
      var acts := if actions.Some? then Some(AllRecorded(actions.value)) else None;
      var stored := contents.Of(symbol);
      var rows := LayOver(stored.bars, AllStored(bars));
      var kept := if acts.Some? then PutActions([], acts.value) else stored.actions;
      var quarantined := Quarantine(symbol, news);
      if quarantined == Err || fails {
        return false;
      }
      contents := Contents(contents.series[symbol := Series(rows, kept, acts.Some?)], contents.revision + 1);
      issues := quarantined.value;
      UpsertKeepsKeys(before, symbol, AllStored(bars), acts);
      UpsertKeepsSound(before, symbol, bars, acts);
    }

    /** QueryBarsPage. */
    method QueryBarsPage(r: Request, before: DateText, version: Option<nat>) returns (page: Result<Page>)
      requires Valid()
      ensures page == if Understood(r, before) == None then Err
                      else PageAt(contents, Understood(r, before).value, Bound(before), version)
    {
      if !ValidSymbol(r.symbol) || !r.end.On? {
        return Err;
      }
      if !r.start.Absent? && (r.start.Malformed? || r.start.date > r.end.date) {
        return Err;
      }
      if before.Malformed? || r.adjust == None {
        return Err;
      }
      if r.limit < 1 || r.limit > 1000 {
        return Err;
      }
      page := Page(Understood(r, before).value, Bound(before), version);
    }

    /** The page of a request that is in order. */
    method Page(q: Query, before: Option<int>, version: Option<nat>) returns (r: Result<Page>)
      requires Valid() && Wellformed(q)
      ensures r == PageAt(contents, q, before, version)
    {
      if version.Some? && version.value != contents.revision {
        return Err;
      }
      var s := contents.Of(q.symbol);
      assert Keyed(s);
      if q.mode != Raw && (!s.checked || Filter(s.bars, Known(q.end)) == []) {
        return Err;
      }
      InOrderIsAdjusted(s.bars, s.actions, q.mode, q.end, q.fund);
      var adjusted := Adjust(s.bars, s.actions, q.mode, q.end, q.fund);
      if adjusted == Err {
        return Err;
      }
      var page := Newest(adjusted.value, q.start, before, q.limit, contents.revision);
      return Ok(page);
    }
  }

  // ---------------------------------------------------------------- what is kept of what came in

  /** The symbols there are: sh, sz or bj, and six digits. */
  lemma SymbolsLetIn(s: string)
    ensures ValidSymbol(s)
       <==> |s| == 8 && ((s[0] == 's' && (s[1] == 'h' || s[1] == 'z')) || (s[0] == 'b' && s[1] == 'j'))
            && forall i :: 2 <= i < 8 ==> '0' <= s[i] <= '9'
  {
    if |s| == 8 {
      assert s[..2] == [s[0], s[1]];
    }
  }

  /** The bars let in: of a good symbol on a real date, at positive prices, the open and the close between low and high,
      with no negative volume or amount. */
  lemma BarsLetIn(b: NewBar)
    ensures ValidBar(b)
       <==> ValidSymbol(b.symbol) && b.date.On? && 0.0 < b.low
            && b.low <= b.open <= b.high && b.low <= b.close <= b.high && b.volume >= 0 && b.amount >= 0.0
  {
  }

  /** A stored bar is a bar that came in, at prices rounded to the milli-yuan. */
  ghost predicate StoredAs(b: NewBar, s: Bar) {
    && b.date == On(s.date) && s.volume == b.volume && s.amount == b.amount
    && IsRounded(b.open * 1000.0, s.open) && IsRounded(b.high * 1000.0, s.high)
    && IsRounded(b.low * 1000.0, s.low) && IsRounded(b.close * 1000.0, s.close)
  }

  lemma StoredRounded(b: NewBar)
    requires b.date.On?
    ensures StoredAs(b, Stored(b))
  {
    RoundIsRounded(b.open * 1000.0);
    RoundIsRounded(b.high * 1000.0);
    RoundIsRounded(b.low * 1000.0);
    RoundIsRounded(b.close * 1000.0);
  }

  lemma {:induction false} LastForDate(more: seq<Bar>, i: nat)
    requires i < |more| && forall j :: i < j < |more| ==> more[j].date != more[i].date
    ensures LastFor(more, more[i].date) == Some(more[i])
  {
    if i > 0 {
      forall j | i - 1 < j < |more[1..]| ensures more[1..][j].date != more[i].date {
        assert more[1..][j] == more[j + 1];
      }
      LastForDate(more[1..], i - 1);
    } else {
      NoneForDate(more[1..], more[0].date);
    }
  }

  lemma {:induction false} NoneForDate(more: seq<Bar>, date: int)
    requires forall j :: 0 <= j < |more| ==> more[j].date != date
    ensures LastFor(more, date) == None
  {
    if more != [] {
      NoneForDate(more[1..], date);
    }
  }

  /** A committed upsert stores each bar that came in, unless a later one of it has the same date. */
  lemma UpsertStoresBars(c: Contents, symbol: string, bars: seq<NewBar>, actions: Option<seq<Action>>, i: nat)
    returns (s: Bar)
    requires c.Valid() && AllDated(bars) && i < |bars|
    requires forall j :: i < j < |bars| ==> bars[j].date != bars[i].date
    ensures s in Upserted(c, symbol, AllStored(bars), actions).Of(symbol).bars && StoredAs(bars[i], s)
  {
    var more := AllStored(bars);
    s := more[i];
    StoredRounded(bars[i]);
    assert Keyed(c.Of(symbol));
    forall j | i < j < |more| ensures more[j].date != more[i].date {
      assert bars[j].date != bars[i].date;
    }
    LastForDate(more, i);
    RefreshOverlays(c.Of(symbol).bars, more, s);
  }

  /** A stored action is one that came in. */
  ghost predicate RecordedAs(a: NewAction, r: Action) {
    && a.date == Some(r.date) && r.category == a.category
    && r.c1 == a.c1 && r.c2 == a.c2 && r.c3 == a.c3 && r.c4 == a.c4
  }

  lemma {:induction false} PutActionHolds(actions: seq<Action>, a: Action, x: Action)
    ensures a in PutAction(actions, a)
    ensures x in actions && !SameKey(x, a) ==> x in PutAction(actions, a)
  {
    if actions != [] {
      PutActionHolds(actions[1..], a, x);
      assert x in actions ==> x == actions[0] || x in actions[1..];
      var r := PutAction(actions, a);
      if SameKey(actions[0], a) {
        assert r == [a] + actions[1..];
      } else {
        assert r == [actions[0]] + PutAction(actions[1..], a);
      }
    }
  }

  lemma {:induction false} PutActionsHold(actions: seq<Action>, more: seq<Action>, x: Action)
    requires x in actions && forall j :: 0 <= j < |more| ==> !SameKey(x, more[j])
    ensures x in PutActions(actions, more)
    decreases more
  {
    if more != [] {
      PutActionHolds(actions, more[0], x);
      forall j | 0 <= j < |more[1..]| ensures !SameKey(x, more[1..][j]) {
        assert more[1..][j] == more[j + 1];
      }
      PutActionsHold(PutAction(actions, more[0]), more[1..], x);
    }
  }

  lemma {:induction false} LastActionHolds(actions: seq<Action>, more: seq<Action>, i: nat)
    requires i < |more| && forall j :: i < j < |more| ==> !SameKey(more[i], more[j])
    ensures more[i] in PutActions(actions, more)
    decreases more
  {
    if i == 0 {
      PutActionHolds(actions, more[0], more[0]);
      forall j | 0 <= j < |more[1..]| ensures !SameKey(more[0], more[1..][j]) {
        assert more[1..][j] == more[j + 1];
      }
      PutActionsHold(PutAction(actions, more[0]), more[1..], more[0]);
    } else {
      forall j | i - 1 < j < |more[1..]| ensures !SameKey(more[1..][i - 1], more[1..][j]) {
        assert more[1..][j] == more[j + 1];
      }
      LastActionHolds(PutAction(actions, more[0]), more[1..], i - 1);
    }
  }

  /** A committed upsert with checked actions stores each of them, unless a later one has its date and category. */
  lemma UpsertStoresActions(c: Contents, symbol: string, bars: seq<Bar>, actions: seq<Option<NewAction>>, i: nat)
    returns (r: Action)
    requires i < |actions| && forall j :: 0 <= j < |actions| ==> actions[j].Some? && actions[j].value.date.Some?
    requires forall j :: i < j < |actions| ==>
      actions[j].value.date != actions[i].value.date || actions[j].value.category != actions[i].value.category
    ensures r in Upserted(c, symbol, bars, Some(AllRecorded(actions))).Of(symbol).actions
    ensures RecordedAs(actions[i].value, r)
  {
    var more := AllRecorded(actions);
    r := more[i];
    LastActionHolds([], more, i);
  }

  /** An issue on record stays as it is, and a new one is on record afterwards, the first of several with one key. */
  lemma {:induction false} IssuesStay(known: map<IssueKey, Issue>, issues: seq<Issue>, k: IssueKey)
    ensures k in known ==> k in PutIssues(known, issues) && PutIssues(known, issues)[k] == known[k]
    ensures k in PutIssues(known, issues)
       <==> k in known || exists i :: 0 <= i < |issues| && (issues[i].symbol, issues[i].fileHash, issues[i].row) == k
    ensures k !in known && k in PutIssues(known, issues) ==>
      exists i :: 0 <= i < |issues| && PutIssues(known, issues)[k] == issues[i] && KeyOfIssue(issues[i]) == k
                  && forall j :: 0 <= j < i ==> KeyOfIssue(issues[j]) != k
  {
    if issues != [] {
      var front, z := issues[..|issues| - 1], issues[|issues| - 1];
      IssuesStay(known, front, k);
      assert forall i :: 0 <= i < |front| ==> issues[i] == front[i];
      if k in PutIssues(known, front) && k !in known {
        var i :| 0 <= i < |front| && PutIssues(known, front)[k] == front[i] && KeyOfIssue(front[i]) == k
                 && forall j :: 0 <= j < i ==> KeyOfIssue(front[j]) != k;
        assert PutIssues(known, issues)[k] == issues[i];
      } else if KeyOfIssue(z) == k && k !in known {
        assert PutIssues(known, issues)[k] == issues[|issues| - 1];
        assert forall j :: 0 <= j < |issues| - 1 ==> KeyOfIssue(issues[j]) != k;
      }
    }
  }

  // ---------------------------------------------------------------- what an answer is worth

  /** A fund's price lands within half a milli-yuan of the exact affine value. */
  ghost predicate FundLands(f: Affine, raw: int, price: int) {
    && -0.5 <= price as real - 1000.0 * Apply(f, Yuan(raw)) <= 0.5
    && IsRounded(1000.0 * Apply(f, Yuan(raw)), price)
  }

  lemma FundPriceIsNear(f: Affine, raw: int)
    ensures FundLands(f, raw, FundPrice(f, raw))
  {
    RoundIsNearest(Apply(f, Yuan(raw)) * 1000.0);
    RoundIsRounded(Apply(f, Yuan(raw)) * 1000.0);
  }

  lemma FundPriceIsMonotone(f: Affine, p: int, q: int)
    requires f.mul > 0.0 && p <= q
    ensures FundPrice(f, p) <= FundPrice(f, q)
  {
    assert f.mul * (Yuan(q) - Yuan(p)) >= 0.0;
    RoundIsMonotone(Apply(f, Yuan(p)) * 1000.0, Apply(f, Yuan(q)) * 1000.0);
  }

  /** One price of an answer: whole cents for a stock, whole milli-yuan for a fund, and as near as that allows. */
  ghost predicate PriceLands(f: Affine, raw: int, price: int, fund: bool) {
    if fund then FundLands(f, raw, price) else Lands(f, raw, price)
  }

  ghost predicate Lands4(f: Affine, b: Bar, out: Bar, fund: bool) {
    && PriceLands(f, b.open, out.open, fund) && PriceLands(f, b.high, out.high, fund)
    && PriceLands(f, b.low, out.low, fund) && PriceLands(f, b.close, out.close, fund)
  }

  lemma FundBarIsSound(b: Bar, f: Affine)
    requires f.mul > 0.0 && Sound(KlineOf(b))
    ensures Sound(KlineOf(AdjustedBar(b, f, true))) && Lands4(f, b, AdjustedBar(b, f, true), true)
  {
    FundPriceIsNear(f, b.open);
    FundPriceIsNear(f, b.high);
    FundPriceIsNear(f, b.low);
    FundPriceIsNear(f, b.close);
    FundPriceIsMonotone(f, b.low, b.open);
    FundPriceIsMonotone(f, b.low, b.close);
    FundPriceIsMonotone(f, b.open, b.high);
    FundPriceIsMonotone(f, b.close, b.high);
  }

  lemma AdjustedBarIsSound(b: Bar, f: Affine, fund: bool)
    requires f.mul > 0.0 && Sound(KlineOf(b))
    ensures Sound(KlineOf(AdjustedBar(b, f, fund))) && Lands4(f, b, AdjustedBar(b, f, fund), fund)
  {
    if fund {
      FundBarIsSound(b, f);
    } else {
      AdjustKeepsOrder(KlineOf(b), f);
    }
  }

  /** The bars an adjusted answer starts from, and the factor of each of them. */
  ghost function KnownBars(c: Contents, q: Query): seq<Bar> { Filter(c.Of(q.symbol).bars, Known(q.end)) }

  ghost function KnownExDays(c: Contents, q: Query): seq<XRXD> {
    ExDays(Filter(c.Of(q.symbol).actions, KnownAction(q.end)))
  }

  ghost function FactorFor(c: Contents, q: Query, i: nat): Affine
    requires i < |KnownBars(c, q)|
  {
    ModeFactor(FactorsOf(KlinesOf(KnownBars(c, q)), KnownExDays(c, q))[i], q.mode)
  }

  lemma FactorIsPositive(c: Contents, q: Query, i: nat)
    requires c.Valid() && i < |KnownBars(c, q)| && SharesStayPositive(KnownExDays(c, q))
    ensures FactorFor(c, q, i).mul > 0.0
  {
    assert Keyed(c.Of(q.symbol));
    var n := KnownIsPrefix(c.Of(q.symbol).bars, q.end);
    KlinesInOrder(KnownBars(c, q));
    FilteredKeys(c.Of(q.symbol).actions, q.end);
    ExDaysAreDistinct(Filter(c.Of(q.symbol).actions, KnownAction(q.end)));
    MulsArePositive(KlinesOf(KnownBars(c, q)), KnownExDays(c, q), i);
  }

  /** Every answer of the store: bar for bar the stored ones of the window, each spanning its own open and close,
      and each adjusted price within half a cent, for funds half a milli-yuan, of the exact affine value of the
      bar's own day, if no action takes away more than all shares. */
  lemma AnswerIsSound(c: Contents, q: Query, i: nat)
    requires c.Valid() && AllSound(c) && Answer(c, q).Ok? && i < |Answer(c, q).value|
    requires q.mode != Raw ==> SharesStayPositive(KnownExDays(c, q))
    ensures i < |KnownBars(c, q)|
    ensures var b, out := KnownBars(c, q)[i], Answer(c, q).value[i];
      && out.date == b.date && out.volume == b.volume && out.amount == b.amount
      && Sound(KlineOf(out))
      && (if q.mode == Raw then out == b else Lands4(FactorFor(c, q, i), b, out, q.fund))
  {
    var known := KnownBars(c, q);
    FilterMembers(c.Of(q.symbol).bars, Known(q.end));
    assert known[i] in known;
    assert known[i] in c.Of(q.symbol).bars;
    if q.mode != Raw {
      FactorIsPositive(c, q, i);
      AdjustedBarIsSound(known[i], FactorFor(c, q, i), q.fund);
    }
  }
}
