/** When the daily update is started again, and for which symbols (extend/research/service.go: scheduleTick,
    scheduleRetry, start; extend/research/store.go: recovery in Open). Times are seconds. */
module RetrySchedule {
  import Calendar
  import opened Grouping
  import opened JobLedger
  import opened Results
  import opened Sorting

  /** The Shanghai calendar day of an instant. */
  function DateOf(now: int): int { Calendar.Day(now + SHANGHAI) }

  /** Eight hours east, and half an hour between attempts. */
  const SHANGHAI: int := 28800
  const WAIT: int := 1800

  /** A ledger record and its id. */
  datatype Listed = Listed(id: nat, job: Job)

  function OnDate(date: int): Listed -> bool { (l: Listed) => l.job.date == Some(date) }

  function EndedAt(j: Job): int { if j.finished.Some? then j.finished.value else j.started }

  /** A record that rules out another attempt for now. */
  predicate Blocks(now: int, j: Job) {
    j.state == Succeeded || j.state == Running || now - EndedAt(j) < WAIT
  }

  /** The record started last; of several started together, the first listed. */
  function Latest(js: seq<Listed>): Option<Listed> {
    if js == [] then None
    else
      var r := Latest(js[..|js| - 1]);
      var z := js[|js| - 1];
      if r == None || z.job.started > r.value.job.started then Some(z) else r
  }

  /** A record without a retry list although it processed something: written by an older version. */
  predicate NoPlan(j: Job) { j.retry == [] && j.processed > 0 }

  /** Such a record still gives a plan if its error list is complete and it went through all symbols. */
  predicate ErrorsTellAll(j: Job) {
    j.failures != 0 && |j.errors| == j.failures && j.total <= j.processed
    && (j.total == 0 ==> j.state != Interrupted && j.error == SymbolsFailed(j.failures))
  }

  function Number(): int -> int { (x: int) => x }

  ghost predicate IsPlan(j: Job, symbols: seq<Symbol>) {
    if NoPlan(j)
    then ErrorsTellAll(j) && StrictlyBy(symbols, Number()) && forall x :: x in symbols <==> x in j.errors
    else symbols == j.retry
  }

  /** What scheduleRetry says for a ledger at an instant. */
  ghost predicate Ready(now: int, jobs: seq<Listed>, symbols: seq<Symbol>, retryOf: Option<nat>) {
    var today := Filter(jobs, OnDate(DateOf(now)));
    && (forall l :: l in today ==> !Blocks(now, l.job))
    && |today| < 3
    && match Latest(today)
       case None => symbols == [] && retryOf == None
       case Some(l) => retryOf == Some(l.id) && IsPlan(l.job, symbols)
  }

  lemma LatestSnoc(js: seq<Listed>, z: Listed)
    ensures Latest(js + [z])
       == var r := Latest(js); if r == None || z.job.started > r.value.job.started then Some(z) else r
  {
    assert (js + [z])[..|js|] == js;
  }

  lemma {:induction false} LatestIsLatest(js: seq<Listed>)
    ensures Latest(js) == None <==> js == []
    ensures Latest(js).Some? ==> Latest(js).value in js
    ensures Latest(js).Some? ==> forall l :: l in js ==> l.job.started <= Latest(js).value.job.started
  {
    if js != [] {
      var front, z := js[..|js| - 1], js[|js| - 1];
      LatestIsLatest(front);
      assert js == front + [z];
      assert forall l :: l in js ==> l in front || l == z;
    }
  }

  /** The symbols of a complete error list, in order. */
  method Sorted(errors: set<Symbol>) returns (symbols: seq<Symbol>)
    ensures StrictlyBy(symbols, Number())
    ensures forall x :: x in symbols <==> x in errors
  {
    symbols := [];
    var rest := errors;
    while rest != {}
      invariant rest <= errors
      invariant forall x :: x in symbols <==> x in errors && x !in rest
      invariant forall i, j :: 0 <= i < j < |symbols| ==> symbols[i] != symbols[j]
      decreases rest
    {
      var x := AnyOf(rest);
      symbols, rest := symbols + [x], rest - {x};
    }
    SortStrict(symbols, Number());
    symbols := SortBy(symbols, Number());
  }

  /** What the first loop of scheduleRetry has found out after some records: the date's attempts, the latest of
      them, and that none of them stands in the way. */
  ghost predicate Scanned(now: int, jobs: seq<Listed>, attempts: nat, latest: Option<Listed>) {
    var today := Filter(jobs, OnDate(DateOf(now)));
    attempts == |today| && latest == Latest(today) && forall l :: l in today ==> !Blocks(now, l.job)
  }

  lemma ScanOne(now: int, jobs: seq<Listed>, l: Listed, attempts: nat, latest: Option<Listed>)
    requires Scanned(now, jobs, attempts, latest)
    ensures l.job.date != Some(DateOf(now)) ==> Scanned(now, jobs + [l], attempts, latest)
    ensures l.job.date == Some(DateOf(now)) && !Blocks(now, l.job) ==>
      Scanned(now, jobs + [l], attempts + 1,
              if latest == None || l.job.started > latest.value.job.started then Some(l) else latest)
  {
    FilterSnoc(jobs, l, OnDate(DateOf(now)));
    LatestSnoc(Filter(jobs, OnDate(DateOf(now))), l);
  }

  lemma OneBlocks(now: int, jobs: seq<Listed>, i: nat)
    requires i < |jobs| && jobs[i].job.date == Some(DateOf(now)) && Blocks(now, jobs[i].job)
    ensures forall ss, r :: !Ready(now, jobs, ss, r)
  {
    FilterMembers(jobs, OnDate(DateOf(now)));
    assert jobs[i] in Filter(jobs, OnDate(DateOf(now)));
  }

  /** The first loop of scheduleRetry. */
  method Scan(now: int, jobs: seq<Listed>) returns (attempts: nat, latest: Option<Listed>, blocked: bool)
    ensures blocked ==> forall ss, r :: !Ready(now, jobs, ss, r)
    ensures !blocked ==> Scanned(now, jobs, attempts, latest)
  {
    attempts, latest, blocked := 0, None, false;
    for i := 0 to |jobs|
      invariant Scanned(now, jobs[..i], attempts, latest) && !blocked
    {
      var l := jobs[i];
      ScanOne(now, jobs[..i], l, attempts, latest);
      assert jobs[..i + 1] == jobs[..i] + [l];
      if l.job.date != Some(DateOf(now)) {
        continue;
      }
      attempts := attempts + 1;
      if latest == None || l.job.started > latest.value.job.started {
        latest := Some(l);
      }
      if Blocks(now, l.job) {
        OneBlocks(now, jobs, i);
        return attempts, latest, true;
      }
    }
    assert jobs[..|jobs|] == jobs;
  }

  /** The list the latest attempt leaves: its own, or a complete error list of an older version. */
  method PlanOf(j: Job) returns (plan: Option<seq<Symbol>>)
    ensures plan.Some? ==> IsPlan(j, plan.value)
    ensures plan == None ==> forall ss :: !IsPlan(j, ss)
  {
    if |j.retry| == 0 && j.processed > 0 {
      if j.failures == 0 || |j.errors| != j.failures || j.total > j.processed {
        return None;
      }
      if j.total == 0 && (j.state == Interrupted || j.error != SymbolsFailed(j.failures)) {
        return None;
      }
      var symbols := Sorted(j.errors);
      return Some(symbols);
    }
    return Some(j.retry);
  }

  /** scheduleRetry. */
  method ScheduleRetry(now: int, jobs: seq<Listed>) returns (symbols: seq<Symbol>, retryOf: Option<nat>, ready: bool)
    ensures ready ==> Ready(now, jobs, symbols, retryOf)
    ensures !ready ==> symbols == [] && retryOf == None && forall ss, r :: !Ready(now, jobs, ss, r)
  {
    symbols, retryOf, ready := [], None, false;
    var attempts, latest, blocked := Scan(now, jobs);
    if blocked || attempts >= 3 {
      return;
    }
    if latest.Some? {
      var plan := PlanOf(latest.value.job);
      if plan == None {
        return;
      }
      symbols, retryOf := plan.value, Some(latest.value.id);
    }
    ready := true;
  }

  /** A run that processed something is never followed by one over all symbols: whatever the records are, the
      next list is not empty. */
  lemma NeverAFullRescan(now: int, jobs: seq<Listed>, symbols: seq<Symbol>, retryOf: Option<nat>)
    requires Ready(now, jobs, symbols, retryOf)
    ensures var today := Filter(jobs, OnDate(DateOf(now)));
      Latest(today).Some? && Latest(today).value.job.processed > 0 ==> symbols != []
  {
    var today := Filter(jobs, OnDate(DateOf(now)));
    if Latest(today).Some? && NoPlan(Latest(today).value.job) {
      var x := AnyMember(Latest(today).value.job.errors);
      assert x in symbols;
    }
  }

  /** The date of an instant is that of the clock eight hours east. */
  lemma DateIsEightHoursEast(now: int)
    ensures DateOf(now) * 86400 <= now + 8 * 3600 < (DateOf(now) + 1) * 86400
  {
  }

  // ---------------------------------------------------------------- the ledger over time

  /** A ledger entry: the saved record, with the symbols asked for, the ones the job came to (none while it has
      not resolved them) and what has become of the first of them. */
  datatype Entry = Entry(job: Job, asked: seq<Symbol>, symbols: seq<Symbol>, outs: seq<Outcome>)

  /** The job at work: its place in the ledger, and what the worker knows beyond the saved record. */
  datatype Live = Live(id: nat, entry: Entry)

  datatype World = World(ledger: seq<Entry>, live: Option<Live>, clock: int)

  const START := World([], None, 0)

  function Records(ledger: seq<Entry>): (js: seq<Listed>)
    ensures |js| == |ledger|
  {
    seq(|ledger|, i requires 0 <= i < |ledger| => Listed(i, ledger[i].job))
  }

  datatype Event =
    | Tick(now: int, at: int, confirmed: bool)
    | Manual(at: int, asked: seq<Symbol>)
    | Resolve(symbols: seq<Symbol>, saved: bool)
    | Advance(outcome: Outcome, saved: bool)
    | Finish(at: int, trouble: Trouble, saved: bool)
    | Restart(at: int)

  function Begun(w: World, at: int, date: Option<int>, retryOf: Option<nat>, asked: seq<Symbol>): World {
    var e := Entry(NewJob(at, date, retryOf), asked, [], []);
    World(w.ledger + [e], Some(Live(|w.ledger|, e)), at)
  }

  function Saved(w: World, e: Entry, saved: bool): World
    requires w.live.Some? && w.live.value.id < |w.ledger|
  {
    var id := w.live.value.id;
    World(if saved then w.ledger[id := e] else w.ledger, Some(Live(id, e)), w.clock)
  }

  function Recovery(ledger: seq<Entry>, at: int): (r: seq<Entry>)
    ensures |r| == |ledger|
  {
    seq(|ledger|, i requires 0 <= i < |ledger| => ledger[i].(job := Recovered(ledger[i].job, at)))
  }

  /** A tick that starts a job; the day's first attempt waits until the session is confirmed. */
  ghost predicate Ticked(w: World, v: World, now: int, at: int, confirmed: bool) {
    exists symbols, retryOf ::
      Ready(now, Records(w.ledger), symbols, retryOf) && (retryOf.Some? || confirmed)
      && v == Begun(w, at, Some(DateOf(now)), retryOf, symbols)
  }

  /** One event; a tick that starts nothing changes nothing. */
  ghost predicate Next(w: World, v: World, ev: Event) {
    match ev
    case Tick(now, at, confirmed) => w.clock <= now <= at && w.live == None && Ticked(w, v, now, at, confirmed)
    case Manual(at, asked) => w.clock <= at && w.live == None && v == Begun(w, at, None, None, asked)
    case Resolve(symbols, saved) =>
      && w.live.Some? && w.live.value.id < |w.ledger|
      && var e := w.live.value.entry;
         && e.symbols == [] && symbols != [] && (e.asked != [] ==> symbols == e.asked)
         && v == Saved(w, Entry(e.job.(total := |symbols|, remaining := symbols), e.asked, symbols, []), saved)
    case Advance(o, saved) =>
      && w.live.Some? && w.live.value.id < |w.ledger|
      && var e := w.live.value.entry;
         && |e.outs| < |e.symbols|
         && v == Saved(w, e.(job := Progressed(e.job, e.symbols[|e.outs|], o), outs := e.outs + [o]), saved)
    case Finish(at, trouble, saved) =>
      && w.live.Some? && w.live.value.id < |w.ledger| && w.clock <= at
      && var e := w.live.value.entry;
         && (trouble == Fine <==> e.symbols != [] && |e.outs| == |e.symbols| && e.job.failures == 0)
         && v == Saved(w, e.(job := Closed(e.job, trouble, at)), saved).(live := None, clock := at)
    case Restart(at) => w.clock <= at && v == World(Recovery(w.ledger, at), None, at)
  }

  // ---------------------------------------------------------------- what holds in every run

  ghost predicate Blank(j: Job) {
    j.processed == 0 && j.rows == 0 && j.failures == 0 && j.retry == [] && j.remaining == [] && j.total == 0
    && j.errors == {}
  }

  /** A record says what has been done and what is left; an ended one carries the plan. */
  ghost predicate EntryOk(e: Entry) {
    && (e.asked != [] && e.symbols != [] ==> e.symbols == e.asked)
    && (e.job.state == Running <==> e.job.finished == None)
    && (if e.symbols == [] then e.outs == [] && Blank(e.job) && e.job.state != Succeeded
        else if e.job.state == Running then Snapshot(e.job, e.symbols, e.outs)
        else Planned(e.job, e.symbols, e.outs) && e.job.failures == |FailedIn(e.symbols[..|e.outs|], e.outs)|
             && (e.job.state == Succeeded ==> e.job.retry == []))
  }

  ghost predicate LiveOk(w: World) {
    w.live.Some? ==>
      var l := w.live.value;
      && l.id < |w.ledger| && EntryOk(l.entry) && l.entry.job.state == Running
      && w.ledger[l.id].job.state == Running
      && Identity(w.ledger[l.id].job) == Identity(l.entry.job) && w.ledger[l.id].asked == l.entry.asked
      && l.entry.job.started <= w.clock
  }

  /** Of two attempts for one date the earlier one has ended without success, half an hour before the later. */
  ghost predicate Spaced(a: Job, b: Job) {
    && a.state != Running && a.state != Succeeded && a.finished.Some?
    && a.started <= a.finished.value && a.finished.value + 1800 <= b.started
  }

  ghost predicate AllSpaced(ledger: seq<Entry>) {
    forall i, j :: 0 <= i < j < |ledger| && ledger[i].job.date.Some? && ledger[i].job.date == ledger[j].job.date ==>
      Spaced(ledger[i].job, ledger[j].job)
  }

  /** A repeated attempt asks for exactly what the attempt before it left to do. */
  ghost predicate AllLinked(ledger: seq<Entry>) {
    forall j :: 0 <= j < |ledger| && ledger[j].job.retryOf.Some? ==>
      var i := ledger[j].job.retryOf.value;
      && i < j && ledger[i].job.date == ledger[j].job.date && ledger[i].job.date.Some?
      && ledger[i].job.state != Running
      && IsPlan(ledger[i].job, ledger[j].asked)
      && (forall k :: i < k < j ==> ledger[k].job.date != ledger[j].job.date)
  }

  ghost function Attempts(ledger: seq<Entry>, date: int): set<nat> {
    set i: nat | i < |ledger| && ledger[i].job.date == Some(date)
  }

  ghost predicate AllTimed(w: World) {
    forall i :: 0 <= i < |w.ledger| ==>
      w.ledger[i].job.started <= EndedAt(w.ledger[i].job) <= w.clock
  }

  ghost predicate Inv(w: World) {
    && (forall i :: 0 <= i < |w.ledger| ==> EntryOk(w.ledger[i]))
    && LiveOk(w) && AllSpaced(w.ledger) && AllLinked(w.ledger) && AllTimed(w)
    && (forall d :: |Attempts(w.ledger, d)| <= 3)
  }

  /** Ended entries stay as they are, and running ones keep who they are and what was asked. */
  ghost predicate Rewritten(a: seq<Entry>, b: seq<Entry>) {
    && |a| == |b|
    && (forall i :: 0 <= i < |a| ==> Identity(a[i].job) == Identity(b[i].job) && a[i].asked == b[i].asked)
    && (forall i :: 0 <= i < |a| && a[i].job.state != Running ==> b[i] == a[i])
  }

  lemma RewritingKeepsHistory(a: seq<Entry>, b: seq<Entry>)
    requires Rewritten(a, b) && AllSpaced(a) && AllLinked(a)
    ensures AllSpaced(b) && AllLinked(b)
  {
    forall i, j | 0 <= i < j < |b| && b[i].job.date.Some? && b[i].job.date == b[j].job.date
      ensures Spaced(b[i].job, b[j].job)
    {
      assert Spaced(a[i].job, a[j].job);
    }
    forall j | 0 <= j < |b| && b[j].job.retryOf.Some? ensures
      var i := b[j].job.retryOf.value;
      i < j && b[i].job.date == b[j].job.date && b[i].job.date.Some? && b[i].job.state != Running
      && IsPlan(b[i].job, b[j].asked) && (forall k :: i < k < j ==> b[k].job.date != b[j].job.date)
    {
      var i := a[j].job.retryOf.value;
      assert a[i].job.state != Running && b[i] == a[i];
    }
  }

  lemma RewritingKeepsAttempts(a: seq<Entry>, b: seq<Entry>, d: int)
    requires Rewritten(a, b)
    ensures Attempts(b, d) == Attempts(a, d)
  {
  }

  lemma SavingRewrites(w: World, e: Entry, saved: bool)
    requires LiveOk(w) && w.live.Some?
    requires Identity(e.job) == Identity(w.live.value.entry.job) && e.asked == w.live.value.entry.asked
    ensures Rewritten(w.ledger, Saved(w, e, saved).ledger)
  {
  }

  lemma RecoveryRewrites(ledger: seq<Entry>, at: int)
    ensures Rewritten(ledger, Recovery(ledger, at))
  {
  }

  lemma RecoveredEntryOk(e: Entry, at: int)
    requires EntryOk(e)
    ensures EntryOk(e.(job := Recovered(e.job, at)))
  {
    if e.symbols != [] && e.job.state == Running {
      RecoveredPlan(e.job, e.symbols, e.outs, at);
    }
  }

  lemma RestartKeepsInv(w: World, v: World, at: int)
    requires Inv(w) && Next(w, v, Restart(at))
    ensures Inv(v)
  {
    RecoveryRewrites(w.ledger, at);
    RewritingKeepsHistory(w.ledger, v.ledger);
    forall i | 0 <= i < |v.ledger| ensures EntryOk(v.ledger[i]) {
      RecoveredEntryOk(w.ledger[i], at);
    }
    forall d ensures |Attempts(v.ledger, d)| <= 3 {
      RewritingKeepsAttempts(w.ledger, v.ledger, d);
    }
  }

  /** Saving a new record of the live job, or failing to. */
  lemma SavedKeepsInv(w: World, e: Entry, saved: bool)
    requires Inv(w) && w.live.Some? && EntryOk(e) && e.job.state == Running
    requires Identity(e.job) == Identity(w.live.value.entry.job) && e.asked == w.live.value.entry.asked
    ensures Inv(Saved(w, e, saved))
  {
    var v := Saved(w, e, saved);
    SavingRewrites(w, e, saved);
    RewritingKeepsHistory(w.ledger, v.ledger);
    forall d ensures |Attempts(v.ledger, d)| <= 3 {
      RewritingKeepsAttempts(w.ledger, v.ledger, d);
    }
  }

  lemma ResolveKeepsInv(w: World, v: World, symbols: seq<Symbol>, saved: bool)
    requires Inv(w) && Next(w, v, Resolve(symbols, saved))
    ensures Inv(v)
  {
    var e := w.live.value.entry;
    var f := Entry(e.job.(total := |symbols|, remaining := symbols), e.asked, symbols, []);
    assert Snapshot(f.job, symbols, []) by {
      assert symbols[0..] == symbols;
    }
    SavedKeepsInv(w, f, saved);
  }

  lemma AdvanceKeepsInv(w: World, v: World, o: Outcome, saved: bool)
    requires Inv(w) && Next(w, v, Advance(o, saved))
    ensures Inv(v)
  {
    var e := w.live.value.entry;
    var f := e.(job := Progressed(e.job, e.symbols[|e.outs|], o), outs := e.outs + [o]);
    ProgressKeepsSnapshot(e.job, e.symbols, e.outs, o);
    SavedKeepsInv(w, f, saved);
  }

  lemma FinishKeepsInv(w: World, v: World, at: int, trouble: Trouble, saved: bool)
    requires Inv(w) && Next(w, v, Finish(at, trouble, saved))
    ensures Inv(v)
  {
    var e := w.live.value.entry;
    var f := e.(job := Closed(e.job, trouble, at));
    if e.symbols != [] {
      ClosedPlan(e.job, e.symbols, e.outs, trouble, at);
    }
    assert EntryOk(f);
    SavingRewrites(w, f, saved);
    RewritingKeepsHistory(w.ledger, v.ledger);
    forall d ensures |Attempts(v.ledger, d)| <= 3 {
      RewritingKeepsAttempts(w.ledger, v.ledger, d);
    }
  }

  lemma RecordsSnoc(ledger: seq<Entry>, e: Entry)
    ensures Records(ledger + [e]) == Records(ledger) + [Listed(|ledger|, e.job)]
  {
  }

  lemma AppendedAttempts(ledger: seq<Entry>, e: Entry, d: int)
    ensures |Attempts(ledger + [e], d)| == |Attempts(ledger, d)| + if e.job.date == Some(d) then 1 else 0
  {
    var a := Attempts(ledger, d);
    assert |ledger| !in a;
    assert Attempts(ledger + [e], d) == if e.job.date == Some(d) then a + {|ledger|} else a;
  }

  lemma OneMoreRecord(ledger: seq<Entry>, e: Entry, d: int)
    ensures |Filter(Records(ledger + [e]), OnDate(d))|
         == |Filter(Records(ledger), OnDate(d))| + if e.job.date == Some(d) then 1 else 0
  {
    RecordsSnoc(ledger, e);
    FilterSnoc(Records(ledger), Listed(|ledger|, e.job), OnDate(d));
  }

  lemma {:induction false} CountsAgree(ledger: seq<Entry>, d: int)
    ensures |Filter(Records(ledger), OnDate(d))| == |Attempts(ledger, d)|
  {
    if ledger == [] {
      assert Attempts(ledger, d) == {};
    } else {
      var front, e := ledger[..|ledger| - 1], ledger[|ledger| - 1];
      assert ledger == front + [e];
      CountsAgree(front, d);
      OneMoreRecord(front, e, d);
      AppendedAttempts(front, e, d);
    }
  }

  lemma RecordMembers(ledger: seq<Entry>, d: int)
    ensures forall l :: l in Filter(Records(ledger), OnDate(d)) ==>
      l.id < |ledger| && ledger[l.id].job == l.job && l.job.date == Some(d)
    ensures forall i: nat :: i < |ledger| && ledger[i].job.date == Some(d) ==>
      Listed(i, ledger[i].job) in Filter(Records(ledger), OnDate(d))
  {
    FilterMembers(Records(ledger), OnDate(d));
    forall i: nat | i < |ledger| ensures Listed(i, ledger[i].job) in Records(ledger) {
      assert Records(ledger)[i] == Listed(i, ledger[i].job);
    }
  }

  /** Another attempt for a date is in order at time `at`: fewer than three so far, all of them ended without
      success at least half an hour ago, and the one repeated, if any, is the last of them. */
  ghost predicate Warranted(ledger: seq<Entry>, at: int, date: int, retryOf: Option<nat>, asked: seq<Symbol>) {
    && |Attempts(ledger, date)| < 3
    && (forall i :: 0 <= i < |ledger| && ledger[i].job.date == Some(date) ==>
          ledger[i].job.state != Running && ledger[i].job.state != Succeeded
          && ledger[i].job.finished.Some? && ledger[i].job.finished.value + 1800 <= at)
    && (retryOf.Some? ==>
          var i := retryOf.value;
          && i < |ledger| && ledger[i].job.date == Some(date) && IsPlan(ledger[i].job, asked)
          && (forall k :: i < k < |ledger| ==> ledger[k].job.date != Some(date)))
  }

  lemma LaterIsLater(w: World, i: nat, k: nat)
    requires AllSpaced(w.ledger) && i < k < |w.ledger|
    requires w.ledger[i].job.date.Some? && w.ledger[i].job.date == w.ledger[k].job.date
    ensures w.ledger[i].job.started < w.ledger[k].job.started
  {
    assert Spaced(w.ledger[i].job, w.ledger[k].job);
  }

  /** A tick starts a job only when that is warranted. */
  lemma TickIsWarranted(w: World, now: int, at: int, symbols: seq<Symbol>, retryOf: Option<nat>)
    requires Inv(w) && Ready(now, Records(w.ledger), symbols, retryOf) && now <= at
    ensures Warranted(w.ledger, at, DateOf(now), retryOf, symbols)
  {
    var d := DateOf(now);
    var today := Filter(Records(w.ledger), OnDate(d));
    CountsAgree(w.ledger, d);
    RecordMembers(w.ledger, d);
    LatestIsLatest(today);
    forall i: nat | i < |w.ledger| && w.ledger[i].job.date == Some(d)
      ensures w.ledger[i].job.state != Running && w.ledger[i].job.state != Succeeded
      ensures w.ledger[i].job.finished.Some? && w.ledger[i].job.finished.value + 1800 <= now
    {
      assert Listed(i, w.ledger[i].job) in today;
      assert EntryOk(w.ledger[i]);
    }
    if retryOf.Some? {
      var i := retryOf.value;
      forall k: nat | i < k < |w.ledger| ensures w.ledger[k].job.date != Some(d) {
        if w.ledger[k].job.date == Some(d) {
          assert Listed(k, w.ledger[k].job) in today;
          LaterIsLater(w, i, k);
          assert false;
        }
      }
    }
  }

  lemma {:induction false} SortedList(s: set<Symbol>) returns (list: seq<Symbol>)
    ensures StrictlyBy(list, Number()) && forall x :: x in list <==> x in s
    decreases s
  {
    list := [];
    if s != {} {
      var x := AnyMember(s);
      var rest := SortedList(s - {x});
      InsertStrict(x, rest, Number());
      list := Insert(x, rest, Number());
    }
  }

  /** An attempt after which it is clear what is left to do: it kept a list, or processed nothing, or its error list is
      complete and it went through all its symbols. */
  ghost predicate LeavesAPlan(j: Job) {
    || j.retry != [] || j.processed == 0
    || (j.failures > 0 && |j.errors| == j.failures && j.total <= j.processed
        && (j.total > 0 || (j.state != Interrupted && j.error == SymbolsFailed(j.failures))))
  }

  lemma PlanExists(j: Job) returns (symbols: seq<Symbol>)
    ensures LeavesAPlan(j) ==> IsPlan(j, symbols)
    ensures !LeavesAPlan(j) ==> forall ss :: !IsPlan(j, ss)
  {
    var sorted := SortedList(j.errors);
    symbols := if NoPlan(j) then sorted else j.retry;
  }

  /** No record of a date stands in the way at an instant. */
  ghost predicate NoneInTheWay(ledger: seq<Entry>, now: int, date: int) {
    forall i :: 0 <= i < |ledger| && ledger[i].job.date == Some(date) ==>
      ledger[i].job.state != Running && ledger[i].job.state != Succeeded
      && ledger[i].job.finished.Some? && ledger[i].job.finished.value + 1800 <= now
  }

  /** An attempt is due for a date: fewer than three so far, each of them ended without success and at least half an
      hour ago, and the last of them, if any, leaves a plan. */
  ghost predicate Due(ledger: seq<Entry>, now: int, date: int) {
    && |Attempts(ledger, date)| < 3
    && NoneInTheWay(ledger, now, date)
    && (forall i :: 0 <= i < |ledger| && ledger[i].job.date == Some(date)
                    && (forall k :: i < k < |ledger| ==> ledger[k].job.date != Some(date)) ==>
          LeavesAPlan(ledger[i].job))
  }

  lemma LatestIsLast(w: World, date: int, l: Listed)
    requires Inv(w) && Latest(Filter(Records(w.ledger), OnDate(date))) == Some(l)
    ensures l.id < |w.ledger| && w.ledger[l.id].job == l.job && l.job.date == Some(date)
    ensures forall k :: l.id < k < |w.ledger| ==> w.ledger[k].job.date != Some(date)
  {
    var today := Filter(Records(w.ledger), OnDate(date));
    RecordMembers(w.ledger, date);
    LatestIsLatest(today);
    forall k | l.id < k < |w.ledger| ensures w.ledger[k].job.date != Some(date) {
      if w.ledger[k].job.date == Some(date) {
        assert Listed(k, w.ledger[k].job) in today;
        LaterIsLater(w, l.id, k);
        assert false;
      }
    }
  }

  lemma NoneBlocks(w: World, now: int, date: int)
    requires Inv(w)
    ensures (forall l :: l in Filter(Records(w.ledger), OnDate(date)) ==> !Blocks(now, l.job))
       <==> NoneInTheWay(w.ledger, now, date)
  {
    var today := Filter(Records(w.ledger), OnDate(date));
    RecordMembers(w.ledger, date);
    forall i: nat | i < |w.ledger| && w.ledger[i].job.date == Some(date)
      ensures !Blocks(now, w.ledger[i].job)
         <==> w.ledger[i].job.state != Running && w.ledger[i].job.state != Succeeded
              && w.ledger[i].job.finished.Some? && w.ledger[i].job.finished.value + 1800 <= now
    {
      assert EntryOk(w.ledger[i]);
    }
    if forall l :: l in today ==> !Blocks(now, l.job) {
      forall i: nat | i < |w.ledger| && w.ledger[i].job.date == Some(date) ensures !Blocks(now, w.ledger[i].job) {
        assert Listed(i, w.ledger[i].job) in today;
      }
    }
  }

  /** The scheduler is ready to start an attempt exactly when one is due. */
  lemma ReadyExactlyWhenDue(w: World, now: int)
    requires Inv(w)
    ensures (exists symbols, retryOf :: Ready(now, Records(w.ledger), symbols, retryOf))
       <==> Due(w.ledger, now, DateOf(now))
  {
    var d := DateOf(now);
    CountsAgree(w.ledger, d);
    NoneBlocks(w, now, d);
    if Latest(Filter(Records(w.ledger), OnDate(d))) == None {
      ReadyAtFirst(w, now, d);
    } else {
      ReadyAgain(w, now, d, Latest(Filter(Records(w.ledger), OnDate(d))).value);
    }
  }

  lemma ReadyAtFirst(w: World, now: int, d: int)
    requires d == DateOf(now) && Latest(Filter(Records(w.ledger), OnDate(d))) == None
    ensures Ready(now, Records(w.ledger), [], None) && Due(w.ledger, now, d)
  {
    var today := Filter(Records(w.ledger), OnDate(d));
    LatestIsLatest(today);
    RecordMembers(w.ledger, d);
    CountsAgree(w.ledger, d);
    assert today == [];
    assert forall i: nat :: i < |w.ledger| ==> w.ledger[i].job.date != Some(d);
  }

  lemma ReadyAgain(w: World, now: int, d: int, l: Listed)
    requires Inv(w) && d == DateOf(now) && Latest(Filter(Records(w.ledger), OnDate(d))) == Some(l)
    requires |Filter(Records(w.ledger), OnDate(d))| == |Attempts(w.ledger, d)|
    requires (forall l :: l in Filter(Records(w.ledger), OnDate(d)) ==> !Blocks(now, l.job))
             <==> NoneInTheWay(w.ledger, now, d)
    ensures (exists symbols, retryOf :: Ready(now, Records(w.ledger), symbols, retryOf)) <==> Due(w.ledger, now, d)
  {
    LatestIsLast(w, d, l);
    var plan := PlanExists(l.job);
    OnlyOneIsLast(w.ledger, d, l.id);
    assert Due(w.ledger, now, d) ==> Ready(now, Records(w.ledger), plan, Some(l.id));
  }

  lemma OnlyOneIsLast(ledger: seq<Entry>, date: int, z: nat)
    requires z < |ledger| && ledger[z].job.date == Some(date)
    requires forall k :: z < k < |ledger| ==> ledger[k].job.date != Some(date)
    ensures (forall i :: 0 <= i < |ledger| && ledger[i].job.date == Some(date)
                         && (forall k :: i < k < |ledger| ==> ledger[k].job.date != Some(date)) ==>
               LeavesAPlan(ledger[i].job))
       <==> LeavesAPlan(ledger[z].job)
  {
  }

  /** A tick whose session is not confirmed starts repeats only. */
  lemma UnconfirmedOnlyRepeats(w: World, v: World, now: int, at: int)
    requires Next(w, v, Tick(now, at, false))
    ensures |v.ledger| == |w.ledger| + 1 && v.ledger[|w.ledger|].job.retryOf.Some?
    ensures v.ledger[|w.ledger|].job.date == Some(DateOf(now))
  {
  }

  lemma TickKeepsInv(w: World, v: World, now: int, at: int, confirmed: bool)
    requires Inv(w) && Next(w, v, Tick(now, at, confirmed))
    ensures Inv(v)
  {
    var symbols, retryOf :| Ready(now, Records(w.ledger), symbols, retryOf)
      && (retryOf.Some? || confirmed) && v == Begun(w, at, Some(DateOf(now)), retryOf, symbols);
    TickIsWarranted(w, now, at, symbols, retryOf);
    BeginKeepsInv(w, at, Some(DateOf(now)), retryOf, symbols);
  }

  lemma BeginKeepsInv(w: World, at: int, date: Option<int>, retryOf: Option<nat>, asked: seq<Symbol>)
    requires Inv(w) && w.clock <= at && w.live == None
    requires date.Some? ==> Warranted(w.ledger, at, date.value, retryOf, asked)
    requires retryOf.Some? ==> date.Some?
    ensures Inv(Begun(w, at, date, retryOf, asked))
  {
    var v := Begun(w, at, date, retryOf, asked);
    forall d ensures |Attempts(v.ledger, d)| <= 3 {
      AppendedAttempts(w.ledger, v.ledger[|w.ledger|], d);
    }
    forall i | 0 <= i < |v.ledger| ensures EntryOk(v.ledger[i]) {
      if i < |w.ledger| {
        assert EntryOk(w.ledger[i]);
      }
    }
    forall i, j | 0 <= i < j < |v.ledger| && v.ledger[i].job.date.Some? && v.ledger[i].job.date == v.ledger[j].job.date
      ensures Spaced(v.ledger[i].job, v.ledger[j].job)
    {
      assert w.ledger[i].job.started <= EndedAt(w.ledger[i].job);
      if j < |w.ledger| {
        assert Spaced(w.ledger[i].job, w.ledger[j].job);
      }
    }
    assert AllLinked(v.ledger);
  }

  lemma StepKeepsInv(w: World, v: World, ev: Event)
    requires Inv(w) && Next(w, v, ev)
    ensures Inv(v)
  {
    match ev
    case Tick(now, at, confirmed) => TickKeepsInv(w, v, now, at, confirmed);
    case Manual(at, asked) => BeginKeepsInv(w, at, None, None, asked);
    case Resolve(symbols, saved) => ResolveKeepsInv(w, v, symbols, saved);
    case Advance(o, saved) => AdvanceKeepsInv(w, v, o, saved);
    case Finish(at, trouble, saved) => FinishKeepsInv(w, v, at, trouble, saved);
    case Restart(at) => RestartKeepsInv(w, v, at);
  }

  /** A run of the service, restarts included. */
  ghost predicate Trace(worlds: seq<World>, events: seq<Event>) {
    && |worlds| == |events| + 1 && worlds[0] == START
    && forall i :: 0 <= i < |events| ==> Next(worlds[i], worlds[i + 1], events[i])
  }

  lemma {:induction false} TraceKeepsInv(worlds: seq<World>, events: seq<Event>, n: nat)
    requires Trace(worlds, events) && n < |worlds|
    ensures Inv(worlds[n])
  {
    if n == 0 {
      forall d ensures |Attempts(START.ledger, d)| <= 3 {
        assert Attempts(START.ledger, d) == {};
      }
    } else {
      TraceKeepsInv(worlds, events, n - 1);
      StepKeepsInv(worlds[n - 1], worlds[n], events[n - 1]);
    }
  }

  /** In every run: no date sees more than three scheduled attempts, and each attempt but the last has ended
      without success at least half an hour before the next began. */
  lemma AttemptsAreLimited(worlds: seq<World>, events: seq<Event>, n: nat, date: int)
    requires Trace(worlds, events) && n < |worlds|
    ensures var ledger := worlds[n].ledger;
      && |Attempts(ledger, date)| <= 3
      && (forall i, j :: 0 <= i < j < |ledger| && ledger[i].job.date == ledger[j].job.date == Some(date) ==>
            && ledger[i].job.state != Running && ledger[i].job.state != Succeeded
            && ledger[i].job.finished.Some? && ledger[i].job.finished.value + 1800 <= ledger[j].job.started)
  {
    TraceKeepsInv(worlds, events, n);
    var ledger := worlds[n].ledger;
    forall i, j | 0 <= i < j < |ledger| && ledger[i].job.date == ledger[j].job.date == Some(date)
      ensures Spaced(ledger[i].job, ledger[j].job)
    {
    }
  }

  /** What a record leaves to be done: the failed symbols and those not reached. */
  function Outstanding(j: Job): seq<Symbol> { j.retry + j.remaining }

  lemma OutstandingWasAsked(e: Entry)
    requires EntryOk(e) && e.symbols != []
    ensures multiset(Outstanding(e.job)) <= multiset(e.symbols)
  {
    var k := |e.outs|;
    FailedMembers(e.symbols[..k], e.outs);
    assert e.symbols == e.symbols[..k] + e.symbols[k..];
    assert multiset(e.symbols) == multiset(e.symbols[..k]) + multiset(e.symbols[k..]);
    if e.job.state != Running {
      assert e.job.remaining == [] && Outstanding(e.job) == e.job.retry;
    }
  }

  /** In every run and at every moment: once an attempt has resolved its symbols, the attempt that repeats it asks
      for exactly what it left to do, and has at most that outstanding from then on. */
  lemma RetriesOnlyShrink(worlds: seq<World>, events: seq<Event>, n: nat, j: nat)
    requires Trace(worlds, events) && n < |worlds| && j < |worlds[n].ledger|
    requires worlds[n].ledger[j].job.retryOf.Some?
    ensures var ledger := worlds[n].ledger;
      var i := ledger[j].job.retryOf.value;
      && i < j && ledger[i].job.date == ledger[j].job.date
      && (ledger[i].symbols != [] ==>
            && ledger[i].job.retry != []
            && ledger[j].asked == ledger[i].job.retry
            && multiset(Outstanding(ledger[j].job)) <= multiset(ledger[i].job.retry))
  {
    TraceKeepsInv(worlds, events, n);
    var ledger := worlds[n].ledger;
    var i := ledger[j].job.retryOf.value;
    assert EntryOk(ledger[i]) && EntryOk(ledger[j]);
    if ledger[i].symbols != [] {
      var a := ledger[i];
      var done, rest := FailedIn(a.symbols[..|a.outs|], a.outs), a.symbols[|a.outs|..];
      assert a.job.retry == done + rest && a.job.failures == |done|;
      assert |done + rest| == |done| + |rest| && |rest| == |a.symbols| - |a.outs|;
      if ledger[j].symbols != [] {
        OutstandingWasAsked(ledger[j]);
      }
    }
  }

  /** In every run: each symbol that some job resolved to is done, or stands in the record's retry or remaining
      list - in the saved record too, which may be older than what the worker knows. */
  lemma NothingIsForgotten(worlds: seq<World>, events: seq<Event>, n: nat, i: nat)
    requires Trace(worlds, events) && n < |worlds| && i < |worlds[n].ledger|
    ensures var e := worlds[n].ledger[i];
      forall s :: 0 <= s < |e.symbols| ==>
        (s < |e.outs| && !e.outs[s].failed) || e.symbols[s] in Outstanding(e.job)
  {
    TraceKeepsInv(worlds, events, n);
    var e := worlds[n].ledger[i];
    assert EntryOk(e);
    if e.symbols != [] {
      var k := |e.outs|;
      FailedMembers(e.symbols[..k], e.outs);
      forall s | 0 <= s < |e.symbols|
        ensures (s < |e.outs| && !e.outs[s].failed) || e.symbols[s] in Outstanding(e.job)
      {
        if s < k {
          assert e.symbols[..k][s] == e.symbols[s];
        } else {
          assert e.symbols[k..][s - k] == e.symbols[s];
        }
      }
    }
  }
}
