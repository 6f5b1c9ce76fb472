/** Runs of the minute puller (extend/pull/market/minute.go) over the yearly tables of one symbol. */
module MinuteRuns {
  import opened Calendar
  import opened Grouping
  import opened MinuteFallback
  import opened MinuteStore
  import opened Results

  /** The years for which reading a mark, the newest row or the rows fails, or saving does. */
  datatype Faults = Faults(coverage: set<int>, last: set<int>, local: set<int>, save: set<int>)

  /** One run: when, from which start date, with or without rebuilding from trades, and what the world answers. */
  datatype Run = Run(start: int, now: int, fallback: bool,
                     fetch: int -> Result<seq<KlineMinute>>,
                     days: int -> Result<seq<DayBar>>,
                     trades: int -> Result<Delivery>,
                     faults: Faults)

  datatype Target = Target(year: int, from: int, historical: bool, through: int)

  function YearFrom(year: int, start: int): int { Later(YearStart(year), start) }

  function Through(year: int, now: int): int { if year < YearOf(now) then YearStart(year + 1) else now }

  /** Whether a past year needs no further run. */
  predicate Settled(m: Option<Mark>, from: int, through: int, fallback: bool) {
    && m.Some? && m.value.from <= from
    && (!m.value.fallback || m.value.through >= through)
    && (!fallback || m.value.fallback)
  }

  /** Where the current year is taken up, given its newest row: rebuilding continues no later than its mark. */
  function Resume(last: int, m: Option<Mark>, from: int, fallback: bool): int {
    if !fallback then last
    else if m == None || !m.value.fallback || m.value.from > from then 0
    else Earlier(last, m.value.through)
  }

  ghost function TargetOf(f: YearFile, year: int, r: Run): Option<Target> {
    var from, through := YearFrom(year, r.start), Through(year, r.now);
    if year < YearOf(r.now) then
      if Settled(f.mark, from, through, r.fallback) then None else Some(Target(year, from, true, through))
    else
      Some(Target(year, Later(from, Resume(Newest(f.rows), f.mark, from, r.fallback)), false, through))
  }

  /** The years to work on, from `year` to the current one. */
  ghost function Plan(files: Files, year: int, r: Run): seq<Target>
    decreases YearOf(r.now) - year
  {
    if year > YearOf(r.now) then []
    else
      var t := TargetOf(File(files, year), year, r);
      (if t == None then [] else [t.value]) + Plan(files, year + 1, r)
  }

  /** No mark from the first year up to before `year`, nor the last year's newest row, fails to be read. */
  ghost predicate ReadableTo(first: int, year: int, last: int, f: Faults) {
    && (forall y :: first <= y < year ==> y !in f.coverage)
    && (year > last ==> last !in f.last)
  }

  ghost predicate Readable(r: Run) { ReadableTo(YearOf(r.start), YearOf(r.now) + 1, YearOf(r.now), r.faults) }

  function EarliestFrom(ts: seq<Target>): int {
    if ts == [] then 0
    else if |ts| == 1 then ts[0].from
    else Earlier(EarliestFrom(ts[..|ts| - 1]), ts[|ts| - 1].from)
  }

  /** The day of the earliest bar fetched, or today. */
  function Boundary(now: int, ks: seq<KlineMinute>): int {
    if ks == [] then Day(now) else Earlier(Boundary(now, ks[..|ks| - 1]), Day(ks[|ks| - 1].unix))
  }

  function InTarget(t: Target): KlineMinute -> bool { (k: KlineMinute) => t.from <= k.unix < t.through }

  function Mine(t: Target): KlineMinute -> bool { (k: KlineMinute) => YearOf(k.unix) == t.year && k.unix >= t.from }

  /** What a fetch found out for all targets together. */
  datatype Source = Source(native: seq<KlineMinute>, days: Result<seq<DayBar>>, boundary: int)

  ghost function LocalRows(files: Files, t: Target, now: int): seq<KlineMinute> {
    Queried(files, Some(t.from), Some(t.through - 1), YearOf(now))
  }

  ghost function FilledFor(files: Files, t: Target, r: Run, s: Source): Filled {
    if t.year in r.faults.local then Filled(map[], false)
    else Fill(AsRows(LocalRows(files, t, r.now)), Filter(s.native, InTarget(t)),
              t.from, t.through, s.boundary, s.days, r.trades)
  }

  ghost function Merged(files: Files, ts: seq<Target>, r: Run, s: Source): seq<KlineMinute> {
    if ts == [] then []
    else Merged(files, ts[..|ts| - 1], r, s) + Listed(FilledFor(files, ts[|ts| - 1], r, s).rows)
  }

  ghost function Failed(files: Files, ts: seq<Target>, r: Run, s: Source): set<int> {
    if ts == [] then {}
    else
      var z := ts[|ts| - 1];
      Failed(files, ts[..|ts| - 1], r, s) + if FilledFor(files, z, r, s).ok then {} else {z.year}
  }

  ghost function SaveTarget(f: YearFile, t: Target, out: seq<KlineMinute>, complete: bool, r: Run): Saved {
    var broken := t.year in r.faults.save;
    if r.fallback && complete then SavedFallback(f, t.from, t.through, out, broken)
    else if t.historical && !r.fallback then SavedComplete(f, t.from, out, broken)
    else SavedMin(f, t.from, out, broken)
  }

  /** A mark that was set, and the dates that were looked at for it. */
  datatype Commit = Commit(target: Target, dates: seq<int>)

  /** The traded days between a target's start and where the exchange's own bars begin. */
  function DatesFor(t: Target, s: Source): seq<int> {
    var b := Limit(t.through, s.boundary);
    if t.from >= Midnight(b) || s.days == Err then [] else Dates(s.days.value, Day(t.from), b)
  }

  /** Files, success, and the rebuilding marks set in the order they were set. */
  datatype Outcome = Outcome(files: Files, ok: bool, log: seq<Commit>)

  ghost function Logged(t: Target, out: seq<KlineMinute>, complete: bool, ok: bool, r: Run, s: Source): seq<Commit> {
    if r.fallback && complete && ok && out != [] then [Commit(t, DatesFor(t, s))] else []
  }

  /** The saves, one target after the other; without rebuilding the first failure ends the run. */
  ghost function SaveAll(files: Files, ts: seq<Target>, all: seq<KlineMinute>, failed: set<int>,
                         r: Run, s: Source): Outcome
    decreases |ts|
  {
    if ts == [] then Outcome(files, true, [])
    else
      var t := ts[0];
      var out := Filter(all, Mine(t));
      var saved := SaveTarget(File(files, t.year), t, out, t.year !in failed, r);
      var here := Logged(t, out, t.year !in failed, saved.ok, r, s);
      var after := Put(files, t.year, saved.file);
      if !saved.ok && !r.fallback then Outcome(after, false, here)
      else
        var rest := SaveAll(after, ts[1..], all, failed, r, s);
        Outcome(rest.files, saved.ok && rest.ok, here + rest.log)
  }

  /** pullMinutes as a function. */
  ghost function Pull(files: Files, r: Run): Outcome {
    if r.start > r.now then Outcome(files, true, [])
    else if !Readable(r) then Outcome(files, false, [])
    else
      var ts := Plan(files, YearOf(r.start), r);
      if ts == [] then Outcome(files, true, [])
      else if r.fetch(EarliestFrom(ts)) == Err then Outcome(files, false, [])
      else
        var s := SourceOf(ts, r);
        if r.fallback then
          var failed := Failed(files, ts, r, s);
          var o := SaveAll(files, ts, Merged(files, ts, r, s), failed, r, s);
          Outcome(o.files, o.ok && failed == {}, o.log)
        else SaveAll(files, ts, s.native, {}, r, s)
  }

  ghost function SourceOf(ts: seq<Target>, r: Run): Source
    requires r.fetch(EarliestFrom(ts)).Ok?
  {
    var ks := r.fetch(EarliestFrom(ts)).value;
    Source(ks, r.days(EarliestFrom(ts)), Boundary(r.now, ks))
  }

  // The program.

  /** What pullMinutes does to plan one year. */
  method PlanYear(db: MinuteTables, year: int, r: Run) returns (t: Result<Option<Target>>)
    ensures t == Err <==> year in r.faults.coverage || (year >= YearOf(r.now) && year in r.faults.last)
    ensures t.Ok? ==> t.value == TargetOf(File(db.files, year), year, r)
  {
    var from := YearStart(year);
    if r.start > from {
      from := r.start;
    }
    var historical := year < YearOf(r.now);
    var through := YearStart(year + 1);
    if !historical {
      through := r.now;
    }
    var coverage := db.QueryMinCoverage(year, year in r.faults.coverage);
    if coverage == Err {
      return Err;
    }
    var m := coverage.value;
    if historical {
      if m.Some? && m.value.from <= from && (!m.value.fallback || m.value.through >= through)
         && (!r.fallback || m.value.fallback) {
        return Ok(None);
      }
    } else {
      var newest := db.LastMinUnix(year, year in r.faults.last);
      if newest == Err {
        return Err;
      }
      var last := newest.value;
      if r.fallback {
        if m == None || !m.value.fallback || m.value.from > from {
          last := 0;
        } else {
          last := Earlier(last, m.value.through);
        }
      }
      if last > from {
        from := last;
      }
    }
    return Ok(Some(Target(year, from, historical, through)));
  }

  lemma NextPlan(files: Files, year: int, r: Run, targets: seq<Target>, rest: seq<Target>) returns (tail: seq<Target>)
    requires year <= YearOf(r.now) && rest == Plan(files, year, r)
    ensures tail == Plan(files, year + 1, r)
    ensures var t := TargetOf(File(files, year), year, r);
      targets + rest == (if t == None then targets else targets + [t.value]) + tail
  {
    tail := Plan(files, year + 1, r);
    var t := TargetOf(File(files, year), year, r);
    if t.Some? {
      Reassociate(targets, [t.value], tail);
    } else {
      assert [] + tail == tail;
    }
  }

  /** The first loop of pullMinutes: the targets and the earliest time among them. */
  method MakePlan(db: MinuteTables, r: Run) returns (res: Result<(seq<Target>, int)>)
    requires r.start <= r.now
    ensures res == Err <==> !Readable(r)
    ensures res.Ok? ==> res.value.0 == Plan(db.files, YearOf(r.start), r) && res.value.1 == EarliestFrom(res.value.0)
  {
    YearIsMonotone(r.start, r.now);
    res := PlanYears(db, YearOf(r.start), YearOf(r.now), r);
  }

  method PlanYears(db: MinuteTables, first: int, last: int, r: Run) returns (res: Result<(seq<Target>, int)>)
    requires first <= last && last == YearOf(r.now)
    ensures res == Err <==> !ReadableTo(first, last + 1, last, r.faults)
    ensures res.Ok? ==> res.value.0 == Plan(db.files, first, r) && res.value.1 == EarliestFrom(res.value.0)
  {
    var targets, earliest, year := [], 0, first;
    ghost var rest := Plan(db.files, year, r);
    ghost var all := rest;
    while year <= last
      invariant first <= year <= last + 1
      invariant rest == Plan(db.files, year, r) && targets + rest == all
      invariant earliest == EarliestFrom(targets)
      invariant ReadableTo(first, year, last, r.faults)
    {
      var t := PlanYear(db, year, r);
      ReadableNext(first, year, last, r.faults);
      if t == Err {
        return Err;
      }
      rest := NextPlan(db.files, year, r, targets, rest);
      targets, earliest := OneMoreTarget(targets, t.value, earliest);
      year := year + 1;
    }
    assert targets + [] == targets;
    return Ok((targets, earliest));
  }

  lemma ReadableNext(first: int, year: int, last: int, f: Faults)
    requires first <= year <= last && ReadableTo(first, year, last, f)
    ensures ReadableTo(first, year + 1, last, f) <==> year !in f.coverage && (year >= last ==> year !in f.last)
    ensures ReadableTo(first, last + 1, last, f) ==> ReadableTo(first, year + 1, last, f)
  {
  }

  method OneMoreTarget(targets: seq<Target>, t: Option<Target>, earliest: int) returns (ts: seq<Target>, e: int)
    requires earliest == EarliestFrom(targets)
    ensures ts == if t == None then targets else targets + [t.value]
    ensures e == EarliestFrom(ts)
  {
    if t == None {
      return targets, earliest;
    }
    ts := targets + [t.value];
    assert ts[..|targets|] == targets;
    e := if targets == [] || t.value.from < earliest then t.value.from else earliest;
  }

  method FindBoundary(now: int, ks: seq<KlineMinute>) returns (boundary: int)
    ensures boundary == Boundary(now, ks)
  {
    boundary := Day(now);
    for i := 0 to |ks|
      invariant boundary == Boundary(now, ks[..i])
    {
      assert ks[..i + 1][..i] == ks[..i];
      var day := Day(ks[i].unix);
      if day < boundary {
        boundary := day;
      }
    }
    assert ks[..|ks|] == ks;
  }

  /** The members of a list that pass a test, collected in a loop. */
  method Collect<T>(ks: seq<T>, keep: T -> bool) returns (out: seq<T>)
    ensures out == Filter(ks, keep)
  {
    out := [];
    for i := 0 to |ks|
      invariant out == Filter(ks[..i], keep)
    {
      FilterSnoc(ks[..i], ks[i], keep);
      assert ks[..i + 1] == ks[..i] + [ks[i]];
      if keep(ks[i]) {
        out := out + [ks[i]];
      }
    }
    assert ks[..|ks|] == ks;
  }

  /** One target filled. */
  method FillTarget(db: MinuteTables, t: Target, r: Run, s: Source) returns (out: seq<KlineMinute>, ok: bool)
    ensures var f := FilledFor(db.files, t, r, s); out == Listed(f.rows) && ok == f.ok
  {
    var yearNative := Collect(s.native, InTarget(t));
    var local := db.QueryMin(Some(t.from), Some(t.through - 1), YearOf(r.now), t.year in r.faults.local);
    out, ok := FillRows(local, yearNative, t.from, t.through, s.boundary, s.days, r.trades);
  }

  /** The loop of pullMinutes that fills every target. */
  method FillTargets(db: MinuteTables, ts: seq<Target>, r: Run, s: Source)
    returns (merged: seq<KlineMinute>, failed: set<int>)
    ensures merged == Merged(db.files, ts, r, s) && failed == Failed(db.files, ts, r, s)
  {
    merged, failed := [], {};
    for i := 0 to |ts|
      invariant merged == Merged(db.files, ts[..i], r, s) && failed == Failed(db.files, ts[..i], r, s)
    {
      assert ts[..i + 1][..i] == ts[..i];
      var out, ok := FillTarget(db, ts[i], r, s);
      if !ok {
        failed := failed + {ts[i].year};
      }
      merged := merged + out;
    }
    assert ts[..|ts|] == ts;
  }

  /** The bars by year, in their order. */
  method ByYear(ks: seq<KlineMinute>) returns (byYear: map<int, seq<KlineMinute>>)
    ensures forall y :: YearBars(byYear, y) == Filter(ks, OfYear(y))
  {
    byYear := map[];
    for i := 0 to |ks|
      invariant forall y :: YearBars(byYear, y) == Filter(ks[..i], OfYear(y))
    {
      var year := YearOf(ks[i].unix);
      forall y ensures Filter(ks[..i + 1], OfYear(y)) == YearBars(byYear, y) + if y == year then [ks[i]] else [] {
        NextOfYear(ks, i, y);
      }
      byYear := byYear[year := YearBars(byYear, year) + [ks[i]]];
    }
    assert ks[..|ks|] == ks;
  }

  lemma NextOfYear(ks: seq<KlineMinute>, i: nat, y: int)
    requires i < |ks|
    ensures Filter(ks[..i + 1], OfYear(y))
         == Filter(ks[..i], OfYear(y)) + if y == YearOf(ks[i].unix) then [ks[i]] else []
  {
    FilterSnoc(ks[..i], ks[i], OfYear(y));
    assert ks[..i + 1] == ks[..i] + [ks[i]];
  }

  function OfYear(y: int): KlineMinute -> bool { (k: KlineMinute) => YearOf(k.unix) == y }

  function From(t: Target): KlineMinute -> bool { (k: KlineMinute) => k.unix >= t.from }

  function YearBars(byYear: map<int, seq<KlineMinute>>, y: int): seq<KlineMinute> {
    if y in byYear then byYear[y] else []
  }

  lemma {:induction false} TwoFilters(ks: seq<KlineMinute>, t: Target)
    ensures Filter(Filter(ks, OfYear(t.year)), From(t)) == Filter(ks, Mine(t))
  {
    if ks != [] {
      TwoFilters(ks[1..], t);
      var here := if OfYear(t.year)(ks[0]) then [ks[0]] else [];
      FilterConcat(here, Filter(ks[1..], OfYear(t.year)), From(t));
      assert here != [] ==> here[1..] == [];
    }
  }

  /** One target saved. */
  method SaveOne(db: MinuteTables, t: Target, out: seq<KlineMinute>, complete: bool, r: Run) returns (ok: bool)
    modifies db
    ensures Saved(File(db.files, t.year), ok) == SaveTarget(File(old(db.files), t.year), t, out, complete, r)
    ensures db.files == Put(old(db.files), t.year, File(db.files, t.year))
  {
    var broken := t.year in r.faults.save;
    if r.fallback && complete {
      ok := db.SaveMinFallbackComplete(t.year, t.from, t.through, out, broken);
    } else if t.historical && !r.fallback {
      ok := db.SaveMinComplete(t.year, t.from, out, broken);
    } else {
      ok := db.SaveMin(t.year, t.from, out, broken);
    }
  }

  /** The last loop of pullMinutes. */
  method SaveTargets(db: MinuteTables, ts: seq<Target>, ks: seq<KlineMinute>, failed: set<int>, r: Run, s: Source)
    returns (ok: bool, ghost log: seq<Commit>)
    modifies db
    ensures Outcome(db.files, ok, log) == SaveAll(old(db.files), ts, ks, failed, r, s)
  {
    var byYear := ByYear(ks);
    ok, log := true, [];
    ghost var all := SaveAll(db.files, ts, ks, failed, r, s);
    ghost var rest := all;
    assert ts[0..] == ts;
    for i := 0 to |ts|
      invariant rest == SaveAll(db.files, ts[i..], ks, failed, r, s)
      invariant all == Outcome(rest.files, ok && rest.ok, log + rest.log)
    {
      var out := Collect(YearBars(byYear, ts[i].year), From(ts[i]));
      TwoFilters(ks, ts[i]);
      ghost var before := db.files;
      var saved := SaveOne(db, ts[i], out, ts[i].year !in failed, r);
      ghost var here;
      here, rest := NextSave(before, ts, i, ks, failed, r, s, rest, log);
      log := log + here;
      ok := ok && saved;
      if !saved && !r.fallback {
        return;
      }
    }
  }

  lemma NextSave(files: Files, ts: seq<Target>, i: nat, ks: seq<KlineMinute>, failed: set<int>,
                 r: Run, s: Source, was: Outcome,
                 log: seq<Commit>)
    returns (here: seq<Commit>, rest: Outcome)
    requires i < |ts| && was == SaveAll(files, ts[i..], ks, failed, r, s)
    ensures var t := ts[i];
      var saved := SaveTarget(File(files, t.year), t, Filter(ks, Mine(t)), t.year !in failed, r);
      var after := Put(files, t.year, saved.file);
      && rest == (if !saved.ok && !r.fallback then Outcome(after, true, [])
                  else SaveAll(after, ts[i + 1..], ks, failed, r, s))
      && was == Outcome(rest.files, saved.ok && rest.ok, here + rest.log)
      && (log + here) + rest.log == log + was.log
  {
    var t := ts[i];
    var out := Filter(ks, Mine(t));
    var saved := SaveTarget(File(files, t.year), t, out, t.year !in failed, r);
    var after := Put(files, t.year, saved.file);
    here := Logged(t, out, t.year !in failed, saved.ok, r, s);
    assert ts[i..][1..] == ts[i + 1..];
    if !saved.ok && !r.fallback {
      rest := Outcome(after, true, []);
      assert here + [] == here;
    } else {
      rest := SaveAll(after, ts[i + 1..], ks, failed, r, s);
    }
    Reassociate(log, here, rest.log);
  }

  /** pullMinutes. */
  method PullMinutes(db: MinuteTables, r: Run) returns (ok: bool, ghost log: seq<Commit>)
    modifies db
    ensures Outcome(db.files, ok, log) == Pull(old(db.files), r)
  {
    log := [];
    if r.start > r.now {
      return true, log;
    }
    var plan := MakePlan(db, r);
    if plan == Err {
      return false, log;
    }
    var (targets, earliest) := plan.value;
    if targets == [] {
      return true, log;
    }
    var fetched := r.fetch(earliest);
    if fetched == Err {
      return false, log;
    }
    var boundary := FindBoundary(r.now, fetched.value);
    var s := Source(fetched.value, r.days(earliest), boundary);
    if r.fallback {
      var merged, failed := FillTargets(db, targets, r, s);
      ok, log := SaveTargets(db, targets, merged, failed, r, s);
      ok := ok && failed == {};
    } else {
      ok, log := SaveTargets(db, targets, s.native, {}, r, s);
    }
  }
}
