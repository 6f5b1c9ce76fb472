/** What sequences of minute runs guarantee: nothing lost, nothing real overwritten, marks that mean something. */
module MinuteHistory {
  import opened Calendar
  import opened Grouping
  import opened MinuteFallback
  import opened MinuteRuns
  import opened MinuteStore
  import opened Results
  import opened Sorting
  import TradeBars

  ghost predicate InYear(f: YearFile, y: int) { forall u :: u in f.rows ==> YearOf(u) == y }

  /** Every table holds rows of its own year only. */
  ghost predicate Tidy(files: Files) { forall y :: InYear(File(files, y), y) }

  // Targets.

  ghost predicate Increasing(ts: seq<Target>) { forall i, j :: 0 <= i < j < |ts| ==> ts[i].year < ts[j].year }

  ghost predicate Planned(t: Target, files: Files, first: int, r: Run) {
    first <= t.year <= YearOf(r.now) && TargetOf(File(files, t.year), t.year, r) == Some(t)
  }

  ghost predicate AllPlanned(ts: seq<Target>, files: Files, first: int, r: Run) {
    forall t :: t in ts ==> Planned(t, files, first, r)
  }

  lemma {:induction false} PlanMembers(files: Files, year: int, r: Run)
    ensures AllPlanned(Plan(files, year, r), files, year, r)
    ensures Increasing(Plan(files, year, r))
    decreases YearOf(r.now) - year
  {
    if year <= YearOf(r.now) {
      PlanMembers(files, year + 1, r);
      var t := TargetOf(File(files, year), year, r);
      if t == None {
        assert [] + Plan(files, year + 1, r) == Plan(files, year + 1, r);
      } else {
        assert t.value.year == year;
        OneInFront(t.value, Plan(files, year + 1, r), files, r);
      }
    }
  }

  lemma OneInFront(t: Target, rest: seq<Target>, files: Files, r: Run)
    requires AllPlanned(rest, files, t.year + 1, r) && Increasing(rest) && Planned(t, files, t.year, r)
    ensures AllPlanned([t] + rest, files, t.year, r) && Increasing([t] + rest)
  {
    var ts := [t] + rest;
    assert forall x :: x in ts <==> x == t || x in rest;
    forall i, j | 0 <= i < j < |ts| ensures ts[i].year < ts[j].year {
      assert ts[j] == rest[j - 1] && rest[j - 1] in rest;
    }
  }

  /** A target lies in its own year. */
  ghost predicate Good(t: Target) {
    YearOf(t.from) == t.year && t.through <= YearStart(t.year + 1)
  }

  lemma TargetIsGood(f: YearFile, year: int, r: Run, t: Target)
    requires 0 <= r.start && YearOf(r.start) <= year <= YearOf(r.now)
    requires InYear(f, year) && TargetOf(f, year, r) == Some(t)
    ensures t.year == year && Good(t) && YearFrom(year, r.start) <= t.from
  {
    StartsInYear(year, r.start);
    EndsInYear(year, r.now);
    if t.from != YearFrom(year, r.start) {
      TakenUp(f, year, r, t);
    }
  }

  /** A year taken up at its newest row or its mark is taken up within the year. */
  lemma TakenUp(f: YearFile, year: int, r: Run, t: Target)
    requires 0 <= r.start && InYear(f, year) && TargetOf(f, year, r) == Some(t) && t.from != YearFrom(year, r.start)
    requires YearOf(YearFrom(year, r.start)) == year
    ensures t.year == year && YearFrom(year, r.start) < t.from && YearOf(t.from) == year
  {
    var n := Newest(f.rows);
    assert YearFrom(year, r.start) < t.from <= n;
    assert n in f.rows;
    SameYear(YearFrom(year, r.start), t.from, n, year);
  }

  lemma SameYear(a: int, b: int, c: int, y: int)
    requires a <= b <= c && YearOf(a) == y && YearOf(c) == y
    ensures YearOf(b) == y
  {
    YearIsMonotone(a, b);
    YearIsMonotone(b, c);
  }

  lemma StartsInYear(year: int, start: int)
    requires YearOf(start) <= year
    ensures YearOf(YearFrom(year, start)) == year
  {
    YearSpan(start);
    InOneYear(YearFrom(year, start), year);
    YearsIncrease(YearOf(start) + 1, year + 1);
    YearLength(year);
  }

  lemma EndsInYear(year: int, t: int)
    requires year <= YearOf(t)
    ensures Through(year, t) <= YearStart(year + 1)
  {
    InOneYear(t, YearOf(t));
  }

  // One target, by its own file alone.

  ghost function FilledAlone(f: YearFile, t: Target, r: Run, s: Source): Filled {
    if t.year in r.faults.local then Filled(map[], false)
    else Fill(Between(f.rows, Some(t.from), Some(t.through - 1)), Filter(s.native, InTarget(t)),
              t.from, t.through, s.boundary, s.days, r.trades)
  }

  /** The files of other years have nothing to offer. */
  lemma LocalIsOwn(files: Files, t: Target, now: int)
    requires Good(t)
    ensures AsRows(LocalRows(files, t, now)) == Between(File(files, t.year).rows, Some(t.from), Some(t.through - 1))
  {
    UpToYearEnd(t.from, t.through, t.year);
    OwnYear(files, t.from, t.through - 1, t.year, YearOf(t.through - 1));
  }

  lemma OwnYear(files: Files, from: int, end: int, y: int, last: int)
    requires last <= y && (last < y ==> end < from)
    ensures AsRows(ListedYears(files, Some(from), Some(end), y, last))
         == Between(File(files, y).rows, Some(from), Some(end))
  {
    var own := Between(File(files, y).rows, Some(from), Some(end));
    ListedDistinct(own);
    if last == y {
      var none := ListedYears(files, Some(from), Some(end), y + 1, last);
      assert none == [];
      assert Listed(own) + none == Listed(own);
    } else {
      assert own == map[];
    }
  }

  lemma FilledIsAlone(files: Files, t: Target, r: Run, s: Source)
    requires Good(t)
    ensures FilledFor(files, t, r, s) == FilledAlone(File(files, t.year), t, r, s)
  {
    LocalIsOwn(files, t, r.now);
  }

  /** Rows within a target. */
  ghost predicate Within(rows: Rows, t: Target) {
    forall u :: u in rows ==> t.from <= u < t.through && YearOf(u) == t.year
  }

  lemma InsideTarget(t: Target, u: int)
    requires Good(t) && t.from <= u < t.through
    ensures YearOf(u) == t.year
  {
    InOneYear(t.from, t.year);
    InOneYear(u, t.year);
  }

  lemma NativeRow(t: Target, s: Source, u: int)
    requires u in AsRows(Filter(s.native, InTarget(t)))
    ensures t.from <= u < t.through
    ensures KlineMinute(u, AsRows(Filter(s.native, InTarget(t)))[u]) in s.native
  {
    var ks := Filter(s.native, InTarget(t));
    InRows(ks, u);
    FilterMembers(s.native, InTarget(t));
    var k := KlineMinute(u, AsRows(ks)[u]);
    assert k in ks;
    assert InTarget(t)(k);
  }

  /** What the target starts from: its local rows under the exchange's. */
  ghost function Base(f: YearFile, t: Target, s: Source): Rows {
    Between(f.rows, Some(t.from), Some(t.through - 1)) + AsRows(Filter(s.native, InTarget(t)))
  }

  lemma BaseWithin(f: YearFile, t: Target, s: Source)
    requires Good(t)
    ensures Within(Base(f, t, s), t)
  {
    forall u | u in Base(f, t, s) ensures t.from <= u < t.through && YearOf(u) == t.year {
      if u in AsRows(Filter(s.native, InTarget(t))) {
        NativeRow(t, s, u);
      }
      InsideTarget(t, u);
    }
  }

  /** Filling adds synthesized rows only, within the target, and when it succeeds completes the dates. */
  lemma FilledTarget(f: YearFile, t: Target, r: Run, s: Source)
    requires Good(t) && t.year !in r.faults.local
    ensures var m := FilledAlone(f, t, r, s);
      && Grown(Base(f, t, s), m.rows, t.from, DatesFor(t, s))
      && (m.ok ==> Complete(m.rows, t.from, DatesFor(t, s)))
  {
    var b := Limit(t.through, s.boundary);
    if t.from < Midnight(b) && s.days != Err {
      FilledDays(Base(f, t, s), t.from, Dates(s.days.value, Day(t.from), b), r.trades);
    }
  }

  lemma FilledWithin(f: YearFile, t: Target, r: Run, s: Source)
    requires Good(t)
    ensures Within(FilledAlone(f, t, r, s).rows, t)
  {
    if t.year !in r.faults.local {
      var m := FilledAlone(f, t, r, s).rows;
      BaseWithin(f, t, s);
      FilledTarget(f, t, r, s);
      forall u | u in m ensures t.from <= u < t.through && YearOf(u) == t.year {
        if u !in Base(f, t, s) {
          DateIsBefore(t, s, Day(u));
          BeforeMidnight(u, Day(t.through));
          MidnightOf(t.through);
        }
        InsideTarget(t, u);
      }
    }
  }

  lemma DateIsBefore(t: Target, s: Source, d: int)
    requires d in DatesFor(t, s)
    ensures Day(t.from) <= d < Day(t.through)
  {
    var b := Limit(t.through, s.boundary);
    var i :| 0 <= i < |s.days.value| && Candidate(s.days.value[i], Day(t.from), b) && Day(s.days.value[i].time) == d;
  }

  // From all targets to each: what was merged is split again.

  lemma {:induction false} OwnPart(files: Files, ts: seq<Target>, r: Run, s: Source, t: Target)
    requires forall x :: x in ts ==> Good(x)
    requires forall x :: x in ts ==> x.year == t.year ==> x == t
    requires Increasing(ts)
    ensures Filter(Merged(files, ts, r, s), Mine(t)) == if t in ts then Listed(FilledFor(files, t, r, s).rows) else []
  {
    if ts != [] {
      var front, z := ts[..|ts| - 1], ts[|ts| - 1];
      assert forall x :: x in ts <==> x in front || x == z;
      OwnPart(files, front, r, s, t);
      var last := Listed(FilledFor(files, z, r, s).rows);
      FilterConcat(Merged(files, front, r, s), last, Mine(t));
      LastPart(files, r, s, t, z);
      if t == z {
        assert t !in front;
        assert [] + last == last;
      } else {
        assert Filter(Merged(files, front, r, s), Mine(t)) + [] == Filter(Merged(files, front, r, s), Mine(t));
      }
    }
  }

  lemma LastPart(files: Files, r: Run, s: Source, t: Target, z: Target)
    requires Good(z) && (z.year == t.year ==> z == t)
    ensures var last := Listed(FilledFor(files, z, r, s).rows);
      Filter(last, Mine(t)) == if z == t then last else []
  {
    var last := Listed(FilledFor(files, z, r, s).rows);
    FilledIsAlone(files, z, r, s);
    FilledWithin(File(files, z.year), z, r, s);
    forall i | 0 <= i < |last| ensures Mine(t)(last[i]) <==> z == t {
      assert last[i] in last;
    }
    if z == t {
      FilterAll(last, Mine(t));
    } else {
      FilterNone(last, Mine(t));
    }
  }

  lemma {:induction false} WhoFailed(files: Files, ts: seq<Target>, r: Run, s: Source, t: Target)
    requires Increasing(ts) && t in ts
    ensures t.year in Failed(files, ts, r, s) <==> !FilledFor(files, t, r, s).ok
  {
    var front, z := ts[..|ts| - 1], ts[|ts| - 1];
    if t in front {
      WhoFailed(files, front, r, s, t);
      var i :| 0 <= i < |front| && front[i] == t;
      assert ts[i].year < z.year;
    } else {
      assert t == z;
      NotAmong(files, front, r, s, t.year);
    }
  }

  lemma {:induction false} NotAmong(files: Files, ts: seq<Target>, r: Run, s: Source, y: int)
    requires forall i :: 0 <= i < |ts| ==> ts[i].year != y
    ensures y !in Failed(files, ts, r, s)
  {
    if ts != [] {
      NotAmong(files, ts[..|ts| - 1], r, s, y);
    }
  }

  // The saves touch each file at most once.

  lemma LaterYears(ts: seq<Target>)
    requires ts != [] && Increasing(ts)
    ensures Increasing(ts[1..])
    ensures forall i :: 0 <= i < |ts[1..]| ==> ts[0].year < ts[1..][i].year
  {
  }

  /** What the saves do to the file of one year: position `at` of its target, or -1 if it is left alone. */
  ghost predicate Touched(files: Files, o: Outcome, ts: seq<Target>, all: seq<KlineMinute>, failed: set<int>,
                          r: Run, s: Source,
                          y: int, at: int)
  {
    if 0 <= at < |ts| then
      var t := ts[at];
      var saved := SaveTarget(File(files, y), t, Filter(all, Mine(t)), y !in failed, r);
      && t.year == y
      && File(o.files, y) == saved.file
      && (forall c :: c in o.log && c.target.year == y ==>
            [c] == Logged(t, Filter(all, Mine(t)), y !in failed, saved.ok, r, s))
    else
      File(o.files, y) == File(files, y) && forall c :: c in o.log ==> c.target.year != y
  }

  lemma {:induction false} OneFile(files: Files, ts: seq<Target>, all: seq<KlineMinute>, failed: set<int>,
                                   r: Run, s: Source, y: int)
    returns (at: int)
    requires Increasing(ts)
    ensures -1 <= at < |ts| && Touched(files, SaveAll(files, ts, all, failed, r, s), ts, all, failed, r, s, y, at)
    ensures SaveAll(files, ts, all, failed, r, s).ok || r.fallback ==>
      forall i :: 0 <= i < |ts| && ts[i].year == y ==> at == i
    decreases |ts|
  {
    at := -1;
    if ts != [] {
      var t := ts[0];
      var out := Filter(all, Mine(t));
      var saved := SaveTarget(File(files, t.year), t, out, t.year !in failed, r);
      var after := Put(files, t.year, saved.file);
      if saved.ok || r.fallback {
        LaterYears(ts);
        var i := OneFile(after, ts[1..], all, failed, r, s, y);
        if t.year == y {
          at := 0;
        } else {
          at := if i < 0 then -1 else i + 1;
          assert i >= 0 ==> ts[1..][i] == ts[i + 1];
        }
      } else if t.year == y {
        at := 0;
      }
    }
  }

  // One save.

  /** The table after a save of m: m, and of what was there everything before `from`, nothing past the first of m. */
  ghost predicate Replaced(was: Rows, now: Rows, m: Rows, from: int) {
    && (forall u :: u in m ==> u in now && now[u] == m[u])
    && (forall u :: u in now && u !in m ==> u in was && now[u] == was[u] && forall v :: v in m ==> u < v)
    && (forall u :: u in was && u < from ==> u in now)
  }

  ghost predicate NotBefore(m: Rows, from: int) { forall u :: u in m ==> from <= u }

  lemma WrittenFits(was: Rows, from: int, ks: seq<KlineMinute>)
    requires Distinct(ks) && forall k :: k in ks ==> from <= k.unix
    ensures Inserted(Below(was, from), ks) == Ok(Below(was, from) + AsRows(ks))
  {
    forall i | 0 <= i < |ks| ensures ks[i].unix !in Below(was, from) {
      assert ks[i] in ks;
    }
  }

  lemma WrittenReplaces(was: Rows, w: int, m: Rows, from: int)
    requires from <= w && NotBefore(m, w)
    ensures Replaced(was, Below(was, w) + m, m, from)
  {
  }

  /** Writing a list of rows in order from w on. */
  lemma ListedWrites(was: Rows, w: int, m: Rows, from: int)
    requires from <= w && NotBefore(m, w)
    ensures Inserted(Below(was, w), Listed(m)).Ok?
    ensures Replaced(was, Inserted(Below(was, w), Listed(m)).value, m, from)
  {
    ListedDistinct(m);
    WrittenFits(was, w, Listed(m));
    WrittenReplaces(was, w, m, from);
  }

  lemma FirstListed(m: Rows, from: int)
    requires m != map[] && NotBefore(m, from)
    ensures Listed(m) != [] && from <= EarliestOf(Listed(m)) && NotBefore(m, EarliestOf(Listed(m)))
  {
    var u := AnyMember(m.Keys);
    assert KlineMinute(u, m[u]) in Listed(m);
    forall v | v in m ensures EarliestOf(Listed(m)) <= v {
      assert KlineMinute(v, m[v]) in Listed(m);
    }
  }

  /** Saving what was filled either leaves the file alone or replaces rows; it fails only with the store. */
  lemma SavedTarget(f: YearFile, t: Target, m: Rows, complete: bool, r: Run)
    requires r.fallback && Within(m, t)
    ensures var saved := SaveTarget(f, t, Listed(m), complete, r);
      && (m == map[] || t.year in r.faults.save ==> saved.file == f)
      && (m != map[] && t.year !in r.faults.save ==> saved.ok && Replaced(f.rows, saved.file.rows, m, t.from))
  {
    if m != map[] {
      FirstListed(m, t.from);
      var u := AnyMember(m.Keys);
      assert t.from <= u < t.through;
      ListedWrites(f.rows, EarliestOf(Listed(m)), m, t.from);
      ListedWrites(f.rows, t.from, m, t.from);
    }
  }

  lemma SavedMark(f: YearFile, t: Target, out: seq<KlineMinute>, complete: bool, r: Run)
    requires r.fallback
    ensures var saved := SaveTarget(f, t, out, complete, r);
      if complete && saved.ok && out != []
      then t.from < t.through && saved.file.mark == Some(MergedMark(f.mark, Mark(t.from, t.through, true)))
      else saved.file.mark == f.mark
  {
  }

  // One rebuilding run on one file.

  ghost function Step(f: YearFile, t: Target, r: Run, s: Source): Saved {
    var m := FilledAlone(f, t, r, s);
    SaveTarget(f, t, Listed(m.rows), m.ok, r)
  }

  ghost predicate Genuine(ks: seq<KlineMinute>) { forall k :: k in ks ==> k.bar.native }

  lemma BaseRow(f: YearFile, t: Target, s: Source, u: int)
    requires u in f.rows && t.from <= u < t.through && Genuine(s.native)
    ensures u in Base(f, t, s) && (f.rows[u].native ==> Base(f, t, s)[u].native)
  {
    if u in AsRows(Filter(s.native, InTarget(t))) {
      NativeRow(t, s, u);
    }
  }

  /** A row before the end of the target is still there, and real if it was. */
  lemma StepKeeps(f: YearFile, t: Target, r: Run, s: Source, u: int)
    requires r.fallback && Good(t) && u in f.rows && u < t.through && Genuine(s.native)
    ensures u in Step(f, t, r, s).file.rows
    ensures f.rows[u].native ==> Step(f, t, r, s).file.rows[u].native
  {
    var m := FilledAlone(f, t, r, s);
    FilledWithin(f, t, r, s);
    SavedTarget(f, t, m.rows, m.ok, r);
    if t.year !in r.faults.local && t.from <= u {
      FilledTarget(f, t, r, s);
      BaseRow(f, t, s, u);
    }
  }

  /** A row from the end of the target on is gone if anything was saved. */
  lemma StepDrops(f: YearFile, t: Target, r: Run, s: Source, u: int)
    requires r.fallback && Good(t) && u in f.rows && t.through <= u
    requires t.year !in r.faults.save && FilledAlone(f, t, r, s).rows != map[]
    ensures u !in Step(f, t, r, s).file.rows
  {
    var m := FilledAlone(f, t, r, s);
    FilledWithin(f, t, r, s);
    SavedTarget(f, t, m.rows, m.ok, r);
    var v := AnyMember(m.rows.Keys);
    assert v < t.through;
  }

  /** What is stored afterwards was stored before or lies in the target. */
  lemma StepAdds(f: YearFile, t: Target, r: Run, s: Source, u: int)
    requires r.fallback && Good(t) && u in Step(f, t, r, s).file.rows
    ensures u in f.rows || (t.from <= u < t.through && YearOf(u) == t.year)
  {
    var m := FilledAlone(f, t, r, s);
    FilledWithin(f, t, r, s);
    SavedTarget(f, t, m.rows, m.ok, r);
  }

  /** Bars of the exchange get through whatever else fails, as long as the table can be read and written. */
  lemma StepStores(f: YearFile, t: Target, r: Run, s: Source, k: KlineMinute)
    requires r.fallback && Good(t) && t.year !in r.faults.local && t.year !in r.faults.save
    requires k in s.native && t.from <= k.unix < t.through && Distinct(s.native)
    ensures k.unix in Step(f, t, r, s).file.rows && Step(f, t, r, s).file.rows[k.unix] == k.bar
  {
    var m := FilledAlone(f, t, r, s);
    FilledWithin(f, t, r, s);
    SavedTarget(f, t, m.rows, m.ok, r);
    FilledTarget(f, t, r, s);
    NativeIsBase(f, t, s, k);
  }

  lemma NativeIsBase(f: YearFile, t: Target, s: Source, k: KlineMinute)
    requires k in s.native && t.from <= k.unix < t.through && Distinct(s.native)
    ensures k.unix in Base(f, t, s) && Base(f, t, s)[k.unix] == k.bar
  {
    var ks := Filter(s.native, InTarget(t));
    FilterMembers(s.native, InTarget(t));
    assert InTarget(t)(k);
    assert k in ks;
    var i :| 0 <= i < |ks| && ks[i] == k;
    InRows(ks, k.unix);
    var j := KlineMinute(k.unix, AsRows(ks)[k.unix]);
    assert j in s.native;
    SameTimeSameBar(s.native, j, k);
  }

  lemma SameTimeSameBar(ks: seq<KlineMinute>, a: KlineMinute, b: KlineMinute)
    requires Distinct(ks) && a in ks && b in ks && a.unix == b.unix
    ensures a == b
  {
    var i :| 0 <= i < |ks| && ks[i] == a;
    var j :| 0 <= j < |ks| && ks[j] == b;
    assert Unix()(ks[i]) == Unix()(ks[j]);
    assert i == j;
  }

  /** A mark is set only over days that are complete. */
  lemma StepCompletes(f: YearFile, t: Target, r: Run, s: Source, c: Commit)
    requires r.fallback && Good(t)
    requires var m := FilledAlone(f, t, r, s); [c] == Logged(t, Listed(m.rows), m.ok, Step(f, t, r, s).ok, r, s)
    ensures c.target == t && t.from < t.through && Complete(Step(f, t, r, s).file.rows, t.from, c.dates)
    ensures c.dates == DatesFor(t, s)
    ensures Step(f, t, r, s).file.mark == Some(MergedMark(f.mark, Mark(t.from, t.through, true)))
  {
    var m := FilledAlone(f, t, r, s);
    FilledWithin(f, t, r, s);
    FilledTarget(f, t, r, s);
    SavedTarget(f, t, m.rows, m.ok, r);
    SavedMark(f, t, Listed(m.rows), m.ok, r);
  }

  // One run.

  ghost function Targets(files: Files, r: Run): seq<Target> { Plan(files, YearOf(r.start), r) }

  /** The run got as far as the exchange's answer. */
  ghost predicate Reached(files: Files, r: Run) {
    && r.start <= r.now && Readable(r) && Targets(files, r) != []
    && r.fetch(EarliestFrom(Targets(files, r))).Ok?
  }

  /** A run that cannot be planned or whose fetch fails changes nothing. */
  lemma OnlyAFetchChangesAnything(files: Files, r: Run)
    ensures !Reached(files, r) ==> Pull(files, r).files == files && Pull(files, r).log == []
  {
  }

  lemma PlannedIsGood(files: Files, r: Run, t: Target)
    requires Tidy(files) && 0 <= r.start && Planned(t, files, YearOf(r.start), r)
    ensures Good(t) && YearFrom(t.year, r.start) <= t.from
  {
    TargetIsGood(File(files, t.year), t.year, r, t);
  }

  lemma TargetsAreGood(files: Files, r: Run)
    requires Tidy(files) && 0 <= r.start
    ensures AllPlanned(Targets(files, r), files, YearOf(r.start), r) && Increasing(Targets(files, r))
    ensures forall t :: t in Targets(files, r) ==> Good(t)
    ensures forall t :: t in Targets(files, r) ==> YearFrom(t.year, r.start) <= t.from
  {
    PlanMembers(files, YearOf(r.start), r);
    forall t | t in Targets(files, r) ensures Good(t) && YearFrom(t.year, r.start) <= t.from {
      PlannedIsGood(files, r, t);
    }
  }

  /** What a rebuilding run does to the file of year y, whose target is t. */
  ghost predicate Rebuilt(files: Files, r: Run, y: int, t: Target, s: Source) {
    && t.year == y && Good(t) && YearFrom(y, r.start) <= t.from
    && Planned(t, files, YearOf(r.start), r) && t in Targets(files, r)
    && Reached(files, r) && s == SourceOf(Targets(files, r), r)
    && File(Pull(files, r).files, y) == Step(File(files, y), t, r, s).file
    && forall c :: c in Pull(files, r).log && c.target.year == y ==>
         var m := FilledAlone(File(files, y), t, r, s);
         [c] == Logged(t, Listed(m.rows), m.ok, Step(File(files, y), t, r, s).ok, r, s)
  }

  ghost predicate LeftAlone(files: Files, r: Run, y: int) {
    File(Pull(files, r).files, y) == File(files, y) && forall c :: c in Pull(files, r).log ==> c.target.year != y
  }

  /** A rebuilding run does to each file what it would do if that were the only one. */
  lemma FallbackFile(files: Files, r: Run, y: int) returns (t: Option<Target>, s: Source)
    requires Tidy(files) && 0 <= r.start && r.fallback
    ensures t == None ==> LeftAlone(files, r, y)
    ensures t.Some? ==> Rebuilt(files, r, y, t.value, s)
    ensures Reached(files, r) ==> forall x :: x in Targets(files, r) && x.year == y ==> t == Some(x)
  {
    t, s := None, Source([], Err, 0);
    if Reached(files, r) {
      var ts := Targets(files, r);
      s := SourceOf(ts, r);
      TargetsAreGood(files, r);
      var all, failed := Merged(files, ts, r, s), Failed(files, ts, r, s);
      var at := OneFile(files, ts, all, failed, r, s, y);
      if at >= 0 {
        t := Some(ts[at]);
        TouchedIsRebuilt(files, r, s, y, at);
      }
      forall x | x in ts && x.year == y ensures t == Some(x) {
        var i :| 0 <= i < |ts| && ts[i] == x;
      }
    }
  }

  lemma TouchedIsRebuilt(files: Files, r: Run, s: Source, y: int, at: nat)
    requires Tidy(files) && 0 <= r.start && r.fallback && Reached(files, r) && s == SourceOf(Targets(files, r), r)
    requires var ts := Targets(files, r);
      var all, failed := Merged(files, ts, r, s), Failed(files, ts, r, s);
      at < |ts| && Touched(files, SaveAll(files, ts, all, failed, r, s), ts, all, failed, r, s, y, at)
    ensures Rebuilt(files, r, y, Targets(files, r)[at], s)
  {
    TargetsAreGood(files, r);
    assert Targets(files, r)[at] in Targets(files, r);
    AsIfAlone(files, r, s, Targets(files, r), at);
  }

  lemma AsIfAlone(files: Files, r: Run, s: Source, ts: seq<Target>, at: nat)
    requires at < |ts| && Increasing(ts) && forall t :: t in ts ==> Good(t)
    ensures var t := ts[at];
      var m := FilledAlone(File(files, t.year), t, r, s);
      && Filter(Merged(files, ts, r, s), Mine(t)) == Listed(m.rows)
      && (t.year in Failed(files, ts, r, s) <==> !m.ok)
  {
    var t := ts[at];
    assert t in ts;
    forall x | x in ts && x.year == t.year ensures x == t {
      var i :| 0 <= i < |ts| && ts[i] == x;
      assert i == at;
    }
    OwnPart(files, ts, r, s, t);
    WhoFailed(files, ts, r, s, t);
    FilledIsAlone(files, t, r, s);
  }

  /** What the exchange's own source delivers is marked as such. */
  ghost predicate FromExchange(r: Run) { forall e :: r.fetch(e).Ok? ==> Genuine(r.fetch(e).value) }

  lemma ItsOwnBars(files: Files, r: Run, s: Source)
    requires FromExchange(r) && Reached(files, r) && s == SourceOf(Targets(files, r), r)
    ensures Genuine(s.native)
  {
    assert r.fetch(EarliestFrom(Targets(files, r))).Ok?;
  }

  /** With rebuilding on, whatever fails, no row is lost unless it is stamped with the current time or later,
      and a row of the exchange stays one. */
  lemma RowsAreKept(files: Files, r: Run, y: int, u: int)
    requires Tidy(files) && 0 <= r.start && r.fallback && FromExchange(r)
    requires u in File(files, y).rows && (y == YearOf(r.now) ==> u < r.now)
    ensures u in File(Pull(files, r).files, y).rows
    ensures File(files, y).rows[u].native ==> File(Pull(files, r).files, y).rows[u].native
  {
    var t, s := FallbackFile(files, r, y);
    if t.Some? {
      ItsOwnBars(files, r, s);
      BeforeTheEnd(files, r, y, u);
      StepKeeps(File(files, y), t.value, r, s, u);
    }
  }

  lemma BeforeTheEnd(files: Files, r: Run, y: int, u: int)
    requires Tidy(files) && u in File(files, y).rows && y <= YearOf(r.now) && (y == YearOf(r.now) ==> u < r.now)
    ensures u < Through(y, r.now)
  {
    assert InYear(File(files, y), y);
    InOneYear(u, y);
  }

  /** That end is exact: once a year's mark is set, a row from there on is gone. */
  lemma KeptExactlyUpToTheEnd(files: Files, r: Run, c: Commit, u: int)
    requires Tidy(files) && 0 <= r.start && r.fallback && FromExchange(r)
    requires c in Pull(files, r).log && u in File(files, c.target.year).rows
    ensures u in File(Pull(files, r).files, c.target.year).rows <==> u < c.target.through
  {
    var y := c.target.year;
    var t, s := FallbackFile(files, r, y);
    StepCompletes(File(files, y), t.value, r, s, c);
    if u < t.value.through {
      ItsOwnBars(files, r, s);
      StepKeeps(File(files, y), t.value, r, s, u);
    } else {
      WasSaved(File(files, y), t.value, r, s, c);
      StepDrops(File(files, y), t.value, r, s, u);
    }
  }

  lemma WasSaved(f: YearFile, t: Target, r: Run, s: Source, c: Commit)
    requires r.fallback && Good(t)
    requires var m := FilledAlone(f, t, r, s); [c] == Logged(t, Listed(m.rows), m.ok, Step(f, t, r, s).ok, r, s)
    ensures t.year !in r.faults.save && FilledAlone(f, t, r, s).rows != map[]
  {
  }

  /** Without rebuilding, each file is left alone or saved from the exchange's bars of its year. */
  lemma NativeFile(files: Files, r: Run, y: int) returns (t: Option<Target>, s: Source)
    requires !r.fallback
    ensures Pull(files, r).log == []
    ensures t == None ==> LeftAlone(files, r, y)
    ensures t.Some? ==> (
      && Reached(files, r) && s == SourceOf(Targets(files, r), r)
      && Planned(t.value, files, YearOf(r.start), r) && t.value in Targets(files, r) && t.value.year == y
      && File(Pull(files, r).files, y)
         == SaveTarget(File(files, y), t.value, Filter(s.native, Mine(t.value)), true, r).file)
    ensures Reached(files, r) && Pull(files, r).ok ==>
      forall x :: x in Targets(files, r) && x.year == y ==> t == Some(x)
  {
    t, s := None, Source([], Err, 0);
    NothingLogged(files, r);
    if Reached(files, r) {
      var ts := Targets(files, r);
      s := SourceOf(ts, r);
      PlanMembers(files, YearOf(r.start), r);
      var at := OneFile(files, ts, s.native, {}, r, s, y);
      if at >= 0 {
        t := Some(ts[at]);
        assert ts[at] in ts;
      }
      forall x | x in ts && x.year == y && Pull(files, r).ok ensures t == Some(x) {
        var i :| 0 <= i < |ts| && ts[i] == x;
      }
    }
  }

  lemma NothingLogged(files: Files, r: Run)
    requires !r.fallback
    ensures Pull(files, r).log == []
  {
    if Reached(files, r) {
      var s := SourceOf(Targets(files, r), r);
      NoMarks(files, Targets(files, r), s.native, r, s);
    }
  }

  lemma {:induction false} NoMarks(files: Files, ts: seq<Target>, all: seq<KlineMinute>, r: Run, s: Source)
    requires !r.fallback
    ensures SaveAll(files, ts, all, {}, r, s).log == []
    decreases |ts|
  {
    if ts != [] {
      var t := ts[0];
      var saved := SaveTarget(File(files, t.year), t, Filter(all, Mine(t)), true, r);
      NoMarks(Put(files, t.year, saved.file), ts[1..], all, r, s);
    }
  }

  /** Rows written without rebuilding: what was there, or bars of the exchange of that year. */
  lemma NativeSave(f: YearFile, t: Target, ks: seq<KlineMinute>, r: Run, u: int)
    requires !r.fallback && Genuine(ks)
    requires u in SaveTarget(f, t, Filter(ks, Mine(t)), true, r).file.rows
    ensures var v := SaveTarget(f, t, Filter(ks, Mine(t)), true, r).file.rows[u];
      (u in f.rows && v == f.rows[u]) || (v.native && YearOf(u) == t.year)
  {
    var out := Filter(ks, Mine(t));
    FilterMembers(ks, Mine(t));
    InRows(out, u);
    if u in AsRows(out) {
      assert Mine(t)(KlineMinute(u, AsRows(out)[u]));
    }
  }

  /** In either mode a stored bar of the exchange is never replaced by a synthesized one. */
  lemma RealBarsAreNotReplaced(files: Files, r: Run, y: int, u: int)
    requires Tidy(files) && 0 <= r.start && FromExchange(r)
    requires u in File(files, y).rows && File(files, y).rows[u].native
    requires u in File(Pull(files, r).files, y).rows
    ensures File(Pull(files, r).files, y).rows[u].native
  {
    if r.fallback {
      var t, s := FallbackFile(files, r, y);
      if t.Some? {
        ItsOwnBars(files, r, s);
        if u < t.value.through {
          StepKeeps(File(files, y), t.value, r, s, u);
        } else {
          PastTheEnd(File(files, y), t.value, r, s, u);
        }
      }
    } else {
      var t, s := NativeFile(files, r, y);
      if t.Some? {
        ItsOwnBars(files, r, s);
        NativeSave(File(files, y), t.value, s.native, r, u);
      }
    }
  }

  lemma PastTheEnd(f: YearFile, t: Target, r: Run, s: Source, u: int)
    requires r.fallback && Good(t) && t.through <= u
    requires u in f.rows && u in Step(f, t, r, s).file.rows
    ensures Step(f, t, r, s).file.rows[u] == f.rows[u]
  {
    var m := FilledAlone(f, t, r, s);
    FilledWithin(f, t, r, s);
    SavedTarget(f, t, m.rows, m.ok, r);
  }

  /** A fresh bar of the exchange within a target is stored, in place of whatever was there, even if the
      rebuilding of other days fails. */
  lemma FreshBarsAreStored(files: Files, r: Run, t: Target, k: KlineMinute)
    requires Tidy(files) && 0 <= r.start && r.fallback && Reached(files, r) && t in Targets(files, r)
    requires t.year !in r.faults.local && t.year !in r.faults.save
    requires var ks := r.fetch(EarliestFrom(Targets(files, r))).value; k in ks && Distinct(ks)
    requires t.from <= k.unix < t.through
    ensures k.unix in File(Pull(files, r).files, t.year).rows
    ensures File(Pull(files, r).files, t.year).rows[k.unix] == k.bar
  {
    var x, s := FallbackFile(files, r, t.year);
    StepStores(File(files, t.year), t, r, s, k);
  }

  /** The tables stay tidy in either mode. */
  lemma TidyAfter(files: Files, r: Run)
    requires Tidy(files) && 0 <= r.start && FromExchange(r)
    ensures Tidy(Pull(files, r).files)
  {
    forall y, u | u in File(Pull(files, r).files, y).rows ensures YearOf(u) == y {
      RowIsTidy(files, r, y, u);
    }
  }

  lemma RowIsTidy(files: Files, r: Run, y: int, u: int)
    requires Tidy(files) && 0 <= r.start && FromExchange(r)
    requires u in File(Pull(files, r).files, y).rows
    ensures YearOf(u) == y
  {
    assert InYear(File(files, y), y);
    if r.fallback {
      var t, s := FallbackFile(files, r, y);
      if t.Some? {
        StepAdds(File(files, y), t.value, r, s, u);
      }
    } else {
      var t, s := NativeFile(files, r, y);
      if t.Some? {
        ItsOwnBars(files, r, s);
        NativeSave(File(files, y), t.value, s.native, r, u);
      }
    }
  }

  // Any number of runs.

  /** The tables, and every rebuilding mark ever set. */
  datatype World = World(files: Files, log: seq<Commit>)

  ghost function After(w: World, r: Run): World {
    var o := Pull(w.files, r);
    World(o.files, w.log + o.log)
  }

  ghost function History(w: World, rs: seq<Run>): World
    decreases |rs|
  {
    if rs == [] then w else History(After(w, rs[0]), rs[1..])
  }

  ghost predicate Processed(log: seq<Commit>, y: int, u: int) {
    exists c :: c in log && c.target.year == y && c.target.from <= u < c.target.through
  }

  /** Whatever a rebuilding mark claims was processed by some run that succeeded for that year. */
  ghost predicate Justified(m: Option<Mark>, log: seq<Commit>, y: int) {
    m.Some? && m.value.fallback ==> forall u :: m.value.from <= u < m.value.through ==> Processed(log, y, u)
  }

  ghost predicate AllJustified(w: World) { forall y :: Justified(File(w.files, y).mark, w.log, y) }

  lemma StillProcessed(log: seq<Commit>, more: seq<Commit>, y: int, u: int)
    requires Processed(log, y, u)
    ensures Processed(log + more, y, u)
  {
    var c :| c in log && c.target.year == y && c.target.from <= u < c.target.through;
    assert c in log + more;
  }

  lemma StillJustified(m: Option<Mark>, log: seq<Commit>, more: seq<Commit>, y: int)
    requires Justified(m, log, y)
    ensures Justified(m, log + more, y)
  {
    if m.Some? && m.value.fallback {
      forall u | m.value.from <= u < m.value.through ensures Processed(log + more, y, u) {
        StillProcessed(log, more, y, u);
      }
    }
  }

  /** Touching intervals have no gap between them. */
  lemma MergedIsJustified(m: Option<Mark>, c: Commit, log: seq<Commit>)
    requires Justified(m, log, c.target.year) && c in log
    ensures Justified(Some(MergedMark(m, Mark(c.target.from, c.target.through, true))), log, c.target.year)
  {
    var t := c.target;
    var n := MergedMark(m, Mark(t.from, t.through, true));
    forall u | n.from <= u < n.through ensures Processed(log, t.year, u) {
      if t.from <= u < t.through {
        assert c in log;
      } else {
        assert m.value.from <= u < m.value.through;
      }
    }
  }

  lemma RebuiltIsJustified(w: World, r: Run, y: int)
    requires Tidy(w.files) && 0 <= r.start && r.fallback
    requires Justified(File(w.files, y).mark, After(w, r).log, y)
    ensures Justified(File(After(w, r).files, y).mark, After(w, r).log, y)
  {
    var t, s := FallbackFile(w.files, r, y);
    if t.Some? {
      StepIsJustified(w, r, y, t.value, s);
    }
  }

  lemma ScannedIsJustified(w: World, r: Run, y: int)
    requires !r.fallback && Justified(File(w.files, y).mark, After(w, r).log, y)
    ensures Justified(File(After(w, r).files, y).mark, After(w, r).log, y)
  {
    var t, s := NativeFile(w.files, r, y);
  }

  lemma FileIsJustified(w: World, r: Run, y: int)
    requires Tidy(w.files) && 0 <= r.start && Justified(File(w.files, y).mark, w.log, y)
    ensures Justified(File(After(w, r).files, y).mark, After(w, r).log, y)
  {
    StillJustified(File(w.files, y).mark, w.log, Pull(w.files, r).log, y);
    if r.fallback {
      RebuiltIsJustified(w, r, y);
    } else {
      ScannedIsJustified(w, r, y);
    }
  }

  /** A mark is set only together with its entry in the log. */
  lemma {:induction false} MarksAreLogged(files: Files, ts: seq<Target>, all: seq<KlineMinute>, failed: set<int>,
                                          r: Run, s: Source, t: Target)
    requires r.fallback && Increasing(ts) && t in ts && t.year !in failed
    requires SaveTarget(File(files, t.year), t, Filter(all, Mine(t)), true, r).ok && Filter(all, Mine(t)) != []
    ensures Commit(t, DatesFor(t, s)) in SaveAll(files, ts, all, failed, r, s).log
    decreases |ts|
  {
    var z := ts[0];
    var out := Filter(all, Mine(z));
    var saved := SaveTarget(File(files, z.year), z, out, z.year !in failed, r);
    var after := Put(files, z.year, saved.file);
    var here := Logged(z, out, z.year !in failed, saved.ok, r, s);
    var rest := SaveAll(after, ts[1..], all, failed, r, s);
    if t == z {
      assert Commit(t, DatesFor(t, s)) in here;
    } else {
      var i :| 0 <= i < |ts| && ts[i] == t;
      assert ts[1..][i - 1] == t && z.year < t.year;
      MarksAreLogged(after, ts[1..], all, failed, r, s, t);
    }
  }

  lemma StepIsJustified(w: World, r: Run, y: int, t: Target, s: Source)
    requires Tidy(w.files) && 0 <= r.start && r.fallback && Rebuilt(w.files, r, y, t, s)
    requires Justified(File(w.files, y).mark, After(w, r).log, y)
    ensures Justified(File(After(w, r).files, y).mark, After(w, r).log, y)
  {
    var f := File(w.files, y);
    var m := FilledAlone(f, t, r, s);
    SavedMark(f, t, Listed(m.rows), m.ok, r);
    if m.ok && Step(f, t, r, s).ok && Listed(m.rows) != [] {
      StepIsLogged(w.files, r, t, s);
      var c := Commit(t, DatesFor(t, s));
      assert c in w.log + Pull(w.files, r).log;
      MergedIsJustified(f.mark, c, After(w, r).log);
    }
  }

  lemma StepIsLogged(files: Files, r: Run, t: Target, s: Source)
    requires Tidy(files) && 0 <= r.start && r.fallback && Rebuilt(files, r, t.year, t, s)
    requires var f := File(files, t.year); var m := FilledAlone(f, t, r, s);
      m.ok && Step(f, t, r, s).ok && Listed(m.rows) != []
    ensures Commit(t, DatesFor(t, s)) in Pull(files, r).log
  {
    var ts := Targets(files, r);
    TargetsAreGood(files, r);
    var at :| 0 <= at < |ts| && ts[at] == t;
    AsIfAlone(files, r, s, ts, at);
    MarksAreLogged(files, ts, Merged(files, ts, r, s), Failed(files, ts, r, s), r, s, t);
  }

  ghost predicate Sourced(r: Run) { 0 <= r.start && FromExchange(r) }

  /** Over any sequence of runs, in either mode and whatever fails, a rebuilding mark covers only what runs
      processed successfully, and every table keeps to its year. */
  lemma {:induction false} CoverageIsProcessed(w: World, rs: seq<Run>)
    requires Tidy(w.files) && AllJustified(w)
    requires forall i :: 0 <= i < |rs| ==> Sourced(rs[i])
    ensures Tidy(History(w, rs).files) && AllJustified(History(w, rs))
    decreases |rs|
  {
    if rs != [] {
      assert Sourced(rs[0]);
      TidyAfter(w.files, rs[0]);
      forall y ensures Justified(File(After(w, rs[0]).files, y).mark, After(w, rs[0]).log, y) {
        FileIsJustified(w, rs[0], y);
      }
      forall i | 0 <= i < |rs[1..]| ensures Sourced(rs[1..][i]) {
        assert rs[1..][i] == rs[i + 1];
      }
      CoverageIsProcessed(After(w, rs[0]), rs[1..]);
    }
  }

  lemma {:induction false} TidyHistory(w: World, rs: seq<Run>)
    requires Tidy(w.files) && forall i :: 0 <= i < |rs| ==> Sourced(rs[i])
    ensures Tidy(History(w, rs).files)
    decreases |rs|
  {
    if rs != [] {
      assert Sourced(rs[0]);
      TidyAfter(w.files, rs[0]);
      TidyHistory(After(w, rs[0]), rs[1..]);
    }
  }

  /** After any sequence of runs in either mode, the next run, in either mode, replaces no bar of the exchange by a
      synthesized one. */
  lemma RealBarsAreNeverReplaced(w: World, rs: seq<Run>, r: Run, y: int, u: int)
    requires Tidy(w.files) && (forall i :: 0 <= i < |rs| ==> Sourced(rs[i])) && Sourced(r)
    requires var rows := File(History(w, rs).files, y).rows; u in rows && rows[u].native
    requires u in File(After(History(w, rs), r).files, y).rows
    ensures File(After(History(w, rs), r).files, y).rows[u].native
  {
    TidyHistory(w, rs);
    RealBarsAreNotReplaced(History(w, rs).files, r, y, u);
  }

  // Any number of rebuilding runs.

  ghost predicate Kept(a: Files, b: Files) {
    forall y, u :: u in File(a, y).rows ==>
      u in File(b, y).rows && (File(a, y).rows[u].native ==> File(b, y).rows[u].native)
  }

  ghost predicate InPast(files: Files, now: int) { forall y, u :: u in File(files, y).rows ==> u < now }

  /** Every minute of every day a mark was set over is still stored. */
  ghost predicate AllStored(w: World) {
    forall c :: c in w.log ==> Complete(File(w.files, c.target.year).rows, c.target.from, c.dates)
  }

  /** The clock does not go back. */
  ghost predicate Rebuilding(rs: seq<Run>, clock: int)
    decreases |rs|
  {
    rs == [] || (Sourced(rs[0]) && rs[0].fallback && clock <= rs[0].now && Rebuilding(rs[1..], rs[0].now))
  }

  lemma RowIsInPast(files: Files, r: Run, y: int, u: int)
    requires Tidy(files) && Sourced(r) && r.fallback && InPast(files, r.now)
    requires u in File(Pull(files, r).files, y).rows
    ensures u < r.now
  {
    var t, s := FallbackFile(files, r, y);
    if t.Some? {
      StepAdds(File(files, y), t.value, r, s, u);
      ThroughIsPast(y, r.now);
    }
  }

  lemma ThroughIsPast(y: int, now: int)
    requires y <= YearOf(now)
    ensures Through(y, now) <= now
  {
    if y < YearOf(now) {
      YearsIncrease(y + 1, YearOf(now));
      YearSpan(now);
    }
  }

  lemma {:induction false} OneRebuild(w: World, r: Run)
    requires Tidy(w.files) && Sourced(r) && r.fallback && InPast(w.files, r.now) && AllStored(w)
    ensures Kept(w.files, After(w, r).files) && InPast(After(w, r).files, r.now) && AllStored(After(w, r))
  {
    var b := Pull(w.files, r).files;
    forall y, u | u in File(w.files, y).rows
      ensures u in File(b, y).rows && (File(w.files, y).rows[u].native ==> File(b, y).rows[u].native)
    {
      RowsAreKept(w.files, r, y, u);
    }
    forall y, u | u in File(b, y).rows ensures u < r.now {
      RowIsInPast(w.files, r, y, u);
    }
    forall c | c in After(w, r).log ensures Complete(File(b, c.target.year).rows, c.target.from, c.dates) {
      if c in w.log {
        assert Complete(File(w.files, c.target.year).rows, c.target.from, c.dates);
      } else {
        NewMark(w.files, r, c);
      }
    }
  }

  lemma NewMark(files: Files, r: Run, c: Commit)
    requires Tidy(files) && Sourced(r) && r.fallback && c in Pull(files, r).log
    ensures Complete(File(Pull(files, r).files, c.target.year).rows, c.target.from, c.dates)
    ensures c.target in Targets(files, r) && Reached(files, r)
      && c.dates == DatesFor(c.target, SourceOf(Targets(files, r), r))
    ensures var m := File(Pull(files, r).files, c.target.year).mark;
      m.Some? && m.value.fallback && m.value.from <= c.target.from && c.target.through <= m.value.through
    ensures c.target.from < c.target.through && YearFrom(c.target.year, r.start) <= c.target.from
  {
    var t, s := FallbackFile(files, r, c.target.year);
    StepCompletes(File(files, c.target.year), t.value, r, s, c);
  }

  lemma {:induction false} BoundaryIsAfter(now: int, ks: seq<KlineMinute>, d: int)
    requires d < Day(now) && forall k :: k in ks ==> d < Day(k.unix)
    ensures d < Boundary(now, ks)
  {
    if ks != [] {
      BoundaryIsAfter(now, ks[..|ks| - 1], d);
      assert ks[|ks| - 1] in ks;
    }
  }

  /** A run that sets a year's mark leaves, for every day with volume from the start of its target on that is before
      the target's end, before today and before every bar of the exchange, all 241 minutes from that start on stored;
      and the mark covers the target. */
  lemma MarkedDaysAreComplete(files: Files, r: Run, c: Commit, k: DayBar, i: nat)
    requires Tidy(files) && Sourced(r) && r.fallback && c in Pull(files, r).log
    requires var e := EarliestFrom(Targets(files, r));
      && r.fetch(e).Ok? && r.days(e).Ok? && k in r.days(e).value && k.volume > 0
      && Day(c.target.from) <= Day(k.time) < Day(c.target.through) && Day(k.time) < Day(r.now)
      && (forall b :: b in r.fetch(e).value ==> Day(k.time) < Day(b.unix))
    requires i < TradeBars.SLOTS && At(Day(k.time), i) >= c.target.from
    ensures At(Day(k.time), i) in File(Pull(files, r).files, c.target.year).rows
    ensures var m := File(Pull(files, r).files, c.target.year).mark;
      m.Some? && m.value.fallback && m.value.from <= c.target.from && c.target.through <= m.value.through
  {
    NewMark(files, r, c);
    var s := SourceOf(Targets(files, r), r);
    var b := Limit(c.target.through, s.boundary);
    BoundaryIsAfter(r.now, s.native, Day(k.time));
    BeforeMidnight(c.target.from, b);
    var j :| 0 <= j < |s.days.value| && s.days.value[j] == k;
    assert Candidate(s.days.value[j], Day(c.target.from), b);
    assert Day(k.time) in c.dates;
  }

  lemma KeptTwice(a: Files, b: Files, c: Files)
    requires Kept(a, b) && Kept(b, c)
    ensures Kept(a, c)
  {
  }

  /** Over any sequence of rebuilding runs, whatever fails in them: no stored row is lost, no bar of the exchange
      turns into a synthesized one, and every day a mark was ever set over stays complete. */
  lemma {:induction false} NothingIsLost(w: World, rs: seq<Run>, clock: int)
    requires Tidy(w.files) && InPast(w.files, clock) && AllStored(w) && Rebuilding(rs, clock)
    ensures Kept(w.files, History(w, rs).files) && AllStored(History(w, rs)) && w.log <= History(w, rs).log
    decreases |rs|
  {
    if rs != [] {
      var next := After(w, rs[0]);
      OneRebuild(w, rs[0]);
      TidyAfter(w.files, rs[0]);
      NothingIsLost(next, rs[1..], rs[0].now);
      KeptTwice(w.files, next.files, History(w, rs).files);
    }
  }

  lemma {:induction false} AllSourced(rs: seq<Run>, clock: int)
    requires Rebuilding(rs, clock)
    ensures forall i :: 0 <= i < |rs| ==> Sourced(rs[i])
    decreases |rs|
  {
    if rs != [] {
      AllSourced(rs[1..], rs[0].now);
      forall i | 0 <= i < |rs| ensures Sourced(rs[i]) {
        assert i > 0 ==> rs[i] == rs[1..][i - 1];
      }
    }
  }

  /** Starting from no tables at all: whatever instant a mark claims, some successful run looked at it, and all
      the days that run looked at are complete in the table now. */
  lemma MarksTellTheTruth(rs: seq<Run>, clock: int, y: int, u: int)
    requires Rebuilding(rs, clock)
    requires var m := File(History(World(map[], []), rs).files, y).mark;
      m.Some? && m.value.fallback && m.value.from <= u < m.value.through
    ensures var w := History(World(map[], []), rs);
      exists c :: c in w.log && c.target.year == y && c.target.from <= u < c.target.through
                  && Complete(File(w.files, y).rows, c.target.from, c.dates)
  {
    var none := World(map[], []);
    AllSourced(rs, clock);
    CoverageIsProcessed(none, rs);
    NothingIsLost(none, rs, clock);
    var w := History(none, rs);
    assert Processed(w.log, y, u);
  }

  // What a mark is good for.

  /** A rebuilding mark that reaches back to where a year is wanted from, and to the end of the year. */
  ghost predicate CoversYear(m: Option<Mark>, y: int, from: int) {
    m.Some? && m.value.fallback && m.value.from <= from && m.value.through >= YearStart(y + 1)
  }

  lemma CoveredIsLeftAlone(files: Files, r: Run, y: int)
    requires Tidy(files) && Sourced(r) && y < YearOf(r.now)
    requires CoversYear(File(files, y).mark, y, YearFrom(y, r.start))
    ensures File(Pull(files, r).files, y) == File(files, y)
  {
    assert TargetOf(File(files, y), y, r) == None;
    if r.fallback {
      var t, s := FallbackFile(files, r, y);
    } else {
      var t, s := NativeFile(files, r, y);
    }
  }

  /** A past year whose mark covers it is never touched again, by runs of either mode. */
  lemma {:induction false} CoveredYearIsFinal(w: World, rs: seq<Run>, y: int)
    requires Tidy(w.files)
    requires forall i :: 0 <= i < |rs| ==>
      Sourced(rs[i]) && y < YearOf(rs[i].now) && CoversYear(File(w.files, y).mark, y, YearFrom(y, rs[i].start))
    ensures File(History(w, rs).files, y) == File(w.files, y)
    decreases |rs|
  {
    if rs != [] {
      assert Sourced(rs[0]);
      CoveredIsLeftAlone(w.files, rs[0], y);
      TidyAfter(w.files, rs[0]);
      CoveredYearIsFinal(After(w, rs[0]), rs[1..], y);
    }
  }

  lemma NewlyCovered(files: Files, r: Run, c: Commit)
    requires Tidy(files) && Sourced(r) && r.fallback && c in Pull(files, r).log && c.target.historical
    ensures c.target.year < YearOf(r.now)
    ensures CoversYear(File(Pull(files, r).files, c.target.year).mark, c.target.year, YearFrom(c.target.year, r.start))
  {
    NewMark(files, r, c);
    TargetsAreGood(files, r);
    assert Planned(c.target, files, YearOf(r.start), r);
  }

  /** One successful run over a past year is enough: as long as the start date is not moved back, nothing
      changes that year any more. */
  lemma {:induction false} FinishedYearIsFinal(w: World, r: Run, c: Commit, rs: seq<Run>)
    requires Tidy(w.files) && Sourced(r) && r.fallback && c in Pull(w.files, r).log && c.target.historical
    requires forall i :: 0 <= i < |rs| ==> Sourced(rs[i]) && r.start <= rs[i].start && r.now <= rs[i].now
    ensures File(History(After(w, r), rs).files, c.target.year) == File(After(w, r).files, c.target.year)
  {
    var y := c.target.year;
    NewlyCovered(w.files, r, c);
    TidyAfter(w.files, r);
    forall i | 0 <= i < |rs| ensures y < YearOf(rs[i].now) {
      YearIsMonotone(r.now, rs[i].now);
    }
    CoveredYearIsFinal(After(w, r), rs, y);
  }

  ghost predicate HasYear(ts: seq<Target>, y: int) { exists t :: t in ts && t.year == y }

  lemma HasYearInFront(t: Target, rest: seq<Target>, y: int)
    ensures HasYear([t] + rest, y) <==> t.year == y || HasYear(rest, y)
  {
    assert forall x :: x in [t] + rest <==> x == t || x in rest;
  }

  lemma NoneEarlier(files: Files, year: int, r: Run, y: int)
    requires y < year
    ensures !HasYear(Plan(files, year, r), y)
  {
    PlanMembers(files, year, r);
  }

  lemma PlanUnfolds(files: Files, year: int, r: Run, y: int, t: Option<Target>)
    requires year <= YearOf(r.now) && t == TargetOf(File(files, year), year, r)
    ensures t.Some? ==> t.value.year == year
    ensures HasYear(Plan(files, year, r), y) <==> (t.Some? && y == year) || HasYear(Plan(files, year + 1, r), y)
  {
    var rest := Plan(files, year + 1, r);
    if t.Some? {
      HasYearInFront(t.value, rest, y);
    } else {
      assert [] + rest == rest;
    }
  }

  lemma {:induction false} PlanFinds(files: Files, year: int, r: Run, y: int)
    requires year <= y <= YearOf(r.now)
    ensures HasYear(Plan(files, year, r), y) <==> TargetOf(File(files, y), y, r).Some?
    decreases y - year
  {
    PlanUnfolds(files, year, r, y, TargetOf(File(files, year), year, r));
    if year < y {
      PlanFinds(files, year + 1, r, y);
    } else {
      NoneEarlier(files, year + 1, r, y);
    }
  }

  /** A rebuilding run takes up the current year, and of the past years exactly those not covered yet. */
  lemma OpenYearsAreTakenUp(files: Files, r: Run, y: int)
    requires r.fallback && YearOf(r.start) <= y <= YearOf(r.now)
    ensures HasYear(Targets(files, r), y)
       <==> y == YearOf(r.now) || !CoversYear(File(files, y).mark, y, YearFrom(y, r.start))
  {
    PlanFinds(files, YearOf(r.start), r, y);
  }

  lemma {:induction false} AllSaved(files: Files, ts: seq<Target>, all: seq<KlineMinute>, failed: set<int>,
                                    r: Run, s: Source, t: Target)
    requires Increasing(ts) && t in ts && SaveAll(files, ts, all, failed, r, s).ok
    ensures SaveTarget(File(files, t.year), t, Filter(all, Mine(t)), t.year !in failed, r).ok
    decreases |ts|
  {
    var z := ts[0];
    var saved := SaveTarget(File(files, z.year), z, Filter(all, Mine(z)), z.year !in failed, r);
    if t != z {
      LaterYears(ts);
      var i :| 0 <= i < |ts| && ts[i] == t;
      assert ts[1..][i - 1] == t;
      AllSaved(Put(files, z.year, saved.file), ts[1..], all, failed, r, s, t);
    }
  }

  lemma SuccessMeansAll(files: Files, r: Run, t: Target, s: Source)
    requires Tidy(files) && Sourced(r) && r.fallback && Rebuilt(files, r, t.year, t, s) && Pull(files, r).ok
    ensures FilledAlone(File(files, t.year), t, r, s).ok && Step(File(files, t.year), t, r, s).ok
  {
    var ts := Targets(files, r);
    TargetsAreGood(files, r);
    var at :| 0 <= at < |ts| && ts[at] == t;
    AsIfAlone(files, r, s, ts, at);
    AllSaved(files, ts, Merged(files, ts, r, s), Failed(files, ts, r, s), r, s, t);
  }

  lemma NothingFound(f: YearFile, t: Target, r: Run, s: Source, u: int)
    requires r.fallback && Good(t) && FilledAlone(f, t, r, s).ok && FilledAlone(f, t, r, s).rows == map[]
    requires t.from <= u < t.through
    ensures u !in Step(f, t, r, s).file.rows
  {
    FilledTarget(f, t, r, s);
    SavedTarget(f, t, map[], true, r);
    assert u in f.rows ==> u in Base(f, t, s);
  }

  /** A rebuilding run that reports success leaves no target behind: its year is marked from the target's start to
      its end, unless there is not a single row in that stretch. */
  lemma SuccessLeavesNoGap(files: Files, r: Run, t: Target)
    requires Tidy(files) && Sourced(r) && r.fallback && Reached(files, r) && Pull(files, r).ok && t in Targets(files, r)
    ensures var g := File(Pull(files, r).files, t.year);
      (g.mark.Some? && g.mark.value.fallback && g.mark.value.from <= t.from && t.through <= g.mark.value.through)
      || forall u :: u in g.rows ==> u < t.from || t.through <= u
  {
    var f := File(files, t.year);
    var x, s := FallbackFile(files, r, t.year);
    SuccessMeansAll(files, r, t, s);
    var m := FilledAlone(f, t, r, s);
    if m.rows == map[] {
      forall u | u in Step(f, t, r, s).file.rows ensures u < t.from || t.through <= u {
        if t.from <= u < t.through {
          NothingFound(f, t, r, s, u);
        }
      }
    } else {
      FilledWithin(f, t, r, s);
      FirstListed(m.rows, t.from);
      StepIsLogged(files, r, t, s);
      NewMark(files, r, Commit(t, DatesFor(t, s)));
    }
  }

  // Fresh bars, in either mode.

  /** A bar that a run is to store for a target: of its year and not before its start, and with rebuilding on
      not after its end either. */
  ghost predicate Wanted(t: Target, r: Run, u: int) {
    YearOf(u) == t.year && t.from <= u && (r.fallback ==> u < t.through)
  }

  /** The year's table can be read and written; without rebuilding, where the first failed save ends the run, all
      of it went well. */
  ghost predicate Served(files: Files, r: Run, t: Target) {
    if r.fallback then t.year !in r.faults.local && t.year !in r.faults.save else Pull(files, r).ok
  }

  /** Saving fresh bars of the exchange as they are, from w or later on. */
  lemma SavedAsFetched(f: YearFile, t: Target, ks: seq<KlineMinute>, r: Run, k: KlineMinute)
    requires !r.fallback && Distinct(ks) && k in ks && Mine(t)(k)
    requires SaveTarget(f, t, Filter(ks, Mine(t)), true, r).ok
    ensures var rows := SaveTarget(f, t, Filter(ks, Mine(t)), true, r).file.rows;
      k.unix in rows && rows[k.unix] == k.bar
  {
    var out := Filter(ks, Mine(t));
    FilterMembers(ks, Mine(t));
    assert k in out;
    var i :| 0 <= i < |out| && out[i] == k;
    InRows(out, k.unix);
    var j := KlineMinute(k.unix, AsRows(out)[k.unix]);
    assert j in ks;
    SameTimeSameBar(ks, j, k);
  }

  lemma NativeRunStores(files: Files, r: Run, t: Target, k: KlineMinute)
    requires !r.fallback && Reached(files, r) && Pull(files, r).ok && t in Targets(files, r)
    requires var ks := r.fetch(EarliestFrom(Targets(files, r))).value; k in ks && Distinct(ks)
    requires YearOf(k.unix) == t.year && t.from <= k.unix
    ensures k.unix in File(Pull(files, r).files, t.year).rows
    ensures File(Pull(files, r).files, t.year).rows[k.unix] == k.bar
  {
    var x, s := NativeFile(files, r, t.year);
    PlanMembers(files, YearOf(r.start), r);
    AllSaved(files, Targets(files, r), s.native, {}, r, s, t);
    SavedAsFetched(File(files, t.year), t, s.native, r, k);
  }

  /** In either mode, a fresh bar of the exchange is stored in place of whatever was there: in a run without
      rebuilding that reports success, and in a rebuilding run even if the rebuilding of other days fails. */
  lemma FreshBarsReplace(files: Files, r: Run, t: Target, k: KlineMinute)
    requires Tidy(files) && 0 <= r.start && Reached(files, r) && t in Targets(files, r) && Served(files, r, t)
    requires var ks := r.fetch(EarliestFrom(Targets(files, r))).value; k in ks && Distinct(ks)
    requires Wanted(t, r, k.unix)
    ensures k.unix in File(Pull(files, r).files, t.year).rows
    ensures File(Pull(files, r).files, t.year).rows[k.unix] == k.bar
  {
    if r.fallback {
      FreshBarsAreStored(files, r, t, k);
    } else {
      NativeRunStores(files, r, t, k);
    }
  }

  /** That holds after any sequence of runs, modes mixed: whatever is stored, synthesized rows included, gives
      way to a fresh bar of the exchange. */
  lemma FreshBarsAlwaysReplace(w: World, rs: seq<Run>, r: Run, t: Target, k: KlineMinute)
    requires Tidy(w.files) && (forall i :: 0 <= i < |rs| ==> Sourced(rs[i])) && 0 <= r.start
    requires var files := History(w, rs).files;
      && Reached(files, r) && t in Targets(files, r) && Served(files, r, t) && Wanted(t, r, k.unix)
      && var ks := r.fetch(EarliestFrom(Targets(files, r))).value; k in ks && Distinct(ks)
    ensures var rows := File(After(History(w, rs), r).files, t.year).rows;
      k.unix in rows && rows[k.unix] == k.bar
  {
    TidyHistory(w, rs);
    FreshBarsReplace(History(w, rs).files, r, t, k);
  }

  lemma NativeSaveKeepsPrefix(f: YearFile, t: Target, ks: seq<KlineMinute>, r: Run, u: int)
    requires !r.fallback && u in f.rows && u < t.from
    ensures var rows := SaveTarget(f, t, Filter(ks, Mine(t)), true, r).file.rows;
      u in rows && rows[u] == f.rows[u]
  {
    var out := Filter(ks, Mine(t));
    FilterMembers(ks, Mine(t));
    InRows(out, u);
    forall i | 0 <= i < |out| ensures t.from <= out[i].unix {
      assert out[i] in out && Mine(t)(out[i]);
    }
    if out != [] {
      var k :| k in out && k.unix == EarliestOf(out);
    }
  }

  /** In either mode and whatever fails, a run leaves every row before the start of its year's target as it is,
      and the whole year if it is no target. */
  lemma EarlierRowsStay(files: Files, r: Run, y: int, u: int)
    requires Tidy(files) && 0 <= r.start && u in File(files, y).rows
    requires forall t :: t in Targets(files, r) && t.year == y ==> u < t.from
    ensures var rows := File(Pull(files, r).files, y).rows;
      u in rows && rows[u] == File(files, y).rows[u]
  {
    if r.fallback {
      var t, s := FallbackFile(files, r, y);
      if t.Some? {
        var m := FilledAlone(File(files, y), t.value, r, s);
        FilledWithin(File(files, y), t.value, r, s);
        SavedTarget(File(files, y), t.value, m.rows, m.ok, r);
      }
    } else {
      var t, s := NativeFile(files, r, y);
      if t.Some? {
        NativeSaveKeepsPrefix(File(files, y), t.value, s.native, r, u);
      }
    }
  }

  /** A rebuilding run takes a year up no later than its mark ends. */
  lemma TakesUpAtTheMark(f: YearFile, y: int, r: Run, t: Target)
    requires r.fallback && TargetOf(f, y, r) == Some(t)
    requires f.mark.Some? && f.mark.value.fallback && f.mark.value.from <= YearFrom(y, r.start) <= f.mark.value.through
    ensures t.from <= f.mark.value.through
  {
  }

  lemma MarkGrows(f: YearFile, t: Target, r: Run, s: Source)
    requires r.fallback && f.mark.Some? && f.mark.value.fallback
    requires f.mark.value.from <= t.from <= f.mark.value.through
    ensures var m, n := f.mark, Step(f, t, r, s).file.mark;
      n.Some? && n.value.fallback && n.value.from <= m.value.from && m.value.through <= n.value.through
  {
    var m := FilledAlone(f, t, r, s);
    SavedMark(f, t, Listed(m.rows), m.ok, r);
  }

  /** Coverage is extended without gaps: a mark that reaches from before the wanted start into the year is never
      given up nor shortened by a rebuilding run. */
  lemma CoverageGrows(files: Files, r: Run, y: int)
    requires Tidy(files) && Sourced(r) && r.fallback
    requires var m := File(files, y).mark;
      m.Some? && m.value.fallback && m.value.from <= YearFrom(y, r.start) <= m.value.through
    ensures var m, n := File(files, y).mark, File(Pull(files, r).files, y).mark;
      n.Some? && n.value.fallback && n.value.from <= m.value.from && m.value.through <= n.value.through
  {
    var t, s := FallbackFile(files, r, y);
    if t.Some? {
      TakesUpAtTheMark(File(files, y), y, r, t.value);
      MarkGrows(File(files, y), t.value, r, s);
    }
  }
}
