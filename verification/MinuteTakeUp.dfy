/** Where a run of the minute puller (extend/pull/market/minute.go) takes its years up, what it keeps of them and what
    it stores, said by the tables before and after alone. */
module MinuteTakeUp {
  import opened Calendar
  import opened Grouping
  import opened MinuteFallback
  import opened MinuteHistory
  import opened MinuteRuns
  import opened MinuteStore
  import opened Results

  lemma {:induction false} EarliestIsLeast(ts: seq<Target>)
    requires ts != []
    ensures forall t :: t in ts ==> EarliestFrom(ts) <= t.from
    ensures exists t :: t in ts && t.from == EarliestFrom(ts)
  {
    var z := ts[|ts| - 1];
    assert z in ts;
    if |ts| > 1 {
      var front := ts[..|ts| - 1];
      EarliestIsLeast(front);
      assert forall t :: t in ts <==> t in front || t == z;
    }
  }

  /** A year is wanted from its start or from the start date, whichever comes later. */
  ghost predicate Wants(y: int, r: Run, u: int) { YearStart(y) <= u && r.start <= u }

  /** Every stored row of a year is at or before u. */
  ghost predicate NoneAfter(f: YearFile, u: int) { forall v :: v in f.rows ==> v <= u }

  // ---------------------------------------------------------------- without rebuilding

  /** A mark that spares a past year a scan: it reaches back far enough, and if it is a rebuilding mark it reaches the
      end of the year. */
  ghost predicate Spared(m: Option<Mark>, y: int, r: Run) {
    && m.Some? && (m.value.from <= YearStart(y) || m.value.from <= r.start)
    && (m.value.fallback ==> YearStart(y + 1) <= m.value.through)
  }

  /** Without rebuilding, the current year is always taken up, and of the past years exactly those no mark spares. */
  lemma ScanTakesUp(files: Files, r: Run, y: int)
    requires !r.fallback && YearOf(r.start) <= y <= YearOf(r.now)
    ensures HasYear(Targets(files, r), y) <==> y == YearOf(r.now) || !Spared(File(files, y).mark, y, r)
  {
    PlanFinds(files, YearOf(r.start), r, y);
  }

  /** Whatever fails in it, a run without rebuilding leaves as it is: each row before the start of its year or the start
      date, each row of the current year before the year's newest, and all of a past year that a mark spares. */
  lemma ScanKeeps(files: Files, r: Run, y: int, u: int)
    requires !r.fallback && u in File(files, y).rows
    requires !Wants(y, r, u) || (y == YearOf(r.now) && !NoneAfter(File(files, y), u))
             || (y < YearOf(r.now) && Spared(File(files, y).mark, y, r))
    ensures var rows := File(Pull(files, r).files, y).rows;
      u in rows && rows[u] == File(files, y).rows[u]
  {
    var t, s := NativeFile(files, r, y);
    if t.Some? {
      NativeSaveKeepsPrefix(File(files, y), t.value, s.native, r, u);
    }
  }

  /** u is where a year without rebuilding is taken up: the start of the year, the start date or, in the current year,
      the newest row, whichever comes last. */
  ghost predicate StartsAt(files: Files, r: Run, y: int, u: int) {
    && Wants(y, r, u) && (y == YearOf(r.now) ==> NoneAfter(File(files, y), u))
    && (u == YearStart(y) || u == r.start || (y == YearOf(r.now) && u in File(files, y).rows))
  }

  lemma TargetStarts(files: Files, r: Run, t: Target)
    requires !r.fallback && 0 <= r.start && Planned(t, files, YearOf(r.start), r)
    ensures StartsAt(files, r, t.year, t.from)
  {
  }

  lemma OneStart(files: Files, r: Run, y: int, u: int, v: int)
    requires StartsAt(files, r, y, u) && StartsAt(files, r, y, v)
    ensures u == v
  {
  }

  ghost predicate Open(files: Files, r: Run, y: int) {
    YearOf(r.start) <= y <= YearOf(r.now) && (y == YearOf(r.now) || !Spared(File(files, y).mark, y, r))
  }

  lemma TargetOfOpenYear(files: Files, r: Run, y: int) returns (t: Target)
    requires !r.fallback && 0 <= r.start && Open(files, r, y)
    ensures t in Targets(files, r) && t.year == y && StartsAt(files, r, y, t.from)
  {
    ScanTakesUp(files, r, y);
    PlanMembers(files, YearOf(r.start), r);
    t :| t in Targets(files, r) && t.year == y;
    TargetStarts(files, r, t);
  }

  lemma OpenYearOfTarget(files: Files, r: Run, t: Target)
    requires !r.fallback && 0 <= r.start && t in Targets(files, r)
    ensures Open(files, r, t.year) && StartsAt(files, r, t.year, t.from)
  {
    PlanMembers(files, YearOf(r.start), r);
    TargetStarts(files, r, t);
    ScanTakesUp(files, r, t.year);
  }

  lemma NoneStartsEarlier(files: Files, r: Run, z: int, u: int)
    requires !r.fallback && 0 <= r.start && Open(files, r, z) && StartsAt(files, r, z, u)
    requires forall t :: t in Targets(files, r) ==> EarliestFrom(Targets(files, r)) <= t.from
    ensures EarliestFrom(Targets(files, r)) <= u
  {
    var x := TargetOfOpenYear(files, r, z);
    OneStart(files, r, z, x.from, u);
  }

  /** What is fetched without rebuilding is asked for from the earliest instant at which an open year is taken up. */
  lemma ScanFetchesFrom(files: Files, r: Run) returns (y: int)
    requires !r.fallback && 0 <= r.start <= r.now
    ensures Open(files, r, y) && StartsAt(files, r, y, EarliestFrom(Targets(files, r)))
    ensures forall z, u :: Open(files, r, z) && StartsAt(files, r, z, u) ==> EarliestFrom(Targets(files, r)) <= u
  {
    var ts := Targets(files, r);
    YearIsMonotone(r.start, r.now);
    var now := TargetOfOpenYear(files, r, YearOf(r.now));
    EarliestIsLeast(ts);
    var t :| t in ts && t.from == EarliestFrom(ts);
    OpenYearOfTarget(files, r, t);
    y := t.year;
    forall z, u | Open(files, r, z) && StartsAt(files, r, z, u) ensures EarliestFrom(ts) <= u {
      NoneStartsEarlier(files, r, z, u);
    }
  }

  lemma ReachedBySuccess(files: Files, r: Run)
    requires r.start <= r.now && Pull(files, r).ok && Targets(files, r) != []
    ensures Reached(files, r)
  {
  }

  /** In a run without rebuilding that succeeds, every fetched bar of an open year that is wanted and, in the current
      year, not before the newest row, is stored in place of whatever was there. */
  lemma ScanStores(files: Files, r: Run, y: int, ks: seq<KlineMinute>, k: KlineMinute)
    requires !r.fallback && 0 <= r.start <= r.now && Pull(files, r).ok && Open(files, r, y)
    requires r.fetch(EarliestFrom(Targets(files, r))) == Ok(ks) && k in ks && Distinct(ks)
    requires YearOf(k.unix) == y && r.start <= k.unix && (y == YearOf(r.now) ==> NoneAfter(File(files, y), k.unix))
    ensures var rows := File(Pull(files, r).files, y).rows;
      k.unix in rows && rows[k.unix] == k.bar
  {
    var t := TargetOfOpenYear(files, r, y);
    ReachedBySuccess(files, r);
    InOneYear(k.unix, y);
    NativeRunStores(files, r, t, k);
  }

  /** A fetched bar that is wanted of a year taken up at `from`. */
  ghost predicate Fresh(ks: seq<KlineMinute>, k: KlineMinute, y: int, from: int) {
    k in ks && YearOf(k.unix) == y && from <= k.unix
  }

  /** A row stays where the new bars leave it: before the instant the current year was taken up at, and in a past year
      before all new bars. */
  ghost predicate StaysBefore(ks: seq<KlineMinute>, y: int, r: Run, from: int, u: int) {
    if y == YearOf(r.now) then u < from else forall k :: Fresh(ks, k, y, from) ==> u < k.unix
  }

  lemma SavedExactly(f: YearFile, t: Target, ks: seq<KlineMinute>, r: Run, u: int)
    requires !r.fallback && (t.historical <==> t.year < YearOf(r.now)) && t.year <= YearOf(r.now)
    requires SaveTarget(f, t, Filter(ks, Mine(t)), true, r).ok
    ensures var now := SaveTarget(f, t, Filter(ks, Mine(t)), true, r).file.rows;
      if exists k :: Fresh(ks, k, t.year, t.from)
      then u in now <==> (exists k :: Fresh(ks, k, t.year, t.from) && k.unix == u)
                         || (u in f.rows && StaysBefore(ks, t.year, r, t.from, u))
      else now == f.rows
  {
    var out := Filter(ks, Mine(t));
    FilterMembers(ks, Mine(t));
    assert forall k :: k in out <==> Fresh(ks, k, t.year, t.from);
    InRows(out, u);
    if out != [] {
      assert out[0] in out;
      if i :| 0 <= i < |out| && out[i].unix == u {
        assert out[i] in out;
      }
      if k :| Fresh(ks, k, t.year, t.from) && k.unix == u {
        var i :| 0 <= i < |out| && out[i] == k;
      }
    }
  }

  /** What a run without rebuilding that succeeds leaves of an open year taken up at `from`: with no fresh bar all is as
      it was; else the fresh bars, and of what there was the rows before them. */
  lemma ScanExactly(files: Files, r: Run, y: int, ks: seq<KlineMinute>, from: int, u: int)
    requires !r.fallback && 0 <= r.start <= r.now && Pull(files, r).ok
    requires Open(files, r, y) && StartsAt(files, r, y, from)
    requires r.fetch(EarliestFrom(Targets(files, r))) == Ok(ks)
    ensures var was, now := File(files, y).rows, File(Pull(files, r).files, y).rows;
      if exists k :: Fresh(ks, k, y, from)
      then u in now <==> (exists k :: Fresh(ks, k, y, from) && k.unix == u)
                         || (u in was && StaysBefore(ks, y, r, from, u))
      else now == was
  {
    var t := TargetOfOpenYear(files, r, y);
    OneStart(files, r, y, t.from, from);
    ReachedBySuccess(files, r);
    var x, s := NativeFile(files, r, y);
    PlanMembers(files, YearOf(r.start), r);
    AllSaved(files, Targets(files, r), s.native, {}, r, s, t);
    SavedExactly(File(files, y), t, ks, r, u);
  }

  /** A past year of which such a run has stored anything is spared from then on. */
  lemma ScanSpares(files: Files, r: Run, y: int, ks: seq<KlineMinute>, k: KlineMinute)
    requires !r.fallback && 0 <= r.start <= r.now && Pull(files, r).ok && Open(files, r, y) && y < YearOf(r.now)
    requires r.fetch(EarliestFrom(Targets(files, r))) == Ok(ks) && k in ks
    requires YearOf(k.unix) == y && r.start <= k.unix
    ensures Spared(File(Pull(files, r).files, y).mark, y, r)
  {
    var t := TargetOfOpenYear(files, r, y);
    ReachedBySuccess(files, r);
    InOneYear(k.unix, y);
    var x, s := NativeFile(files, r, y);
    PlanMembers(files, YearOf(r.start), r);
    AllSaved(files, Targets(files, r), s.native, {}, r, s, t);
    SavedScan(File(files, y), t, ks, r, k);
  }

  lemma SavedScan(f: YearFile, t: Target, ks: seq<KlineMinute>, r: Run, k: KlineMinute)
    requires !r.fallback && t.historical && k in ks && Mine(t)(k) && SaveTarget(f, t, Filter(ks, Mine(t)), true, r).ok
    ensures var m := SaveTarget(f, t, Filter(ks, Mine(t)), true, r).file.mark;
      m.Some? && !m.value.fallback && m.value.from <= t.from
  {
    FilterMembers(ks, Mine(t));
  }

  /** The mark of the current year is not touched by a run without rebuilding. */
  lemma ScanLeavesTheMark(files: Files, r: Run)
    requires !r.fallback
    ensures File(Pull(files, r).files, YearOf(r.now)).mark == File(files, YearOf(r.now)).mark
  {
    var t, s := NativeFile(files, r, YearOf(r.now));
  }

  // ---------------------------------------------------------------- with rebuilding

  /** The dates looked at for a mark are exactly the days with volume from the start of the target on that are before
      its end, before today and before every bar fetched. */
  lemma DatesLookedAt(files: Files, r: Run, c: Commit, d: int)
    requires Tidy(files) && Sourced(r) && r.fallback && c in Pull(files, r).log
    ensures var e := EarliestFrom(Targets(files, r));
      r.fetch(e).Ok?
      && (r.days(e).Ok? ==>
            (d in c.dates <==>
               Day(c.target.from) <= d < Day(c.target.through) && d < Day(r.now)
               && (forall b :: b in r.fetch(e).value ==> d < Day(b.unix))
               && exists k :: k in r.days(e).value && k.volume > 0 && Day(k.time) == d))
  {
    NewMark(files, r, c);
    var s := SourceOf(Targets(files, r), r);
    BoundaryIsLeast(r.now, s.native);
    if s.days.Ok? {
      DatesOf(c.target, s, d);
      LimitIsBoth(c.target.through, s.boundary, d);
      if (forall b :: b in s.native ==> d < Day(b.unix)) && d < Day(r.now) {
        BoundaryIsAfter(r.now, s.native, d);
      }
    }
  }

  lemma LimitIsBoth(end: int, boundary: int, d: int)
    ensures d < Limit(end, boundary) <==> d < Day(end) && d < boundary
  {
  }

  lemma {:induction false} BoundaryIsLeast(now: int, ks: seq<KlineMinute>)
    ensures Boundary(now, ks) <= Day(now) && forall k :: k in ks ==> Boundary(now, ks) <= Day(k.unix)
  {
    if ks != [] {
      BoundaryIsLeast(now, ks[..|ks| - 1]);
      assert forall k :: k in ks <==> k in ks[..|ks| - 1] || k == ks[|ks| - 1];
    }
  }

  lemma DatesOf(t: Target, s: Source, d: int)
    requires s.days.Ok?
    ensures d in DatesFor(t, s)
       <==> Day(t.from) <= d < Limit(t.through, s.boundary)
            && exists k :: k in s.days.value && k.volume > 0 && Day(k.time) == d
  {
    var b := Limit(t.through, s.boundary);
    BeforeMidnight(t.from, b);
    if k :| k in s.days.value && k.volume > 0 && Day(k.time) == d && Day(t.from) <= d < b {
      var j :| 0 <= j < |s.days.value| && s.days.value[j] == k;
      assert Candidate(s.days.value[j], Day(t.from), b);
    }
    if d in DatesFor(t, s) {
      var j :| 0 <= j < |s.days.value| && Candidate(s.days.value[j], Day(t.from), b) && Day(s.days.value[j].time) == d;
      assert s.days.value[j] in s.days.value;
    }
  }

  /** The end of what a run works on in a year: the end of the year, or the time of the run. */
  ghost predicate EndsAt(y: int, r: Run, u: int) { if y < YearOf(r.now) then u == YearStart(y + 1) else u == r.now }

  /** A rebuilding mark over all of a year that is wanted. */
  ghost predicate MarkedWhole(m: Option<Mark>, y: int, r: Run) {
    && m.Some? && m.value.fallback && (m.value.from <= YearStart(y) || m.value.from <= r.start)
    && forall e :: EndsAt(y, r, e) ==> e <= m.value.through
  }

  lemma EndOfYear(y: int, r: Run)
    ensures EndsAt(y, r, Through(y, r.now))
    ensures forall e :: EndsAt(y, r, e) ==> e == Through(y, r.now)
  {
  }

  /** A rebuilding run that reports success has every year of its range marked over all that is wanted of it, however
      little it had to work on itself, unless there is no row there at all. */
  lemma SuccessMarksTheWholeYear(files: Files, r: Run, y: int, u: int)
    requires Tidy(files) && Sourced(r) && r.fallback && r.start <= r.now && Pull(files, r).ok && InPast(files, r.now)
    requires YearOf(r.start) <= y <= YearOf(r.now)
    requires u in File(Pull(files, r).files, y).rows && Wants(y, r, u)
    ensures MarkedWhole(File(Pull(files, r).files, y).mark, y, r)
  {
    EndOfYear(y, r);
    PlanFinds(files, YearOf(r.start), r, y);
    if TargetOf(File(files, y), y, r) == None {
      CoveredIsLeftAlone(files, r, y);
    } else {
      RunIsReached(files, r, y);
      TargetsAreGood(files, r);
      var t :| t in Targets(files, r) && t.year == y;
      var v := SomeRowInTheTarget(files, r, t, u);
      MarkReachesBack(files, r, t, v);
    }
  }

  lemma RunIsReached(files: Files, r: Run, y: int)
    requires r.start <= r.now && Pull(files, r).ok && HasYear(Targets(files, r), y)
    ensures Reached(files, r)
  {
    var t :| t in Targets(files, r) && t.year == y;
  }

  /** Where there is a row in what is wanted of a year, there is one in its target, if need be the newest. */
  lemma SomeRowInTheTarget(files: Files, r: Run, t: Target, u: int) returns (v: int)
    requires Tidy(files) && Sourced(r) && r.fallback && InPast(files, r.now) && Reached(files, r)
    requires t in Targets(files, r) && u in File(Pull(files, r).files, t.year).rows && Wants(t.year, r, u)
    ensures v in File(Pull(files, r).files, t.year).rows && t.from <= v < t.through
  {
    var y := t.year;
    PlanMembers(files, YearOf(r.start), r);
    BeforeTheEndAfter(files, r, y, u);
    v := u;
    if u < t.from {
      v := NewestIsBehind(files, r, t, u);
      RowsAreKept(files, r, y, v);
    }
  }

  lemma BeforeTheEndAfter(files: Files, r: Run, y: int, u: int)
    requires Tidy(files) && Sourced(r) && r.fallback && InPast(files, r.now) && y <= YearOf(r.now)
    requires u in File(Pull(files, r).files, y).rows
    ensures u < Through(y, r.now)
  {
    TidyAfter(files, r);
    RowIsInPast(files, r, y, u);
    assert InYear(File(Pull(files, r).files, y), y);
    InOneYear(u, y);
  }

  /** A target that does not start where its year is wanted from starts at or before the newest row. */
  lemma NewestIsBehind(files: Files, r: Run, t: Target, u: int) returns (n: int)
    requires 0 <= r.start && r.fallback && InPast(files, r.now) && Planned(t, files, YearOf(r.start), r)
    requires Wants(t.year, r, u) && u < t.from
    ensures n in File(files, t.year).rows && t.from <= n < t.through && n < r.now
  {
    n := Newest(File(files, t.year).rows);
  }

  /** A rebuilding mark that reaches from before what is wanted of a year into it. */
  ghost predicate Continues(m: Option<Mark>, y: int, r: Run) {
    m.Some? && m.value.fallback && m.value.from <= YearFrom(y, r.start) <= m.value.through
  }

  lemma TargetFrom(files: Files, r: Run, t: Target)
    requires 0 <= r.start && r.fallback && Planned(t, files, YearOf(r.start), r)
    ensures t.through == Through(t.year, r.now)
    ensures t.from == YearFrom(t.year, r.start) || Continues(File(files, t.year).mark, t.year, r)
  {
  }

  lemma MarkOfTarget(files: Files, r: Run, t: Target, v: int) returns (m: Option<Mark>)
    requires Tidy(files) && Sourced(r) && r.fallback && Reached(files, r) && Pull(files, r).ok && t in Targets(files, r)
    requires v in File(Pull(files, r).files, t.year).rows && t.from <= v < t.through
    ensures m == File(Pull(files, r).files, t.year).mark
    ensures m.Some? && m.value.fallback && m.value.from <= t.from && t.through <= m.value.through
  {
    m := File(Pull(files, r).files, t.year).mark;
    SuccessLeavesNoGap(files, r, t);
  }

  lemma MarkReachesBack(files: Files, r: Run, t: Target, v: int)
    requires Tidy(files) && Sourced(r) && r.fallback && Reached(files, r) && Pull(files, r).ok && t in Targets(files, r)
    requires v in File(Pull(files, r).files, t.year).rows && t.from <= v < t.through
    ensures MarkedWhole(File(Pull(files, r).files, t.year).mark, t.year, r)
  {
    var m := MarkOfTarget(files, r, t, v);
    PlanMembers(files, YearOf(r.start), r);
    TargetFrom(files, r, t);
    EndOfYear(t.year, r);
    if Continues(File(files, t.year).mark, t.year, r) {
      CoverageGrows(files, r, t.year);
    }
  }

  /** With rebuilding, too, every fetched bar from the newest row of the current year on and before the time of the run
      is stored, as long as the table can be read and written. */
  lemma RebuildStoresNews(files: Files, r: Run, ks: seq<KlineMinute>, k: KlineMinute)
    requires Tidy(files) && Sourced(r) && r.fallback && r.start <= r.now && Readable(r)
    requires YearOf(r.now) !in r.faults.local && YearOf(r.now) !in r.faults.save
    requires r.fetch(EarliestFrom(Targets(files, r))) == Ok(ks) && k in ks && Distinct(ks)
    requires YearOf(k.unix) == YearOf(r.now) && r.start <= k.unix < r.now
    requires NoneAfter(File(files, YearOf(r.now)), k.unix)
    ensures var rows := File(Pull(files, r).files, YearOf(r.now)).rows;
      k.unix in rows && rows[k.unix] == k.bar
  {
    var y := YearOf(r.now);
    YearIsMonotone(r.start, r.now);
    OpenYearsAreTakenUp(files, r, y);
    PlanMembers(files, YearOf(r.start), r);
    var t :| t in Targets(files, r) && t.year == y;
    assert Planned(t, files, YearOf(r.start), r);
    InOneYear(k.unix, y);
    FreshBarsAreStored(files, r, t, k);
  }
}
