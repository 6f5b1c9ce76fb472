/** The yearly minute tables (extend/pull/store.go) and their coverage marks (extend/pull/coverage.go). */
module MinuteStore {
  import opened Calendar
  import Grouping
  import opened Results
  import opened Sorting

  /** A bar as stored: from the exchange's own minute bars, or synthesized from trades. */
  datatype Bar = Bar(open: real, high: real, low: real, close: real, volume: int, amount: real, native: bool)

  datatype KlineMinute = KlineMinute(unix: int, bar: Bar)

  /** A table, by its primary key. */
  type Rows = map<int, Bar>

  /** What has been processed: [from, through), or for an exchange scan everything from `from`. */
  datatype Mark = Mark(from: int, through: int, fallback: bool)

  datatype YearFile = YearFile(rows: Rows, mark: Option<Mark>)

  type Files = map<int, YearFile>

  const EMPTY := YearFile(map[], None)

  /** The most placeholders a statement is given, and how many a row needs. */
  const PLACEHOLDERS: nat := 990
  const MIN_COLS: nat := 8

  /** A year without a file reads like one with an empty table. */
  function File(files: Files, year: int): YearFile { if year in files then files[year] else EMPTY }

  function Put(files: Files, year: int, f: YearFile): (r: Files)
    ensures File(r, year) == f
    ensures forall y :: y != year ==> File(r, y) == File(files, y)
  {
    if File(files, year) == f then files else files[year := f]
  }

  function Unix(): KlineMinute -> int { (k: KlineMinute) => k.unix }

  function AsRows(ks: seq<KlineMinute>): Rows {
    if ks == [] then map[] else AsRows(ks[..|ks| - 1])[ks[|ks| - 1].unix := ks[|ks| - 1].bar]
  }

  lemma {:induction false} RowsOf(ks: seq<KlineMinute>)
    ensures forall u :: u in AsRows(ks) <==> exists i :: 0 <= i < |ks| && ks[i].unix == u
    ensures forall u :: u in AsRows(ks) ==> KlineMinute(u, AsRows(ks)[u]) in ks
  {
    if ks != [] {
      var front, z := ks[..|ks| - 1], ks[|ks| - 1];
      RowsOf(front);
      forall u ensures u in AsRows(ks) <==> exists i :: 0 <= i < |ks| && ks[i].unix == u {
        if u in AsRows(front) {
          var i :| 0 <= i < |front| && front[i].unix == u;
          assert ks[i].unix == u;
        }
        if i :| 0 <= i < |ks| && ks[i].unix == u {
          assert i < |front| ==> front[i].unix == u;
        }
        assert ks[|front|].unix == z.unix;
      }
    }
  }

  lemma InRows(ks: seq<KlineMinute>, u: int)
    ensures u in AsRows(ks) <==> exists i :: 0 <= i < |ks| && ks[i].unix == u
    ensures u in AsRows(ks) ==> KlineMinute(u, AsRows(ks)[u]) in ks
  {
    RowsOf(ks);
  }

  lemma {:induction false} RowsConcat(a: seq<KlineMinute>, b: seq<KlineMinute>)
    ensures AsRows(a + b) == AsRows(a) + AsRows(b)
  {
    if b == [] {
      assert a + b == a;
    } else {
      var front, z := b[..|b| - 1], b[|b| - 1];
      RowsConcat(a, front);
      assert (a + b)[..|a + b| - 1] == a + front;
    }
  }

  ghost predicate Distinct(ks: seq<KlineMinute>) { DistinctBy(ks, Unix()) }

  /** No row of ks is in the table yet, nor twice in ks. */
  ghost predicate Fits(rows: Rows, ks: seq<KlineMinute>) {
    Distinct(ks) && forall i :: 0 <= i < |ks| ==> ks[i].unix !in rows
  }

  /** Insertion of ks into a table: refused as a whole if the primary key would be violated. */
  ghost function Inserted(rows: Rows, ks: seq<KlineMinute>): Result<Rows> {
    if Fits(rows, ks) then Ok(rows + AsRows(ks)) else Err
  }

  lemma NothingInserted(rows: Rows)
    ensures Inserted(rows, []) == Ok(rows)
  {
    assert rows + AsRows([]) == rows;
  }

  /** However an insertion is split into statements, together they do what one statement would. */
  lemma InsertedInTwo(rows: Rows, a: seq<KlineMinute>, b: seq<KlineMinute>)
    ensures Inserted(rows, a + b)
         == if Inserted(rows, a) == Err then Err else Inserted(Inserted(rows, a).value, b)
  {
    FitsInTwo(rows, a, b);
    RowsConcat(a, b);
    if Fits(rows, a) && Fits(rows + AsRows(a), b) {
      assert rows + (AsRows(a) + AsRows(b)) == (rows + AsRows(a)) + AsRows(b);
    }
  }

  lemma FitsInTwo(rows: Rows, a: seq<KlineMinute>, b: seq<KlineMinute>)
    ensures Fits(rows, a + b) <==> Fits(rows, a) && Fits(rows + AsRows(a), b)
  {
    RowsOf(a);
    var c := a + b;
    if Fits(rows, c) {
      forall i | 0 <= i < |a| ensures a[i].unix !in rows {
        assert c[i] == a[i];
      }
      forall i, j | 0 <= i < j < |a| ensures Unix()(a[i]) != Unix()(a[j]) {
        assert Unix()(c[i]) != Unix()(c[j]);
      }
      forall i, j | 0 <= i < j < |b| ensures Unix()(b[i]) != Unix()(b[j]) {
        assert Unix()(c[|a| + i]) != Unix()(c[|a| + j]);
      }
      forall j | 0 <= j < |b| ensures b[j].unix !in rows + AsRows(a) {
        assert c[|a| + j] == b[j];
        forall i | 0 <= i < |a| ensures a[i].unix != b[j].unix {
          assert Unix()(c[i]) != Unix()(c[|a| + j]);
        }
      }
    }
    if Fits(rows, a) && Fits(rows + AsRows(a), b) {
      forall i, j | 0 <= i < j < |c| ensures Unix()(c[i]) != Unix()(c[j]) {
        if j < |a| {
          assert Unix()(a[i]) != Unix()(a[j]);
        } else if i >= |a| {
          assert Unix()(b[i - |a|]) != Unix()(b[j - |a|]);
        } else {
          assert a[i].unix in AsRows(a) && b[j - |a|].unix !in rows + AsRows(a);
        }
      }
    }
  }

  /** One INSERT of several rows; a statement takes no more than 999 placeholders unless it is of one row. */
  method InsertRows(rows: Rows, cols: nat, ks: seq<KlineMinute>) returns (r: Result<Rows>)
    requires |ks| <= 1 || |ks| * cols <= 999
    ensures r == Inserted(rows, ks)
  {
    var out := rows;
    NothingInserted(rows);
    assert ks[..0] == [];
    for i := 0 to |ks|
      invariant Inserted(rows, ks[..i]) == Ok(out)
    {
      NextInsert(rows, ks, i, out);
      if ks[i].unix in out {
        return Err;
      }
      out := out[ks[i].unix := ks[i].bar];
    }
    assert ks[..|ks|] == ks;
    return Ok(out);
  }

  lemma NextInsert(rows: Rows, ks: seq<KlineMinute>, i: nat, out: Rows)
    requires i < |ks| && Inserted(rows, ks[..i]) == Ok(out)
    ensures ks[i].unix in out ==> Inserted(rows, ks) == Err
    ensures ks[i].unix !in out ==> Inserted(rows, ks[..i + 1]) == Ok(out[ks[i].unix := ks[i].bar])
  {
    var one := [ks[i]];
    assert ks[..i + 1] == ks[..i] + one;
    assert one[..0] == [];
    assert AsRows(one) == map[ks[i].unix := ks[i].bar];
    assert out + AsRows(one) == out[ks[i].unix := ks[i].bar];
    InsertedInTwo(rows, ks[..i], one);
    if ks[i].unix in out {
      InsertedInTwo(rows, ks[..i + 1], ks[i + 1..]);
      assert ks == ks[..i + 1] + ks[i + 1..];
      assert one[0].unix in out;
    } else {
      assert Fits(out, one);
    }
  }

  /** insertBatch: statements of so many rows that the placeholders suffice. */
  method InsertBatch(rows: Rows, cols: nat, ks: seq<KlineMinute>) returns (r: Result<Rows>)
    requires cols > 0
    ensures r == Inserted(rows, ks)
  {
    var n := PLACEHOLDERS / cols;
    if n < 1 {
      n := 1;
    }
    var start, out := 0, rows;
    NothingInserted(rows);
    assert ks[..0] == [];
    while start < |ks|
      invariant start <= |ks| && Inserted(rows, ks[..start]) == Ok(out)
    {
      var end := if start + n > |ks| then |ks| else start + n;
      NextBatch(rows, ks, start, end, out);
      FewEnough(end - start, n, cols);
      r := InsertRows(out, cols, ks[start..end]);
      if r == Err {
        return;
      }
      start, out := end, r.value;
    }
    assert ks[..|ks|] == ks;
    return Ok(out);
  }

  lemma FewEnough(count: nat, n: nat, cols: nat)
    requires cols > 0 && count <= n && (n == 1 || n == PLACEHOLDERS / cols)
    ensures count <= 1 || count * cols <= 999
  {
    if n > 1 {
      assert n * cols <= PLACEHOLDERS;
      assert count * cols <= n * cols by {
        assert (n - count) * cols >= 0;
      }
    }
  }

  lemma NextBatch(rows: Rows, ks: seq<KlineMinute>, start: nat, end: nat, out: Rows)
    requires start <= end <= |ks| && Inserted(rows, ks[..start]) == Ok(out)
    ensures Inserted(rows, ks[..end]) == Inserted(out, ks[start..end])
    ensures Inserted(out, ks[start..end]) == Err ==> Inserted(rows, ks) == Err
  {
    assert ks[..end] == ks[..start] + ks[start..end];
    InsertedInTwo(rows, ks[..start], ks[start..end]);
    assert ks == ks[..end] + ks[end..];
    InsertedInTwo(rows, ks[..end], ks[end..]);
  }

  function Below(rows: Rows, from: int): Rows { map u | u in rows && u < from :: rows[u] }

  /** writeMin: the tail of the table from `from` on is replaced by ks. */
  method WriteMin(rows: Rows, from: int, ks: seq<KlineMinute>) returns (r: Result<Rows>)
    ensures r == Inserted(Below(rows, from), ks)
  {
    r := InsertBatch(Below(rows, from), MIN_COLS, ks);
  }

  function Earlier(a: int, b: int): int { if b < a then b else a }

  function Later(a: int, b: int): int { if b > a then b else a }

  function EarliestOf(ks: seq<KlineMinute>): (u: int)
    requires ks != []
    ensures forall k :: k in ks ==> u <= k.unix
    ensures exists k :: k in ks && k.unix == u
  {
    if |ks| == 1 then assert ks[0] in ks; ks[0].unix
    else
      var u := EarliestOf(ks[..|ks| - 1]);
      assert forall k :: k in ks ==> k in ks[..|ks| - 1] || k == ks[|ks| - 1];
      assert ks[|ks| - 1] in ks;
      Earlier(u, ks[|ks| - 1].unix)
  }

  /** A new mark takes in an older one of its kind, if for fallback marks the two intervals touch. */
  function MergedMark(was: Option<Mark>, m: Mark): Mark {
    if was.Some? && was.value.fallback == m.fallback
       && (!m.fallback || (was.value.through >= m.from && m.through >= was.value.from))
    then m.(from := Earlier(was.value.from, m.from), through := Later(was.value.through, m.through))
    else m
  }

  /** A save either happens as a whole or leaves the file alone. */
  datatype Saved = Saved(file: YearFile, ok: bool)

  /** SaveMin; `broken` if the file cannot be opened or the transaction fails for a reason of its own. */
  ghost function SavedMin(f: YearFile, from: int, ks: seq<KlineMinute>, broken: bool): Saved {
    if ks == [] then Saved(f, true)
    else if broken || Inserted(Below(f.rows, from), ks) == Err then Saved(f, false)
    else Saved(f.(rows := Inserted(Below(f.rows, from), ks).value), true)
  }

  /** saveMinCoverage: rows and mark in one transaction. */
  ghost function SavedCoverage(f: YearFile, ks: seq<KlineMinute>, m: Mark, broken: bool): Saved {
    if ks == [] then Saved(f, true)
    else
      var from := EarliestOf(ks);
      if broken || Inserted(Below(f.rows, from), ks) == Err then Saved(f, false)
      else Saved(YearFile(Inserted(Below(f.rows, from), ks).value, Some(MergedMark(f.mark, m))), true)
  }

  ghost function SavedComplete(f: YearFile, from: int, ks: seq<KlineMinute>, broken: bool): Saved {
    SavedCoverage(f, ks, Mark(from, 0, false), broken)
  }

  ghost function SavedFallback(f: YearFile, from: int, through: int, ks: seq<KlineMinute>, broken: bool): Saved {
    if ks != [] && through <= from then Saved(f, false)
    else SavedCoverage(f, ks, Mark(from, through, true), broken)
  }

  /** The time of the newest row, and 0 when there is none. */
  ghost predicate IsLast(rows: Rows, u: int) {
    if rows == map[] then u == 0 else u in rows && forall v :: v in rows ==> v <= u
  }

  ghost predicate IsLeast(s: set<int>, u: int) { u in s && forall v :: v in s ==> u <= v }

  lemma {:induction false} SomeLeast(s: set<int>)
    requires s != {}
    ensures exists u :: IsLeast(s, u)
    decreases s
  {
    var x := AnyMember(s);
    if s == {x} {
      assert IsLeast(s, x);
    } else {
      var rest := s - {x};
      assert rest != {};
      SomeLeast(rest);
      var u :| IsLeast(rest, u);
      var w := if x <= u then x else u;
      forall v | v in s ensures w <= v {
        assert v == x || v in rest;
      }
      assert IsLeast(s, w);
    }
  }

  ghost function Least(s: set<int>): (u: int)
    requires s != {}
    ensures IsLeast(s, u)
  {
    SomeLeast(s);
    var u :| IsLeast(s, u);
    u
  }

  /** The rows in the order of their times. */
  ghost function Listed(rows: Rows): (ks: seq<KlineMinute>)
    ensures StrictlyBy(ks, Unix())
    ensures forall k :: k in ks <==> k.unix in rows && rows[k.unix] == k.bar
    decreases rows.Keys
  {
    if rows == map[] then []
    else
      assert rows.Keys != {};
      var u := Least(rows.Keys);
      var rest := rows - {u};
      var ks := Listed(rest);
      assert forall k :: k in ks ==> u < k.unix;
      [KlineMinute(u, rows[u])] + ks
  }

  /** The time of the newest row, or 0. */
  ghost function Newest(rows: Rows): (u: int)
    ensures IsLast(rows, u)
  {
    if rows == map[] then 0
    else
      var ks := Listed(rows);
      NewestIsLast(rows, ks);
      ks[|ks| - 1].unix
  }

  lemma NewestIsLast(rows: Rows, ks: seq<KlineMinute>)
    requires rows != map[] && ks == Listed(rows)
    ensures ks != [] && IsLast(rows, ks[|ks| - 1].unix)
  {
    var u := AnyMember(rows.Keys);
    assert KlineMinute(u, rows[u]) in ks;
    var z := ks[|ks| - 1];
    forall v | v in rows ensures v <= z.unix {
      assert KlineMinute(v, rows[v]) in ks;
      var i :| 0 <= i < |ks| && ks[i] == KlineMinute(v, rows[v]);
      if i < |ks| - 1 {
        assert Unix()(ks[i]) < Unix()(z);
      }
    }
    assert z in ks;
  }

  lemma StrictIsDistinct(ks: seq<KlineMinute>)
    requires StrictlyBy(ks, Unix())
    ensures Distinct(ks)
  {
  }

  lemma ListedRow(rows: Rows, ks: seq<KlineMinute>, u: int)
    requires forall k :: k in ks <==> k.unix in rows && rows[k.unix] == k.bar
    ensures u in AsRows(ks) <==> u in rows
    ensures u in rows ==> AsRows(ks)[u] == rows[u]
  {
    InRows(ks, u);
    if u in rows {
      assert KlineMinute(u, rows[u]) in ks;
    }
    if i :| 0 <= i < |ks| && ks[i].unix == u {
      assert ks[i] in ks;
    }
  }

  lemma RowsOfListed(rows: Rows, ks: seq<KlineMinute>)
    requires forall k :: k in ks <==> k.unix in rows && rows[k.unix] == k.bar
    ensures AsRows(ks) == rows
  {
    forall u ensures u in AsRows(ks) <==> u in rows {
      ListedRow(rows, ks, u);
    }
    forall u | u in rows ensures AsRows(ks)[u] == rows[u] {
      ListedRow(rows, ks, u);
    }
  }

  lemma ListedDistinct(rows: Rows)
    ensures Distinct(Listed(rows))
    ensures AsRows(Listed(rows)) == rows
  {
    StrictIsDistinct(Listed(rows));
    RowsOfListed(rows, Listed(rows));
  }

  /** Rows in the order of their times can be listed in one way only. */
  lemma ListedIsUnique(rows: Rows, ks: seq<KlineMinute>)
    requires StrictlyBy(ks, Unix())
    requires forall k :: k in ks <==> k.unix in rows && rows[k.unix] == k.bar
    ensures ks == Listed(rows)
  {
    StrictOrderIsUnique(ks, Listed(rows), Unix());
  }

  /** A table's rows read out in order. */
  method Sorted(rows: Rows) returns (ks: seq<KlineMinute>)
    ensures ks == Listed(rows)
  {
    ks := [];
    var rest := rows.Keys;
    while rest != {}
      invariant rest <= rows.Keys
      invariant forall k :: k in ks <==> k.unix in rows && k.unix !in rest && rows[k.unix] == k.bar
      invariant DistinctBy(ks, Unix())
      decreases rest
    {
      var u := AnyOf(rest);
      NotYet(ks, KlineMinute(u, rows[u]));
      ks, rest := ks + [KlineMinute(u, rows[u])], rest - {u};
    }
    SortStrict(ks, Unix());
    ks := SortBy(ks, Unix());
    ListedIsUnique(rows, ks);
  }

  lemma NotYet(ks: seq<KlineMinute>, k: KlineMinute)
    requires DistinctBy(ks, Unix())
    requires forall j :: j in ks ==> j.unix != k.unix
    ensures DistinctBy(ks + [k], Unix())
    ensures forall j :: j in ks + [k] <==> j in ks || j == k
  {
    var all := ks + [k];
    forall i, j | 0 <= i < j < |all| ensures Unix()(all[i]) != Unix()(all[j]) {
      if j < |ks| {
        assert Unix()(ks[i]) != Unix()(ks[j]);
      } else {
        assert ks[i] in ks;
      }
    }
  }

  /** Where the tail to be replaced starts. */
  method FirstTime(ks: seq<KlineMinute>) returns (writeFrom: int)
    requires ks != []
    ensures writeFrom == EarliestOf(ks)
  {
    writeFrom := ks[0].unix;
    for i := 0 to |ks|
      invariant writeFrom == if i == 0 then ks[0].unix else EarliestOf(ks[..i])
    {
      if i > 0 {
        assert ks[..i + 1][..i] == ks[..i];
      }
      if ks[i].unix < writeFrom {
        writeFrom := ks[i].unix;
      }
    }
    assert ks[..|ks|] == ks;
  }

  /** Within two bounds, either of which may be missing. */
  predicate InRange(start: Option<int>, end: Option<int>, u: int) {
    (start.Some? ==> start.value <= u) && (end.Some? ==> u <= end.value)
  }

  /** The rows of a table within bounds. */
  function Between(rows: Rows, start: Option<int>, end: Option<int>): Rows {
    map u | u in rows && InRange(start, end, u) :: rows[u]
  }

  /** The part of the pull service that keeps one symbol's minute bars. */
  class MinuteTables {
    var files: Files

    constructor (f: Files)
      ensures files == f
    {
      files := f;
    }

    /** QueryMinCoverage. */
    method QueryMinCoverage(year: int, broken: bool) returns (r: Result<Option<Mark>>)
      ensures r == if broken then Err else Ok(File(files, year).mark)
    {
      if broken {
        return Err;
      }
      return Ok(if year in files then files[year].mark else None);
    }

    /** LastMinUnix. */
    method LastMinUnix(year: int, broken: bool) returns (r: Result<int>)
      ensures r == Err <==> broken
      ensures r.Ok? ==> IsLast(File(files, year).rows, r.value)
    {
      if broken {
        return Err;
      }
      var keys := if year in files then files[year].rows.Keys else {};
      if keys == {} {
        return Ok(0);
      }
      var last := AnyOf(keys);
      var rest := keys - {last};
      while rest != {}
        invariant rest <= keys && last in keys
        invariant forall v :: v in keys && v !in rest ==> v <= last
        decreases rest
      {
        var u := AnyOf(rest);
        if u > last {
          last := u;
        }
        rest := rest - {u};
      }
      return Ok(last);
    }

    /** QueryMin; a missing bound stands for the earliest year there is data of, and for the current year. */
    method QueryMin(start: Option<int>, end: Option<int>, thisYear: int, broken: bool)
      returns (r: Result<seq<KlineMinute>>)
      ensures r == if broken then Err else Ok(Queried(files, start, end, thisYear))
    {
      if broken {
        return Err;
      }
      var first := if start.Some? then YearOf(start.value) else FIRST_YEAR;
      var last := if end.Some? then YearOf(end.value) else thisYear;
      var out := QueryYears(start, end, first, last);
      return Ok(out);
    }

    /** The files of the years first..last, one after the other. */
    method QueryYears(start: Option<int>, end: Option<int>, first: int, last: int) returns (out: seq<KlineMinute>)
      ensures out == ListedYears(files, start, end, first, last)
    {
      out := [];
      var y := first;
      ghost var rest := ListedYears(files, start, end, first, last);
      ghost var all := rest;
      while y <= last
        invariant rest == ListedYears(files, start, end, y, last) && out + rest == all
        decreases last - y
      {
        var ls := Sorted(Between(File(files, y).rows, start, end));
        rest := NextYear(files, start, end, y, last, out, ls, rest);
        out := out + ls;
        y := y + 1;
      }
    }

    /** A transaction that may fail for a reason of its own, and then changes nothing. */
    method Commit(year: int, f: YearFile, broken: bool) returns (ok: bool)
      modifies this
      ensures ok == !broken
      ensures files == if broken then old(files) else Put(old(files), year, f)
    {
      if !broken {
        files := Put(files, year, f);
      }
      return !broken;
    }

    /** SaveMin. */
    method SaveMin(year: int, from: int, ks: seq<KlineMinute>, broken: bool) returns (ok: bool)
      modifies this
      ensures Saved(File(files, year), ok) == SavedMin(File(old(files), year), from, ks, broken)
      ensures files == Put(old(files), year, File(files, year))
    {
      if ks == [] {
        return true;
      }
      var f := File(files, year);
      var r := WriteMin(f.rows, from, ks);
      if r == Err {
        return false;
      }
      ok := Commit(year, f.(rows := r.value), broken);
    }

    /** saveMinCoverage. */
    method SaveMinCoverage(year: int, ks: seq<KlineMinute>, coverage: Mark, broken: bool) returns (ok: bool)
      modifies this
      ensures Saved(File(files, year), ok) == SavedCoverage(File(old(files), year), ks, coverage, broken)
      ensures files == Put(old(files), year, File(files, year))
    {
      if ks == [] {
        return true;
      }
      var writeFrom := FirstTime(ks);
      var f := File(files, year);
      var r := WriteMin(f.rows, writeFrom, ks);
      if r == Err {
        return false;
      }
      var m := coverage;
      if f.mark.Some? && f.mark.value.fallback == m.fallback
         && (!m.fallback || (f.mark.value.through >= m.from && m.through >= f.mark.value.from)) {
        m := m.(from := if f.mark.value.from < m.from then f.mark.value.from else m.from,
                through := if f.mark.value.through > m.through then f.mark.value.through else m.through);
      }
      ok := Commit(year, YearFile(r.value, Some(m)), broken);
    }

    /** SaveMinComplete. */
    method SaveMinComplete(year: int, from: int, ks: seq<KlineMinute>, broken: bool) returns (ok: bool)
      modifies this
      ensures Saved(File(files, year), ok) == SavedComplete(File(old(files), year), from, ks, broken)
      ensures files == Put(old(files), year, File(files, year))
    {
      ok := SaveMinCoverage(year, ks, Mark(from, 0, false), broken);
    }

    /** SaveMinFallbackComplete. */
    method SaveMinFallbackComplete(year: int, from: int, through: int, ks: seq<KlineMinute>, broken: bool)
      returns (ok: bool)
      modifies this
      ensures Saved(File(files, year), ok) == SavedFallback(File(old(files), year), from, through, ks, broken)
      ensures files == Put(old(files), year, File(files, year))
    {
      if ks == [] {
        return true;
      }
      if through <= from {
        return false;
      }
      ok := SaveMinCoverage(year, ks, Mark(from, through, true), broken);
    }
  }

  /** What a query over several years reads: the files one after the other. */
  ghost function ListedYears(files: Files, start: Option<int>, end: Option<int>,
                             first: int, last: int): seq<KlineMinute>
    decreases last - first
  {
    if first > last then []
    else Listed(Between(File(files, first).rows, start, end)) + ListedYears(files, start, end, first + 1, last)
  }

  lemma NextYear(files: Files, start: Option<int>, end: Option<int>, y: int, last: int,
                 out: seq<KlineMinute>, ls: seq<KlineMinute>,
                 rest: seq<KlineMinute>)
    returns (tail: seq<KlineMinute>)
    requires y <= last && ls == Listed(Between(File(files, y).rows, start, end))
    requires rest == ListedYears(files, start, end, y, last)
    ensures tail == ListedYears(files, start, end, y + 1, last)
    ensures (out + ls) + tail == out + rest
  {
    tail := ListedYears(files, start, end, y + 1, last);
    Grouping.Reassociate(out, ls, tail);
  }

  const FIRST_YEAR: int := 1990

  /** What QueryMin reads. */
  ghost function Queried(files: Files, start: Option<int>, end: Option<int>, thisYear: int): seq<KlineMinute> {
    ListedYears(files, start, end, if start.Some? then YearOf(start.value) else FIRST_YEAR,
                if end.Some? then YearOf(end.value) else thisYear)
  }

  /** A query finds exactly the stored rows within its bounds, each under its own time, if every table keeps to
      its year and nothing is stored before 1990 or after the current year. */
  lemma QueryFindsAll(files: Files, start: Option<int>, end: Option<int>, thisYear: int, k: KlineMinute)
    requires forall y, u :: u in File(files, y).rows ==> YearOf(u) == y && 1990 <= y <= thisYear
    ensures k in Queried(files, start, end, thisYear)
       <==> (start == None || start.value <= k.unix) && (end == None || k.unix <= end.value)
            && k.unix in File(files, YearOf(k.unix)).rows
            && File(files, YearOf(k.unix)).rows[k.unix] == k.bar
  {
    var first := if start.Some? then YearOf(start.value) else FIRST_YEAR;
    var last := if end.Some? then YearOf(end.value) else thisYear;
    YearsFindAll(files, start, end, first, last, k);
    if start.Some? && start.value <= k.unix {
      YearIsMonotone(start.value, k.unix);
    }
    if end.Some? && k.unix <= end.value {
      YearIsMonotone(k.unix, end.value);
    }
  }

  lemma {:induction false} YearsFindAll(files: Files, start: Option<int>, end: Option<int>,
                                        first: int, last: int, k: KlineMinute)
    requires forall y, u :: u in File(files, y).rows ==> YearOf(u) == y
    ensures k in ListedYears(files, start, end, first, last)
       <==> first <= YearOf(k.unix) <= last && InRange(start, end, k.unix)
            && k.unix in File(files, YearOf(k.unix)).rows && File(files, YearOf(k.unix)).rows[k.unix] == k.bar
    decreases last - first
  {
    if first <= last {
      var here := Listed(Between(File(files, first).rows, start, end));
      var rest := ListedYears(files, start, end, first + 1, last);
      YearsFindAll(files, start, end, first + 1, last, k);
      assert k in here + rest <==> k in here || k in rest;
    }
  }
}
