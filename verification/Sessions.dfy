/** Aligning minute bars to trading sessions (extend/pull/calendar.go, MinuteToSessions). The zone is a fixed
    offset from UTC in seconds; instants are whole seconds. */
module Sessions {
  import opened Calendar
  import opened Grouping
  import opened Results
  import opened Sorting

  const DAY_MINUTES: int := 1440

  /** Minutes from midnight; an end at or before the start means the session runs past midnight. */
  datatype Session = Session(start: int, end: int)

  predicate WellFormed(s: Session) {
    0 <= s.start < DAY_MINUTES && 0 <= s.end <= DAY_MINUTES && s.start != s.end
  }

  /** The end counted from the midnight the session's day began at. */
  function EndOf(s: Session): int { if s.end < s.start then s.end + DAY_MINUTES else s.end }

  /** m is a minute of the session; a full day's last minute is its first and is not listed twice. */
  predicate Lists(s: Session, m: int) {
    s.start <= m <= EndOf(s) && !(m == EndOf(s) && m - s.start == DAY_MINUTES)
  }

  /** Minute q of the day belongs to the session, today or past midnight. */
  predicate Covers(s: Session, q: int) { Lists(s, q) || Lists(s, q + DAY_MINUTES) }

  ghost predicate NoOverlap(sessions: seq<Session>) {
    forall i, j, q :: 0 <= i < j < |sessions| && 0 <= q < DAY_MINUTES ==>
      !(Covers(sessions[i], q) && Covers(sessions[j], q))
  }

  ghost predicate Accepted(sessions: seq<Session>) {
    (forall i :: 0 <= i < |sessions| ==> WellFormed(sessions[i])) && NoOverlap(sessions)
  }

  lemma ListedIsCovered(s: Session, m: int)
    requires WellFormed(s) && Lists(s, m)
    ensures 0 <= m % DAY_MINUTES < DAY_MINUTES && Covers(s, m % DAY_MINUTES)
  {
    assert 0 <= m < 2 * DAY_MINUTES;
    assert m >= DAY_MINUTES ==> m % DAY_MINUTES == m - DAY_MINUTES;
  }

  /** A session lists no minute of the day twice. */
  lemma ListedOnce(s: Session, m: int, k: int)
    requires WellFormed(s) && Lists(s, m) && Lists(s, k) && m % DAY_MINUTES == k % DAY_MINUTES
    ensures m == k
  {
    assert 0 <= m < 2 * DAY_MINUTES && 0 <= k < 2 * DAY_MINUTES;
    assert EndOf(s) - s.start <= DAY_MINUTES;
  }

  /** q belongs to the part of the session before its minute m. */
  predicate CoveredBefore(s: Session, q: int, m: int) {
    (Lists(s, q) && q < m) || (Lists(s, q + DAY_MINUTES) && q + DAY_MINUTES < m)
  }

  /** One session entered into the table of taken minutes; false when a minute is taken already. */
  method Enter(s: Session, occupied: array<bool>, ghost was: seq<bool>) returns (free: bool)
    requires WellFormed(s) && occupied.Length == DAY_MINUTES && was == occupied[..]
    modifies occupied
    ensures free <==> forall q :: 0 <= q < DAY_MINUTES && Covers(s, q) ==> !was[q]
    ensures free ==> forall q :: 0 <= q < DAY_MINUTES ==> occupied[q] == (was[q] || Covers(s, q))
  {
    var end := s.end;
    if end < s.start {
      end := end + 1440;
    }
    var m := s.start;
    while m <= end
      invariant s.start <= m <= end + 1
      invariant forall q :: 0 <= q < DAY_MINUTES ==> occupied[q] == (was[q] || CoveredBefore(s, q, m))
      invariant forall q :: 0 <= q < DAY_MINUTES && CoveredBefore(s, q, m) ==> !was[q]
    {
      if m == end && m - s.start == 1440 {
        forall q | 0 <= q < DAY_MINUTES ensures CoveredBefore(s, q, m + 1) == CoveredBefore(s, q, m) {
        }
        m := m + 1;
        continue;
      }
      ListedIsCovered(s, m);
      var q := m % 1440;
      NextMinute(s, m);
      if occupied[q] {
        return false;
      }
      occupied[q] := true;
      m := m + 1;
    }
    forall q | 0 <= q < DAY_MINUTES ensures CoveredBefore(s, q, m) == Covers(s, q) {
    }
    free := true;
  }

  /** Going on to the next minute adds that minute of the day, which was not there before. */
  lemma NextMinute(s: Session, m: int)
    requires WellFormed(s) && Lists(s, m)
    ensures !CoveredBefore(s, m % DAY_MINUTES, m)
    ensures forall q :: 0 <= q < DAY_MINUTES ==>
      CoveredBefore(s, q, m + 1) == (CoveredBefore(s, q, m) || q == m % DAY_MINUTES)
  {
    var r := m % DAY_MINUTES;
    assert 0 <= m < 2 * DAY_MINUTES && (m == r || m == r + DAY_MINUTES);
    if m == r + DAY_MINUTES && Lists(s, r) {
      ListedOnce(s, m, r);
      assert false;
    }
  }

  /** The validation at the head of MinuteToSessions accepts exactly the well-formed sessions of which no two
      share a minute of the day. */
  method Validate(sessions: seq<Session>) returns (ok: bool)
    ensures ok <==> Accepted(sessions)
  {
    var occupied := new bool[1440](_ => false);
    for i := 0 to |sessions|
      invariant Accepted(sessions[..i])
      invariant forall q :: 0 <= q < DAY_MINUTES ==>
        (occupied[q] <==> exists j :: 0 <= j < i && Covers(sessions[j], q))
    {
      var s := sessions[i];
      if s.start < 0 || s.start >= 1440 || s.end < 0 || s.end > 1440 || s.start == s.end {
        assert !WellFormed(sessions[i]);
        return false;
      }
      ghost var was := occupied[..];
      var free := Enter(s, occupied, was);
      if !free {
        return false;
      }
    }
    assert sessions[..|sessions|] == sessions;
    ok := true;
  }

  // ---------------------------------------------------------------- where an instant belongs

  /** Local seconds at which the session of day d begins and ends. */
  function Begin(s: Session, d: int): int { d * DAY + s.start * 60 }
  function Finish(s: Session, d: int): int { d * DAY + EndOf(s) * 60 }

  /** Instant t lies in the occurrence of the session that begins on day d. */
  predicate Contains(s: Session, d: int, t: int) { Begin(s, d) <= t <= Finish(s, d) }

  /** The midnight between two days of a session that takes the whole day, 0 to 1440. */
  predicate SharedMidnight(s: Session, t: int) { s == Session(0, DAY_MINUTES) && t % DAY == 0 }

  lemma InstantIsCovered(s: Session, d: int, t: int)
    requires WellFormed(s) && Contains(s, d, t)
    ensures var m := t / 60 - d * DAY_MINUTES; s.start <= m <= EndOf(s) && (t / 60) % DAY_MINUTES == m % DAY_MINUTES
    ensures Covers(s, (t / 60) % DAY_MINUTES)
  {
    var m := t / 60 - d * DAY_MINUTES;
    assert t - d * DAY == t - d * DAY_MINUTES * 60;
    assert s.start <= m <= EndOf(s);
    ModuloDay(t / 60, d);
    if Lists(s, m) {
      ListedIsCovered(s, m);
    } else {
      assert m == DAY_MINUTES && s.start == 0;
      assert Lists(s, 0);
    }
  }

  lemma ModuloDay(a: int, d: int)
    ensures (a - d * DAY_MINUTES) % DAY_MINUTES == a % DAY_MINUTES
  {
    var q, r := a / DAY_MINUTES, a % DAY_MINUTES;
    assert a - d * DAY_MINUTES == (q - d) * DAY_MINUTES + r;
  }

  lemma OneSession(sessions: seq<Session>, i: nat, j: nat, q: int)
    requires NoOverlap(sessions) && i < |sessions| && j < |sessions| && 0 <= q < DAY_MINUTES
    requires Covers(sessions[i], q) && Covers(sessions[j], q)
    ensures i == j
  {
  }

  /** In accepted sessions an instant lies in one occurrence only, save for the shared midnight of a session
      that takes the whole day, which lies in that of the day it ends and that of the day it opens. */
  lemma OneOccurrence(sessions: seq<Session>, t: int, i: nat, d: int, j: nat, e: int)
    requires Accepted(sessions) && i < |sessions| && j < |sessions|
    requires Contains(sessions[i], d, t) && Contains(sessions[j], e, t)
    ensures i == j
    ensures d == e || (SharedMidnight(sessions[i], t) && ((d == t / DAY && e == d - 1) || (e == t / DAY && d == e - 1)))
  {
    InstantIsCovered(sessions[i], d, t);
    InstantIsCovered(sessions[j], e, t);
    var q := (t / 60) % DAY_MINUTES;
    OneSession(sessions, i, j, q);
    var s, lo, hi := sessions[i], if d < e then d else e, if d < e then e else d;
    if d != e {
      assert hi >= lo + 1;
      assert (t / 60 - lo * DAY_MINUTES) - (t / 60 - hi * DAY_MINUTES) == (hi - lo) * DAY_MINUTES;
      assert hi == lo + 1 && s == Session(0, DAY_MINUTES);
      assert t == hi * DAY;
    }
  }

  /** Looking at the day of the instant and the day before is enough. */
  lemma LookingBackOneDay(s: Session, d: int, t: int)
    requires WellFormed(s) && Contains(s, d, t)
    ensures d == t / DAY || d == t / DAY - 1
  {
  }

  /** A group of bars: the session's beginning, its position in the list, and the n-minute slice; slice -1
      is the opening instant itself. */
  datatype Bucket = Bucket(anchor: int, session: nat, index: int)

  function BucketIn(s: Session, i: nat, d: int, t: int, n: int, zone: int): Bucket
    requires n > 0
  {
    var elapsed := t - Begin(s, d);
    Bucket(Begin(s, d) - zone, i, if elapsed > 0 then (elapsed - 1) / (n * 60) else -1)
  }

  /** The occurrence an instant is booked to: of two that share a midnight, the one it opens. */
  ghost predicate Home(sessions: seq<Session>, t: int, i: nat, d: int) {
    i < |sessions| && Contains(sessions[i], d, t) && !Contains(sessions[i], d + 1, t)
  }

  /** The first match of MinuteToSessions' search from session i on. */
  function FirstMatch(sessions: seq<Session>, i: nat, t: int): (r: Option<(nat, int)>)
    requires i <= |sessions|
    ensures r.Some? ==> i <= r.value.0 < |sessions|
    decreases |sessions| - i
  {
    if i == |sessions| then None
    else if Contains(sessions[i], t / DAY, t) then Some((i, t / DAY))
    else if Contains(sessions[i], t / DAY - 1, t) then Some((i, t / DAY - 1))
    else FirstMatch(sessions, i + 1, t)
  }

  /** The bucket of a Unix time, if it falls in a session at all. */
  function BucketAt(sessions: seq<Session>, n: int, zone: int, unix: int): Option<Bucket>
    requires n > 0
  {
    var t := unix + zone;
    match FirstMatch(sessions, 0, t)
    case None => None
    case Some((i, d)) => Some(BucketIn(sessions[i], i, d, t, n, zone))
  }

  method Locate(sessions: seq<Session>, n: int, zone: int, unix: int) returns (r: Option<Bucket>)
    requires n > 0
    ensures r == BucketAt(sessions, n, zone, unix)
  {
    var t := unix + zone;
    for i := 0 to |sessions|
      invariant FirstMatch(sessions, 0, t) == FirstMatch(sessions, i, t)
    {
      var s := sessions[i];
      for back := 0 to 2
        invariant FirstMatch(sessions, 0, t) == FirstMatch(sessions, i, t)
        invariant back >= 1 ==> !Contains(s, t / DAY, t)
        invariant back == 2 ==> !Contains(s, t / DAY - 1, t)
      {
        var date := t / DAY - back;
        var begin := date * DAY + s.start * 60;
        var endMinute := s.end;
        if endMinute < s.start {
          endMinute := endMinute + 1440;
        }
        var end := date * DAY + endMinute * 60;
        if t < begin || t > end {
          continue;
        }
        var elapsed := t - begin;
        var index := -1;
        if elapsed > 0 {
          index := (elapsed - 1) / (n * 60);
        }
        return Some(Bucket(begin - zone, i, index));
      }
    }
    r := None;
  }

  lemma {:induction false} FirstMatchFinds(sessions: seq<Session>, i: nat, t: int)
    requires i <= |sessions| && (forall k :: 0 <= k < |sessions| ==> WellFormed(sessions[k]))
    ensures var r := FirstMatch(sessions, i, t);
      (match r case None => forall k, d :: i <= k < |sessions| ==> !Contains(sessions[k], d, t)
       case Some((k, d)) => i <= k && Home(sessions, t, k, d))
    decreases |sessions| - i
  {
    if i < |sessions| {
      var s := sessions[i];
      forall d | Contains(s, d, t) ensures d == t / DAY || d == t / DAY - 1 {
        LookingBackOneDay(s, d, t);
      }
      FirstMatchFinds(sessions, i + 1, t);
    }
  }

  /** The search finds an occurrence exactly when there is one, and then the home of the instant, which is
      unique: the order of the sessions does not matter to what is found. */
  lemma SearchFindsHome(sessions: seq<Session>, t: int)
    requires Accepted(sessions)
    ensures FirstMatch(sessions, 0, t).Some? <==> exists i: nat, d :: i < |sessions| && Contains(sessions[i], d, t)
    ensures forall i: nat, d :: Home(sessions, t, i, d) <==> FirstMatch(sessions, 0, t) == Some((i, d))
  {
    FirstMatchFinds(sessions, 0, t);
    forall i: nat, d ensures Home(sessions, t, i, d) <==> FirstMatch(sessions, 0, t) == Some((i, d)) {
      if Home(sessions, t, i, d) {
        assert FirstMatch(sessions, 0, t).Some?;
        var (k, e) := FirstMatch(sessions, 0, t).value;
        OneOccurrence(sessions, t, i, d, k, e);
      }
    }
  }

  /** The same sessions listed in another order give every instant the same session and the same slice. */
  lemma OrderDoesNotMatter(sessions: seq<Session>, other: seq<Session>, n: int, zone: int, unix: int)
    requires Accepted(sessions) && Accepted(other) && n > 0
    requires forall s :: s in sessions <==> s in other
    ensures match (BucketAt(sessions, n, zone, unix), BucketAt(other, n, zone, unix))
      case (None, None) => true
      case (Some(a), Some(b)) =>
        a.anchor == b.anchor && a.index == b.index
        && a.session < |sessions| && b.session < |other| && sessions[a.session] == other[b.session]
      case _ => false
  {
    var t := unix + zone;
    SearchFindsHome(sessions, t);
    SearchFindsHome(other, t);
    if FirstMatch(sessions, 0, t).Some? {
      var (i, d) := FirstMatch(sessions, 0, t).value;
      assert Home(sessions, t, i, d);
      assert sessions[i] in other;
      var j: nat :| j < |other| && other[j] == sessions[i];
      assert Home(other, t, j, d);
    }
    if FirstMatch(other, 0, t).Some? {
      var (j, d) := FirstMatch(other, 0, t).value;
      assert Home(other, t, j, d);
      assert other[j] in sessions;
      var i: nat :| i < |sessions| && sessions[i] == other[j];
      assert Home(sessions, t, i, d);
    }
  }

  // ---------------------------------------------------------------- streaming against grouping

  datatype Bar = Bar(unix: int, open: real, high: real, low: real, close: real,
                     volume: int, amount: real, source: string)

  /** The last bar of the output taking in one more. */
  function Extend(last: Bar, k: Bar): Bar {
    Bar(k.unix, last.open, if last.high < k.high then k.high else last.high,
        if k.low < last.low then k.low else last.low,
        k.close, last.volume + k.volume, last.amount + k.amount, if k.source != "" then k.source else last.source)
  }

  /** The bar a non-empty group amounts to. */
  function Aggregate(ks: seq<Bar>): Bar
    requires ks != []
  {
    if |ks| == 1 then ks[0] else Extend(Aggregate(ks[..|ks| - 1]), ks[|ks| - 1])
  }

  function VolumeOf(): Bar -> int { (k: Bar) => k.volume }
  function AmountOf(): Bar -> real { (k: Bar) => k.amount }

  /** First open, last close and time, and the source of the last bar that names one. */
  lemma {:induction false} AggregateEnds(ks: seq<Bar>)
    requires ks != []
    ensures var a, z := Aggregate(ks), ks[|ks| - 1]; a.open == ks[0].open && a.close == z.close && a.unix == z.unix
    ensures Aggregate(ks).source == "" <==> forall i :: 0 <= i < |ks| ==> ks[i].source == ""
    ensures forall i :: 0 <= i < |ks| && ks[i].source != "" && (forall j :: i < j < |ks| ==> ks[j].source == "") ==>
      Aggregate(ks).source == ks[i].source
  {
    if |ks| > 1 {
      var front := ks[..|ks| - 1];
      AggregateEnds(front);
      assert forall i :: 0 <= i < |front| ==> ks[i] == front[i];
    }
  }

  /** The highest high and the lowest low: bounds that some bar attains. */
  lemma {:induction false} AggregateExtremes(ks: seq<Bar>) returns (hi: nat, lo: nat)
    requires ks != []
    ensures forall i :: 0 <= i < |ks| ==> Aggregate(ks).low <= ks[i].low && ks[i].high <= Aggregate(ks).high
    ensures hi < |ks| && ks[hi].high == Aggregate(ks).high && lo < |ks| && ks[lo].low == Aggregate(ks).low
  {
    hi, lo := |ks| - 1, |ks| - 1;
    if |ks| > 1 {
      var front, z := ks[..|ks| - 1], ks[|ks| - 1];
      var h, l := AggregateExtremes(front);
      assert forall i :: 0 <= i < |front| ==> ks[i] == front[i];
      hi := if Aggregate(front).high < z.high then hi else h;
      lo := if z.low < Aggregate(front).low then lo else l;
    }
  }

  function Volume(ks: seq<Bar>): int { Total(ks, VolumeOf(), AddInt(), 0) }
  function Amount(ks: seq<Bar>): real { Total(ks, AmountOf(), AddReal(), 0.0) }

  lemma {:induction false} VolumeSnoc(ks: seq<Bar>, k: Bar)
    ensures Volume(ks + [k]) == Volume(ks) + k.volume
  {
    if ks == [] {
      assert [k][1..] == [] && [] + [k] == [k];
      assert Volume([k]) == AddInt()(k.volume, Volume([]));
    } else {
      assert (ks + [k])[1..] == ks[1..] + [k];
      VolumeSnoc(ks[1..], k);
    }
  }

  lemma {:induction false} AmountSnoc(ks: seq<Bar>, k: Bar)
    ensures Amount(ks + [k]) == Amount(ks) + k.amount
  {
    if ks == [] {
      assert [k][1..] == [] && [] + [k] == [k];
      assert Amount([k]) == AddReal()(k.amount, Amount([]));
    } else {
      assert (ks + [k])[1..] == ks[1..] + [k];
      AmountSnoc(ks[1..], k);
    }
  }

  lemma AggregateSnoc(front: seq<Bar>, z: Bar)
    requires front != []
    ensures Aggregate(front + [z]) == Extend(Aggregate(front), z)
  {
    assert (front + [z])[..|front|] == front;
  }

  lemma TotalsOfOne(k: Bar)
    ensures Volume([k]) == k.volume && Amount([k]) == k.amount
  {
    VolumeSnoc([], k);
    AmountSnoc([], k);
    assert [] + [k] == [k];
  }

  lemma {:induction false} AggregateTotals(ks: seq<Bar>)
    requires ks != []
    ensures Aggregate(ks).volume == Volume(ks) && Aggregate(ks).amount == Amount(ks)
  {
    var front, z := ks[..|ks| - 1], ks[|ks| - 1];
    assert ks == front + [z];
    if front == [] {
      TotalsOfOne(z);
      assert ks == [z];
    } else {
      AggregateTotals(front);
      AggregateSnoc(front, z);
      VolumeSnoc(front, z);
      AmountSnoc(front, z);
    }
  }

  function ByUnix(): Bar -> int { (k: Bar) => k.unix }

  function KeyOf(sessions: seq<Session>, n: int, zone: int): Bar -> Option<Bucket>
    requires n > 0
  {
    (k: Bar) => BucketAt(sessions, n, zone, k.unix)
  }

  /** One aggregated bar for each group, the groups in the order of their first bars. */
  function Grouped(ks: seq<Bar>, key: Bar -> Option<Bucket>): (out: seq<Bar>)
    ensures |out| == |Keys(ks, key)|
  {
    seq(|Keys(ks, key)|, i requires 0 <= i < |Keys(ks, key)| => AggregateOf(Pick(ks, key, Keys(ks, key)[i])))
  }

  function AggregateOf(ks: seq<Bar>): Bar {
    if ks == [] then Bar(0, 0.0, 0.0, 0.0, 0.0, 0, 0.0, "") else Aggregate(ks)
  }

  /** A group is never left and entered again. */
  ghost predicate Contiguous(ks: seq<Bar>, key: Bar -> Option<Bucket>) {
    forall i, j, m :: 0 <= i <= m <= j < |ks| && key(ks[i]) == key(ks[j]) ==> key(ks[m]) == key(ks[i])
  }

  lemma SamePlaceInBetween(sessions: seq<Session>, n: int, zone: int, a: int, b: int, c: int)
    requires Accepted(sessions) && n > 0 && a <= b <= c
    requires BucketAt(sessions, n, zone, a) == BucketAt(sessions, n, zone, c) && BucketAt(sessions, n, zone, a).Some?
    ensures BucketAt(sessions, n, zone, b) == BucketAt(sessions, n, zone, a)
  {
    var (i, d) := FirstMatch(sessions, 0, a + zone).value;
    var (j, e) := FirstMatch(sessions, 0, c + zone).value;
    assert i == j && d == e by {
      assert BucketIn(sessions[i], i, d, a + zone, n, zone) == BucketIn(sessions[j], j, e, c + zone, n, zone);
    }
    SameHomeInBetween(sessions, a + zone, b + zone, c + zone, i, d);
    SliceInBetween(sessions[i], i, d, a + zone, b + zone, c + zone, n, zone);
  }

  lemma SameHomeInBetween(sessions: seq<Session>, a: int, b: int, c: int, i: nat, d: int)
    requires Accepted(sessions) && a <= b <= c
    requires FirstMatch(sessions, 0, a) == Some((i, d)) && FirstMatch(sessions, 0, c) == Some((i, d))
    ensures FirstMatch(sessions, 0, b) == Some((i, d))
    ensures Begin(sessions[i], d) <= a
  {
    SearchFindsHome(sessions, a);
    SearchFindsHome(sessions, b);
    SearchFindsHome(sessions, c);
    assert Home(sessions, a, i, d) && Home(sessions, c, i, d);
    assert Home(sessions, b, i, d);
  }

  lemma SliceInBetween(s: Session, i: nat, d: int, a: int, b: int, c: int, n: int, zone: int)
    requires n > 0 && Begin(s, d) <= a <= b <= c
    requires BucketIn(s, i, d, a, n, zone) == BucketIn(s, i, d, c, n, zone)
    ensures BucketIn(s, i, d, b, n, zone) == BucketIn(s, i, d, a, n, zone)
  {
    SlicesInOrder(a - Begin(s, d), b - Begin(s, d), c - Begin(s, d), n * 60);
  }

  lemma SlicesInOrder(x: int, y: int, z: int, w: int)
    requires 0 <= x <= y <= z && w > 0
    ensures var f := (e: int) => if e > 0 then (e - 1) / w else -1;
      f(x) == f(z) ==> f(y) == f(x)
  {
    if x > 0 {
      Floors(x - 1, y - 1, w);
      Floors(y - 1, z - 1, w);
    } else if z > 0 {
      assert (z - 1) / w >= 0;
    }
  }

  lemma Positive(w: int, x: int)
    requires w > 0 && w * x > 0
    ensures x > 0
  {
  }

  lemma Floors(a: int, b: int, w: int)
    requires 0 <= a <= b && w > 0
    ensures 0 <= a / w <= b / w
  {
    var p, q := a / w, b / w;
    assert a == w * p + a % w && b == w * q + b % w;
    assert w * (p + 1) == w * p + w && w * (q - p + 1) == w * q - w * p + w;
    Positive(w, p + 1);
    Positive(w, q - p + 1);
  }

  lemma SortedIsContiguous(ks: seq<Bar>, sessions: seq<Session>, n: int, zone: int)
    requires Accepted(sessions) && n > 0 && SortedBy(ks, ByUnix())
    requires forall i :: 0 <= i < |ks| ==> KeyOf(sessions, n, zone)(ks[i]).Some?
    ensures Contiguous(ks, KeyOf(sessions, n, zone))
  {
    var key := KeyOf(sessions, n, zone);
    forall i, j, m | 0 <= i <= m <= j < |ks| && key(ks[i]) == key(ks[j]) ensures key(ks[m]) == key(ks[i]) {
      assert i < m ==> ByUnix()(ks[i]) <= ByUnix()(ks[m]);
      assert m < j ==> ByUnix()(ks[m]) <= ByUnix()(ks[j]);
      SamePlaceInBetween(sessions, n, zone, ks[i].unix, ks[m].unix, ks[j].unix);
    }
  }

  lemma KeysSnoc(ks: seq<Bar>, x: Bar, key: Bar -> Option<Bucket>)
    ensures Keys(ks + [x], key) == if key(x) in Keys(ks, key) then Keys(ks, key) else Keys(ks, key) + [key(x)]
  {
    assert (ks + [x])[..|ks|] == ks;
  }

  lemma PickSnoc(ks: seq<Bar>, x: Bar, key: Bar -> Option<Bucket>, k: Option<Bucket>)
    ensures Pick(ks + [x], key, k) == Pick(ks, key, k) + if key(x) == k then [x] else []
  {
    PickConcat(ks, [x], key, k);
    assert [x][1..] == [];
    assert Pick([x], key, k) == if key(x) == k then [x] else [];
  }

  lemma NothingPicked(ks: seq<Bar>, key: Bar -> Option<Bucket>, k: Option<Bucket>)
    requires k !in Keys(ks, key)
    ensures Pick(ks, key, k) == []
  {
    KeysCover(ks, key);
    NothingToPick(ks, key, k);
  }

  lemma {:induction false} NothingToPick(ks: seq<Bar>, key: Bar -> Option<Bucket>, k: Option<Bucket>)
    requires forall i :: 0 <= i < |ks| ==> key(ks[i]) != k
    ensures Pick(ks, key, k) == []
  {
    if ks != [] {
      NothingToPick(ks[1..], key, k);
    }
  }

  lemma {:induction false} SomethingPicked(ks: seq<Bar>, key: Bar -> Option<Bucket>, k: Option<Bucket>)
    requires k in Keys(ks, key)
    ensures Pick(ks, key, k) != []
  {
    KeysCover(ks, key);
    PickedMembers(ks, key, k);
    var i :| 0 <= i < |ks| && key(ks[i]) == k;
    assert ks[i] in Pick(ks, key, k);
  }

  /** A bar of a new group comes out as a bar of its own. */
  lemma NewGroup(ks: seq<Bar>, x: Bar, key: Bar -> Option<Bucket>)
    requires key(x) !in Keys(ks, key)
    ensures Grouped(ks + [x], key) == Grouped(ks, key) + [x]
  {
    KeysSnoc(ks, x, key);
    var a, b := Keys(ks, key), Keys(ks + [x], key);
    forall i | 0 <= i < |b| ensures Grouped(ks + [x], key)[i] == (Grouped(ks, key) + [x])[i] {
      PickSnoc(ks, x, key, b[i]);
      if i < |a| {
        assert a[i] in a;
        assert Pick(ks, key, b[i]) + [] == Pick(ks, key, b[i]);
      } else {
        NothingPicked(ks, key, key(x));
        assert [] + [x] == [x];
      }
    }
  }

  /** What one more bar does to the bar of a group that has begun. */
  lemma OneMoreInGroup(ks: seq<Bar>, x: Bar, key: Bar -> Option<Bucket>, k: Option<Bucket>)
    requires k in Keys(ks, key)
    ensures var was := AggregateOf(Pick(ks, key, k));
      AggregateOf(Pick(ks + [x], key, k)) == if key(x) == k then Extend(was, x) else was
  {
    var p := Pick(ks, key, k);
    PickSnoc(ks, x, key, k);
    SomethingPicked(ks, key, k);
    if key(x) == k {
      AggregateSnoc(p, x);
    } else {
      assert p + [] == p;
    }
  }

  lemma LastReplaced<T>(g: seq<T>, h: seq<T>, e: T)
    requires g != [] && |h| == |g| && h[|g| - 1] == e
    requires forall i :: 0 <= i < |g| - 1 ==> h[i] == g[i]
    ensures h == g[..|g| - 1] + [e]
  {
  }

  /** A bar of the latest group extends the latest bar of the output and nothing else. */
  lemma SameGroup(ks: seq<Bar>, x: Bar, key: Bar -> Option<Bucket>)
    requires Keys(ks, key) != [] && key(x) == Keys(ks, key)[|Keys(ks, key)| - 1]
    ensures var g := Grouped(ks, key); Grouped(ks + [x], key) == g[..|g| - 1] + [Extend(g[|g| - 1], x)]
  {
    KeysSnoc(ks, x, key);
    var a, g, h := Keys(ks, key), Grouped(ks, key), Grouped(ks + [x], key);
    assert Keys(ks + [x], key) == a;
    GroupExtended(ks, x, key, |a| - 1);
    forall i | 0 <= i < |a| - 1 ensures h[i] == g[i] {
      GroupExtended(ks, x, key, i);
    }
    LastReplaced(g, h, Extend(g[|g| - 1], x));
  }

  lemma GroupExtended(ks: seq<Bar>, x: Bar, key: Bar -> Option<Bucket>, i: nat)
    requires var a := Keys(ks, key); i < |a| && key(x) == a[|a| - 1] && Keys(ks + [x], key) == a
    ensures var g := Grouped(ks, key);
      Grouped(ks + [x], key)[i] == if i == |g| - 1 then Extend(g[i], x) else g[i]
  {
    KeysDiffer(ks, key);
    var a := Keys(ks, key);
    assert a[i] in a;
    OneMoreInGroup(ks, x, key, a[i]);
  }

  lemma KeysDiffer(ks: seq<Bar>, key: Bar -> Option<Bucket>)
    ensures forall i, j :: 0 <= i < j < |Keys(ks, key)| ==> Keys(ks, key)[i] != Keys(ks, key)[j]
  {
    KeysCover(ks, key);
  }

  lemma LatestGroup(ks: seq<Bar>, i: nat, key: Bar -> Option<Bucket>)
    requires Contiguous(ks, key) && 0 < i < |ks|
    ensures var a := Keys(ks[..i], key);
      && a != [] && a[|a| - 1] == key(ks[i - 1])
      && (key(ks[i]) == key(ks[i - 1]) || key(ks[i]) !in a)
  {
    LatestKey(ks[..i], ks, key);
    KeysCover(ks[..i], key);
    if key(ks[i]) in Keys(ks[..i], key) {
      var j :| 0 <= j < i && key(ks[..i][j]) == key(ks[i]);
      assert key(ks[j]) == key(ks[i]);
    }
  }

  lemma {:induction false} LatestKey(front: seq<Bar>, ks: seq<Bar>, key: Bar -> Option<Bucket>)
    requires front != [] && front <= ks && Contiguous(ks, key)
    ensures var a := Keys(front, key); a != [] && a[|a| - 1] == key(front[|front| - 1])
  {
    if |front| > 1 {
      var rest := front[..|front| - 1];
      LatestKey(rest, ks, key);
      KeysCover(rest, key);
      var z := key(front[|front| - 1]);
      if z in Keys(rest, key) {
        var j :| 0 <= j < |rest| && key(rest[j]) == z;
        assert key(ks[j]) == key(ks[|front| - 1]);
        assert key(ks[|rest| - 1]) == z;
      }
    }
  }

  ghost predicate AllInSession(ks: seq<Bar>, sessions: seq<Session>, n: int, zone: int)
    requires n > 0
  {
    forall k :: k in ks ==> BucketAt(sessions, n, zone, k.unix).Some?
  }

  /** The streaming loop of MinuteToSessions: one output bar is open at a time, yet the result is that of
      collecting each group first and aggregating it then. */
  method Stream(input: seq<Bar>, sessions: seq<Session>, n: int, zone: int) returns (r: Result<seq<Bar>>)
    requires n > 0 && Accepted(sessions) && SortedBy(input, ByUnix())
    ensures r.Ok? <==> AllInSession(input, sessions, n, zone)
    ensures r.Ok? ==> r.value == Grouped(input, KeyOf(sessions, n, zone))
  {
    ghost var key := KeyOf(sessions, n, zone);
    var previous := Bucket(0, 0, 0);
    var out: seq<Bar> := [];
    for i := 0 to |input|
      invariant forall j :: 0 <= j < i ==> BucketAt(sessions, n, zone, input[j].unix).Some?
      invariant out == Grouped(input[..i], key)
      invariant i > 0 ==> key(input[i - 1]) == Some(previous)
    {
      var k := input[i];
      var current := Locate(sessions, n, zone, k.unix);
      if current == None {
        return Err;
      }
      NextOutput(input, i, sessions, n, zone, key, out, previous, current.value);
      if |out| == 0 || current.value != previous {
        out := out + [k];
      } else {
        out := out[..|out| - 1] + [Extend(out[|out| - 1], k)];
      }
      previous := current.value;
    }
    assert input[..|input|] == input;
    r := Ok(out);
  }

  /** One more bar: it opens a group of its own exactly if its bucket differs from the one before. */
  lemma NextOutput(input: seq<Bar>, i: nat, sessions: seq<Session>, n: int, zone: int, key: Bar -> Option<Bucket>,
                   out: seq<Bar>, previous: Bucket, current: Bucket)
    requires n > 0 && Accepted(sessions) && SortedBy(input, ByUnix()) && i < |input| && key == KeyOf(sessions, n, zone)
    requires forall j :: 0 <= j <= i ==> BucketAt(sessions, n, zone, input[j].unix).Some?
    requires out == Grouped(input[..i], key) && key(input[i]) == Some(current)
    requires i > 0 ==> key(input[i - 1]) == Some(previous)
    ensures |out| == 0 || current != previous ==> Grouped(input[..i + 1], key) == out + [input[i]]
    ensures |out| != 0 && current == previous ==>
      Grouped(input[..i + 1], key) == out[..|out| - 1] + [Extend(out[|out| - 1], input[i])]
  {
    FrontIsContiguous(input, i + 1, sessions, n, zone);
    NextInGroups(input[..i + 1], i, key);
    assert input[..i + 1][..i] == input[..i];
  }

  lemma NextInGroups(ks: seq<Bar>, i: nat, key: Bar -> Option<Bucket>)
    requires |ks| == i + 1 && Contiguous(ks, key)
    ensures i == 0 || key(ks[i]) != key(ks[i - 1]) ==> Grouped(ks, key) == Grouped(ks[..i], key) + [ks[i]]
    ensures i > 0 ==> Grouped(ks[..i], key) != []
    ensures i == 0 ==> Grouped(ks[..i], key) == []
    ensures i > 0 && key(ks[i]) == key(ks[i - 1]) ==>
      var out := Grouped(ks[..i], key); Grouped(ks, key) == out[..|out| - 1] + [Extend(out[|out| - 1], ks[i])]
  {
    var front := ks[..i];
    assert ks == front + [ks[i]];
    if i > 0 {
      LatestGroup(ks, i, key);
    }
    if i == 0 || key(ks[i]) != key(ks[i - 1]) {
      NewGroup(front, ks[i], key);
    } else {
      SameGroup(front, ks[i], key);
    }
  }

  lemma FrontIsContiguous(input: seq<Bar>, i: nat, sessions: seq<Session>, n: int, zone: int)
    requires n > 0 && Accepted(sessions) && SortedBy(input, ByUnix()) && i <= |input|
    requires forall j :: 0 <= j < i ==> BucketAt(sessions, n, zone, input[j].unix).Some?
    ensures Contiguous(input[..i], KeyOf(sessions, n, zone))
  {
    SortedIsContiguous(input[..i], sessions, n, zone);
  }

  /** The copy of the input; refused if a bar is missing. */
  method Copied(ks: seq<Option<Bar>>) returns (r: Result<seq<Bar>>)
    ensures r.Ok? <==> forall i :: 0 <= i < |ks| ==> ks[i].Some?
    ensures r.Ok? ==> r.value == Values(ks)
  {
    var input := [];
    for i := 0 to |ks|
      invariant forall j :: 0 <= j < i ==> ks[j].Some?
      invariant input == Values(ks[..i])
    {
      if ks[i] == None {
        return Err;
      }
      input := input + [ks[i].value];
    }
    assert ks[..|ks|] == ks;
    return Ok(input);
  }

  // ---------------------------------------------------------------- buckets on the clock

  /** A slice of the session in this place that begins on this day: slice -1 is its first instant, slice k the k-th n
      minutes after it, counted from 0. */
  datatype Slice = Slice(session: nat, day: int, index: int)

  /** The local instant at which a slice's session begins. */
  function Opening(sessions: seq<Session>, s: Slice): int
    requires s.session < |sessions|
  {
    s.day * 86400 + sessions[s.session].start * 60
  }

  /** Local instant t lies in the session that begins on day d, to its last minute or past midnight. */
  predicate Inside(s: Session, d: int, t: int) {
    d * 86400 + s.start * 60 <= t <= d * 86400 + (if s.end < s.start then s.end + 1440 else s.end) * 60
  }

  /** t lies in the n-minute slice; an instant at which a whole-day session ends and begins belongs to the one that
      begins. */
  predicate Holds(sessions: seq<Session>, n: int, s: Slice, t: int) {
    && s.session < |sessions| && s.index >= -1
    && Inside(sessions[s.session], s.day, t) && !Inside(sessions[s.session], s.day + 1, t)
    && if s.index == -1 then t == Opening(sessions, s)
       else Opening(sessions, s) + s.index * (n * 60) < t <= Opening(sessions, s) + (s.index + 1) * (n * 60)
  }

  lemma IndexIsSlice(e: int, w: int, k: int)
    requires e > 0 && w > 0
    ensures (e - 1) / w == k <==> k * w < e <= (k + 1) * w
  {
    var q, r := (e - 1) / w, (e - 1) % w;
    assert e - 1 == q * w + r;
    assert (k + 1) * w == k * w + w && (q + 1) * w == q * w + w;
    if k * w < e <= (k + 1) * w {
      Floor(e - 1, w, k, e - 1 - k * w);
    }
  }

  lemma NotYetBegun(e: int, w: int, k: int)
    requires e <= 0 && w > 0 && k >= 0
    ensures !(k * w < e)
  {
  }

  /** The bucket of an instant names its slice. */
  lemma BucketOfSlice(sessions: seq<Session>, n: int, zone: int, unix: int, s: Slice)
    requires Accepted(sessions) && n > 0 && Holds(sessions, n, s, unix + zone)
    ensures BucketAt(sessions, n, zone, unix) == Some(Bucket(Opening(sessions, s) - zone, s.session, s.index))
  {
    var t := unix + zone;
    SearchFindsHome(sessions, t);
    assert Home(sessions, t, s.session, s.day);
    var e := t - Opening(sessions, s);
    if e > 0 {
      IndexIsSlice(e, n * 60, s.index);
    } else if s.index >= 0 {
      NotYetBegun(e, n * 60, s.index);
    }
  }

  /** Every instant in a session lies in a slice. */
  lemma SliceOfInstant(sessions: seq<Session>, n: int, zone: int, unix: int) returns (s: Slice)
    requires Accepted(sessions) && n > 0 && BucketAt(sessions, n, zone, unix).Some?
    ensures Holds(sessions, n, s, unix + zone)
  {
    var t := unix + zone;
    var (i, d) := FirstMatch(sessions, 0, t).value;
    SearchFindsHome(sessions, t);
    assert Home(sessions, t, i, d);
    var e := t - Begin(sessions[i], d);
    s := Slice(i, d, if e > 0 then (e - 1) / (n * 60) else -1);
    if e > 0 {
      IndexIsSlice(e, n * 60, s.index);
      Floors(0, e - 1, n * 60);
    }
  }

  /** Two instants share a bucket exactly when they lie in one slice. */
  lemma SameBucketIsSameSlice(sessions: seq<Session>, n: int, zone: int, u: int, v: int, s: Slice)
    requires Accepted(sessions) && n > 0 && Holds(sessions, n, s, u + zone)
    ensures BucketAt(sessions, n, zone, v) == BucketAt(sessions, n, zone, u) <==> Holds(sessions, n, s, v + zone)
  {
    BucketOfSlice(sessions, n, zone, u, s);
    if Holds(sessions, n, s, v + zone) {
      BucketOfSlice(sessions, n, zone, v, s);
    }
    if BucketAt(sessions, n, zone, v) == BucketAt(sessions, n, zone, u) {
      var x := SliceOfInstant(sessions, n, zone, v);
      BucketOfSlice(sessions, n, zone, v, x);
      assert x.day == s.day;
    }
  }

  /** Of two instants in sessions, each in its own occurrence: they share a bucket exactly when it is the same
      occurrence and either both are its first instant or the same n minutes after it hold both. */
  lemma SharedBuckets(sessions: seq<Session>, n: int, zone: int, u: int, v: int, i: nat, d: int, j: nat, e: int)
    requires Accepted(sessions) && n > 0 && i < |sessions| && j < |sessions|
    requires Inside(sessions[i], d, u + zone) && !Inside(sessions[i], d + 1, u + zone)
    requires Inside(sessions[j], e, v + zone) && !Inside(sessions[j], e + 1, v + zone)
    ensures var b := d * 86400 + sessions[i].start * 60;
      BucketAt(sessions, n, zone, u) == BucketAt(sessions, n, zone, v)
      <==> i == j && d == e
           && ((u + zone == b && v + zone == b)
               || exists k: nat :: b + k * (n * 60) < u + zone <= b + (k + 1) * (n * 60)
                                   && b + k * (n * 60) < v + zone <= b + (k + 1) * (n * 60))
  {
    var s := HomeSlice(sessions, n, zone, u, i, d);
    SameBucketIsSameSlice(sessions, n, zone, u, v, s);
    if Holds(sessions, n, s, v + zone) {
      OneOccurrence(sessions, v + zone, i, d, j, e);
    } else if i == j && d == e {
      var b := d * 86400 + sessions[i].start * 60;
      if k: nat :| b + k * (n * 60) < u + zone <= b + (k + 1) * (n * 60)
                   && b + k * (n * 60) < v + zone <= b + (k + 1) * (n * 60) {
        OneSlice(sessions, n, u + zone, s, Slice(i, d, k));
        assert false;
      }
    }
  }

  lemma HomeSlice(sessions: seq<Session>, n: int, zone: int, unix: int, i: nat, d: int) returns (s: Slice)
    requires Accepted(sessions) && n > 0 && i < |sessions|
    requires Inside(sessions[i], d, unix + zone) && !Inside(sessions[i], d + 1, unix + zone)
    ensures s.session == i && s.day == d && Holds(sessions, n, s, unix + zone)
  {
    SearchFindsHome(sessions, unix + zone);
    assert Home(sessions, unix + zone, i, d);
    s := SliceOfInstant(sessions, n, zone, unix);
    assert Home(sessions, unix + zone, s.session, s.day);
  }

  lemma OneSlice(sessions: seq<Session>, n: int, t: int, a: Slice, b: Slice)
    requires Accepted(sessions) && n > 0 && Holds(sessions, n, a, t) && Holds(sessions, n, b, t)
    ensures a == b
  {
    BucketOfSlice(sessions, n, 0, t, a);
    BucketOfSlice(sessions, n, 0, t, b);
    assert a.day == b.day;
  }

  /** The bars of a list that lie in one slice, in their order. */
  function BarsOf(ks: seq<Bar>, sessions: seq<Session>, n: int, zone: int, s: Slice): seq<Bar> {
    if ks == [] then []
    else if Holds(sessions, n, s, ks[0].unix + zone) then [ks[0]] + BarsOf(ks[1..], sessions, n, zone, s)
    else BarsOf(ks[1..], sessions, n, zone, s)
  }

  lemma {:induction false} PickedBySlice(ks: seq<Bar>, sessions: seq<Session>, n: int, zone: int, u: int, s: Slice)
    requires Accepted(sessions) && n > 0 && Holds(sessions, n, s, u + zone)
    ensures Pick(ks, KeyOf(sessions, n, zone), BucketAt(sessions, n, zone, u)) == BarsOf(ks, sessions, n, zone, s)
  {
    if ks != [] {
      PickedBySlice(ks[1..], sessions, n, zone, u, s);
      SameBucketIsSameSlice(sessions, n, zone, u, ks[0].unix, s);
    }
  }

  /** What comes out are the aggregates of the slices, one bar for each slice that holds a bar at all. */
  ghost predicate IsSliced(ks: seq<Bar>, out: seq<Bar>, sessions: seq<Session>, n: int, zone: int, slices: seq<Slice>) {
    && |slices| == |out| && (forall i, j :: 0 <= i < j < |slices| ==> slices[i] != slices[j])
    && (forall m :: 0 <= m < |out| ==>
          BarsOf(ks, sessions, n, zone, slices[m]) != []
          && out[m] == Aggregate(BarsOf(ks, sessions, n, zone, slices[m])))
    && (forall k :: k in ks ==> exists m :: 0 <= m < |slices| && Holds(sessions, n, slices[m], k.unix + zone))
  }

  /** The bars of one bucket are those of one slice. */
  ghost predicate Matches(ks: seq<Bar>, sessions: seq<Session>, n: int, zone: int, id: Option<Bucket>, s: Slice)
    requires n > 0
  {
    && Pick(ks, KeyOf(sessions, n, zone), id) == BarsOf(ks, sessions, n, zone, s) != []
    && s.session < |sessions| && id == Some(Bucket(Opening(sessions, s) - zone, s.session, s.index))
    && AllHeld(ks, sessions, n, zone, id, s)
  }

  ghost predicate AllHeld(ks: seq<Bar>, sessions: seq<Session>, n: int, zone: int, id: Option<Bucket>, s: Slice)
    requires n > 0
  {
    forall k :: k in ks && BucketAt(sessions, n, zone, k.unix) == id ==> Holds(sessions, n, s, k.unix + zone)
  }

  lemma HeldInOneSlice(ks: seq<Bar>, sessions: seq<Session>, n: int, zone: int, u: int, s: Slice)
    requires Accepted(sessions) && n > 0 && Holds(sessions, n, s, u + zone)
    ensures AllHeld(ks, sessions, n, zone, BucketAt(sessions, n, zone, u), s)
  {
    forall k | k in ks && BucketAt(sessions, n, zone, k.unix) == BucketAt(sessions, n, zone, u)
      ensures Holds(sessions, n, s, k.unix + zone)
    {
      SameBucketIsSameSlice(sessions, n, zone, u, k.unix, s);
    }
  }

  lemma SomeBar(ks: seq<Bar>, key: Bar -> Option<Bucket>, id: Option<Bucket>) returns (k: Bar)
    requires id in Keys(ks, key)
    ensures k in ks && key(k) == id && Pick(ks, key, id) != []
  {
    KeysCover(ks, key);
    var i :| 0 <= i < |ks| && key(ks[i]) == id;
    k := ks[i];
    SomethingPicked(ks, key, id);
  }

  lemma OneGroupIsASlice(ks: seq<Bar>, sessions: seq<Session>, n: int, zone: int, id: Option<Bucket>)
    returns (s: Slice)
    requires Accepted(sessions) && n > 0 && AllInSession(ks, sessions, n, zone)
    requires id in Keys(ks, KeyOf(sessions, n, zone))
    ensures Matches(ks, sessions, n, zone, id, s)
  {
    var k := SomeBar(ks, KeyOf(sessions, n, zone), id);
    s := SliceOfInstant(sessions, n, zone, k.unix);
    PickedBySlice(ks, sessions, n, zone, k.unix, s);
    BucketOfSlice(sessions, n, zone, k.unix, s);
    HeldInOneSlice(ks, sessions, n, zone, k.unix, s);
  }

  lemma {:induction false} SlicesOfKeys(ks: seq<Bar>, sessions: seq<Session>, n: int, zone: int,
                                        ids: seq<Option<Bucket>>)
    returns (slices: seq<Slice>)
    requires Accepted(sessions) && n > 0 && AllInSession(ks, sessions, n, zone)
    requires forall i :: 0 <= i < |ids| ==> ids[i] in Keys(ks, KeyOf(sessions, n, zone))
    ensures |slices| == |ids|
    ensures forall m :: 0 <= m < |ids| ==> Matches(ks, sessions, n, zone, ids[m], slices[m])
  {
    slices := [];
    if ids != [] {
      var front := SlicesOfKeys(ks, sessions, n, zone, ids[..|ids| - 1]);
      var s := OneGroupIsASlice(ks, sessions, n, zone, ids[|ids| - 1]);
      slices := front + [s];
    }
  }

  lemma EveryBarIsHeld(ks: seq<Bar>, sessions: seq<Session>, n: int, zone: int,
                       ids: seq<Option<Bucket>>, slices: seq<Slice>, k: Bar)
    returns (m: nat)
    requires n > 0 && |slices| == |ids| && ids == Keys(ks, KeyOf(sessions, n, zone)) && k in ks
    requires forall m :: 0 <= m < |ids| ==> AllHeld(ks, sessions, n, zone, ids[m], slices[m])
    ensures m < |slices| && Holds(sessions, n, slices[m], k.unix + zone)
  {
    var key := KeyOf(sessions, n, zone);
    KeysCover(ks, key);
    var i :| 0 <= i < |ks| && ks[i] == k;
    assert key(ks[i]) in ids;
    m :| m < |ids| && ids[m] == key(ks[i]);
    assert AllHeld(ks, sessions, n, zone, ids[m], slices[m]);
  }

  lemma AllBarsAreHeld(ks: seq<Bar>, sessions: seq<Session>, n: int, zone: int,
                       ids: seq<Option<Bucket>>, slices: seq<Slice>)
    requires n > 0 && |slices| == |ids| && ids == Keys(ks, KeyOf(sessions, n, zone))
    requires forall m :: 0 <= m < |ids| ==> Matches(ks, sessions, n, zone, ids[m], slices[m])
    ensures forall k :: k in ks ==> exists m :: 0 <= m < |slices| && Holds(sessions, n, slices[m], k.unix + zone)
  {
    forall m | 0 <= m < |ids| ensures AllHeld(ks, sessions, n, zone, ids[m], slices[m]) {
      assert Matches(ks, sessions, n, zone, ids[m], slices[m]);
    }
    forall k | k in ks ensures exists m :: 0 <= m < |slices| && Holds(sessions, n, slices[m], k.unix + zone) {
      var m := EveryBarIsHeld(ks, sessions, n, zone, ids, slices, k);
    }
  }

  lemma SlicesDiffer(ks: seq<Bar>, sessions: seq<Session>, n: int, zone: int,
                     ids: seq<Option<Bucket>>, slices: seq<Slice>)
    requires n > 0 && |slices| == |ids| && ids == Keys(ks, KeyOf(sessions, n, zone))
    requires forall m :: 0 <= m < |ids| ==> Matches(ks, sessions, n, zone, ids[m], slices[m])
    ensures forall i, j :: 0 <= i < j < |slices| ==> slices[i] != slices[j]
  {
    KeysDiffer(ks, KeyOf(sessions, n, zone));
    forall i, j | 0 <= i < j < |slices| ensures slices[i] != slices[j] {
      assert Matches(ks, sessions, n, zone, ids[i], slices[i]) && Matches(ks, sessions, n, zone, ids[j], slices[j]);
      assert ids[i] != ids[j];
    }
  }

  lemma GroupedIsSliced(ks: seq<Bar>, sessions: seq<Session>, n: int, zone: int) returns (slices: seq<Slice>)
    requires Accepted(sessions) && n > 0 && AllInSession(ks, sessions, n, zone)
    ensures IsSliced(ks, Grouped(ks, KeyOf(sessions, n, zone)), sessions, n, zone, slices)
  {
    var ids := Keys(ks, KeyOf(sessions, n, zone));
    slices := SlicesOfKeys(ks, sessions, n, zone, ids);
    SlicesDiffer(ks, sessions, n, zone, ids, slices);
    AllBarsAreHeld(ks, sessions, n, zone, ids, slices);
    AllAggregates(ks, sessions, n, zone, ids, slices);
  }

  lemma AllAggregates(ks: seq<Bar>, sessions: seq<Session>, n: int, zone: int,
                      ids: seq<Option<Bucket>>, slices: seq<Slice>)
    requires n > 0 && |slices| == |ids| && ids == Keys(ks, KeyOf(sessions, n, zone))
    requires forall m :: 0 <= m < |ids| ==> Matches(ks, sessions, n, zone, ids[m], slices[m])
    ensures forall m :: 0 <= m < |slices| ==>
      BarsOf(ks, sessions, n, zone, slices[m]) != []
      && Grouped(ks, KeyOf(sessions, n, zone))[m] == Aggregate(BarsOf(ks, sessions, n, zone, slices[m]))
  {
    forall m | 0 <= m < |slices|
      ensures BarsOf(ks, sessions, n, zone, slices[m]) != []
      ensures Grouped(ks, KeyOf(sessions, n, zone))[m] == Aggregate(BarsOf(ks, sessions, n, zone, slices[m]))
    {
      assert Matches(ks, sessions, n, zone, ids[m], slices[m]);
    }
  }

  /** Bars in time order whose groups are stretches of time. */
  ghost predicate InStretches(ks: seq<Bar>, key: Bar -> Option<Bucket>) {
    && SortedBy(ks, ByUnix()) && Contiguous(ks, key)
    && forall i, j :: 0 <= i < j < |ks| && ks[i].unix == ks[j].unix ==> key(ks[i]) == key(ks[j])
  }

  lemma FrontInStretches(ks: seq<Bar>, key: Bar -> Option<Bucket>)
    requires InStretches(ks, key) && ks != []
    ensures InStretches(ks[..|ks| - 1], key)
  {
    var front := ks[..|ks| - 1];
    forall i, j | 0 <= i < j < |front| ensures ByUnix()(front[i]) <= ByUnix()(front[j]) {
      assert ByUnix()(ks[i]) <= ByUnix()(ks[j]);
    }
    forall i, j, m | 0 <= i <= m <= j < |front| && key(front[i]) == key(front[j])
      ensures key(front[m]) == key(front[i])
    {
      assert key(ks[m]) == key(ks[i]);
    }
  }

  lemma LastStep(ks: seq<Bar>, key: Bar -> Option<Bucket>)
    requires InStretches(ks, key) && |ks| > 1
    ensures var a, z := ks[|ks| - 2], ks[|ks| - 1]; if key(a) == key(z) then a.unix <= z.unix else a.unix < z.unix
  {
    assert ByUnix()(ks[|ks| - 2]) <= ByUnix()(ks[|ks| - 1]);
  }

  lemma {:induction false} GroupsInOrder(ks: seq<Bar>, key: Bar -> Option<Bucket>)
    requires InStretches(ks, key)
    ensures StrictlyBy(Grouped(ks, key), ByUnix())
    ensures ks != [] ==> var out := Grouped(ks, key); out != [] && out[|out| - 1].unix == ks[|ks| - 1].unix
  {
    if ks != [] {
      var i := |ks| - 1;
      FrontInStretches(ks, key);
      GroupsInOrder(ks[..i], key);
      NextInGroups(ks, i, key);
      if i > 0 {
        LastStep(ks, key);
        assert ks[..i][i - 1] == ks[i - 1];
      }
      LastGrows(Grouped(ks[..i], key), Grouped(ks, key), ks[i], i > 0 && key(ks[i]) == key(ks[i - 1]));
    }
  }

  /** The bars come out in time order, each later than the one before. */
  lemma OutputInOrder(ks: seq<Bar>, sessions: seq<Session>, n: int, zone: int)
    requires Accepted(sessions) && n > 0 && SortedBy(ks, ByUnix()) && AllInSession(ks, sessions, n, zone)
    ensures StrictlyBy(Grouped(ks, KeyOf(sessions, n, zone)), ByUnix())
  {
    forall j | 0 <= j < |ks| ensures KeyOf(sessions, n, zone)(ks[j]).Some? {
      assert ks[j] in ks;
    }
    SortedIsContiguous(ks, sessions, n, zone);
    GroupsInOrder(ks, KeyOf(sessions, n, zone));
  }

  lemma LastGrows(g: seq<Bar>, h: seq<Bar>, k: Bar, same: bool)
    requires StrictlyBy(g, ByUnix()) && (same ==> g != [])
    requires h == if same then g[..|g| - 1] + [Extend(g[|g| - 1], k)] else g + [k]
    requires g != [] ==> if same then g[|g| - 1].unix <= k.unix else g[|g| - 1].unix < k.unix
    ensures StrictlyBy(h, ByUnix()) && h != [] && h[|h| - 1].unix == k.unix
  {
    forall i, j | 0 <= i < j < |h| ensures ByUnix()(h[i]) < ByUnix()(h[j]) {
      if j < |g| - 1 || i < |g| - 1 {
        assert i < |g| - 1 ==> ByUnix()(g[i]) < ByUnix()(g[|g| - 1]);
        assert j < |g| ==> ByUnix()(g[i]) < ByUnix()(g[j]);
      }
    }
  }

  lemma OutputIsSliced(ks: seq<Bar>, sessions: seq<Session>, n: int, zone: int) returns (slices: seq<Slice>)
    requires Accepted(sessions) && n > 0 && SortedBy(ks, ByUnix()) && AllInSession(ks, sessions, n, zone)
    ensures StrictlyBy(Grouped(ks, KeyOf(sessions, n, zone)), ByUnix())
    ensures IsSliced(ks, Grouped(ks, KeyOf(sessions, n, zone)), sessions, n, zone, slices)
  {
    OutputInOrder(ks, sessions, n, zone);
    slices := GroupedIsSliced(ks, sessions, n, zone);
  }

  /** What MinuteToSessions takes: a period, sessions that do not overlap, and bars that are all there and in them. */
  ghost predicate Takes(ks: seq<Option<Bar>>, n: int, zone: int, sessions: seq<Session>) {
    && n > 0 && sessions != [] && Accepted(sessions)
    && (forall i :: 0 <= i < |ks| ==> ks[i].Some?)
    && AllInSession(Values(ks), sessions, n, zone)
  }

  /** MinuteToSessions. */
  method MinuteToSessions(ks: seq<Option<Bar>>, n: int, zone: int, sessions: seq<Session>) returns (r: Result<seq<Bar>>)
    ensures r.Ok? <==> Takes(ks, n, zone, sessions)
    ensures r.Ok? ==> r.value == Grouped(SortBy(Values(ks), ByUnix()), KeyOf(sessions, n, zone))
    ensures r.Ok? ==> StrictlyBy(r.value, ByUnix())
    ensures r.Ok? ==>
      exists slices :: IsSliced(SortBy(Values(ks), ByUnix()), r.value, sessions, n, zone, slices)
  {
    if n <= 0 || |sessions| == 0 {
      return Err;
    }
    var ok := Validate(sessions);
    if !ok {
      return Err;
    }
    var copy := Copied(ks);
    if copy == Err {
      return Err;
    }
    var input := SortBy(copy.value, ByUnix());
    SortSorts(copy.value, ByUnix());
    r := Stream(input, sessions, n, zone);
    if r.Ok? {
      ghost var slices := OutputIsSliced(input, sessions, n, zone);
    }
  }

  lemma {:induction false} GroupedTotals(ks: seq<Bar>, key: Bar -> Option<Bucket>,
                                         ids: seq<Option<Bucket>>, out: seq<Bar>)
    requires |out| == |ids|
    requires forall i :: 0 <= i < |ids| ==> Pick(ks, key, ids[i]) != [] && out[i] == Aggregate(Pick(ks, key, ids[i]))
    ensures Volume(out) == TotalOfGroups(ks, key, ids, VolumeOf(), AddInt(), 0)
    ensures Amount(out) == TotalOfGroups(ks, key, ids, AmountOf(), AddReal(), 0.0)
  {
    if ids != [] {
      AggregateTotals(Pick(ks, key, ids[0]));
      GroupedTotals(ks, key, ids[1..], out[1..]);
    }
  }

  lemma AddIntIsAdditive()
    ensures Additive(AddInt(), 0)
  {
  }

  lemma AddRealIsAdditive()
    ensures Additive(AddReal(), 0.0)
  {
  }

  /** Grouping loses nothing: one bar for each group that occurs, no group twice, and the totals of volume and
      amount of the input. */
  lemma GroupingConserves(ks: seq<Bar>, key: Bar -> Option<Bucket>)
    ensures forall i, j :: 0 <= i < j < |Keys(ks, key)| ==> Keys(ks, key)[i] != Keys(ks, key)[j]
    ensures forall i :: 0 <= i < |Keys(ks, key)| ==>
      Pick(ks, key, Keys(ks, key)[i]) != [] && Grouped(ks, key)[i] == Aggregate(Pick(ks, key, Keys(ks, key)[i]))
    ensures Volume(Grouped(ks, key)) == Volume(ks) && Amount(Grouped(ks, key)) == Amount(ks)
  {
    KeysCover(ks, key);
    forall i | 0 <= i < |Keys(ks, key)| ensures Pick(ks, key, Keys(ks, key)[i]) != [] {
      assert Keys(ks, key)[i] in Keys(ks, key);
      SomethingPicked(ks, key, Keys(ks, key)[i]);
    }
    GroupedTotals(ks, key, Keys(ks, key), Grouped(ks, key));
    AddIntIsAdditive();
    AddRealIsAdditive();
    GroupsAddUp(ks, key, Keys(ks, key), VolumeOf(), AddInt(), 0);
    GroupsAddUp(ks, key, Keys(ks, key), AmountOf(), AddReal(), 0.0);
  }
}
