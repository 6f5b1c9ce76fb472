/** The reference-counted cache of database engines (extend/pull/engine.go, Service.Close). Each call runs
    under one mutex, so any interleaving of callers is some sequence of the steps below. */
module EngineCache {
  import opened Results
  import opened Sorting

  /** A cached engine: its handle, how many callers hold it, and when it was last borrowed. */
  datatype Entry = Entry(db: nat, refs: int, used: nat)

  /** What one caller of engine() holds until it releases. */
  datatype Lease = Lease(path: string, db: nat)

  /** The cache as a value. `open` are the handles opened and not closed since. */
  datatype Cache = Cache(entries: map<string, Entry>, leases: map<nat, Lease>, open: set<nat>,
                         nextDb: nat, nextLease: nat, clock: nat, closed: bool, limit: nat)

  ghost predicate Idle(c: Cache, p: string) { p in c.entries && c.entries[p].refs == 0 }

  /** The idle entry that was borrowed longest ago. */
  ghost predicate Victim(c: Cache, p: string) {
    Idle(c, p) && forall q :: Idle(c, q) ==> c.entries[p].used <= c.entries[q].used
  }

  ghost function Without(c: Cache, p: string): Cache
    requires p in c.entries
  {
    c.(entries := c.entries - {p}, open := c.open - {c.entries[p].db})
  }

  ghost predicate SomeIdle(c: Cache) { exists p :: Idle(c, p) }

  ghost predicate LeastUsed(c: Cache, p: string, among: set<string>)
    requires p in c.entries
  {
    forall q :: q in among && Idle(c, q) ==> c.entries[p].used <= c.entries[q].used
  }

  lemma {:induction false} LeastUsedExists(c: Cache, among: set<string>, p: string) returns (r: string)
    requires p in among && Idle(c, p)
    ensures r in among && Idle(c, r) && LeastUsed(c, r, among)
    decreases among
  {
    r := p;
    if q :| q in among && Idle(c, q) && c.entries[q].used < c.entries[p].used {
      assert q in among - {p};
      r := LeastUsedExists(c, among - {p}, q);
      forall x | x in among && Idle(c, x) ensures c.entries[r].used <= c.entries[x].used {
        assert x == p || x in among - {p};
        assert q in among - {p} && Idle(c, q);
      }
    }
  }

  lemma VictimExists(c: Cache) returns (p: string)
    requires SomeIdle(c)
    ensures Victim(c, p)
  {
    var q :| Idle(c, q);
    p := LeastUsedExists(c, c.entries.Keys, q);
  }

  /** evictEngines: idle entries go, oldest first, until the limit is met or none is idle. */
  ghost function Evicted(c: Cache): Cache
    decreases |c.entries|
  {
    if |c.entries| <= c.limit || !SomeIdle(c) then c
    else
      assert exists p :: Victim(c, p) by {
        var v := VictimExists(c);
      }
      var p :| Victim(c, p);
      assert |c.entries - {p}| < |c.entries| by { SmallerMap(c.entries, p); }
      Evicted(Without(c, p))
  }

  lemma SmallerMap<V>(m: map<string, V>, p: string)
    requires p in m
    ensures |m - {p}| == |m| - 1
  {
    assert (m - {p}).Keys == m.Keys - {p};
    assert |m - {p}| == |(m - {p}).Keys|;
  }

  ghost function Holders(c: Cache, l: Lease): set<nat> { set i | i in c.leases && c.leases[i] == l }

  /** Whoever holds a lease holds the engine that is cached for its path. */
  ghost predicate LeasesStand(c: Cache) {
    forall i :: i in c.leases ==>
      i < c.nextLease && c.leases[i].path in c.entries && c.entries[c.leases[i].path].db == c.leases[i].db
  }

  ghost predicate RefsCount(c: Cache) {
    forall p :: p in c.entries ==> c.entries[p].refs == |Holders(c, Lease(p, c.entries[p].db))|
  }

  /** The open handles are those of the cached engines, no more and no fewer. */
  ghost predicate HandlesMatch(c: Cache) {
    && (forall p :: p in c.entries ==> c.entries[p].db in c.open && c.entries[p].db < c.nextDb)
    && (forall d :: d in c.open ==> exists p :: p in c.entries && c.entries[p].db == d)
  }

  /** One engine for each path, and no two borrowed at the same tick. */
  ghost predicate AllDistinct(c: Cache) {
    && (forall p, q :: p in c.entries && q in c.entries && p != q ==>
          c.entries[p].db != c.entries[q].db && c.entries[p].used != c.entries[q].used)
    && (forall p :: p in c.entries ==> c.entries[p].used <= c.clock)
  }

  /** What holds between any two calls, the limit aside. */
  ghost predicate Consistent(c: Cache) {
    LeasesStand(c) && RefsCount(c) && HandlesMatch(c) && AllDistinct(c)
  }

  ghost predicate Bounded(c: Cache) { |c.entries| <= c.limit || !SomeIdle(c) }

  /** The invariant of every run. */
  ghost predicate Inv(c: Cache) {
    Consistent(c) && Bounded(c) && (c.closed ==> !SomeIdle(c))
  }

  function New(limit: nat): Cache { Cache(map[], map[], {}, 0, 0, 0, false, limit) }

  /** The entry for a path: the cached one, or one freshly opened. */
  function EntryFor(c: Cache, path: string): Entry {
    if path in c.entries then c.entries[path] else Entry(c.nextDb, 0, 0)
  }

  /** engine, first half: the engine is opened if it is not cached. */
  function Opened(c: Cache, path: string): Cache {
    var e := EntryFor(c, path);
    c.(entries := c.entries[path := e], open := c.open + {e.db},
       nextDb := if path in c.entries then c.nextDb else c.nextDb + 1)
  }

  /** engine, then: the borrower is counted and the clock stamped. */
  function Stamped(c: Cache, path: string): Cache
    requires path in c.entries
  {
    var e := c.entries[path];
    c.(entries := c.entries[path := Entry(e.db, e.refs + 1, c.clock + 1)], clock := c.clock + 1)
  }

  /** engine, last: what the borrower is given. */
  function Leased(c: Cache, path: string): Cache
    requires path in c.entries
  {
    c.(leases := c.leases[c.nextLease := Lease(path, c.entries[path].db)], nextLease := c.nextLease + 1)
  }

  function Lent(c: Cache, path: string): Cache { Leased(Stamped(Opened(c, path), path), path) }

  ghost predicate Refused(c: Cache, path: string, opens: bool) { c.closed || (path !in c.entries && !opens) }

  /** A release, up to closing or trimming. */
  function Returned(c: Cache, id: nat): Cache
    requires id in c.leases && c.leases[id].path in c.entries
  {
    Uncounted(c, c.leases[id].path).(leases := c.leases - {id})
  }

  function Uncounted(c: Cache, p: string): Cache
    requires p in c.entries
  {
    c.(entries := c.entries[p := c.entries[p].(refs := c.entries[p].refs - 1)])
  }

  /** A release: the first call gives the entry back, later ones do nothing. */
  ghost function Released(c: Cache, id: nat): Cache {
    if id !in c.leases || c.leases[id].path !in c.entries then c
    else
      var p, d := c.leases[id].path, Returned(c, id);
      if c.closed && d.entries[p].refs == 0 then Without(d, p) else Evicted(d)
  }

  /** Close: no more borrowing; what is idle goes at once. */
  ghost function Shut(c: Cache): Cache {
    if c.closed then c
    else c.(closed := true,
            entries := map p | p in c.entries && c.entries[p].refs != 0 :: c.entries[p],
            open := set d | d in c.open && forall p :: p in c.entries && c.entries[p].db == d ==>
              c.entries[p].refs != 0)
  }

  /** One call of one caller; whether a database can be opened is up to the environment. */
  datatype Op = Borrow(path: string, opens: bool) | Release(id: nat) | Close

  ghost function Step(c: Cache, op: Op): Cache {
    match op
    case Borrow(path, opens) => if Refused(c, path, opens) then c else Evicted(Lent(c, path))
    case Release(id) => Released(c, id)
    case Close => Shut(c)
  }

  ghost function Run(c: Cache, ops: seq<Op>): Cache
    decreases ops
  {
    if ops == [] then c else Run(Step(c, ops[0]), ops[1..])
  }

  lemma NobodyHoldsIdle(c: Cache, p: string)
    requires Consistent(c) && Idle(c, p)
    ensures forall i :: i in c.leases ==> c.leases[i].path != p
  {
    forall i | i in c.leases ensures c.leases[i].path != p {
      var l := Lease(p, c.entries[p].db);
      assert Holders(c, l) == {};
      assert c.leases[i] == l <==> i in Holders(c, l);
    }
  }

  lemma WithoutIsConsistent(c: Cache, p: string)
    requires Consistent(c) && Idle(c, p)
    ensures Consistent(Without(c, p))
  {
    var d := Without(c, p);
    NobodyHoldsIdle(c, p);
    assert LeasesStand(d);
    assert RefsCount(d) by {
      forall q | q in d.entries ensures d.entries[q].refs == |Holders(d, Lease(q, d.entries[q].db))| {
        assert Holders(d, Lease(q, d.entries[q].db)) == Holders(c, Lease(q, c.entries[q].db));
      }
    }
    assert HandlesMatch(d) by {
      forall h | h in d.open ensures exists q :: q in d.entries && d.entries[q].db == h {
        var q :| q in c.entries && c.entries[q].db == h;
        assert q in d.entries;
      }
    }
  }

  lemma VictimIsUnique(c: Cache, p: string, q: string)
    requires AllDistinct(c) && Victim(c, p) && Victim(c, q)
    ensures p == q
  {
  }

  /** d is c with idle entries taken out, older ones before newer ones, and no more than needed. */
  ghost predicate Trimmed(c: Cache, d: Cache) {
    && d == c.(entries := d.entries, open := d.open)
    && (forall p :: p in d.entries ==> p in c.entries && d.entries[p] == c.entries[p])
    && (forall p :: p in c.entries && p !in d.entries ==> Idle(c, p))
    && (forall p, q :: p in c.entries && p !in d.entries && Idle(d, q) ==> c.entries[p].used < c.entries[q].used)
    && (d.entries != c.entries ==> |d.entries| >= c.limit)
  }

  lemma OneMoreTrimmed(c: Cache, p: string, d: Cache)
    requires Victim(c, p) && |c.entries| > c.limit
    requires forall r :: r in c.entries && r != p ==> c.entries[r].used != c.entries[p].used
    requires Trimmed(Without(c, p), d)
    ensures Trimmed(c, d)
  {
    var e := Without(c, p);
    SmallerMap(c.entries, p);
    assert forall r :: r in d.entries ==> r in e.entries && r in c.entries && d.entries[r] == c.entries[r];
    assert forall r :: r in c.entries && r !in d.entries ==> Idle(c, r) by {
      forall r | r in c.entries && r !in d.entries ensures Idle(c, r) {
        assert r != p ==> r in e.entries && Idle(e, r);
      }
    }
    forall r, q | r in c.entries && r !in d.entries && Idle(d, q) ensures c.entries[r].used < c.entries[q].used {
      assert q in e.entries && Idle(c, q);
      assert r != p ==> r in e.entries;
    }
    assert d.entries == e.entries ==> |d.entries| >= c.limit;
  }

  lemma {:induction false} EvictedIsTrimmed(c: Cache)
    requires Consistent(c)
    ensures Consistent(Evicted(c)) && Bounded(Evicted(c)) && Trimmed(c, Evicted(c))
    decreases |c.entries|
  {
    if |c.entries| > c.limit && SomeIdle(c) {
      var p := EvictedUnfolds(c);
      WithoutIsConsistent(c, p);
      EvictedIsTrimmed(Without(c, p));
      OneMoreTrimmed(c, p, Evicted(c));
    }
  }

  lemma EvictedUnfolds(c: Cache) returns (p: string)
    requires AllDistinct(c) && |c.entries| > c.limit && SomeIdle(c)
    ensures Victim(c, p) && Evicted(c) == Evicted(Without(c, p))
    ensures |Without(c, p).entries| == |c.entries| - 1
  {
    p := VictimExists(c);
    forall q | Victim(c, q) ensures q == p {
      VictimIsUnique(c, p, q);
    }
    SmallerMap(c.entries, p);
  }

  // ---------------------------------------------------------------- every run

  lemma LentRefs(c: Cache, path: string)
    requires LeasesStand(c) && RefsCount(c)
    ensures RefsCount(Lent(c, path))
  {
    var d := Lent(c, path);
    var l := Lease(path, d.entries[path].db);
    assert path !in c.entries ==> Holders(c, l) == {};
    assert c.nextLease !in Holders(c, l);
    assert Holders(d, l) == Holders(c, l) + {c.nextLease};
    forall q | q in d.entries && q != path ensures d.entries[q].refs == |Holders(d, Lease(q, d.entries[q].db))| {
      assert Holders(d, Lease(q, d.entries[q].db)) == Holders(c, Lease(q, c.entries[q].db));
    }
  }

  lemma LentHandles(c: Cache, path: string)
    requires HandlesMatch(c)
    ensures HandlesMatch(Lent(c, path))
  {
    var d := Lent(c, path);
    forall h | h in d.open ensures exists q :: q in d.entries && d.entries[q].db == h {
      if h == d.entries[path].db {
        assert path in d.entries;
      } else {
        var q :| q in c.entries && c.entries[q].db == h;
        assert q in d.entries && d.entries[q].db == h;
      }
    }
  }

  lemma LentIsConsistent(c: Cache, path: string)
    requires Consistent(c)
    ensures Consistent(Lent(c, path))
  {
    LentRefs(c, path);
    LentHandles(c, path);
    LentLeases(c, path);
    LentDistinct(c, path);
  }

  lemma LentLeases(c: Cache, path: string)
    requires LeasesStand(c)
    ensures LeasesStand(Lent(c, path))
  {
  }

  lemma LentDistinct(c: Cache, path: string)
    requires AllDistinct(c) && HandlesMatch(c)
    ensures AllDistinct(Lent(c, path))
  {
  }

  lemma ReturnedRefs(c: Cache, id: nat)
    requires LeasesStand(c) && RefsCount(c) && id in c.leases
    ensures RefsCount(Returned(c, id))
  {
    var l, d := c.leases[id], Returned(c, id);
    assert id in Holders(c, l);
    assert Holders(d, l) == Holders(c, l) - {id};
    forall q | q in d.entries && q != l.path ensures d.entries[q].refs == |Holders(d, Lease(q, d.entries[q].db))| {
      assert Holders(d, Lease(q, d.entries[q].db)) == Holders(c, Lease(q, c.entries[q].db));
    }
  }

  lemma ReturnedHandles(c: Cache, id: nat)
    requires LeasesStand(c) && HandlesMatch(c) && id in c.leases
    ensures HandlesMatch(Returned(c, id))
  {
    var d := Returned(c, id);
    forall h | h in d.open ensures exists q :: q in d.entries && d.entries[q].db == h {
      var q :| q in c.entries && c.entries[q].db == h;
      assert q in d.entries && d.entries[q].db == h;
    }
  }

  lemma ReturnedIsConsistent(c: Cache, id: nat)
    requires Consistent(c) && id in c.leases
    ensures Consistent(Returned(c, id))
  {
    ReturnedRefs(c, id);
    ReturnedHandles(c, id);
    ReturnedLeases(c, id);
    ReturnedDistinct(c, id);
  }

  lemma ReturnedLeases(c: Cache, id: nat)
    requires LeasesStand(c) && id in c.leases
    ensures LeasesStand(Returned(c, id))
  {
  }

  lemma ReturnedDistinct(c: Cache, id: nat)
    requires LeasesStand(c) && AllDistinct(c) && id in c.leases
    ensures AllDistinct(Returned(c, id))
  {
  }

  lemma ShutIsConsistent(c: Cache)
    requires Consistent(c)
    ensures Consistent(Shut(c)) && (!c.closed ==> !SomeIdle(Shut(c)))
  {
    var d := Shut(c);
    if !c.closed {
      assert LeasesStand(d) by {
        forall i | i in c.leases ensures c.leases[i].path in d.entries {
          var p := c.leases[i].path;
          if c.entries[p].refs == 0 {
            NobodyHoldsIdle(c, p);
            assert false;
          }
        }
      }
      assert RefsCount(d) by {
        forall q | q in d.entries ensures d.entries[q].refs == |Holders(d, Lease(q, d.entries[q].db))| {
          assert Holders(d, Lease(q, d.entries[q].db)) == Holders(c, Lease(q, c.entries[q].db));
        }
      }
      assert HandlesMatch(d) by {
        forall h | h in d.open ensures exists q :: q in d.entries && d.entries[q].db == h {
          var q :| q in c.entries && c.entries[q].db == h;
          assert q in d.entries;
        }
      }
    }
  }

  /** One call keeps the invariant and the limit. */
  lemma StepKeepsInv(c: Cache, op: Op)
    requires Inv(c)
    ensures Inv(Step(c, op)) && Step(c, op).limit == c.limit
  {
    match op
    case Borrow(path, opens) =>
      if !Refused(c, path, opens) {
        LentIsConsistent(c, path);
        EvictedIsTrimmed(Lent(c, path));
      }
    case Release(id) =>
      if id in c.leases {
        ReturnedIsConsistent(c, id);
        EvictedIsTrimmed(Returned(c, id));
        if c.closed {
          ClosedRelease(c, id);
        }
      }
    case Close =>
      ShutIsConsistent(c);
  }

  lemma AfterLending(c: Cache, path: string) returns (e: Cache)
    requires Inv(c) && !c.closed
    ensures Consistent(Lent(c, path)) && e == Evicted(Lent(c, path)) && Inv(e)
  {
    LentIsConsistent(c, path);
    EvictedIsTrimmed(Lent(c, path));
    e := Evicted(Lent(c, path));
  }

  lemma AfterReturn(c: Cache, id: nat) returns (e: Cache)
    requires Inv(c) && id in c.leases
    ensures c.leases[id].path in c.entries && Inv(e) && e == Step(c, Op.Release(id))
    ensures var d := Returned(c, id);
      Consistent(d) && e == if c.closed && d.entries[c.leases[id].path].refs == 0 then Without(d, c.leases[id].path)
        else Evicted(d)
  {
    ReturnedIsConsistent(c, id);
    StepKeepsInv(c, Op.Release(id));
    e := Released(c, id);
  }

  /** Close with the paths in `left` not visited yet. */
  ghost function Closing(c: Cache, left: set<string>): Cache {
    c.(closed := true,
       entries := map p | p in c.entries && (p in left || c.entries[p].refs != 0) :: c.entries[p],
       open := set d | d in c.open && forall p :: p in c.entries && c.entries[p].db == d ==>
         p in left || c.entries[p].refs != 0)
  }

  lemma ClosingOne(c: Cache, left: set<string>, p: string) returns (b: Cache)
    requires AllDistinct(c) && p in left && p in c.entries
    ensures p in Closing(c, left).entries
    ensures b == Closing(c, left - {p})
    ensures b == if Closing(c, left).entries[p].refs == 0 then Without(Closing(c, left), p) else Closing(c, left)
  {
    var a := Closing(c, left);
    b := Closing(c, left - {p});
    if c.entries[p].refs == 0 {
      assert b.entries == a.entries - {p};
      assert b.open == a.open - {c.entries[p].db};
    } else {
      assert b.entries == a.entries;
      assert b.open == a.open;
    }
  }

  lemma ClosingDone(c: Cache)
    requires !c.closed
    ensures Closing(c, {}) == Shut(c)
  {
    assert Closing(c, {}).entries == Shut(c).entries;
    assert Closing(c, {}).open == Shut(c).open;
  }

  lemma ClosingStarts(c: Cache)
    ensures Closing(c, c.entries.Keys) == c.(closed := true)
  {
    assert Closing(c, c.entries.Keys).entries == c.entries;
    assert Closing(c, c.entries.Keys).open == c.open;
  }

  lemma NoneIdleAfterReturn(c: Cache, id: nat)
    requires id in c.leases && c.leases[id].path in c.entries && !SomeIdle(c)
    ensures forall q :: Idle(Returned(c, id), q) ==> q == c.leases[id].path && c.entries[q].refs == 1
  {
    forall q | Idle(Returned(c, id), q) ensures q == c.leases[id].path && c.entries[q].refs == 1 {
      assert !Idle(c, q);
    }
  }

  lemma ClosedRelease(c: Cache, id: nat)
    requires Inv(c) && c.closed && id in c.leases && Consistent(Returned(c, id))
    ensures Inv(Released(c, id)) && Released(c, id).limit == c.limit
  {
    var p, d := c.leases[id].path, Returned(c, id);
    NoneIdleAfterReturn(c, id);
    if d.entries[p].refs == 0 {
      WithoutIsConsistent(d, p);
      assert forall q :: Idle(Without(d, p), q) ==> Idle(d, q) && q != p;
    } else {
      assert !SomeIdle(d);
      Settled(d);
    }
  }

  /** Every reachable state of the cache, whatever the callers do and in whatever order. */
  lemma {:induction false} EveryRun(c: Cache, ops: seq<Op>)
    requires Inv(c)
    ensures Inv(Run(c, ops)) && Run(c, ops).limit == c.limit
    decreases ops
  {
    if ops != [] {
      StepKeepsInv(c, ops[0]);
      EveryRun(Step(c, ops[0]), ops[1..]);
    }
  }

  /** In every reachable state: a lease is on an open engine, the only one open for its path, which is counted
      as in use; no handle is open that is not cached; the cache is within its limit or wholly in use; and
      after Close, once the last lease is given back, nothing is cached and nothing is open. */
  lemma EngineSafety(limit: nat, ops: seq<Op>)
    ensures var c := Run(New(limit), ops);
      && (forall i :: i in c.leases ==>
            var l := c.leases[i];
            l.path in c.entries && c.entries[l.path].db == l.db && l.db in c.open && c.entries[l.path].refs > 0)
      && (forall d :: d in c.open <==> exists p :: p in c.entries && c.entries[p].db == d)
      && (forall p, q :: p in c.entries && q in c.entries && c.entries[p].db == c.entries[q].db ==> p == q)
      && (|c.entries| <= limit || forall p :: p in c.entries ==> c.entries[p].refs > 0)
      && (c.closed && c.leases == map[] ==> c.entries == map[] && c.open == {})
  {
    var c := Run(New(limit), ops);
    assert Inv(New(limit));
    EveryRun(New(limit), ops);
    forall i | i in c.leases ensures c.entries[c.leases[i].path].refs > 0 {
      assert i in Holders(c, c.leases[i]);
    }
    forall p | p in c.entries && !Idle(c, p) ensures c.entries[p].refs > 0 {
    }
    if c.closed && c.leases == map[] {
      forall p ensures p !in c.entries {
        if p in c.entries {
          assert Holders(c, Lease(p, c.entries[p].db)) == {};
          assert Idle(c, p);
          assert false;
        }
      }
    }
  }

  // ---------------------------------------------------------------- who goes first

  lemma {:induction false} RunSnoc(c: Cache, ops: seq<Op>)
    requires ops != []
    ensures Run(c, ops) == Step(Run(c, ops[..|ops| - 1]), ops[|ops| - 1])
    decreases ops
  {
    if |ops| == 1 {
      assert ops[..0] == [] && ops[1..] == [];
    } else {
      RunSnoc(Step(c, ops[0]), ops[1..]);
      assert ops[1..][..|ops[1..]| - 1] == ops[..|ops| - 1][1..];
    }
  }

  /** Call n of a run lends the engine of p. */
  ghost predicate Lends(limit: nat, ops: seq<Op>, n: nat, p: string) {
    && n < |ops| && ops[n].Borrow? && ops[n].path == p
    && !Refused(Run(New(limit), ops[..n]), p, ops[n].opens)
  }

  /** How many calls of a run there were up to the last that lent the engine of p; none if none did. */
  ghost function LastLent(limit: nat, ops: seq<Op>, p: string): (n: nat)
    ensures n <= |ops|
  {
    if ops == [] then 0
    else if Lends(limit, ops, |ops| - 1, p) then |ops|
    else LastLent(limit, ops[..|ops| - 1], p)
  }

  lemma LendsInFront(limit: nat, ops: seq<Op>, front: seq<Op>, m: nat, p: string)
    requires front < ops && m < |front|
    ensures Lends(limit, front, m, p) <==> Lends(limit, ops, m, p)
  {
    assert front[..m] == ops[..m];
  }

  lemma {:induction false} LastLentLends(limit: nat, ops: seq<Op>, p: string)
    ensures LastLent(limit, ops, p) > 0 ==> Lends(limit, ops, LastLent(limit, ops, p) - 1, p)
  {
    if ops != [] && !Lends(limit, ops, |ops| - 1, p) {
      var front := ops[..|ops| - 1];
      LastLentLends(limit, front, p);
      if LastLent(limit, front, p) > 0 {
        LendsInFront(limit, ops, front, LastLent(limit, front, p) - 1, p);
      }
    }
  }

  lemma {:induction false} NoneLendsLater(limit: nat, ops: seq<Op>, p: string, m: nat)
    requires LastLent(limit, ops, p) <= m < |ops|
    ensures !Lends(limit, ops, m, p)
  {
    if m < |ops| - 1 && !Lends(limit, ops, |ops| - 1, p) {
      var front := ops[..|ops| - 1];
      NoneLendsLater(limit, front, p, m);
      LendsInFront(limit, ops, front, m, p);
    }
  }

  /** The stamps of the cached engines are in the order in which they were last lent. */
  ghost predicate StampsInOrder(limit: nat, ops: seq<Op>, c: Cache) {
    && (forall p :: p in c.entries ==> LastLent(limit, ops, p) > 0 && c.entries[p].used <= c.clock)
    && (forall p, q :: p in c.entries && q in c.entries ==>
          (c.entries[p].used < c.entries[q].used <==> LastLent(limit, ops, p) < LastLent(limit, ops, q)))
  }

  /** d has no engine and no stamp that c does not have. */
  ghost predicate FewerStamps(c: Cache, d: Cache) {
    && d.clock == c.clock
    && forall p :: p in d.entries ==> p in c.entries && d.entries[p].used == c.entries[p].used
  }

  /** What went out of c had older stamps than what is idle in d. */
  ghost predicate OlderWent(c: Cache, d: Cache) {
    forall p, q :: p in c.entries && p !in d.entries && Idle(d, q) ==>
      q in c.entries && c.entries[p].used < c.entries[q].used
  }

  lemma EvictionStamps(c: Cache, d: Cache)
    requires Trimmed(c, d)
    ensures FewerStamps(c, d) && OlderWent(c, d)
  {
  }

  lemma EvictedStamps(c: Cache) returns (d: Cache)
    requires Consistent(c)
    ensures d == Evicted(c) && FewerStamps(c, d) && OlderWent(c, d)
    ensures forall p :: p in c.entries && c.entries[p].refs != 0 ==> p in d.entries
    ensures forall p :: p in d.entries ==> d.entries[p] == c.entries[p]
  {
    EvictedIsTrimmed(c);
    d := Evicted(c);
    EvictionStamps(c, d);
  }

  /** c with the stamp of one engine brought up to date, which is in use now. */
  ghost predicate Loaned(c: Cache, l: Cache, path: string) {
    && l.clock == c.clock + 1 && l.entries.Keys == c.entries.Keys + {path}
    && (forall p :: p in c.entries && p != path ==> l.entries[p] == c.entries[p])
    && l.entries[path].used == l.clock
  }

  lemma LentIsLoaned(c: Cache, path: string)
    ensures Loaned(c, Lent(c, path), path)
  {
  }

  lemma LentIsInUse(c: Cache, path: string)
    requires RefsCount(c)
    ensures Lent(c, path).entries[path].refs != 0
  {
  }

  /** A call that lends an engine: what it does before it evicts, and after. */
  lemma Lending(c: Cache, path: string, opens: bool) returns (l: Cache, d: Cache)
    requires Inv(c) && !Refused(c, path, opens)
    ensures Loaned(c, l, path) && d == Step(c, Op.Borrow(path, opens)) && FewerStamps(l, d) && OlderWent(l, d)
    ensures path in d.entries && d.entries[path].refs != 0
  {
    l := Lent(c, path);
    LentIsLoaned(c, path);
    LentIsInUse(c, path);
    LentIsConsistent(c, path);
    d := EvictedStamps(l);
  }

  lemma ReturnedStamps(c: Cache, id: nat)
    requires LeasesStand(c) && id in c.leases
    ensures var d := Returned(c, id);
      d.clock == c.clock && d.entries.Keys == c.entries.Keys
      && forall p :: p in c.entries ==> d.entries[p].used == c.entries[p].used
  {
  }

  lemma WithoutStamps(c: Cache, p: string)
    requires p in c.entries
    ensures FewerStamps(c, Without(c, p))
  {
  }

  lemma ReturnedEvicts(c: Cache, id: nat) returns (l: Cache, e: Cache)
    requires Consistent(c) && id in c.leases
    ensures c.leases[id].path in c.entries && l == Returned(c, id)
    ensures e == Evicted(l) && FewerStamps(l, e) && OlderWent(l, e)
  {
    l := Returned(c, id);
    ReturnedIsConsistent(c, id);
    e := EvictedStamps(l);
  }

  /** A call that gives an engine back: what it does first, and in the end. */
  lemma GivingBack(c: Cache, id: nat) returns (l: Cache, d: Cache)
    requires Consistent(c) && id in c.leases
    ensures l.clock == c.clock && l.entries.Keys == c.entries.Keys
    ensures forall p :: p in c.entries ==> l.entries[p].used == c.entries[p].used
    ensures d == Released(c, id) && FewerStamps(l, d) && (!c.closed ==> OlderWent(l, d))
  {
    ReturnedStamps(c, id);
    var e;
    l, e := ReturnedEvicts(c, id);
    var path := c.leases[id].path;
    WithoutStamps(l, path);
    d := if c.closed && l.entries[path].refs == 0 then Without(l, path) else e;
  }

  lemma OthersStampNothing(c: Cache, op: Op)
    requires Inv(c) && !op.Borrow?
    ensures FewerStamps(c, Step(c, op))
  {
    if op.Release? && op.id in c.leases {
      var l, d := GivingBack(c, op.id);
    }
  }

  /** A loan puts its engine on top and leaves the stamps of the others. */
  ghost predicate OnTop(c: Cache, d: Cache, path: string) {
    && d.clock == c.clock + 1
    && (forall p :: p in d.entries && p != path ==> p in c.entries && d.entries[p].used == c.entries[p].used)
    && (path in d.entries ==> d.entries[path].used == c.clock + 1)
  }

  lemma LoanStampsOne(c: Cache, path: string, opens: bool)
    requires Inv(c) && !Refused(c, path, opens)
    ensures OnTop(c, Step(c, Op.Borrow(path, opens)), path)
  {
    var l, d := Lending(c, path, opens);
  }

  lemma LastLentStays(limit: nat, ops: seq<Op>, p: string)
    requires ops != [] && !Lends(limit, ops, |ops| - 1, p)
    ensures LastLent(limit, ops, p) == LastLent(limit, ops[..|ops| - 1], p)
  {
  }

  lemma {:induction false} StampsStayInOrder(limit: nat, ops: seq<Op>)
    ensures StampsInOrder(limit, ops, Run(New(limit), ops))
  {
    if ops != [] {
      var n := |ops| - 1;
      var c, op := Run(New(limit), ops[..n]), ops[n];
      StampsStayInOrder(limit, ops[..n]);
      NewIsSound(limit, New(limit));
      EveryRun(New(limit), ops[..n]);
      RunSnoc(New(limit), ops);
      NextStamps(limit, ops, c, Step(c, op));
    }
  }

  lemma NextStamps(limit: nat, ops: seq<Op>, c: Cache, d: Cache)
    requires ops != [] && c == Run(New(limit), ops[..|ops| - 1]) && d == Step(c, ops[|ops| - 1]) && Inv(c)
    requires StampsInOrder(limit, ops[..|ops| - 1], c)
    ensures StampsInOrder(limit, ops, d)
  {
    var op := ops[|ops| - 1];
    if op.Borrow? && !Refused(c, op.path, op.opens) {
      LoanStampsOne(c, op.path, op.opens);
      StampsAfterLoan(limit, ops, c, d, op.path);
    } else {
      if op.Borrow? {
        assert d == c;
      } else {
        OthersStampNothing(c, op);
      }
      forall p ensures LastLent(limit, ops, p) == LastLent(limit, ops[..|ops| - 1], p) {
        LastLentStays(limit, ops, p);
      }
    }
  }

  lemma StampsAfterLoan(limit: nat, ops: seq<Op>, c: Cache, d: Cache, path: string)
    requires ops != [] && Lends(limit, ops, |ops| - 1, path) && StampsInOrder(limit, ops[..|ops| - 1], c)
    requires OnTop(c, d, path)
    ensures StampsInOrder(limit, ops, d)
  {
    forall p | p != path ensures LastLent(limit, ops, p) == LastLent(limit, ops[..|ops| - 1], p) < |ops| {
      LastLentStays(limit, ops, p);
    }
    assert LastLent(limit, ops, path) == |ops|;
  }

  /** After any run: if one more call takes an engine out of the cache while an idle one stays, then the one that goes
      was last lent before the one that stays. */
  lemma LongestUnusedGoesFirst(limit: nat, ops: seq<Op>, op: Op, p: string, q: string)
    requires var c := Run(New(limit), ops); p in c.entries && p !in Step(c, op).entries && Idle(Step(c, op), q)
    ensures 0 < LastLent(limit, ops, p) < LastLent(limit, ops, q)
  {
    var c := Run(New(limit), ops);
    NewIsSound(limit, New(limit));
    EveryRun(New(limit), ops);
    StampsStayInOrder(limit, ops);
    StepKeepsInv(c, op);
    OlderStampGoes(c, op, p, q);
  }

  lemma OlderGoesOnLoan(c: Cache, l: Cache, d: Cache, path: string, p: string, q: string)
    requires Loaned(c, l, path) && OlderWent(l, d) && path in d.entries && d.entries[path].refs != 0
    requires p in c.entries && p !in d.entries && Idle(d, q)
    ensures q in c.entries && c.entries[p].used < c.entries[q].used
  {
  }

  lemma ClosedStaysClosed(c: Cache, id: nat)
    requires Inv(c) && c.closed
    ensures Released(c, id).closed
  {
    if id in c.leases {
      ReturnedIsConsistent(c, id);
      EvictedIsTrimmed(Returned(c, id));
    }
  }

  lemma OlderGoesOnReturn(c: Cache, id: nat, p: string, q: string)
    requires Inv(c) && Inv(Released(c, id)) && p in c.entries && p !in Released(c, id).entries
    requires Idle(Released(c, id), q)
    ensures q in c.entries && c.entries[p].used < c.entries[q].used
  {
    assert id in c.leases;
    var l, d := GivingBack(c, id);
    if c.closed {
      ClosedStaysClosed(c, id);
      assert false;
    }
  }

  lemma OlderStampGoes(c: Cache, op: Op, p: string, q: string)
    requires Inv(c) && Inv(Step(c, op)) && p in c.entries && p !in Step(c, op).entries && Idle(Step(c, op), q)
    ensures q in c.entries && c.entries[p].used < c.entries[q].used
  {
    match op
    case Borrow(path, opens) =>
      var l, d := Lending(c, path, opens);
      OlderGoesOnLoan(c, l, d, path, p, q);
    case Release(id) =>
      OlderGoesOnReturn(c, id, p, q);
    case Close =>
      ShutIsConsistent(c);
      assert false;
  }

  // ---------------------------------------------------------------- the service

  class CachedEngine {
    const db: nat
    var refs: int
    var used: nat

    constructor (db: nat)
      ensures this.db == db && refs == 0 && used == 0
    {
      this.db := db;
      refs, used := 0, 0;
    }
  }

  /** The closure that engine() hands out: it keeps the entry it was made for, and runs once. */
  class Releaser {
    const id: nat
    const entry: CachedEngine
    const filename: string
    var done: bool

    constructor (id: nat, entry: CachedEngine, filename: string)
      ensures this.id == id && this.entry == entry && this.filename == filename && !done
    {
      this.id, this.entry, this.filename := id, entry, filename;
      done := false;
    }
  }

  class Service {
    var engines: map<string, CachedEngine>
    const engineLimit: nat
    var engineClock: nat
    var closed: bool
    /** Numbers given to opened databases and to leases. */
    var nextDb: nat
    var nextLease: nat
    ghost var open: set<nat>
    ghost var live: map<nat, Releaser>

    constructor (limit: nat)
      ensures Valid() && View() == New(limit) && live == map[]
    {
      engines, engineLimit, engineClock, closed := map[], limit, 0, false;
      nextDb, nextLease, open, live := 0, 0, {}, map[];
      new;
      NewIsSound(limit, View());
    }

    ghost function View(): Cache
      reads this, engines.Values
    {
      Cache(map p | p in engines :: Entry(engines[p].db, engines[p].refs, engines[p].used),
            map i | i in live :: Lease(live[i].filename, live[i].entry.db),
            open, nextDb, nextLease, engineClock, closed, engineLimit)
    }

    /** Every closure that has not run yet points at the very entry that is cached for its file. */
    ghost predicate Linked()
      reads this, live.Values
    {
      forall i :: i in live ==>
        live[i].id == i && !live[i].done && live[i].filename in engines && engines[live[i].filename] == live[i].entry
    }

    /** The same, for what is still cached. */
    ghost predicate Loosely()
      reads this, live.Values
    {
      forall i :: i in live ==>
        live[i].id == i && !live[i].done && (live[i].filename in engines ==> engines[live[i].filename] == live[i].entry)
    }

    ghost predicate Valid()
      reads this, engines.Values, live.Values
    {
      Inv(View()) && Linked()
    }

    /** A closure this service handed out. */
    ghost predicate Issued(r: Releaser)
      reads this, r
    {
      if r.done then r.id !in live else r.id in live && live[r.id] == r
    }

    /** The idle entry borrowed longest ago, by a scan of the map in whatever order. */
    method Oldest(ghost c: Cache) returns (oldest: CachedEngine?, path: string)
      requires c == View()
      ensures oldest == null ==> !SomeIdle(c)
      ensures oldest != null ==> path in engines && engines[path] == oldest && Victim(c, path)
    {
      oldest, path := null, "";
      var names := engines.Keys;
      while names != {}
        invariant names <= engines.Keys
        invariant oldest == null ==> forall p :: p in engines && p !in names ==> engines[p].refs != 0
        invariant oldest != null ==> path in engines && engines[path] == oldest && oldest.refs == 0
        invariant oldest != null ==>
          forall p :: p in engines && p !in names && engines[p].refs == 0 ==> oldest.used <= engines[p].used
        decreases names
      {
        var name := AnyOf(names);
        var entry := engines[name];
        if entry.refs == 0 && (oldest == null || entry.used < oldest.used) {
          oldest, path := entry, name;
        }
        names := names - {name};
      }
    }

    /** Closes one engine and takes it out of the map. */
    method Drop(path: string)
      requires path in engines
      modifies this`engines, this`open
      ensures old(Loosely()) ==> Loosely()
      ensures View() == Without(old(View()), path)
      ensures engines == old(engines) - {path} && |engines| < old(|engines|)
    {
      SmallerMap(engines, path);
      open := open - {engines[path].db};
      engines := engines - {path};
      assert View().entries == old(View()).entries - {path};
    }

    /** One turn of evictEngines' loop; false when nothing is idle. */
    method EvictOne(ghost c: Cache) returns (evicted: bool, ghost path: string)
      requires c == View() && Loosely()
      modifies this`engines, this`open
      ensures Loosely()
      ensures !evicted ==> !SomeIdle(c) && View() == c && engines == old(engines)
      ensures evicted ==> Victim(c, path) && View() == Without(c, path)
      ensures evicted ==> path in old(engines) && engines == old(engines) - {path} && |engines| < old(|engines|)
    {
      var oldest, name := Oldest(c);
      if oldest == null {
        return false, name;
      }
      Drop(name);
      return true, name;
    }

    /** evictEngines. */
    method EvictEngines(ghost before: Cache)
      requires before == View() && Consistent(before) && Loosely()
      modifies this`engines, this`open
      ensures View() == Evicted(before) && Loosely()
      ensures forall p :: p in engines ==> p in old(engines) && engines[p] == old(engines)[p]
    {
      ghost var c := before;
      while |engines| > engineLimit
        invariant c == View() && Consistent(c) && Evicted(c) == Evicted(before) && Loosely()
        invariant forall p :: p in engines ==> p in old(engines) && engines[p] == old(engines)[p]
        decreases |engines|
      {
        SameSize(c);
        var evicted, path := EvictOne(c);
        if !evicted {
          break;
        }
        c := NextEviction(c, path);
      }
      SameSize(c);
      Settled(c);
    }

    /** engine: borrow the engine of a file, opening it if need be. */
    method Borrow(filename: string, opens: bool) returns (r: Result<Releaser>)
      requires Valid()
      modifies this, engines.Values
      ensures Valid()
      ensures View() == Step(old(View()), Op.Borrow(filename, opens))
      ensures r == Err <==> Refused(old(View()), filename, opens)
      ensures r.Ok? ==> fresh(r.value) && Issued(r.value) && !r.value.done && r.value.filename == filename
                        && r.value.entry.db in open
    {
      if closed {
        return Err;
      }
      if filename !in engines && !opens {
        return Err;
      }
      ghost var c := View();
      var release;
      ghost var e;
      release, e := Take(filename, c);
      assert e == View() && release.id in e.leases;
      r := Ok(release);
    }

    /** The entry of a file counted and stamped, and the closure to give it back. */
    method Lend(filename: string, ghost c: Cache) returns (release: Releaser)
      requires c == View() && Inv(c) && Linked()
      modifies this, engines.Values
      ensures View() == Lent(c, filename) && Linked()
      ensures fresh(release) && !release.done && release.filename == filename
      ensures release.id in live && live[release.id] == release
    {
      DistinctHandles();
      var entry := Find(filename);
      Stamp(entry, filename);
      release := Issue(entry, filename);
    }

    method Take(filename: string, ghost c: Cache) returns (release: Releaser, ghost e: Cache)
      requires c == View() && Inv(c) && !c.closed && Linked()
      modifies this, engines.Values
      ensures e == View() && Inv(e) && e == Evicted(Lent(c, filename)) && Linked()
      ensures fresh(release) && !release.done && release.filename == filename
      ensures release.id in live && live[release.id] == release
    {
      release := Lend(filename, c);
      e := AfterLending(c, filename);
      EvictEngines(Lent(c, filename));
      StillLinked(e);
    }

    /** The cached entry of a file, or a newly opened one. */
    method Find(filename: string) returns (entry: CachedEngine)
      requires HandlesMatch(View()) && Separate() && Linked()
      modifies this`engines, this`open, this`nextDb
      ensures View() == Opened(old(View()), filename) && Separate() && Linked()
      ensures filename in engines && engines[filename] == entry
      ensures entry in old(engines.Values) || fresh(entry)
    {
      if filename in engines {
        entry := engines[filename];
        AlreadyOpen(View(), filename);
      } else {
        entry := OpenDB(filename);
      }
    }

    method OpenDB(filename: string) returns (entry: CachedEngine)
      requires filename !in engines && Separate() && Linked()
      modifies this`engines, this`open, this`nextDb
      ensures View() == Opened(old(View()), filename) && Separate() && Linked()
      ensures filename in engines && engines[filename] == entry && fresh(entry)
    {
      ghost var c := View();
      ghost var was := engines;
      entry := new CachedEngine(nextDb);
      open := open + {nextDb};
      nextDb := nextDb + 1;
      engines := engines[filename := entry];
      OneMoreEntry(was, filename, entry, c);
    }

    /** The view of the map with one new entry in it. */
    lemma OneMoreEntry(was: map<string, CachedEngine>, filename: string, entry: CachedEngine, c: Cache)
      requires filename !in was && engines == was[filename := entry]
      requires entry.db == c.nextDb && entry.refs == 0 && entry.used == 0
      requires c.entries == map p | p in was :: Entry(was[p].db, was[p].refs, was[p].used)
      ensures View().entries == c.entries[filename := Entry(c.nextDb, 0, 0)]
    {
    }

    ghost predicate Separate()
      reads this
    {
      forall p, q :: p in engines && q in engines && p != q ==> engines[p] != engines[q]
    }

    lemma DistinctHandles()
      requires AllDistinct(View())
      ensures Separate()
    {
      forall p, q | p in engines && q in engines && p != q ensures engines[p] != engines[q] {
        assert View().entries[p].db != View().entries[q].db;
      }
    }

    /** The borrower counted and the clock stamped. */
    method Stamp(entry: CachedEngine, filename: string)
      requires filename in engines && engines[filename] == entry && Separate() && Linked()
      modifies this`engineClock, entry
      ensures View() == Stamped(old(View()), filename) && Linked()
    {
      ghost var c := View();
      entry.refs := entry.refs + 1;
      engineClock := engineClock + 1;
      entry.used := engineClock;
      assert View().entries == Stamped(c, filename).entries;
    }

    /** The closure that will give the entry back. */
    method Issue(entry: CachedEngine, filename: string) returns (release: Releaser)
      requires filename in engines && engines[filename] == entry && Linked()
      modifies this`nextLease, this`live
      ensures View() == Leased(old(View()), filename) && Linked()
      ensures fresh(release) && !release.done && release.filename == filename && release.entry == entry
      ensures release.id in live && live[release.id] == release
    {
      ghost var c := View();
      release := new Releaser(nextLease, entry, filename);
      live := live[nextLease := release];
      nextLease := nextLease + 1;
      assert View().leases == Leased(c, filename).leases;
      assert View().entries == c.entries;
    }

    method Uncount(entry: CachedEngine, filename: string)
      requires filename in engines && engines[filename] == entry && Separate() && Linked()
      modifies entry
      ensures View() == Uncounted(old(View()), filename) && Linked()
    {
      ghost var c := View();
      entry.refs := entry.refs - 1;
      assert View().entries == Uncounted(c, filename).entries;
    }

    /** The closure has run. */
    method Finish(r: Releaser)
      requires Linked() && r.id in live && live[r.id] == r
      modifies this`live, r
      ensures View() == old(View()).(leases := old(View()).leases - {r.id}) && Linked()
      ensures r.done && r.id !in live
    {
      ghost var c := View();
      r.done := true;
      live := live - {r.id};
      assert View().leases == c.leases - {r.id};
      assert View().entries == c.entries;
    }

    /** A service that is closed closes what its last user gave back; otherwise the map is trimmed. */
    method Trim(path: string, ghost d: Cache)
      requires d == View() && Consistent(d) && Loosely() && path in engines
      modifies this`engines, this`open
      ensures View() == if d.closed && d.entries[path].refs == 0 then Without(d, path) else Evicted(d)
      ensures Loosely()
    {
      if closed && engines[path].refs == 0 {
        Drop(path);
      } else {
        EvictEngines(d);
      }
    }

    /** What is left to do once the borrower is off the books. */
    method Settle(path: string, id: int, ghost c: Cache) returns (ghost e: Cache)
      requires Inv(c) && id in c.leases && c.leases[id].path == path && path in c.entries
      requires View() == Returned(c, id) && Loosely()
      modifies this`engines, this`open
      ensures e == View() && Inv(e) && e == Step(c, Op.Release(id)) && Linked()
    {
      e := AfterReturn(c, id);
      Trim(path, Returned(c, id));
      StillLinked(e);
    }

    method ReleaseOnce(r: Releaser, ghost c: Cache) returns (ghost e: Cache)
      requires c == View() && Inv(c) && Linked() && r.id in live && live[r.id] == r
      modifies this`live, this`engines, this`open, r, r.entry
      ensures e == View() && Inv(e) && e == Step(c, Op.Release(r.id)) && Linked()
      ensures r.done && r.id !in live
    {
      GiveBack(r, c);
      e := Settle(r.filename, r.id, c);
    }

    method GiveBack(r: Releaser, ghost c: Cache)
      requires c == View() && Inv(c) && Linked() && r.id in live && live[r.id] == r
      modifies this`live, r, r.entry
      ensures r.id in c.leases && c.leases[r.id].path == r.filename && r.filename in c.entries
      ensures View() == Returned(c, r.id) && Linked() && r.done && r.id !in live
    {
      DistinctHandles();
      Uncount(r.entry, r.filename);
      Finish(r);
    }

    /** The release closure: only its first call does anything. */
    method Release(r: Releaser)
      requires Valid() && Issued(r)
      modifies this, r, engines.Values
      ensures Valid() && r.done && Issued(r)
      ensures View() == if old(r.done) then old(View()) else Step(old(View()), Op.Release(r.id))
    {
      if !r.done {
        ghost var c := View();
        assert r.entry in engines.Values;
        ghost var e := ReleaseOnce(r, c);
        assert e == View();
      }
    }

    /** One turn of Close's loop. */
    method CloseIfIdle(path: string, ghost c: Cache)
      requires c == View() && Loosely() && path in engines
      modifies this`engines, this`open
      ensures View() == (if c.entries[path].refs == 0 then Without(c, path) else c) && Loosely()
      ensures engines == old(engines) || engines == old(engines) - {path}
    {
      if engines[path].refs == 0 {
        Drop(path);
      }
    }

    /** Close. */
    method Close()
      requires Valid()
      modifies this`closed, this`engines, this`open
      ensures Valid() && View() == Step(old(View()), Op.Close)
    {
      if closed {
        return;
      }
      ghost var c := View();
      closed := true;
      CloseIdle(c, View());
      ClosingDone(c);
      ShutIsConsistent(c);
      StillLinked(Shut(c));
    }

    method CloseIdle(ghost c: Cache, ghost now0: Cache)
      requires AllDistinct(c) && now0 == View() && now0 == c.(closed := true) && Loosely()
      modifies this`engines, this`open
      ensures View() == Closing(c, {}) && Loosely()
    {
      var names := engines.Keys;
      ghost var now := now0;
      ClosingStarts(c);
      assert c.entries.Keys == names;
      while names != {}
        invariant names <= engines.Keys && names <= c.entries.Keys && Loosely()
        invariant now == View() && now == Closing(c, names)
        decreases names
      {
        var path := AnyOf(names);
        CloseIfIdle(path, now);
        now := ClosingOne(c, names, path);
        names := names - {path};
      }
    }

    /** As long as the leases stand, trimming the map unlinks nobody. */
    lemma StillLinked(c: Cache)
      requires c == View() && LeasesStand(c) && Loosely()
      ensures Linked()
    {
      forall i | i in live ensures live[i].filename in engines {
        assert c.leases[i].path == live[i].filename;
      }
    }

    lemma SameSize(c: Cache)
      requires c == View()
      ensures |c.entries| == |engines|
    {
      assert c.entries.Keys == engines.Keys;
      assert |c.entries| == |c.entries.Keys| && |engines| == |engines.Keys|;
    }
  }

  lemma NewIsSound(limit: nat, c: Cache)
    requires c == New(limit)
    ensures Inv(c)
  {
  }

  lemma AlreadyOpen(c: Cache, path: string)
    requires path in c.entries && HandlesMatch(c)
    ensures Opened(c, path) == c
  {
    assert c.entries[path := c.entries[path]] == c.entries;
  }

  lemma Settled(c: Cache)
    requires Bounded(c)
    ensures Evicted(c) == c
  {
  }

  lemma NextEviction(c: Cache, path: string) returns (d: Cache)
    requires Consistent(c) && |c.entries| > c.limit && Victim(c, path)
    ensures d == Without(c, path) && Consistent(d) && Evicted(d) == Evicted(c)
  {
    var v := EvictedUnfolds(c);
    VictimIsUnique(c, v, path);
    WithoutIsConsistent(c, path);
    d := Without(c, path);
  }
}
