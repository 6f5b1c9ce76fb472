/** One data job: progress bookkeeping, the circuit breaker and the retry plan
    (extend/research/service.go, extend/research/ingest.go, extend/research/store.go). Symbols stand for
    their place in the sort order. */
module JobLedger {
  import opened Results

  type Symbol = int

  datatype JobState = Running | Succeeded | Partial | Failed | Interrupted

  /** Error texts, as far as anything depends on them. */
  datatype Trouble = Fine | SymbolsFailed(count: nat) | Breaker | Cancelled | Unsaved | NoSource | Stopped
    | NoFiles | FilesFailed(count: nat)

  datatype Job = Job(state: JobState, started: int, finished: Option<int>, processed: nat, rows: nat, failures: nat,
                     errors: set<Symbol>, error: Trouble, date: Option<int>, total: nat,
                     retry: seq<Symbol>, retryOf: Option<nat>, remaining: seq<Symbol>)

  function NewJob(started: int, date: Option<int>, retryOf: Option<nat>): Job {
    Job(Running, started, None, 0, 0, 0, {}, Fine, date, 0, [], retryOf, [])
  }

  /** What a job keeps from start to end. */
  function Identity(j: Job): (int, Option<int>, Option<nat>) { (j.started, j.date, j.retryOf) }

  /** What became of one symbol: rows written, and whether it ended in an error. Rows may have been
      written all the same. */
  datatype Outcome = Outcome(rows: nat, failed: bool)

  /** The symbols that failed, in order. */
  function FailedIn(symbols: seq<Symbol>, outs: seq<Outcome>): seq<Symbol>
    requires |symbols| == |outs|
  {
    if symbols == [] then []
    else
      var n := |symbols| - 1;
      FailedIn(symbols[..n], outs[..n]) + if outs[n].failed then [symbols[n]] else []
  }

  function RowsOf(outs: seq<Outcome>): nat {
    if outs == [] then 0 else RowsOf(outs[..|outs| - 1]) + outs[|outs| - 1].rows
  }

  /** The progress callback. */
  function Progressed(j: Job, symbol: Symbol, o: Outcome): Job {
    var k := j.(processed := j.processed + 1, rows := j.rows + o.rows,
                remaining := if |j.remaining| > 0 then j.remaining[1..] else j.remaining);
    if o.failed
    then k.(failures := k.failures + 1, retry := k.retry + [symbol],
            errors := if |k.errors| < 500 then k.errors + {symbol} else k.errors)
    else k
  }

  /** The error list holds failed symbols only, at most 500, and all of them as long as there are no more. */
  ghost predicate ErrorsKept(j: Job) {
    && (forall s :: s in j.errors ==> s in j.retry) && |j.errors| <= 500
    && (|j.retry| <= 500 ==> forall s :: s in j.retry ==> s in j.errors)
  }

  lemma {:induction false} ErrorsAreFew(retry: seq<Symbol>, errors: set<Symbol>)
    requires forall s :: s in errors ==> s in retry
    ensures |errors| <= |retry|
    decreases |retry|
  {
    if retry != [] {
      var z, front := retry[|retry| - 1], retry[..|retry| - 1];
      forall s | s in errors - {z} ensures s in front {
        var i :| 0 <= i < |retry| && retry[i] == s;
        assert front[i] == s;
      }
      ErrorsAreFew(front, errors - {z});
    } else {
      assert forall s :: s in errors ==> s in retry;
      assert errors <= {};
    }
  }

  lemma ProgressKeepsErrors(j: Job, symbol: Symbol, o: Outcome)
    requires ErrorsKept(j)
    ensures ErrorsKept(Progressed(j, symbol, o))
  {
    ErrorsAreFew(j.retry, j.errors);
  }

  /** The record of a job once its symbols are known and the first |outs| of them are done: each symbol asked
      for is done and failed, done and well, or still in `remaining`; and the first 500 failures are explained. */
  ghost predicate Snapshot(j: Job, symbols: seq<Symbol>, outs: seq<Outcome>) {
    && |outs| <= |symbols| && j.state == Running
    && j.total == |symbols| && j.processed == |outs|
    && j.remaining == symbols[|outs|..]
    && j.retry == FailedIn(symbols[..|outs|], outs) && j.failures == |j.retry|
    && j.rows == RowsOf(outs) && ErrorsKept(j)
  }

  lemma ProgressKeepsSnapshot(j: Job, symbols: seq<Symbol>, outs: seq<Outcome>, o: Outcome)
    requires Snapshot(j, symbols, outs) && |outs| < |symbols|
    ensures Snapshot(Progressed(j, symbols[|outs|], o), symbols, outs + [o])
  {
    var k := |outs|;
    ProgressKeepsErrors(j, symbols[k], o);
    assert (outs + [o])[..k] == outs && symbols[..k + 1][..k] == symbols[..k];
    assert symbols[k..][1..] == symbols[k + 1..];
  }

  /** The record of an import after the first |outs| of its files; it never lists what is still to come. */
  ghost predicate Imported(j: Job, files: seq<Symbol>, outs: seq<Outcome>) {
    && |outs| <= |files| && j.total == 0 && j.processed == |outs| && j.remaining == []
    && j.retry == FailedIn(files[..|outs|], outs) && j.failures == |j.retry|
    && j.rows == RowsOf(outs) && ErrorsKept(j)
  }

  lemma ProgressKeepsImported(j: Job, files: seq<Symbol>, outs: seq<Outcome>, o: Outcome)
    requires Imported(j, files, outs) && |outs| < |files|
    ensures Imported(Progressed(j, files[|outs|], o), files, outs + [o])
  {
    var k := |outs|;
    ProgressKeepsErrors(j, files[k], o);
    assert (outs + [o])[..k] == outs && files[..k + 1][..k] == files[..k];
  }

  /** The five outcomes before position i are all failures. */
  predicate FiveAt(outs: seq<Outcome>, i: nat)
    requires i <= |outs|
  {
    i >= 5 && forall m :: i - 5 <= m < i ==> outs[m].failed
  }

  /** A loop that looks at its context before each step stops at step k: the end, or the first step that finds the
      context ended. */
  predicate StopsAt(ended: seq<bool>, k: nat)
    requires k <= |ended|
  {
    (forall i :: 0 <= i < k ==> !ended[i]) && (k == |ended| || ended[k])
  }

  /** A loop that also gives up after five failures in a row stops at step k. */
  predicate BreaksAt(ended: seq<bool>, outs: seq<Outcome>, k: nat)
    requires k <= |ended| == |outs|
  {
    (forall i :: 0 <= i < k ==> !ended[i] && !FiveAt(outs, i)) && (k == |ended| || ended[k] || FiveAt(outs, k))
  }

  /** Steps m to m + 4 all fail. */
  predicate FiveFrom(outs: seq<Outcome>, m: int) {
    && 0 <= m && m + 4 < |outs|
    && outs[m].failed && outs[m + 1].failed && outs[m + 2].failed && outs[m + 3].failed && outs[m + 4].failed
  }

  lemma FiveAtIsFiveFrom(outs: seq<Outcome>, i: nat)
    requires i <= |outs|
    ensures FiveAt(outs, i) <==> FiveFrom(outs, i - 5)
  {
    if FiveFrom(outs, i - 5) {
      forall m | i - 5 <= m < i ensures outs[m].failed {
        assert m == i - 5 || m == i - 4 || m == i - 3 || m == i - 2 || m == i - 1;
      }
    }
  }

  /** An update stops at the end, where the context has ended, or after the first five failures in a row, whichever
      comes first. */
  lemma BreaksAtTheFirst(ended: seq<bool>, outs: seq<Outcome>, k: nat)
    requires k <= |ended| == |outs|
    ensures BreaksAt(ended, outs, k)
       <==> (forall i :: 0 <= i < k ==> !ended[i]) && (forall m :: m + 5 < k ==> !FiveFrom(outs, m))
            && (k == |ended| || ended[k] || FiveFrom(outs, k - 5))
  {
    forall i: nat | i <= k ensures FiveAt(outs, i) <==> FiveFrom(outs, i - 5) {
      FiveAtIsFiveFrom(outs, i);
    }
    if BreaksAt(ended, outs, k) {
      forall m | m + 5 < k ensures !FiveFrom(outs, m) {
        if 0 <= m {
          assert !FiveAt(outs, m + 5);
        }
      }
    }
  }

  /** The plan and verdict put down when a job ends. */
  function Closed(j: Job, trouble: Trouble, now: int): Job {
    j.(retry := j.retry + j.remaining, remaining := [], error := trouble, finished := Some(now),
       state := if trouble == Fine then Succeeded
                else if j.processed > j.failures || j.rows > 0 then Partial else Failed)
  }

  /** The verdict alone. */
  function Verdict(j: Job, trouble: Trouble, now: int): Job {
    j.(error := if trouble == Fine then j.error else trouble, finished := Some(now),
       state := if trouble == Fine then Succeeded
                else if j.processed > j.failures || j.rows > 0 then Partial else Failed)
  }

  /** Restart recovery in Open. */
  function Recovered(j: Job, now: int): Job {
    if j.state == Running
    then j.(state := Interrupted, error := Stopped, finished := Some(now),
            retry := j.retry + j.remaining, remaining := [])
    else j
  }

  /** What is left to do of a job that has ended after |outs| symbols: the failed ones, then those not reached. */
  ghost predicate Planned(j: Job, symbols: seq<Symbol>, outs: seq<Outcome>) {
    && |outs| <= |symbols| && j.processed == |outs| && j.remaining == []
    && j.retry == FailedIn(symbols[..|outs|], outs) + symbols[|outs|..]
  }

  /** What a job is to do: the files a directory walk found, or the symbols a request came to; nothing if the walk
      failed or the source was not reached. */
  datatype Assignment = Import(files: Option<seq<Symbol>>) | Online(resolved: Option<seq<Symbol>>) {
    function Input(): Option<seq<Symbol>> { if Import? then files else resolved }
  }

  predicate NoInput(input: Option<seq<Symbol>>) { input == None || |input.value| == 0 }

  /** The error a job ends with, when it stopped at step k and so many of its steps had failed. */
  function TroubleOf(work: Assignment, totalSaved: bool, outs: seq<Outcome>, k: nat, failures: nat): Trouble
    requires k <= |outs|
  {
    if NoInput(work.Input()) then (if work.Import? then NoFiles else NoSource)
    else if work.Online? && !totalSaved then Unsaved
    else if work.Online? && FiveAt(outs, k) then Breaker
    else if k < |outs| then Cancelled
    else if failures == 0 then Fine
    else if work.Import? then FilesFailed(failures) else SymbolsFailed(failures)
  }

  /** A record of the job before its end. */
  ghost predicate Underway(work: Assignment, j: Job, outs: seq<Outcome>)
    requires work.Input().Some?
  {
    if work.Import? then Imported(j, work.files.value, outs) else Snapshot(j, work.resolved.value, outs)
  }

  /** Its last record: an online job's retry list is its whole plan; an import's lists the files that failed. */
  ghost predicate Concluded(work: Assignment, j: Job, outs: seq<Outcome>)
    requires work.Input().Some?
  {
    if work.Import? then
      Imported(j, work.files.value, outs) && (j.state == Succeeded <==> |outs| == |work.files.value| && j.retry == [])
    else
      Planned(j, work.resolved.value, outs) && (j.state == Succeeded <==> j.retry == [])
  }

  lemma {:induction false} FailedMembers(symbols: seq<Symbol>, outs: seq<Outcome>)
    requires |symbols| == |outs|
    ensures forall i :: 0 <= i < |outs| && outs[i].failed ==> symbols[i] in FailedIn(symbols, outs)
    ensures forall s :: s in FailedIn(symbols, outs) ==>
      exists i :: 0 <= i < |outs| && outs[i].failed && symbols[i] == s
    ensures multiset(FailedIn(symbols, outs)) <= multiset(symbols)
  {
    if symbols != [] {
      var n := |symbols| - 1;
      FailedMembers(symbols[..n], outs[..n]);
      assert symbols == symbols[..n] + [symbols[n]];
      forall i | 0 <= i < |outs| && outs[i].failed ensures symbols[i] in FailedIn(symbols, outs) {
        if i < n {
          assert outs[..n][i] == outs[i] && symbols[..n][i] == symbols[i];
        }
      }
      forall s | s in FailedIn(symbols, outs) ensures exists i :: 0 <= i < |outs| && outs[i].failed && symbols[i] == s {
        if s in FailedIn(symbols[..n], outs[..n]) {
          var i :| 0 <= i < n && outs[..n][i].failed && symbols[..n][i] == s;
          assert outs[i].failed && symbols[i] == s;
        } else {
          assert outs[n].failed && symbols[n] == s;
        }
      }
    }
  }

  /** Each file of an import was stored, or is on the retry list. */
  ghost predicate ImportAccountedFor(j: Job, files: seq<Symbol>, outs: seq<Outcome>, k: nat)
    requires k <= |outs| == |files|
  {
    forall i :: 0 <= i < |files| ==> (i < k && !outs[i].failed) || files[i] in j.retry
  }

  /** Among the first k files one of the same name as file i failed. */
  ghost predicate HasFailedNamesake(files: seq<Symbol>, outs: seq<Outcome>, k: nat, i: nat)
    requires k <= |outs| == |files| && i < |files|
  {
    exists m :: 0 <= m < k && outs[m].failed && files[m] == files[i]
  }

  lemma RetryOfImport(j: Job, files: seq<Symbol>, outs: seq<Outcome>, k: nat, i: nat)
    requires k <= |outs| == |files| && Imported(j, files, outs[..k]) && i < |files|
    ensures files[i] in j.retry <==> HasFailedNamesake(files, outs, k, i)
  {
    FailedMembers(files[..k], outs[..k]);
    if files[i] in j.retry {
      var m :| 0 <= m < k && outs[..k][m].failed && files[..k][m] == files[i];
      assert outs[m].failed && files[m] == files[i];
    }
    if HasFailedNamesake(files, outs, k, i) {
      var m :| 0 <= m < k && outs[m].failed && files[m] == files[i];
      assert outs[..k][m].failed && files[..k][m] == files[i];
    }
  }

  /** An import that stops where the context ends leaves no file out of its retry list exactly when each file not
      reached shares its name with one that failed, which two directories of one tree allow; so for files of
      distinct names exactly when the context did not end before any of them. An online job leaves nothing out. */
  lemma ImportPlanIsComplete(j: Job, files: seq<Symbol>, outs: seq<Outcome>, ended: seq<bool>, k: nat)
    requires k <= |outs| == |ended| == |files| && StopsAt(ended, k) && Imported(j, files, outs[..k])
    ensures ImportAccountedFor(j, files, outs, k)
       <==> forall i :: k <= i < |files| ==> HasFailedNamesake(files, outs, k, i)
    ensures (forall a, b :: 0 <= a < b < |files| ==> files[a] != files[b]) ==>
      (ImportAccountedFor(j, files, outs, k) <==> forall i :: 0 <= i < |files| ==> !ended[i])
  {
    forall i | 0 <= i < |files| ensures files[i] in j.retry <==> HasFailedNamesake(files, outs, k, i) {
      RetryOfImport(j, files, outs, k, i);
    }
    forall i | 0 <= i < k && outs[i].failed ensures files[i] in j.retry {
      assert HasFailedNamesake(files, outs, k, i);
    }
    if ImportAccountedFor(j, files, outs, k) {
      forall i | k <= i < |files| ensures HasFailedNamesake(files, outs, k, i) {
        assert files[i] in j.retry;
      }
      if k < |files| {
        assert HasFailedNamesake(files, outs, k, k);
      }
    }
  }

  /** An import of one file whose context has ended before it: the job does not succeed, and nothing is left to say
      what it did not do. */
  lemma ACancelledImport(j: Job, f: Symbol, o: Outcome, ended: seq<bool>, k: nat)
    requires k <= |ended| && ended == [true] && StopsAt(ended, k) && Concluded(Import(Some([f])), j, [o][..k])
    ensures j.state != Succeeded && j.processed == 0 && j.retry == [] && j.remaining == []
    ensures !ImportAccountedFor(j, [f], [o], k)
  {
    assert ended[0];
    assert [f][0] !in j.retry;
  }

  /** A job and its ledger record; `saved` are the records written so far, in order. */
  class Worker {
    var j: Job
    ghost var saved: seq<Job>

    constructor (job: Job)
      ensures j == job && saved == [job]
    {
      j := job;
      saved := [job];
    }

    /** SaveJob: a failure is only logged. */
    method Save(ok: bool)
      modifies this`saved
      ensures saved == if ok then old(saved) + [j] else old(saved)
    {
      if ok {
        saved := saved + [j];
      }
    }

    method Progress(symbol: Symbol, o: Outcome, saveOk: bool)
      modifies this
      ensures j == Progressed(old(j), symbol, o)
      ensures saved == if saveOk then old(saved) + [j] else old(saved)
    {
      j := j.(processed := j.processed + 1);
      j := j.(rows := j.rows + o.rows);
      if |j.remaining| > 0 {
        j := j.(remaining := j.remaining[1..]);
      }
      if o.failed {
        j := j.(failures := j.failures + 1);
        j := j.(retry := j.retry + [symbol]);
        if |j.errors| < 500 {
          j := j.(errors := j.errors + {symbol});
        }
      }
      Save(saveOk);
    }

    /** Every record from position `from` on is a snapshot of this job. */
    ghost predicate AllSnapshots(from: nat, symbols: seq<Symbol>, outs: seq<Outcome>)
      requires |outs| == |symbols|
      reads this
    {
      forall i :: from <= i < |saved| ==>
        saved[i].processed <= |outs| && Snapshot(saved[i], symbols, outs[..saved[i].processed])
    }

    /** One turn of updateSymbols' loop. */
    method OneSymbol(symbols: seq<Symbol>, outs: seq<Outcome>, i: nat, saveOk: bool, ghost from: nat)
      requires i < |outs| == |symbols| && from <= |saved|
      requires Snapshot(j, symbols, outs[..i]) && AllSnapshots(from, symbols, outs)
      modifies this
      ensures Snapshot(j, symbols, outs[..i + 1]) && AllSnapshots(from, symbols, outs)
      ensures j.failures == old(j.failures) + if outs[i].failed then 1 else 0
      ensures old(saved) <= saved && Identity(j) == Identity(old(j)) && j.error == old(j.error)
    {
      ProgressKeepsSnapshot(j, symbols, outs[..i], outs[i]);
      assert outs[..i] + [outs[i]] == outs[..i + 1];
      Progress(symbols[i], outs[i], saveOk);
    }

    /** updateSymbols: one symbol after the other, until they are done, the context ends, or five in a row
        have failed. What each symbol comes to, when the context ends and which saves succeed is given. */
    method UpdateSymbols(symbols: seq<Symbol>, outs: seq<Outcome>, ended: seq<bool>, saves: seq<bool>)
      returns (trouble: Trouble, ghost k: nat)
      requires |outs| == |ended| == |saves| == |symbols| && Snapshot(j, symbols, [])
      modifies this
      ensures k <= |symbols| && Snapshot(j, symbols, outs[..k])
      ensures Identity(j) == Identity(old(j)) && j.error == old(j.error)
      ensures old(saved) <= saved && AllSnapshots(|old(saved)|, symbols, outs)
      ensures BreaksAt(ended, outs, k)
      ensures trouble == (if FiveAt(outs, k) then Breaker
                          else if k < |symbols| then Cancelled
                          else if j.failures > 0 then SymbolsFailed(j.failures) else Fine)
    {
      var failures := 0;
      var consecutiveFailures := 0;
      ghost var before := saved;
      for i := 0 to |symbols|
        invariant Snapshot(j, symbols, outs[..i]) && failures == j.failures
        invariant Identity(j) == Identity(old(j)) && j.error == old(j.error)
        invariant before <= saved && AllSnapshots(|before|, symbols, outs)
        invariant forall m :: 0 <= m < i ==> !ended[m] && !FiveAt(outs, m)
        invariant Streak(outs, i, consecutiveFailures) && consecutiveFailures < 5
      {
        StreakOrFive(outs, i, consecutiveFailures);
        if ended[i] {
          return Cancelled, i;
        }
        if outs[i].failed {
          failures := failures + 1;
          consecutiveFailures := consecutiveFailures + 1;
        } else {
          consecutiveFailures := 0;
        }
        OneSymbol(symbols, outs, i, saves[i], |before|);
        if consecutiveFailures >= 5 {
          StreakOrFive(outs, i + 1, consecutiveFailures);
          return Breaker, i + 1;
        }
      }
      k := |symbols|;
      StreakOrFive(outs, k, consecutiveFailures);
      trouble := if failures > 0 then SymbolsFailed(failures) else Fine;
    }

    /** Every record from position `from` on is one of this import. */
    ghost predicate AllImports(from: nat, files: seq<Symbol>, outs: seq<Outcome>)
      requires |outs| == |files|
      reads this
    {
      forall i :: from <= i < |saved| ==>
        saved[i].processed <= |outs| && Imported(saved[i], files, outs[..saved[i].processed])
    }

    /** One turn of ImportDirectory's loop. */
    method OneFile(files: seq<Symbol>, outs: seq<Outcome>, i: nat, saveOk: bool, ghost from: nat)
      requires i < |outs| == |files| && from <= |saved|
      requires Imported(j, files, outs[..i]) && AllImports(from, files, outs)
      modifies this
      ensures Imported(j, files, outs[..i + 1]) && AllImports(from, files, outs)
      ensures j.failures == old(j.failures) + if outs[i].failed then 1 else 0
      ensures Identity(j) == Identity(old(j)) && j.state == old(j.state) && j.error == old(j.error)
      ensures old(saved) <= saved
    {
      ProgressKeepsImported(j, files, outs[..i], outs[i]);
      assert outs[..i] + [outs[i]] == outs[..i + 1];
      Progress(files[i], outs[i], saveOk);
    }

    /** ImportDirectory's loop: one file after the other, until they are done or the context ends. */
    method ImportFiles(files: seq<Symbol>, outs: seq<Outcome>, ended: seq<bool>, saves: seq<bool>)
      returns (trouble: Trouble, ghost k: nat)
      requires |outs| == |ended| == |saves| == |files| && Imported(j, files, [])
      modifies this
      ensures k <= |files| && Imported(j, files, outs[..k])
      ensures Identity(j) == Identity(old(j)) && j.state == old(j.state) && j.error == old(j.error)
      ensures old(saved) <= saved && AllImports(|old(saved)|, files, outs)
      ensures StopsAt(ended, k)
      ensures trouble == (if k < |files| then Cancelled
                          else if j.failures > 0 then FilesFailed(j.failures) else Fine)
    {
      var failures := 0;
      ghost var before := saved;
      for i := 0 to |files|
        invariant Imported(j, files, outs[..i]) && failures == j.failures
        invariant Identity(j) == Identity(old(j)) && j.state == old(j.state) && j.error == old(j.error)
        invariant before <= saved && AllImports(|before|, files, outs)
        invariant forall m :: 0 <= m < i ==> !ended[m]
      {
        if ended[i] {
          return Cancelled, i;
        }
        if outs[i].failed {
          failures := failures + 1;
        }
        OneFile(files, outs, i, saves[i], |before|);
      }
      k := |files|;
      trouble := if failures > 0 then FilesFailed(failures) else Fine;
    }

    /** ImportDirectory: a directory that cannot be walked, or holds no file with a symbol's name, is refused. */
    method ImportDirectory(files: Option<seq<Symbol>>, outs: seq<Outcome>, ended: seq<bool>, saves: seq<bool>)
      returns (trouble: Trouble, ghost k: nat)
      requires j == NewJob(j.started, j.date, j.retryOf) && saved == [j]
      requires files.Some? ==> |outs| == |ended| == |saves| == |files.value|
      modifies this
      ensures NoInput(files) ==> trouble == NoFiles && k == 0 && j == old(j) && saved == old(saved)
      ensures !NoInput(files) ==> k <= |outs| && Imported(j, files.value, outs[..k]) && AllImports(1, files.value, outs)
      ensures !NoInput(files) ==> StopsAt(ended, k) && trouble == TroubleOf(Import(files), true, outs, k, j.failures)
      ensures Identity(j) == Identity(old(j)) && j.state == Running && j.error == Fine
      ensures |saved| >= 1 && saved[0] == old(j)
    {
      if files == None || |files.value| == 0 {
        return NoFiles, 0;
      }
      assert Imported(j, files.value, []);
      trouble, k := ImportFiles(files.value, outs, ended, saves);
    }

    /** The end of run: the verdict, and the final record. */
    method Close(trouble: Trouble, now: int, finalSaved: bool)
      modifies this
      ensures j == Verdict(old(j), trouble, now)
      ensures saved == if finalSaved then old(saved) + [j] else old(saved)
    {
      j := j.(state := Succeeded);
      if trouble != Fine {
        j := j.(state := JobState.Failed);
        if j.processed > j.failures || j.rows > 0 {
          j := j.(state := Partial);
        }
        j := j.(error := trouble);
      }
      j := j.(finished := Some(now));
      Save(finalSaved);
    }

    /** Service.run. The environment says whether files can be found or the source reached, which symbols the
        request comes to, and which records get saved. */
    method Run(work: Assignment, totalSaved: bool, outs: seq<Outcome>, ended: seq<bool>, saves: seq<bool>,
               finalSaved: bool, now: int)
      returns (ghost k: nat)
      requires j == NewJob(j.started, j.date, j.retryOf) && saved == [j]
      requires work.Online? && work.resolved.Some? ==> work.resolved.value != []
      requires work.Input().Some? ==> |outs| == |ended| == |saves| == |work.Input().value|
      modifies this
      ensures NoInput(work.Input()) ==> j.state == Failed && j.retry == [] && j.processed == 0
      ensures !NoInput(work.Input()) ==> k <= |outs| && Concluded(work, j, outs[..k])
      ensures !NoInput(work.Input()) ==>
        if work.Import? then StopsAt(ended, k) else if totalSaved then BreaksAt(ended, outs, k) else k == 0
      ensures k <= |outs| && j.error == TroubleOf(work, totalSaved, outs, k, j.failures)
      ensures j.state in {Succeeded, if j.processed > j.failures || j.rows > 0 then Partial else Failed}
      ensures j.state != Running && Identity(j) == Identity(old(j)) && j.finished == Some(now) && j.remaining == []
      ensures |saved| >= 1 && saved[0] == old(j) && (finalSaved ==> saved[|saved| - 1] == j)
      ensures forall i :: 1 <= i < |saved| ==>
        (saved[i] == j && i == |saved| - 1)
        || (!NoInput(work.Input()) && saved[i].processed <= |outs|
            && Underway(work, saved[i], outs[..saved[i].processed]))
    {
      var trouble;
      match work {
        case Import(files) =>
          trouble, k := ImportDirectory(files, outs, ended, saves);
        case Online(resolved) =>
          trouble, k := NoSource, 0;
          if resolved.Some? {
            trouble, k := Work(resolved.value, totalSaved, outs, ended, saves);
            ClosedPlan(j, resolved.value, outs[..k], trouble, now);
            j := j.(retry := j.retry + j.remaining);
            j := j.(remaining := []);
          }
      }
      Close(trouble, now, finalSaved);
    }

    /** The part of run between resolving the symbols and closing the job. */
    method Work(symbols: seq<Symbol>, totalSaved: bool, outs: seq<Outcome>, ended: seq<bool>, saves: seq<bool>)
      returns (trouble: Trouble, ghost k: nat)
      requires j == NewJob(j.started, j.date, j.retryOf) && saved == [j]
      requires symbols != [] && |outs| == |ended| == |saves| == |symbols|
      modifies this
      ensures k <= |symbols| && Snapshot(j, symbols, outs[..k])
      ensures if totalSaved then BreaksAt(ended, outs, k) else k == 0
      ensures trouble == TroubleOf(Online(Some(symbols)), totalSaved, outs, k, j.failures) && j.error == Fine
      ensures trouble == Fine <==> k == |symbols| && j.failures == 0
      ensures |saved| >= 1 && saved[0] == old(j) && AllSnapshots(1, symbols, outs)
      ensures Identity(j) == Identity(old(j))
    {
      j := j.(total := |symbols|);
      j := j.(remaining := symbols);
      assert Snapshot(j, symbols, []) && outs[..0] == [];
      Save(totalSaved);
      if !totalSaved {
        return Unsaved, 0;
      }
      trouble, k := UpdateSymbols(symbols, outs, ended, saves);
      FiveFailuresCount(symbols, outs, k);
    }
  }

  /** Closing a job puts its failed symbols and then the untouched ones on the retry list; the job has succeeded
      exactly when that leaves nothing. */
  lemma ClosedPlan(j: Job, symbols: seq<Symbol>, outs: seq<Outcome>, trouble: Trouble, now: int)
    requires Snapshot(j, symbols, outs)
    requires trouble == Fine <==> |outs| == |symbols| && j.failures == 0
    ensures var c := Closed(j, trouble, now);
      Planned(c, symbols, outs) && (c.state == Succeeded <==> c.retry == []) && c.state != Running
  {
    assert symbols[|outs|..] == [] <==> |outs| == |symbols|;
  }

  /** The same plan comes out of a record found running at restart, whichever of the job's records it is; such a
      job counts as interrupted even when nothing is left to do. */
  lemma RecoveredPlan(j: Job, symbols: seq<Symbol>, outs: seq<Outcome>, now: int)
    requires Snapshot(j, symbols, outs)
    ensures var r := Recovered(j, now);
      && Planned(r, symbols, outs) && r.state == Interrupted
      && (r.retry == [] <==> |outs| == |symbols| && j.failures == 0)
  {
    assert symbols[|outs|..] == [] <==> |outs| == |symbols|;
  }

  /** Nothing asked for gets lost and nothing is added: each symbol went well or is on the retry list, and the
      retry list is made of symbols that were asked for. */
  lemma PlanIsComplete(j: Job, symbols: seq<Symbol>, outs: seq<Outcome>)
    requires Planned(j, symbols, outs)
    ensures forall i :: 0 <= i < |symbols| ==> (i < |outs| && !outs[i].failed) || symbols[i] in j.retry
    ensures multiset(j.retry) <= multiset(symbols)
  {
    var k := |outs|;
    FailedMembers(symbols[..k], outs);
    assert symbols == symbols[..k] + symbols[k..];
    forall i | 0 <= i < |symbols| ensures (i < |outs| && !outs[i].failed) || symbols[i] in j.retry {
      if i < k {
        assert symbols[..k][i] == symbols[i];
      } else {
        assert symbols[k..][i - k] == symbols[i];
      }
    }
  }

  lemma {:induction false} FailureShows(symbols: seq<Symbol>, outs: seq<Outcome>, i: nat)
    requires |symbols| == |outs| && i < |outs| && outs[i].failed
    ensures FailedIn(symbols, outs) != []
  {
    FailedMembers(symbols, outs);
    assert symbols[i] in FailedIn(symbols, outs);
  }

  lemma FiveFailuresCount(symbols: seq<Symbol>, outs: seq<Outcome>, k: nat)
    requires |symbols| == |outs| && k <= |outs|
    ensures FiveAt(outs, k) ==> |FailedIn(symbols[..k], outs[..k])| > 0
  {
    if FiveAt(outs, k) {
      assert outs[..k][k - 1].failed;
      FailureShows(symbols[..k], outs[..k], k - 1);
    }
  }

  /** The c outcomes before position i, and no more, are failures. */
  ghost predicate Streak(outs: seq<Outcome>, i: nat, c: nat) {
    && c <= i <= |outs|
    && (forall m :: i - c <= m < i ==> outs[m].failed)
    && (c < i ==> !outs[i - c - 1].failed)
  }

  lemma StreakOrFive(outs: seq<Outcome>, i: nat, c: nat)
    requires Streak(outs, i, c) && c <= 5
    ensures FiveAt(outs, i) <==> c == 5
  {
    if i >= 5 && c < 5 {
      assert i - 5 <= i - c - 1 < i;
    }
  }
}
