/** Matching responses to calls on one connection (extend/tcpserver/client.go). Callers, the read loop and
    Close run concurrently; what each does under the mutex, or in one channel operation, is one step. */
module TcpClient {
  import opened Results
  import Sorting

  /** A response frame; its id may be any text the server sends. */
  datatype Response = Response(id: string, body: nat)

  datatype Outcome = Got(resp: Response) | WriteFailed | Cancelled | Terminal

  /** Where a Call is: holding a number, registered, waiting, about to withdraw, or returned. */
  datatype Phase = Numbered | Registered | Waiting | Withdrawing(why: Outcome) | Returned(how: Outcome)

  /** A call, with its sequence number and its channel of capacity one. */
  datatype Call = Call(n: nat, phase: Phase, chan: Option<Response>)

  datatype Reader = Reading | Delivering(resp: Response, to: nat) | Stopped

  datatype State = State(seqNo: nat, pending: map<string, nat>, done: bool, calls: map<nat, Call>, reader: Reader)

  const INITIAL := State(0, map[], false, map[], Reading)

  /** fmt.Sprintf("%d", n). */
  function Decimal(n: nat): string {
    if n < 10 then [Digit(n)] else Decimal(n / 10) + [Digit(n % 10)]
  }

  function Digit(d: nat): char
    requires d < 10
  {
    "0123456789"[d]
  }

  lemma {:induction false} DecimalIsInjective(a: nat, b: nat)
    ensures Decimal(a) == Decimal(b) ==> a == b
    decreases a
  {
    if Decimal(a) == Decimal(b) {
      var s, t := Decimal(a), Decimal(b);
      assert |Decimal(a)| >= 1 && |Decimal(b)| >= 1;
      assert s[|s| - 1] == Digit(a % 10) && t[|t| - 1] == Digit(b % 10);
      DigitIsInjective(a % 10, b % 10);
      DecimalIsNotEmpty(a / 10);
      DecimalIsNotEmpty(b / 10);
      if a >= 10 && b >= 10 {
        assert s[..|s| - 1] == Decimal(a / 10) && t[..|t| - 1] == Decimal(b / 10);
        DecimalIsInjective(a / 10, b / 10);
      }
    }
  }

  /** The number that decimal digits stand for. */
  function ValueOf(s: string): int {
    if s == "" then 0 else 10 * ValueOf(s[..|s| - 1]) + (s[|s| - 1] as int - '0' as int)
  }

  /** An id is made of digits, and stands for its number. */
  lemma {:induction false} DecimalStandsFor(n: nat)
    ensures ValueOf(Decimal(n)) == n && forall i :: 0 <= i < |Decimal(n)| ==> '0' <= Decimal(n)[i] <= '9'
  {
    var s := Decimal(n);
    DigitIsDigit(n % 10);
    if n >= 10 {
      DecimalStandsFor(n / 10);
      assert s[..|s| - 1] == Decimal(n / 10);
    } else {
      assert s[..0] == "";
    }
  }

  lemma DigitIsDigit(d: nat)
    requires d < 10
    ensures '0' <= Digit(d) <= '9' && Digit(d) as int - '0' as int == d
  {
  }

  lemma DecimalIsNotEmpty(n: nat)
    ensures |Decimal(n)| >= 1 && (n >= 10 ==> |Decimal(n)| >= 2)
  {
    if n >= 10 {
      DecimalIsNotEmpty(n / 10);
    }
  }

  lemma DigitIsInjective(a: nat, b: nat)
    requires a < 10 && b < 10 && Digit(a) == Digit(b)
    ensures a == b
  {
  }

  function IdOf(c: Call): string { Decimal(c.n) }

  // ---------------------------------------------------------------- the critical sections

  /** Call's registration: refused once the client is done. */
  function AfterRegister(pending: map<string, nat>, done: bool, id: string, k: nat): map<string, nat> {
    if done then pending else pending[id := k]
  }

  function AfterRemove(pending: map<string, nat>, id: string): map<string, nat> { pending - {id} }

  function AfterShutdown(pending: map<string, nat>, done: bool): map<string, nat> {
    if done then pending else map[]
  }

  // ---------------------------------------------------------------- steps

  datatype Action =
    | Begin(k: nat)
    | Register(k: nat)
    | Write(k: nat, ok: bool)
    | Receive(k: nat)
    | Cancel(k: nat)
    | Withdraw(k: nat)
    | SeeDone(k: nat)
    | Read(resp: Response)
    | Send
    | ReadError
    | Close

  predicate InPhase(s: State, k: nat, p: Phase) { k in s.calls && s.calls[k].phase == p }

  predicate Enabled(s: State, a: Action) {
    match a
    case Begin(k) => k !in s.calls
    case Register(k) => InPhase(s, k, Numbered)
    case Write(k, ok) => InPhase(s, k, Registered)
    case Receive(k) => InPhase(s, k, Waiting) && s.calls[k].chan.Some?
    case Cancel(k) => InPhase(s, k, Waiting)
    case Withdraw(k) => k in s.calls && s.calls[k].phase.Withdrawing?
    case SeeDone(k) => InPhase(s, k, Waiting) && s.done
    case Read(resp) => s.reader == Reading
    case Send => s.reader.Delivering? && s.reader.to in s.calls && s.calls[s.reader.to].chan == None
    case ReadError => s.reader == Reading
    case Close => true
  }

  function Put(s: State, k: nat, c: Call): State { s.(calls := s.calls[k := c]) }

  function Step(s: State, a: Action): State
    requires Enabled(s, a)
  {
    match a
    case Begin(k) => s.(seqNo := s.seqNo + 1, calls := s.calls[k := Call(s.seqNo + 1, Numbered, None)])
    case Register(k) =>
      var c := s.calls[k];
      Put(s.(pending := AfterRegister(s.pending, s.done, IdOf(c), k)), k,
          c.(phase := if s.done then Returned(Terminal) else Registered))
    case Write(k, ok) => Put(s, k, s.calls[k].(phase := if ok then Waiting else Withdrawing(WriteFailed)))
    case Receive(k) => Put(s, k, Call(s.calls[k].n, Returned(Got(s.calls[k].chan.value)), None))
    case Cancel(k) => Put(s, k, s.calls[k].(phase := Withdrawing(Cancelled)))
    case Withdraw(k) =>
      var c := s.calls[k];
      Put(s.(pending := AfterRemove(s.pending, IdOf(c))), k, c.(phase := Returned(c.phase.why)))
    case SeeDone(k) => Put(s, k, s.calls[k].(phase := Returned(Terminal)))
    case Read(resp) =>
      s.(pending := AfterRemove(s.pending, resp.id),
         reader := if resp.id in s.pending then Delivering(resp, s.pending[resp.id]) else Reading)
    case Send => Put(s.(reader := Reading), s.reader.to, s.calls[s.reader.to].(chan := Some(s.reader.resp)))
    case ReadError => s.(pending := AfterShutdown(s.pending, s.done), done := true, reader := Stopped)
    case Close => s.(pending := AfterShutdown(s.pending, s.done), done := true)
  }

  // ---------------------------------------------------------------- the invariant

  predicate Served(s: State, k: nat)
    requires k in s.calls
  {
    s.calls[k].chan.Some? || (s.reader.Delivering? && s.reader.to == k)
    || (s.calls[k].phase.Returned? && s.calls[k].phase.how.Got?)
  }

  /** One call: its number is taken, it is served at most once and only with its own id, and as long as it
      waits on an open client somebody still owes it an answer. */
  ghost predicate CallOk(s: State, k: nat)
    requires k in s.calls
  {
    var c := s.calls[k];
    && 1 <= c.n <= s.seqNo
    && (IdOf(c) in s.pending ==>
          s.pending[IdOf(c)] == k && !Served(s, k)
          && (c.phase == Registered || c.phase == Waiting || c.phase.Withdrawing?))
    && (c.phase == Numbered ==> !Served(s, k))
    && (c.chan.Some? ==> c.chan.value.id == IdOf(c) && !(c.phase.Returned? && c.phase.how.Got?))
    && (c.phase.Returned? && c.phase.how.Got? ==> c.phase.how.resp.id == IdOf(c))
    && ((c.phase == Registered || c.phase == Waiting) && !s.done ==> IdOf(c) in s.pending || Served(s, k))
    && (c.phase.Withdrawing? ==> !c.phase.why.Got?)
  }

  ghost predicate ReaderOk(s: State) {
    s.reader.Delivering? ==>
      s.reader.to in s.calls && s.reader.resp.id == IdOf(s.calls[s.reader.to])
      && s.calls[s.reader.to].chan == None
      && !(s.calls[s.reader.to].phase.Returned? && s.calls[s.reader.to].phase.how.Got?)
  }

  ghost predicate Inv(s: State) {
    && (forall k :: k in s.calls ==> CallOk(s, k))
    && (forall k, m :: k in s.calls && m in s.calls && k != m ==> s.calls[k].n != s.calls[m].n)
    && (forall id :: id in s.pending ==> s.pending[id] in s.calls && IdOf(s.calls[s.pending[id]]) == id)
    && (s.done ==> s.pending == map[])
    && ReaderOk(s)
  }

  /** Different calls have different ids. */
  lemma IdsDiffer(s: State, k: nat, m: nat)
    requires Inv(s) && k in s.calls && m in s.calls && k != m
    ensures IdOf(s.calls[k]) != IdOf(s.calls[m])
  {
    DecimalIsInjective(s.calls[k].n, s.calls[m].n);
  }

  ghost predicate IdsAllDiffer(s: State) {
    forall k, m :: k in s.calls && m in s.calls && k != m ==> IdOf(s.calls[k]) != IdOf(s.calls[m])
  }

  lemma AllIdsDiffer(s: State)
    requires Inv(s)
    ensures IdsAllDiffer(s)
  {
    forall k, m | k in s.calls && m in s.calls && k != m ensures IdOf(s.calls[k]) != IdOf(s.calls[m]) {
      IdsDiffer(s, k, m);
    }
  }

  lemma BeginKeepsInv(s: State, k: nat)
    requires Inv(s) && IdsAllDiffer(s) && Enabled(s, Action.Begin(k))
    ensures Inv(Step(s, Action.Begin(k)))
  {
    var t := Step(s, Action.Begin(k));
    forall m | m in s.calls ensures IdOf(s.calls[m]) != Decimal(s.seqNo + 1) {
      DecimalIsInjective(s.calls[m].n, s.seqNo + 1);
    }
    assert CallOk(t, k);
    forall m | m in t.calls && m != k ensures CallOk(t, m) {
      assert CallOk(s, m);
    }
  }

  /** Apart from one call, and one id in the pending map, two states are the same. */
  ghost predicate SameBut(s: State, t: State, k: nat)
    requires k in s.calls
  {
    && k in t.calls && t.calls == s.calls[k := t.calls[k]] && t.calls[k].n == s.calls[k].n
    && t.seqNo == s.seqNo && t.done == s.done && t.reader == s.reader
    && t.pending - {IdOf(s.calls[k])} == s.pending - {IdOf(s.calls[k])}
    && (t.done ==> t.pending == map[])
  }

  /** A step of one call's own need only be right for that call. */
  lemma OneCallChanges(s: State, t: State, k: nat)
    requires Inv(s) && IdsAllDiffer(s) && k in s.calls && SameBut(s, t, k) && CallOk(t, k) && ReaderOk(t)
    ensures Inv(t)
  {
    var id := IdOf(s.calls[k]);
    forall m | m in t.calls && m != k ensures CallOk(t, m) {
      OthersStay(s, t, k, m);
    }
    forall i | i in t.pending ensures t.pending[i] in t.calls && IdOf(t.calls[t.pending[i]]) == i {
      if i != id {
        assert i in t.pending - {id} && i in s.pending;
      }
    }
  }

  lemma OthersStay(s: State, t: State, k: nat, m: nat)
    requires Inv(s) && IdsAllDiffer(s) && k in s.calls && SameBut(s, t, k) && m in s.calls && m != k
    ensures CallOk(t, m)
  {
    var id, other := IdOf(s.calls[k]), IdOf(s.calls[m]);
    assert CallOk(s, m) && other != id;
    assert other in t.pending <==> other in t.pending - {id};
    assert other in s.pending <==> other in s.pending - {id};
    if other in s.pending {
      assert (s.pending - {id})[other] == (t.pending - {id})[other];
    }
  }

  /** The steps a call takes itself. */
  predicate Own(a: Action, k: nat) {
    a == Register(k) || a == Write(k, true) || a == Write(k, false) || a == Receive(k)
    || a == Cancel(k) || a == Withdraw(k) || a == SeeDone(k)
  }

  lemma OwnIsItsOwn(s: State, a: Action, k: nat)
    requires k in s.calls && (s.done ==> s.pending == map[]) && Enabled(s, a) && Own(a, k)
    ensures SameBut(s, Step(s, a), k)
  {
    var id := IdOf(s.calls[k]);
    assert s.pending[id := k] - {id} == s.pending - {id};
    assert AfterRemove(s.pending, id) - {id} == s.pending - {id};
  }

  lemma OwnIsRight(s: State, a: Action, k: nat)
    requires k in s.calls && CallOk(s, k) && ReaderOk(s) && (s.done ==> s.pending == map[])
    requires Enabled(s, a) && Own(a, k)
    ensures CallOk(Step(s, a), k) && ReaderOk(Step(s, a))
  {
  }

  lemma OwnKeepsInv(s: State, a: Action, k: nat)
    requires Inv(s) && IdsAllDiffer(s) && Enabled(s, a) && Own(a, k)
    ensures Inv(Step(s, a))
  {
    OwnIsItsOwn(s, a, k);
    OwnIsRight(s, a, k);
    OneCallChanges(s, Step(s, a), k);
  }

  lemma ReadKeepsInv(s: State, resp: Response)
    requires Inv(s) && IdsAllDiffer(s) && Enabled(s, Action.Read(resp))
    ensures Inv(Step(s, Action.Read(resp)))
  {
    var t := Step(s, Action.Read(resp));
    if resp.id in s.pending {
      var to := s.pending[resp.id];
      assert CallOk(s, to) && IdOf(s.calls[to]) == resp.id;
      assert CallOk(t, to);
      forall k | k in t.calls && k != to ensures CallOk(t, k) {
        assert CallOk(s, k) && IdOf(s.calls[k]) != resp.id;
      }
    } else {
      assert t.pending == s.pending;
      assert t == s;
    }
  }

  lemma SendKeepsInv(s: State)
    requires Inv(s) && IdsAllDiffer(s) && Enabled(s, Action.Send)
    ensures Inv(Step(s, Action.Send))
  {
  }

  lemma ReadErrorKeepsInv(s: State)
    requires Inv(s) && IdsAllDiffer(s) && Enabled(s, Action.ReadError)
    ensures Inv(Step(s, Action.ReadError))
  {
  }

  lemma CloseKeepsInv(s: State)
    requires Inv(s) && IdsAllDiffer(s) && Enabled(s, Action.Close)
    ensures Inv(Step(s, Action.Close))
  {
  }

  lemma StepKeepsInv(s: State, a: Action)
    requires Inv(s) && Enabled(s, a)
    ensures Inv(Step(s, a))
  {
    AllIdsDiffer(s);
    match a
    case Begin(k) => BeginKeepsInv(s, k);
    case Register(k) => OwnKeepsInv(s, a, k);
    case Write(k, ok) => OwnKeepsInv(s, a, k);
    case Receive(k) => OwnKeepsInv(s, a, k);
    case Cancel(k) => OwnKeepsInv(s, a, k);
    case Withdraw(k) => OwnKeepsInv(s, a, k);
    case SeeDone(k) => OwnKeepsInv(s, a, k);
    case Read(resp) => ReadKeepsInv(s, resp);
    case Send => SendKeepsInv(s);
    case ReadError => ReadErrorKeepsInv(s);
    case Close => CloseKeepsInv(s);
  }

  // ---------------------------------------------------------------- the program's sections

  /** The client. The mutex guards pending, done and err; which call is where, and what the read loop holds,
      is kept beside them as ghost state. */
  class Client {
    var seqNo: nat
    var pending: map<string, nat>
    var done: bool
    var err: Option<string>
    ghost var calls: map<nat, Call>
    ghost var reader: Reader

    constructor ()
      ensures View() == INITIAL && Inv(View()) && err == None
    {
      seqNo, pending, done, err, calls, reader := 0, map[], false, None, map[], Reading;
    }

    ghost function View(): State
      reads this
    {
      State(seqNo, pending, done, calls, reader)
    }

    /** Call: the next number. */
    method NextId(ghost k: nat) returns (id: string)
      requires Inv(View()) && Enabled(View(), Action.Begin(k))
      modifies this`seqNo, this`calls
      ensures View() == Step(old(View()), Action.Begin(k)) && Inv(View()) && id == IdOf(calls[k])
    {
      StepKeepsInv(View(), Action.Begin(k));
      seqNo := seqNo + 1;
      id := Decimal(seqNo);
      calls := calls[k := Call(seqNo, Numbered, None)];
    }

    /** Call: registration, refused once the client is done. */
    method Register(id: string, k: nat) returns (ok: bool)
      requires Inv(View()) && Enabled(View(), Action.Register(k)) && id == IdOf(calls[k])
      modifies this`pending, this`calls
      ensures View() == Step(old(View()), Action.Register(k)) && Inv(View()) && ok == !done
    {
      StepKeepsInv(View(), Action.Register(k));
      ghost var s := View();
      ok := !done;
      if ok {
        pending := pending[id := k];
      }
      calls := calls[k := calls[k].(phase := if done then Returned(Terminal) else Registered)];
      assert View() == Step(s, Action.Register(k));
    }

    /** Call: the frame written, or not. */
    ghost method Wrote(k: nat, ok: bool)
      requires Inv(View()) && Enabled(View(), Action.Write(k, ok))
      modifies this`calls
      ensures View() == Step(old(View()), Action.Write(k, ok)) && Inv(View())
    {
      StepKeepsInv(View(), Action.Write(k, ok));
      calls := calls[k := calls[k].(phase := if ok then Waiting else Withdrawing(WriteFailed))];
    }

    /** Call: the response taken from the channel. */
    ghost method Received(k: nat, resp: Response)
      requires Inv(View()) && Enabled(View(), Action.Receive(k)) && calls[k].chan == Some(resp)
      modifies this`calls
      ensures View() == Step(old(View()), Action.Receive(k)) && Inv(View()) && resp.id == IdOf(calls[k])
    {
      StepKeepsInv(View(), Action.Receive(k));
      assert CallOk(View(), k);
      calls := calls[k := Call(calls[k].n, Returned(Got(resp)), None)];
    }

    /** Call: given up by its context. */
    ghost method GivesUp(k: nat)
      requires Inv(View()) && Enabled(View(), Action.Cancel(k))
      modifies this`calls
      ensures View() == Step(old(View()), Action.Cancel(k)) && Inv(View())
    {
      StepKeepsInv(View(), Action.Cancel(k));
      calls := calls[k := calls[k].(phase := Withdrawing(Cancelled))];
    }

    /** remove. */
    method Remove(id: string, ghost k: nat)
      requires Inv(View()) && Enabled(View(), Action.Withdraw(k)) && id == IdOf(calls[k])
      modifies this`pending, this`calls
      ensures View() == Step(old(View()), Action.Withdraw(k)) && Inv(View())
    {
      StepKeepsInv(View(), Action.Withdraw(k));
      pending := pending - {id};
      calls := calls[k := calls[k].(phase := Returned(calls[k].phase.why))];
    }

    /** terminalError: the error of a client that is done, none of its own standing for "closed". */
    method TerminalError(ghost k: nat) returns (e: Option<string>)
      requires Inv(View()) && Enabled(View(), Action.SeeDone(k))
      modifies this`calls
      ensures View() == Step(old(View()), Action.SeeDone(k)) && Inv(View()) && e == err
    {
      StepKeepsInv(View(), Action.SeeDone(k));
      calls := calls[k := calls[k].(phase := Returned(Terminal))];
      e := err;
    }

    /** readLoop: whoever waits for the id is taken out of the map. */
    method Take(resp: Response) returns (ch: Option<nat>)
      requires Inv(View()) && Enabled(View(), Action.Read(resp))
      modifies this`pending, this`reader
      ensures View() == Step(old(View()), Action.Read(resp)) && Inv(View())
      ensures reader == if ch.Some? then Delivering(resp, ch.value) else Reading
    {
      StepKeepsInv(View(), Action.Read(resp));
      ch := if resp.id in pending then Some(pending[resp.id]) else None;
      pending := pending - {resp.id};
      reader := if ch.Some? then Delivering(resp, ch.value) else Reading;
    }

    /** readLoop: the send, which finds room in the channel. */
    ghost method Deliver(resp: Response, ch: nat)
      requires Inv(View()) && reader == Delivering(resp, ch)
      modifies this`calls, this`reader
      ensures Enabled(old(View()), Action.Send) && View() == Step(old(View()), Action.Send) && Inv(View())
    {
      StepKeepsInv(View(), Action.Send);
      calls := calls[ch := calls[ch].(chan := Some(resp))];
      reader := Reading;
    }

    /** shutdown, called by Close or by the read loop on its way out: only the first call has an effect. */
    method Shutdown(e: Option<string>, ghost byReader: bool)
      requires Inv(View()) && (byReader ==> reader == Reading)
      modifies this`pending, this`done, this`err, this`reader
      ensures View() == Step(old(View()), if byReader then ReadError else Action.Close) && Inv(View())
      ensures err == if old(done) then old(err) else e
    {
      StepKeepsInv(View(), if byReader then ReadError else Action.Close);
      if !done {
        err, done, pending := e, true, map[];
      }
      if byReader {
        reader := Stopped;
      }
    }
  }

  // ---------------------------------------------------------------- every run

  /** A run of the client: states[i] is the state before acts[i]. */
  ghost predicate Trace(states: seq<State>, acts: seq<Action>) {
    && |states| == |acts| + 1 && states[0] == INITIAL
    && forall i :: 0 <= i < |acts| ==> Enabled(states[i], acts[i]) && states[i + 1] == Step(states[i], acts[i])
  }

  lemma {:induction false} TraceKeepsInv(states: seq<State>, acts: seq<Action>, i: nat)
    requires Trace(states, acts) && i < |states|
    ensures Inv(states[i])
  {
    if i > 0 {
      TraceKeepsInv(states, acts, i - 1);
      StepKeepsInv(states[i - 1], acts[i - 1]);
    }
  }

  /** In every run: a call that got a response sent the id the response carries, no two calls got responses
      with the same id, and the read loop never waits to hand a response over. */
  lemma ResponsesReachTheirCalls(states: seq<State>, acts: seq<Action>, i: nat)
    requires Trace(states, acts) && i < |states|
    ensures var s := states[i];
      && (forall k, r :: InPhase(s, k, Returned(Got(r))) ==> r.id == IdOf(s.calls[k]))
      && (forall k, m, r, q :: k != m && InPhase(s, k, Returned(Got(r))) && InPhase(s, m, Returned(Got(q))) ==>
            r.id != q.id)
      && (s.reader.Delivering? ==> Enabled(s, Send))
  {
    TraceKeepsInv(states, acts, i);
    AllIdsDiffer(states[i]);
  }

  /** Before step i the read loop read this very response. */
  ghost predicate WasRead(acts: seq<Action>, i: nat, resp: Response)
    requires i <= |acts|
  {
    exists j :: 0 <= j < i && acts[j] == Read(resp)
  }

  /** What is on its way to a call, in its channel or returned by it, was read. */
  ghost predicate AllRead(s: State, acts: seq<Action>, i: nat)
    requires i <= |acts|
  {
    && (s.reader.Delivering? ==> WasRead(acts, i, s.reader.resp))
    && (forall k :: k in s.calls && s.calls[k].chan.Some? ==> WasRead(acts, i, s.calls[k].chan.value))
    && (forall k :: k in s.calls && s.calls[k].phase.Returned? && s.calls[k].phase.how.Got? ==>
          WasRead(acts, i, s.calls[k].phase.how.resp))
  }

  lemma StillRead(s: State, acts: seq<Action>, i: nat)
    requires i < |acts| && AllRead(s, acts, i)
    ensures AllRead(s, acts, i + 1)
  {
    forall resp | WasRead(acts, i, resp) ensures WasRead(acts, i + 1, resp) {
      var j :| 0 <= j < i && acts[j] == Read(resp);
    }
  }

  lemma StepIsRead(s: State, acts: seq<Action>, i: nat)
    requires i < |acts| && Inv(s) && Enabled(s, acts[i]) && AllRead(s, acts, i + 1)
    ensures AllRead(Step(s, acts[i]), acts, i + 1)
  {
    if acts[i].Read? {
      assert WasRead(acts, i + 1, acts[i].resp);
    }
    if acts[i].Withdraw? {
      assert CallOk(s, acts[i].k);
    }
  }

  lemma {:induction false} AllWasRead(states: seq<State>, acts: seq<Action>, i: nat)
    requires Trace(states, acts) && i < |states|
    ensures AllRead(states[i], acts, i)
  {
    if i > 0 {
      AllWasRead(states, acts, i - 1);
      TraceKeepsInv(states, acts, i - 1);
      StillRead(states[i - 1], acts, i - 1);
      StepIsRead(states[i - 1], acts, i - 1);
    }
  }

  /** In every run: the response a call returned with, body and all, is one that the read loop had read. */
  lemma ResponsesAreDeliveredAsRead(states: seq<State>, acts: seq<Action>, i: nat, k: nat, resp: Response)
    requires Trace(states, acts) && i < |states| && InPhase(states[i], k, Returned(Got(resp)))
    ensures exists j :: 0 <= j < i && acts[j] == Read(resp)
  {
    AllWasRead(states, acts, i);
    assert WasRead(acts, i, resp);
  }

  /** In every run: on an open client, a call that waits is registered or its response is already on the way to
      it, so none is forgotten. */
  lemma NobodyIsForgotten(states: seq<State>, acts: seq<Action>, i: nat, k: nat)
    requires Trace(states, acts) && i < |states| && InPhase(states[i], k, Waiting) && !states[i].done
    ensures var s := states[i];
      (IdOf(s.calls[k]) in s.pending && s.pending[IdOf(s.calls[k])] == k)
      || s.calls[k].chan.Some? || (s.reader.Delivering? && s.reader.to == k)
  {
    TraceKeepsInv(states, acts, i);
  }

  /** Once shut down, a client stays so and nothing is ever registered again. */
  lemma {:induction false} DoneIsForGood(states: seq<State>, acts: seq<Action>, i: nat, j: nat)
    requires Trace(states, acts) && i <= j < |states| && states[i].done
    ensures states[j].done && states[j].pending == map[]
  {
    if i < j {
      DoneIsForGood(states, acts, i, j - 1);
    }
    TraceKeepsInv(states, acts, j);
  }

  /** How many steps of its own a call has left, at most. */
  function Rank(p: Phase): nat {
    match p
    case Numbered => 4
    case Registered => 3
    case Waiting => 2
    case Withdrawing(_) => 1
    case Returned(_) => 0
  }

  lemma OneStepCloser(s: State, a: Action, k: nat)
    requires Enabled(s, a) && k in s.calls
    ensures k in Step(s, a).calls
    ensures Rank(Step(s, a).calls[k].phase) + (if Own(a, k) then 1 else 0) <= Rank(s.calls[k].phase)
    ensures s.calls[k].phase.Returned? ==> Step(s, a).calls[k].phase == s.calls[k].phase
  {
  }

  /** How many of the steps i..j of a run a call took itself. */
  function OwnSteps(acts: seq<Action>, k: nat, i: nat, j: nat): nat
    requires i <= j <= |acts|
  {
    if i == j then 0 else OwnSteps(acts, k, i, j - 1) + if Own(acts[j - 1], k) then 1 else 0
  }

  /** In every run: each step of its own brings a call closer to its return, nothing anybody else does takes it
      further away, and what it returned with stands. So it returns after at most four steps of its own. */
  lemma {:induction false} FourStepsAtMost(states: seq<State>, acts: seq<Action>, k: nat, i: nat, j: nat)
    requires Trace(states, acts) && i <= j < |states| && k in states[i].calls
    ensures k in states[j].calls
    ensures Rank(states[j].calls[k].phase) + OwnSteps(acts, k, i, j) <= Rank(states[i].calls[k].phase)
    ensures OwnSteps(acts, k, i, j) >= 4 ==> states[j].calls[k].phase.Returned?
    ensures states[i].calls[k].phase.Returned? ==> states[j].calls[k].phase == states[i].calls[k].phase
  {
    if i < j {
      FourStepsAtMost(states, acts, k, i, j - 1);
      OneStepCloser(states[j - 1], acts[j - 1], k);
    }
  }

  /** Steps taken one after the other from a state. */
  ghost predicate Allowed(s: State, acts: seq<Action>)
    decreases |acts|
  {
    acts == [] || (Enabled(s, acts[0]) && Allowed(Step(s, acts[0]), acts[1..]))
  }

  ghost function After(s: State, acts: seq<Action>): State
    requires Allowed(s, acts)
    decreases |acts|
  {
    if acts == [] then s else After(Step(s, acts[0]), acts[1..])
  }

  lemma {:induction false} AfterInTwo(s: State, xs: seq<Action>, ys: seq<Action>)
    requires Allowed(s, xs) && Allowed(After(s, xs), ys)
    ensures Allowed(s, xs + ys) && After(s, xs + ys) == After(After(s, xs), ys)
    decreases |xs|
  {
    if xs == [] {
      assert xs + ys == ys;
    } else {
      assert (xs + ys)[1..] == xs[1..] + ys;
      AfterInTwo(Step(s, xs[0]), xs[1..], ys);
    }
  }

  /** Nothing but one call has moved. */
  ghost predicate OnlyMoves(s: State, t: State, k: nat) {
    s.calls.Keys == t.calls.Keys && (forall m :: m in s.calls && m != k ==> t.calls[m] == s.calls[m])
  }

  /** On a client that is done, one call can return without waiting for anybody. */
  lemma {:induction false} CallReturns(s: State, k: nat) returns (acts: seq<Action>)
    requires s.done && k in s.calls
    ensures Allowed(s, acts)
    ensures var t := After(s, acts); t.done && OnlyMoves(s, t, k) && t.calls[k].phase.Returned?
    decreases Rank(s.calls[k].phase)
  {
    if s.calls[k].phase.Returned? {
      return [];
    }
    var a := match s.calls[k].phase
      case Numbered => Register(k)
      case Registered => Write(k, false)
      case Waiting => SeeDone(k)
      case _ => Withdraw(k);
    OneStepCloser(s, a, k);
    var rest := CallReturns(Step(s, a), k);
    acts := [a] + rest;
    assert acts[1..] == rest;
  }

  ghost function Unreturned(s: State): set<nat> { set k | k in s.calls && !s.calls[k].phase.Returned? }

  lemma {:induction false} AllReturn(s: State) returns (acts: seq<Action>)
    requires s.done
    ensures Allowed(s, acts)
    ensures forall k :: k in s.calls ==> k in After(s, acts).calls && After(s, acts).calls[k].phase.Returned?
    decreases Unreturned(s)
  {
    if Unreturned(s) == {} {
      acts := [];
      forall k | k in s.calls ensures s.calls[k].phase.Returned? {
        assert k !in Unreturned(s);
      }
    } else {
      var k := Sorting.AnyMember(Unreturned(s));
      var first := CallReturns(s, k);
      var t := After(s, first);
      assert Unreturned(t) == Unreturned(s) - {k};
      var rest := AllReturn(t);
      AfterInTwo(s, first, rest);
      acts := first + rest;
    }
  }

  /** From every state a run can reach after shutdown, whatever anybody was doing then, the calls can go on by
      themselves until all of them have returned; and those that had returned keep what they returned with. */
  lemma EverybodyCanReturn(states: seq<State>, acts: seq<Action>, i: nat) returns (more: seq<Action>)
    requires Trace(states, acts) && i < |states| && states[i].done
    ensures Allowed(states[i], more) && Inv(After(states[i], more))
    ensures var t := After(states[i], more);
      && (forall k :: k in states[i].calls ==> k in t.calls && t.calls[k].phase.Returned?)
      && (forall k :: k in states[i].calls && states[i].calls[k].phase.Returned? ==>
            t.calls[k].phase == states[i].calls[k].phase)
  {
    more := AllReturn(states[i]);
    TraceKeepsInv(states, acts, i);
    StaysReturned(states[i], more);
  }

  lemma {:induction false} StaysReturned(s: State, acts: seq<Action>)
    requires Inv(s) && Allowed(s, acts)
    ensures Inv(After(s, acts))
    ensures forall k :: k in s.calls && s.calls[k].phase.Returned? ==>
      k in After(s, acts).calls && After(s, acts).calls[k].phase == s.calls[k].phase
    decreases |acts|
  {
    if acts != [] {
      StepKeepsInv(s, acts[0]);
      forall k | k in s.calls ensures k in Step(s, acts[0]).calls
        && (s.calls[k].phase.Returned? ==> Step(s, acts[0]).calls[k].phase == s.calls[k].phase)
      {
        OneStepCloser(s, acts[0], k);
      }
      StaysReturned(Step(s, acts[0]), acts[1..]);
    }
  }
}
