/** The residence bound is reached: a clocked run in which the listener holds one pair for
    the accept timeout, one handshake and one closing. Sixty-four connections fill the slots
    and are never accepted; the next one waits for a slot until its context is done, gets one
    at that very moment, and its handshake succeeds as late as it can, again for nobody. */
module AcceptTightness {
  import opened Sums
  import opened AcceptPipeline
  import opened AcceptTiming

  ghost predicate Leads(s: State, t: State, bounds: Bounds)
  {
    exists acts :: TimedExecution(acts, s, t, bounds)
  }

  lemma Stay(s: State, bounds: Bounds)
    ensures Leads(s, s, bounds)
  {
    assert TimedExecution([], s, s, bounds);
  }

  lemma {:induction false} StepLast(acts: seq<Action>, s: State, t: State, a: Action, bounds: Bounds)
    requires TimedExecution(acts, s, t, bounds) && Enabled(t, a) && (a.Tick? ==> MayTick(t, bounds))
    ensures TimedExecution(acts + [a], s, Apply(t, a), bounds)
    decreases |acts|
  {
    if acts == [] {
      StepFirst(s, a, [], Apply(s, a), bounds);
      assert acts + [a] == [a] + [];
    } else {
      StepLast(acts[1..], Apply(s, acts[0]), t, a, bounds);
      StepFirst(s, acts[0], acts[1..] + [a], Apply(t, a), bounds);
      assert [acts[0]] + (acts[1..] + [a]) == acts + [a];
    }
  }

  lemma Then(s: State, t: State, a: Action, bounds: Bounds)
    requires Leads(s, t, bounds) && Enabled(t, a) && (a.Tick? ==> MayTick(t, bounds))
    ensures Leads(s, Apply(t, a), bounds)
  {
    var acts :| TimedExecution(acts, s, t, bounds);
    StepLast(acts, s, t, a, bounds);
  }

  /** The clock runs on to `until`. */
  lemma {:induction false} ThenTicks(s: State, t: State, until: nat, bounds: Bounds)
    requires Leads(s, t, bounds) && t.now <= until
    requires forall k: nat :: t.now <= k < until ==> MayTick(t.(now := k), bounds)
    ensures Leads(s, t.(now := until), bounds)
    decreases until - t.now
  {
    hide MayTick, Leads;
    if t.now < until {
      assert t == t.(now := t.now);
      Then(s, t, Tick, bounds);
      ThenTicks(s, Apply(t, Tick), until, bounds);
    }
  }

  function Repeat(n: nat, pair: Pair): seq<Pair> { seq(n, _ => pair) }

  /** A pair that came at time 0, and where it is. */
  function Came(task: Task, since: nat): Pair { Pair(false, 0, since, task, 0, 0, 0) }

  function Dropped(): Pair { Pair(false, 0, ACCEPT_TIMEOUT, Gone, 0, 1, 1) }

  /** `n` slots are held by pairs on offer. */
  function Filled(n: nat): State
  {
    State(RunAccept, Repeat(n, Came(Offering, 0)), n, 1 + n, false, false, [], [], 0, 0, 0)
  }

  lemma FillOne(n: nat, bounds: Bounds)
    requires n < QUEUE_SIZE && Leads(Init(), Filled(n), bounds)
    ensures Leads(Init(), Filled(n + 1), bounds)
  {
    hide Leads;
    var start := Init();
    var s0 := Filled(n);
    Then(start, s0, InnerPair(false), bounds);
    var s1 := Apply(s0, InnerPair(false));
    Then(start, s1, TakeSlot, bounds);
    var s2 := Apply(s1, TakeSlot);
    Then(start, s2, RunLocal, bounds);
    var s3 := Apply(s2, RunLocal);
    Then(start, s3, RunLocal, bounds);
    var s4 := Apply(s3, RunLocal);
    Then(start, s4, HandshakeEnds(n, true), bounds);
    assert Apply(s4, HandshakeEnds(n, true)).pairs == Filled(n + 1).pairs;
  }

  lemma {:induction false} Fill(n: nat, bounds: Bounds)
    requires n <= QUEUE_SIZE
    ensures Leads(Init(), Filled(n), bounds)
  {
    hide Leads;
    if n == 0 {
      Stay(Init(), bounds);
      assert Filled(0) == Init();
    } else {
      Fill(n - 1, bounds);
      FillOne(n - 1, bounds);
    }
  }

  /** `run` has one more pair in hand; `n` of the others have been dropped. */
  function Waiting(n: nat, now: nat): State
    requires n <= QUEUE_SIZE
  {
    State(
      RunSelect(QUEUE_SIZE),
      Repeat(n, Dropped()) + Repeat(QUEUE_SIZE - n, Came(Offering, 0)) + [Came(Unspawned, 0)],
      QUEUE_SIZE - n, 1 + QUEUE_SIZE - n, false, false, [], [], now, 0, 0)
  }

  /** With all slots held `run` may wait for the whole accept timeout. */
  lemma RunWaits(bounds: Bounds)
    ensures Leads(Init(), Waiting(0, ACCEPT_TIMEOUT), bounds)
  {
    Fill(QUEUE_SIZE, bounds);
    var full := Filled(QUEUE_SIZE);
    Then(Init(), full, InnerPair(false), bounds);
    var t := Apply(full, InnerPair(false));
    assert t == Waiting(0, 0);
    ThenTicks(Init(), t, ACCEPT_TIMEOUT, bounds);
  }

  function With(s: State, p: nat, pair: Pair, queue: nat, wg: int): State
    requires p < |s.pairs|
  {
    s.(pairs := s.pairs[p := pair], queue := queue, wg := wg)
  }

  lemma ThenTask(start: State, s: State, p: nat, pair: Pair, queue: nat, wg: int, bounds: Bounds)
    requires p < |s.pairs| && queue > 0 && Leads(start, With(s, p, pair, queue, wg), bounds)
    requires TaskEnabled(s.(queue := queue), pair.task)
    ensures var after := With(s, p, AfterTaskStep(pair, s.now),
        if pair.task.FreeSlot? then queue - 1 else queue, if pair.task.WgDone? then wg - 1 else wg);
      Leads(start, after, bounds)
  {
    hide Leads;
    var t := With(s, p, pair, queue, wg);
    Then(start, t, TaskLocal(p), bounds);
    assert t.pairs[p := AfterTaskStep(pair, s.now)] == s.pairs[p := AfterTaskStep(pair, s.now)];
  }

  lemma ThenWithdraw(start: State, s: State, p: nat, bounds: Bounds)
    requires Leads(start, s, bounds) && p < |s.pairs| && s.pairs[p] == Came(Offering, 0) && s.now == ACCEPT_TIMEOUT
    ensures Leads(start, With(s, p, Came(ReleaseScope, 0), s.queue, s.wg), bounds)
  {
    hide Leads;
    Then(start, s, Withdraw(p), bounds);
    assert Apply(s, Withdraw(p)) == With(s, p, Came(ReleaseScope, 0), s.queue, s.wg);
  }

  /** A pair on offer whose context is done is dropped, and its slot freed. */
  lemma DropOne(start: State, s: State, p: nat, bounds: Bounds)
    requires Leads(start, s, bounds) && p < |s.pairs| && s.pairs[p] == Came(Offering, 0)
    requires s.now == ACCEPT_TIMEOUT && s.queue > 0
    ensures Leads(start, With(s, p, Dropped(), s.queue - 1, s.wg - 1), bounds)
  {
    hide Leads, With;
    ThenWithdraw(start, s, p, bounds);
    var now := ACCEPT_TIMEOUT;
    ThenTask(start, s, p, Came(ReleaseScope, 0), s.queue, s.wg, bounds);
    ThenTask(start, s, p, Came(CloseConn, now), s.queue, s.wg, bounds);
    ThenTask(start, s, p, Pair(false, 0, now, CancelCtx, 0, 1, 0), s.queue, s.wg, bounds);
    ThenTask(start, s, p, Pair(false, 0, now, WgDone, 0, 1, 1), s.queue, s.wg, bounds);
    ThenTask(start, s, p, Pair(false, 0, now, FreeSlot, 0, 1, 1), s.queue, s.wg - 1, bounds);
  }

  lemma {:induction false} DropAll(n: nat, bounds: Bounds)
    requires n <= QUEUE_SIZE
    ensures Leads(Init(), Waiting(n, ACCEPT_TIMEOUT), bounds)
  {
    hide Leads;
    if n == 0 {
      RunWaits(bounds);
    } else {
      DropAll(n - 1, bounds);
      var s := Waiting(n - 1, ACCEPT_TIMEOUT);
      DropOne(Init(), s, n - 1, bounds);
      assert s.pairs[n - 1 := Dropped()] == Waiting(n, ACCEPT_TIMEOUT).pairs;
    }
  }

  /** The last pair is in the hand of its goroutine. */
  function Held(last: Pair, now: nat): State
  {
    State(RunAccept, Repeat(QUEUE_SIZE, Dropped()) + [last], 1, 2, false, false, [], [], now, 0, 0)
  }

  /** The slot comes at the last moment, and the handshake begins. */
  lemma LateHandshake(bounds: Bounds)
    ensures Leads(Init(), Held(Came(Shaking, ACCEPT_TIMEOUT), ACCEPT_TIMEOUT), bounds)
  {
    hide Leads;
    DropAll(QUEUE_SIZE, bounds);
    var s0 := Waiting(QUEUE_SIZE, ACCEPT_TIMEOUT);
    Then(Init(), s0, TakeSlot, bounds);
    var s1 := Apply(s0, TakeSlot);
    Then(Init(), s1, RunLocal, bounds);
    var s2 := Apply(s1, RunLocal);
    Then(Init(), s2, RunLocal, bounds);
    assert RunStep(s2).pairs == Held(Came(Shaking, ACCEPT_TIMEOUT), ACCEPT_TIMEOUT).pairs;
  }

  /** The handshake takes as long as it may, nobody accepts, and the closing of the TLS
      connection takes as long as it may. */
  lemma LateClosing(bounds: Bounds)
    ensures var deadline := ACCEPT_TIMEOUT + bounds.handshake;
      Leads(Init(), Held(Came(CloseConn, deadline), deadline + bounds.closing), bounds)
  {
    var deadline := ACCEPT_TIMEOUT + bounds.handshake;
    LateHandshake(bounds);
    hide Leads;
    var s0 := Held(Came(Shaking, ACCEPT_TIMEOUT), ACCEPT_TIMEOUT);
    ThenTicks(Init(), s0, deadline, bounds);
    var s1 := s0.(now := deadline);
    Then(Init(), s1, HandshakeEnds(QUEUE_SIZE, true), bounds);
    var s2 := Apply(s1, HandshakeEnds(QUEUE_SIZE, true));
    Then(Init(), s2, Withdraw(QUEUE_SIZE), bounds);
    var s3 := Apply(s2, Withdraw(QUEUE_SIZE));
    Then(Init(), s3, TaskLocal(QUEUE_SIZE), bounds);
    var s4 := TaskStep(s3, QUEUE_SIZE);
    assert s4 == Held(Came(CloseConn, deadline), deadline);
    ThenTicks(Init(), s4, deadline + bounds.closing, bounds);
  }

  /** A pair is in the hand of `run` when the accept timeout is over. */
  predicate HeldByRun(s: State, p: nat)
  {
    p < |s.pairs| && RunHolds(s.run, p) && s.now == s.pairs[p].begun + 30_000_000_000
  }

  /** A pair is still held after the timeout, a whole handshake and a whole closing. */
  ghost predicate HeldToTheEnd(s: State, p: nat, bounds: Bounds)
  {
    && p < |s.pairs| && TaskHolds(s.pairs[p].task) && !Settled(s.pairs[p], Deliveries(s, p))
    && s.now == s.pairs[p].begun + 30_000_000_000 + bounds.handshake + bounds.closing
  }

  /** No smaller bound holds, for `run` or for the listener, whatever a handshake and a
      closing may take. */
  lemma ResidenceIsTight(bounds: Bounds)
    ensures exists acts, s, p :: TimedExecution(acts, Init(), s, bounds) && HeldByRun(s, p)
    ensures exists acts, s, p :: TimedExecution(acts, Init(), s, bounds) && HeldToTheEnd(s, p, bounds)
  {
    RunWaits(bounds);
    var s := Waiting(0, ACCEPT_TIMEOUT);
    assert HeldByRun(s, QUEUE_SIZE);
    LateClosing(bounds);
    var deadline := ACCEPT_TIMEOUT + bounds.handshake;
    var t := Held(Came(CloseConn, deadline), deadline + bounds.closing);
    assert t.pairs[QUEUE_SIZE] == Came(CloseConn, deadline) && t.calls == [];
    assert HeldToTheEnd(t, QUEUE_SIZE, bounds);
  }

  // ---------------------------------------------------------------------------------------
  // Other things that can happen

  /** All sixty-four slots can be held at once, and then the next pair waits for one. */
  lemma SlotsCanRunOut(bounds: Bounds)
    ensures exists acts, s :: TimedExecution(acts, Init(), s, bounds) && SlotsAreOut(s)
  {
    RunWaits(bounds);
    assert SlotsAreOut(Waiting(0, ACCEPT_TIMEOUT));
  }

  predicate SlotsAreOut(s: State)
  {
    && |s.pairs| == 65 && s.run == RunSelect(64) && s.queue == 64 && !Enabled(s, TakeSlot)
    && forall p :: 0 <= p < 64 ==> s.pairs[p].task.Offering?
  }

  /** `t` can follow `s` without time passing and without a Close call stepping. */
  ghost predicate MayBecome(s: State, t: State, bounds: Bounds)
  {
    Leads(s, t, bounds) && t.cancelled == s.cancelled && t.innerClosed == s.innerClosed && t.now == s.now
  }

  /** A connection, or any error, can come in as long as `run` asks, after cancellation too. */
  lemma AnswersCanSlipIn(s: State, scoped: bool, text: string, bounds: Bounds)
    requires s.run.RunAccept?
    ensures exists t :: MayBecome(s, t, bounds) && |t.pairs| == |s.pairs| + 1 && t.pairs[|s.pairs|].scoped == scoped
    ensures exists t :: MayBecome(s, t, bounds) && t.run == RunFail(text, scoped)
  {
    Stay(s, bounds);
    Then(s, s, InnerPair(scoped), bounds);
    Then(s, s, InnerError(text, scoped), bounds);
    assert MayBecome(s, Apply(s, InnerPair(scoped)), bounds);
    assert MayBecome(s, Apply(s, InnerError(text, scoped)), bounds);
  }

  /** A free slot can win against cancellation, and against the expired context. */
  lemma SlotCanWin(s: State, p: nat, bounds: Bounds)
    requires s.run == RunSelect(p) && p < |s.pairs| && s.queue < 64
    ensures exists t :: MayBecome(s, t, bounds) && t.run == RunAccept && TaskIs(t, p, Shaking)
  {
    Stay(s, bounds);
    Then(s, s, TakeSlot, bounds);
    var s1 := Apply(s, TakeSlot);
    Then(s, s1, RunLocal, bounds);
    var s2 := RunStep(s1);
    Then(s, s2, RunLocal, bounds);
    assert MayBecome(s, RunStep(s2), bounds);
  }

  /** The hand-over can win against cancellation, and against the expired context: an Accept
      call waiting when a handshake succeeds may be given the pair even then. */
  lemma HandOverCanWin(s: State, p: nat, k: nat, bounds: Bounds)
    requires p < |s.pairs| && s.pairs[p].task.Shaking? && k < |s.calls| && s.calls[k].Blocked?
    ensures exists t :: MayBecome(s, t, bounds) && k < |t.calls| && t.calls[k] == Got(p)
  {
    Stay(s, bounds);
    Then(s, s, HandshakeEnds(p, true), bounds);
    var offered := Apply(s, HandshakeEnds(p, true));
    Then(s, offered, Deliver(p, k), bounds);
    assert MayBecome(s, Apply(offered, Deliver(p, k)), bounds);
  }

  /** A handshake can end either way at any time. */
  lemma HandshakeCanFail(s: State, p: nat, bounds: Bounds)
    requires p < |s.pairs| && s.pairs[p].task.Shaking?
    ensures exists t :: MayBecome(s, t, bounds) && TaskIs(t, p, ReleaseScope)
  {
    Stay(s, bounds);
    Then(s, s, HandshakeEnds(p, false), bounds);
    assert MayBecome(s, Apply(s, HandshakeEnds(p, false)), bounds);
  }
}
