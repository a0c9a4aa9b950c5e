/** The accept pipeline against the clock. Time passes only while every goroutine waits for
    something that has not happened: a local step takes no time, a goroutine at a select
    whose context is done moves on, and the two foreign calls of a handshake goroutine end in
    time: the TLS handshake and the closing of the connection, which may send an alert. */
module AcceptTiming {
  import opened Sums
  import opened AcceptPipeline
  import opened AcceptSafety
  import opened AcceptShutdown

  /** How long one handshake call and one closing of a connection last at most. */
  datatype Bounds = Bounds(handshake: nat, closing: nat)

  predicate RunMayWait(s: State)
  {
    match s.run
    case RunAccept | RunExit => true
    case RunSelect(p) => s.queue >= QUEUE_SIZE && p < |s.pairs| && !ContextDone(s, p)
    case RunFail(_, _) | RunCancel(_) | RunRelease(_) | RunClose(_) | RunAdd(_) | RunGo(_) | RunUnwind => false
  }

  predicate TaskMayWait(s: State, p: nat, bounds: Bounds)
    requires p < |s.pairs|
  {
    match s.pairs[p].task
    case Unspawned | Gone => true
    case Shaking => s.now < s.pairs[p].since + bounds.handshake
    case Offering => !ContextDone(s, p)
    case CloseConn => s.now < s.pairs[p].since + bounds.closing
    case ReleaseScope | CancelCtx | WgDone | FreeSlot => false
  }

  predicate MayTick(s: State, bounds: Bounds)
  {
    RunMayWait(s) && forall p: nat :: p < |s.pairs| ==> TaskMayWait(s, p, bounds)
  }

  ghost predicate TimedExecution(acts: seq<Action>, s: State, t: State, bounds: Bounds)
    decreases |acts|
  {
    if acts == [] then s == t
    else
      && Enabled(s, acts[0])
      && (acts[0].Tick? ==> MayTick(s, bounds))
      && TimedExecution(acts[1..], Apply(s, acts[0]), t, bounds)
  }

  lemma {:induction false} TimedIsExecution(acts: seq<Action>, s: State, t: State, bounds: Bounds)
    requires TimedExecution(acts, s, t, bounds)
    ensures Execution(acts, s, t)
    decreases |acts|
  {
    if acts != [] {
      TimedIsExecution(acts[1..], Apply(s, acts[0]), t, bounds);
    }
  }

  /** The deadline by which the handshake is over and the pair on its way. */
  function Deadline(pair: Pair, bounds: Bounds): nat
  {
    pair.begun + ACCEPT_TIMEOUT + bounds.handshake
  }

  predicate TimelyPair(now: nat, pair: Pair, bounds: Bounds)
  {
    && pair.begun <= now
    && (pair.task.Shaking? ==>
          pair.since <= pair.begun + ACCEPT_TIMEOUT && pair.since <= now <= pair.since + bounds.handshake)
    && (pair.task.Offering? || pair.task.ReleaseScope? ==> now <= Deadline(pair, bounds))
    && (pair.task.CloseConn? ==>
          pair.since <= Deadline(pair, bounds) && pair.since <= now <= pair.since + bounds.closing)
    && (HasSlot(pair.task) ==> now <= Deadline(pair, bounds) + bounds.closing)
  }

  ghost predicate Timely(s: State, bounds: Bounds)
  {
    && (InDispatch(s.run) ==> s.run.pair < |s.pairs| && s.now <= s.pairs[s.run.pair].begun + ACCEPT_TIMEOUT)
    && forall p: nat :: p < |s.pairs| ==> TimelyPair(s.now, s.pairs[p], bounds)
  }

  lemma TickKeepsTimely(s: State, bounds: Bounds)
    requires Timely(s, bounds) && MayTick(s, bounds)
    ensures Timely(Apply(s, Tick), bounds)
  {
    forall p: nat | p < |s.pairs|
      ensures TimelyPair(s.now + 1, s.pairs[p], bounds)
    {
      assert TimelyPair(s.now, s.pairs[p], bounds) && TaskMayWait(s, p, bounds);
    }
  }

  lemma TaskStepKeepsTimely(now: nat, pair: Pair, bounds: Bounds)
    requires TimelyPair(now, pair, bounds)
    ensures TimelyPair(now, AfterTaskStep(pair, now), bounds)
  {
  }

  /** Only pair `p` changed, and it is timely. */
  lemma OthersTimely(s: State, t: State, p: nat, bounds: Bounds)
    requires Timely(s, bounds) && p < |s.pairs| == |t.pairs| && t.now == s.now
    requires t.pairs == s.pairs[p := t.pairs[p]]
    requires t.pairs[p].begun == s.pairs[p].begun && TimelyPair(t.now, t.pairs[p], bounds)
    requires InDispatch(t.run) ==> InDispatch(s.run) && t.run.pair == s.run.pair
    ensures Timely(t, bounds)
  {
    hide TimelyPair;
  }

  /** A step of the handshake goroutine of `p`. */
  lemma TaskActionKeepsTimely(s: State, a: Action, bounds: Bounds)
    requires Timely(s, bounds) && Enabled(s, a)
    requires a.HandshakeEnds? || a.Deliver? || a.Withdraw? || a.TaskLocal?
    ensures Timely(Apply(s, a), bounds)
  {
    var t, p := Apply(s, a), a.pair;
    assert TimelyPair(s.now, s.pairs[p], bounds);
    TaskStepKeepsTimely(s.now, s.pairs[p], bounds);
    OthersTimely(s, t, p, bounds);
  }

  lemma RunStepKeepsTimely(s: State, bounds: Bounds)
    requires Timely(s, bounds) && Enabled(s, RunLocal)
    ensures Timely(RunStep(s), bounds)
  {
    hide HasSuffix;
    var t := RunStep(s);
    if t.pairs == s.pairs {
      hide TimelyPair;
    } else {
      assert TimelyPair(s.now, s.pairs[s.run.pair], bounds);
      OthersTimely(s, t, s.run.pair, bounds);
    }
  }

  lemma ActionKeepsTimely(s: State, a: Action, bounds: Bounds)
    requires Timely(s, bounds) && Enabled(s, a) && !a.Tick?
    ensures Timely(Apply(s, a), bounds)
  {
    if a.HandshakeEnds? || a.Deliver? || a.Withdraw? || a.TaskLocal? {
      TaskActionKeepsTimely(s, a, bounds);
    } else if a.RunLocal? {
      RunStepKeepsTimely(s, bounds);
    } else {
      hide RunStep, TaskStep;
      var t := Apply(s, a);
      forall p: nat | p < |t.pairs|
        ensures TimelyPair(t.now, t.pairs[p], bounds)
      {
        assert p < |s.pairs| ==> TimelyPair(s.now, s.pairs[p], bounds);
      }
    }
  }

  lemma {:induction false} TimedKeepsTimely(acts: seq<Action>, s: State, t: State, bounds: Bounds)
    requires Timely(s, bounds) && TimedExecution(acts, s, t, bounds)
    ensures Timely(t, bounds)
    decreases |acts|
  {
    if acts != [] {
      if acts[0].Tick? {
        TickKeepsTimely(s, bounds);
      } else {
        ActionKeepsTimely(s, acts[0], bounds);
      }
      TimedKeepsTimely(acts[1..], Apply(s, acts[0]), t, bounds);
    }
  }

  /** A pair the listener still holds, in the hand of `run` or of a goroutine that has not
      finished, entered `dispatch` at most the accept timeout plus one handshake ago, or plus
      the closing of its connection as well if it is being discarded; and `run` itself spends
      at most the accept timeout on it, however many slots are held. */
  lemma ResidenceBound(acts: seq<Action>, s: State, bounds: Bounds, p: nat)
    requires TimedExecution(acts, Init(), s, bounds) && p < |s.pairs|
    ensures RunHolds(s.run, p) ==> s.now <= s.pairs[p].begun + 30_000_000_000
    ensures s.pairs[p].task.Shaking? || s.pairs[p].task.Offering? ==>
      s.now <= s.pairs[p].begun + 30_000_000_000 + bounds.handshake
    ensures HasSlot(s.pairs[p].task) ==>
      s.now <= s.pairs[p].begun + 30_000_000_000 + bounds.handshake + bounds.closing
    ensures s.now > s.pairs[p].begun + 30_000_000_000 + bounds.handshake + bounds.closing ==>
      Settled(s.pairs[p], Deliveries(s, p))
  {
    TimedKeepsTimely(acts, Init(), s, bounds);
    assert TimelyPair(s.now, s.pairs[p], bounds);
    TimedIsExecution(acts, Init(), s, bounds);
    ReachableInv(acts, s);
    assert PairOk(s.run, p, s.pairs[p], Deliveries(s, p));
  }

  /** Time passes while `run` has a pair in hand only when all sixty-four slots are held. */
  lemma RunWaitsOnlyWhenFull(acts: seq<Action>, s: State, bounds: Bounds)
    requires TimedExecution(acts, Init(), s, bounds) && InDispatch(s.run) && MayTick(s, bounds)
    ensures s.queue == 64 && s.run.RunSelect?
  {
    TimedIsExecution(acts, Init(), s, bounds);
    ReachableInv(acts, s);
    hide Inv, MayTick;
    SlotsAreAllHeld(s, bounds);
  }

  lemma SlotsAreAllHeld(s: State, bounds: Bounds)
    requires Inv(s) && InDispatch(s.run) && MayTick(s, bounds)
    ensures s.queue == 64 && s.run.RunSelect?
  {
  }

  // ---------------------------------------------------------------------------------------
  // The clock can always go on

  predicate IsInternal(a: Action)
  {
    a.TakeSlot? || a.GiveUp? || a.RunLocal? || a.HandshakeEnds? || a.Withdraw? || a.TaskLocal?
  }

  ghost predicate CanMove(s: State)
  {
    exists a :: IsInternal(a) && Enabled(s, a)
  }

  lemma RunCanMove(s: State)
    requires Inv(s) && !RunMayWait(s)
    ensures CanMove(s)
  {
    assert Enabled(s, RunLocal) || Enabled(s, TakeSlot) || Enabled(s, GiveUp);
  }

  lemma TaskCanMove(s: State, p: nat, bounds: Bounds)
    requires Inv(s) && p < |s.pairs| && !TaskMayWait(s, p, bounds)
    ensures CanMove(s)
  {
    SumAtLeast(s.pairs, p, SlotWeight());
    assert Enabled(s, HandshakeEnds(p, true)) || Enabled(s, Withdraw(p)) || Enabled(s, TaskLocal(p));
  }

  lemma MovesOrWaits(s: State, bounds: Bounds)
    requires Inv(s)
    ensures MayTick(s, bounds) || CanMove(s)
  {
    if !RunMayWait(s) {
      RunCanMove(s);
    } else if p: nat :| p < |s.pairs| && !TaskMayWait(s, p, bounds) {
      TaskCanMove(s, p, bounds);
    }
  }

  lemma StepFirst(s: State, a: Action, rest: seq<Action>, t: State, bounds: Bounds)
    requires Enabled(s, a) && (a.Tick? ==> MayTick(s, bounds)) && TimedExecution(rest, Apply(s, a), t, bounds)
    ensures TimedExecution([a] + rest, s, t, bounds)
  {
    assert ([a] + rest)[1..] == rest;
  }

  /** The listener's own steps run out, and then the clock ticks. */
  lemma {:induction false} TickComes(s: State, bounds: Bounds) returns (acts: seq<Action>, t: State)
    requires Inv(s)
    ensures TimedExecution(acts, s, t, bounds) && t.now > s.now
    ensures forall a :: a in acts ==> a.Tick? || IsInternal(a)
    decreases Work(s)
  {
    if MayTick(s, bounds) {
      t := Apply(s, Tick);
      acts := [Tick] + [];
      StepFirst(s, Tick, [], t, bounds);
    } else {
      MovesOrWaits(s, bounds);
      var a :| IsInternal(a) && Enabled(s, a);
      StepKeepsInv(s, a);
      StepWork(s, a);
      TimeStands(s, a);
      hide Inv, Work, Enabled, MayTick, TimedExecution, Apply;
      var rest;
      rest, t := TickComes(Apply(s, a), bounds);
      acts := [a] + rest;
      StepFirst(s, a, rest, t, bounds);
    }
  }

  lemma TimeStands(s: State, a: Action)
    requires Enabled(s, a) && IsInternal(a)
    ensures Apply(s, a).now == s.now
  {
  }

  /** No timelock: from every state a clocked run reaches, the listener's own steps, without
      an answer of the inner listener or a caller of Accept, lead to a later time. */
  lemma NoTimelock(acts: seq<Action>, s: State, bounds: Bounds)
    requires TimedExecution(acts, Init(), s, bounds)
    ensures exists more: seq<Action>, t: State ::
      && TimedExecution(more, s, t, bounds) && t.now > s.now
      && forall a :: a in more ==> a.Tick? || IsInternal(a)
  {
    TimedIsExecution(acts, Init(), s, bounds);
    ReachableInv(acts, s);
    var more, t := TickComes(s, bounds);
  }

  lemma OthersLeaveTheHandshake(s: State, a: Action, p: nat)
    requires Inv(s) && Enabled(s, a) && TaskIs(s, p, Shaking) && !(a.HandshakeEnds? && a.pair == p)
    ensures TaskIs(Apply(s, a), p, Shaking) && Apply(s, a).pairs[p] == s.pairs[p]
  {
    assert PairOk(s.run, p, s.pairs[p], Deliveries(s, p));
  }

  /** The timed context does not cut the handshake short: whether it is done or not, only the
      end of the TLS handshake call moves the goroutine on, and a handshake that succeeds
      after the deadline still reaches the select, where it may yet be delivered. */
  lemma {:induction false} TimeoutDoesNotCutTheHandshake(acts: seq<Action>, s: State, t: State, p: nat)
    requires Execution(acts, s, t) && Inv(s) && TaskIs(s, p, Shaking)
    requires forall a :: a in acts ==> !(a.HandshakeEnds? && a.pair == p)
    ensures TaskIs(t, p, Shaking) && t.pairs[p] == s.pairs[p]
    ensures TaskIs(Apply(t, HandshakeEnds(p, true)), p, Offering)
    decreases |acts|
  {
    if acts != [] {
      StepKeepsInv(s, acts[0]);
      OthersLeaveTheHandshake(s, acts[0], p);
      TimeoutDoesNotCutTheHandshake(acts[1..], Apply(s, acts[0]), t, p);
    }
  }
}
