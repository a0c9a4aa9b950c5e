/** Shutdown: after cancellation the listener's own steps run out, provided the inner
    listener reports closure with the text `run` tests for, and only then. */
module AcceptShutdown {
  import opened Sums
  import opened AcceptPipeline
  import opened AcceptSafety

  /** A step of `run`, of a handshake goroutine or of the inner listener's answer to `run`;
      everything else is the clock or a caller of Accept or Close. */
  predicate IsListener(a: Action)
  {
    a.InnerPair? || a.InnerError? || IsRun(a) || a.HandshakeEnds? || a.Deliver? || a.Withdraw? || a.TaskLocal?
  }

  predicate ReportsClosure(a: Action) { a.InnerError? && HasSuffix(a.text, CLOSED_TEXT) }

  /** An answer of the inner listener other than the closed error. */
  predicate IsOther(a: Action) { IsInner(a) && !ReportsClosure(a) }

  ghost function ListenerSteps(acts: seq<Action>): nat
  {
    if acts == [] then 0 else ToNat(IsListener(acts[0])) + ListenerSteps(acts[1..])
  }

  ghost function OtherAnswers(acts: seq<Action>): nat
  {
    if acts == [] then 0 else ToNat(IsOther(acts[0])) + OtherAnswers(acts[1..])
  }

  function TaskRank(task: Task): nat
  {
    match task
    case Unspawned | Gone => 0
    case Shaking => 7
    case Offering => 6
    case ReleaseScope => 5
    case CloseConn => 4
    case CancelCtx => 3
    case WgDone => 2
    case FreeSlot => 1
  }

  function RunRank(run: Runner): nat
  {
    match run
    case RunExit => 0
    case RunUnwind => 1
    case RunFail(text, _) => if HasSuffix(text, CLOSED_TEXT) then 2 else 4
    case RunAccept => 3
    case RunClose(_) => 4
    case RunRelease(_) => 5
    case RunCancel(_) => 6
    case RunGo(_) => 11
    case RunAdd(_) => 12
    case RunSelect(_) => 13
  }

  function RankWeight(): Pair -> nat { (q: Pair) => TaskRank(q.task) }

  /** The number of listener steps left if the inner listener gives no further answer but
      the closed error. */
  ghost function Work(s: State): nat
  {
    RunRank(s.run) + Sum(s.pairs, RankWeight())
  }

  const WORK_PER_ANSWER: nat := 11
  const WORK_LIMIT: nat := 461

  lemma WorkLimit(s: State)
    requires Inv(s)
    ensures Work(s) <= WORK_LIMIT
  {
    SumBounded(s.pairs, RankWeight(), 7, SlotWeight());
  }

  lemma TaskActionWork(s: State, a: Action)
    requires Enabled(s, a) && (a.HandshakeEnds? || a.Deliver? || a.Withdraw? || a.TaskLocal?)
    ensures Work(Apply(s, a)) < Work(s)
  {
    hide Sum;
    var t := Apply(s, a);
    SumUpdate(s.pairs, a.pair, t.pairs[a.pair], RankWeight());
  }

  /** `run` steps on the pair in its hand; only starting the goroutine adds to its rank. */
  lemma RunPairWork(s: State)
    requires InDispatch(s.run) && !s.run.RunAdd? && Enabled(s, RunLocal) && s.pairs[s.run.pair].task.Unspawned?
    ensures Work(RunStep(s)) < Work(s)
  {
    hide Sum;
    var p, t := s.run.pair, RunStep(s);
    SumUpdate(s.pairs, p, t.pairs[p], RankWeight());
    assert t.pairs == s.pairs[p := t.pairs[p]];
  }

  lemma InHandIsUnspawned(s: State)
    requires Inv(s) && InDispatch(s.run)
    ensures s.pairs[s.run.pair].task.Unspawned?
  {
    assert PairOk(s.run, s.run.pair, s.pairs[s.run.pair], Deliveries(s, s.run.pair));
  }

  lemma RunActionWork(s: State, a: Action)
    requires Inv(s) && Enabled(s, a) && IsRun(a)
    ensures Work(Apply(s, a)) < Work(s)
  {
    hide Inv, Sum;
    if a.RunLocal? && InDispatch(s.run) && !s.run.RunAdd? {
      InHandIsUnspawned(s);
      RunPairWork(s);
    } else {
      assert Apply(s, a).pairs == s.pairs;
    }
  }

  /** Every listener step uses up work; only an answer other than the closed error adds some. */
  lemma StepWork(s: State, a: Action)
    requires Inv(s) && Enabled(s, a)
    ensures Work(Apply(s, a)) + ToNat(IsListener(a)) <= Work(s) + WORK_PER_ANSWER * ToNat(IsOther(a))
  {
    if a.InnerPair? {
      SumAppend(s.pairs, Apply(s, a).pairs[|s.pairs|], RankWeight());
    } else if IsRun(a) {
      RunActionWork(s, a);
    } else if a.HandshakeEnds? || a.Deliver? || a.Withdraw? || a.TaskLocal? {
      TaskActionWork(s, a);
    }
  }

  lemma {:induction false} ExecutionWork(acts: seq<Action>, s: State, t: State)
    requires Inv(s) && Execution(acts, s, t)
    ensures Work(t) + ListenerSteps(acts) <= Work(s) + WORK_PER_ANSWER * OtherAnswers(acts)
    decreases |acts|
  {
    if acts != [] {
      StepWork(s, acts[0]);
      StepKeepsInv(s, acts[0]);
      ExecutionWork(acts[1..], Apply(s, acts[0]), t);
    }
  }

  /** Nothing is left to do: `run` has exited and every goroutine is gone. */
  ghost predicate Quiescent(s: State)
  {
    s.run.RunExit? && forall p: nat :: p < |s.pairs| ==> s.pairs[p].task.Unspawned? || s.pairs[p].task.Gone?
  }

  lemma RestReleasesClose(s: State)
    requires Inv(s) && Quiescent(s)
    ensures s.wg == 0
    ensures forall k: nat :: k < |s.closers| && !s.closers[k].Returned? ==> Enabled(s, CloseLocal(k))
  {
    SumZero(s.pairs, DoneWeight());
    assert forall p :: 0 <= p < |s.pairs| ==> DoneWeight()(s.pairs[p]) == 0;
  }

  /** The inner listener keeps to this text, and gives it only when it has been closed. */
  predicate TellsClosure(s: State, a: Action, text: string)
  {
    IsInner(a) ==> a.InnerError? && a.text == text && s.innerClosed
  }

  /** The listener can step without any answer but `text` from a closed inner listener. */
  ghost predicate CanStep(s: State, text: string)
  {
    exists a :: IsListener(a) && Enabled(s, a) && TellsClosure(s, a, text)
  }

  /** A next step of the listener once the inner one was closed or `run` is not waiting for it. */
  ghost function NextStep(s: State, text: string): (a: Action)
    requires Inv(s) && s.cancelled && !Quiescent(s) && (s.run.RunAccept? ==> s.innerClosed)
    ensures IsListener(a) && Enabled(s, a) && TellsClosure(s, a, text)
  {
    match s.run
    case RunAccept => InnerError(text, false)
    case RunFail(_, _) | RunCancel(_) | RunRelease(_) | RunClose(_) | RunAdd(_) | RunGo(_) | RunUnwind => RunLocal
    case RunSelect(_) => GiveUp
    case RunExit =>
      var p: nat :| p < |s.pairs| && !s.pairs[p].task.Unspawned? && !s.pairs[p].task.Gone?;
      SumAtLeast(s.pairs, p, SlotWeight());
      match s.pairs[p].task
      case Shaking => HandshakeEnds(p, false)
      case Offering => Withdraw(p)
      case Unspawned | ReleaseScope | CloseConn | CancelCtx | WgDone | FreeSlot | Gone => TaskLocal(p)
  }

  /** Some Close call is about to close the inner listener. */
  ghost predicate AboutToClose(s: State)
  {
    exists k: nat :: k < |s.closers| && s.closers[k].ToCloseInner?
  }

  ghost predicate CloseUnderWay(s: State)
  {
    s.cancelled ==> s.innerClosed || AboutToClose(s)
  }

  lemma StepKeepsCloseUnderWay(s: State, a: Action)
    requires CloseUnderWay(s) && Enabled(s, a)
    ensures CloseUnderWay(Apply(s, a))
  {
    var t := Apply(s, a);
    if a.CloseLocal? {
      assert s.closers[a.closer].ToCancel? ==> t.closers[a.closer].ToCloseInner?;
    }
    if k: nat :| k < |s.closers| && s.closers[k].ToCloseInner? {
      assert t.innerClosed || t.closers[k].ToCloseInner?;
    }
  }

  lemma {:induction false} CloseStaysUnderWay(acts: seq<Action>, s: State, t: State)
    requires CloseUnderWay(s) && Execution(acts, s, t)
    ensures CloseUnderWay(t)
    decreases |acts|
  {
    if acts != [] {
      StepKeepsCloseUnderWay(s, acts[0]);
      CloseStaysUnderWay(acts[1..], Apply(s, acts[0]), t);
    }
  }

  lemma CanStepUntilRest(s: State, text: string)
    requires Inv(s) && CloseUnderWay(s) && s.cancelled && !Quiescent(s)
    ensures CanStep(s, text) || AboutToClose(s)
  {
    if s.run.RunAccept? ==> s.innerClosed {
      var a := NextStep(s, text);
      assert Enabled(s, a);
    }
  }

  /** Shutdown terminates. From any reachable state after cancellation, whatever the
      scheduler does: the number of listener steps is bounded by the number of answers other
      than the closed error. Until the listener has come to rest it can step, the inner
      listener giving its closed error only once it was closed, or some Close call is about
      to close it; and at rest every waiting Close call can return. */
  lemma ShutdownTerminates(before: seq<Action>, s: State, acts: seq<Action>, t: State, text: string)
    requires Execution(before, Init(), s) && s.cancelled && Execution(acts, s, t)
    ensures ListenerSteps(acts) <= WORK_LIMIT + WORK_PER_ANSWER * OtherAnswers(acts)
    ensures !Quiescent(t) ==> CanStep(t, text) || AboutToClose(t)
    ensures Quiescent(t) ==> forall k: nat :: k < |t.closers| && !t.closers[k].Returned? ==> Enabled(t, CloseLocal(k))
  {
    ReachableInv(before, s);
    WorkLimit(s);
    ExecutionWork(acts, s, t);
    ExecutionKeepsInv(acts, s, t);
    CancellationStays(acts, s, t);
    CloseStaysUnderWay(before, Init(), s);
    CloseStaysUnderWay(acts, s, t);
    if Quiescent(t) {
      RestReleasesClose(t);
    } else {
      CanStepUntilRest(t, text);
    }
  }

  lemma {:induction false} CancellationStays(acts: seq<Action>, s: State, t: State)
    requires s.cancelled && Execution(acts, s, t)
    ensures t.cancelled
    decreases |acts|
  {
    if acts != [] {
      CancellationStays(acts[1..], Apply(s, acts[0]), t);
    }
  }

  /** The inner listener has nothing to say but this error. */
  predicate Says(acts: seq<Action>, text: string)
  {
    forall a :: a in acts && IsInner(a) ==> a.InnerError? && a.text == text
  }

  /** A schedule that drives a cancelled listener, its inner one closed, to rest. */
  ghost function Drain(s: State, text: string): (acts: seq<Action>)
    requires Inv(s) && s.cancelled && s.innerClosed && HasSuffix(text, CLOSED_TEXT)
    ensures (forall a :: a in acts ==> IsListener(a)) && Says(acts, text)
    decreases Work(s)
  {
    if Quiescent(s) then []
    else
      var a := NextStep(s, text);
      StepKeepsInv(s, a);
      StepWork(s, a);
      [a] + Drain(Apply(s, a), text)
  }

  lemma {:induction false} DrainReachesRest(s: State, text: string) returns (t: State)
    requires Inv(s) && s.cancelled && s.innerClosed && HasSuffix(text, CLOSED_TEXT)
    ensures Execution(Drain(s, text), s, t) && Quiescent(t) && Inv(t) && t.closers == s.closers
    decreases Work(s)
  {
    if Quiescent(s) {
      t := s;
    } else {
      var a := NextStep(s, text);
      StepKeepsInv(s, a);
      StepWork(s, a);
      t := DrainReachesRest(Apply(s, a), text);
      assert Drain(s, text)[1..] == Drain(Apply(s, a), text);
    }
  }

  // ---------------------------------------------------------------------------------------
  // The premise on the closed error's text

  ghost predicate ShutdownBounded(s: State, text: string, limit: nat)
  {
    forall acts, t :: Execution(acts, s, t) && Says(acts, text) ==> ListenerSteps(acts) <= limit
  }

  /** `n` rounds of the loop that takes `text` for a transient error. */
  ghost function Spin(text: string, n: nat): seq<Action>
  {
    if n == 0 then [] else [InnerError(text, false), RunLocal] + Spin(text, n - 1)
  }

  lemma {:induction false} SpinsForever(s: State, text: string, n: nat)
    requires s.run.RunAccept? && !HasSuffix(text, CLOSED_TEXT)
    ensures Execution(Spin(text, n), s, s) && Says(Spin(text, n), text)
    ensures ListenerSteps(Spin(text, n)) == 2 * n
  {
    if n > 0 {
      SpinsForever(s, text, n - 1);
      OneMoreSpin(s, text, Spin(text, n - 1));
    }
  }

  lemma OneMoreSpin(s: State, text: string, rest: seq<Action>)
    requires s.run.RunAccept? && !HasSuffix(text, CLOSED_TEXT) && Execution(rest, s, s) && Says(rest, text)
    ensures var acts := [InnerError(text, false), RunLocal] + rest;
      Execution(acts, s, s) && Says(acts, text) && ListenerSteps(acts) == 2 + ListenerSteps(rest)
  {
    hide HasSuffix;
    var acts := [InnerError(text, false), RunLocal] + rest;
    var u := Apply(s, acts[0]);
    assert acts[1..][1..] == rest && acts[1..][0] == RunLocal;
    assert Apply(u, RunLocal) == s;
    assert Execution(acts[1..], u, s);
    assert ListenerSteps(acts[1..]) == 1 + ListenerSteps(rest);
  }

  lemma {:induction false} SaidClosureIsNotOther(acts: seq<Action>, text: string)
    requires Says(acts, text) && HasSuffix(text, CLOSED_TEXT)
    ensures OtherAnswers(acts) == 0
  {
    if acts != [] {
      SaidClosureIsNotOther(acts[1..], text);
    }
  }

  /** `run` has not been told of closure. */
  predicate Untold(run: Runner)
  {
    !run.RunUnwind? && !run.RunExit? && (run.RunFail? ==> !HasSuffix(run.text, CLOSED_TEXT))
  }

  /** The next step of `run` on its way back to the inner listener. */
  function NextRunStep(run: Runner): Action
  {
    if run.RunSelect? then GiveUp else RunLocal
  }

  lemma RunMovesOn(s: State)
    requires Inv(s) && s.cancelled && Untold(s.run) && !s.run.RunAccept?
    ensures var a := NextRunStep(s.run);
      && Enabled(s, a) && Distance(Apply(s, a).run) < Distance(s.run)
      && Untold(Apply(s, a).run) && Apply(s, a).cancelled
  {
  }

  /** After cancellation `run` gets back to the inner listener by its own steps. */
  lemma {:induction false} BackAtAccept(s: State) returns (acts: seq<Action>, t: State)
    requires Inv(s) && s.cancelled && Untold(s.run)
    ensures Execution(acts, s, t) && t.run.RunAccept? && forall a :: a in acts ==> !IsInner(a)
    decreases Distance(s.run)
  {
    if s.run.RunAccept? {
      acts, t := [], s;
    } else {
      hide Inv, Untold, Distance, Enabled, Apply;
      var a := NextRunStep(s.run);
      RunMovesOn(s);
      StepKeepsInv(s, a);
      var rest;
      rest, t := BackAtAccept(Apply(s, a));
      acts := [a] + rest;
      assert acts[1..] == rest;
    }
  }

  lemma {:induction false} MoreSteps(xs: seq<Action>, ys: seq<Action>)
    ensures ListenerSteps(xs + ys) >= ListenerSteps(ys)
  {
    if xs == [] {
      assert xs + ys == ys;
    } else {
      MoreSteps(xs[1..], ys);
      assert (xs + ys)[1..] == xs[1..] + ys;
    }
  }

  lemma OtherTextUnbounded(s: State, text: string, limit: nat)
    requires Inv(s) && s.cancelled && Untold(s.run) && !HasSuffix(text, CLOSED_TEXT)
    ensures !ShutdownBounded(s, text, limit)
  {
    var back, t := BackAtAccept(s);
    var spin := Spin(text, limit + 1);
    SpinsForever(t, text, limit + 1);
    ExecutionConcat(back, spin, s, t, t);
    MoreSteps(back, spin);
    assert Execution(back + spin, s, t) && Says(back + spin, text);
  }

  // ---------------------------------------------------------------------------------------
  // Whether Close returns

  lemma {:induction false} UntoldStays(acts: seq<Action>, s: State, t: State, text: string)
    requires Untold(s.run) && Execution(acts, s, t) && Says(acts, text) && !HasSuffix(text, CLOSED_TEXT)
    ensures Untold(t.run)
    decreases |acts|
  {
    if acts != [] {
      assert acts[0] in acts;
      UntoldStays(acts[1..], Apply(s, acts[0]), t, text);
    }
  }

  /** An inner listener that never gives the tested text keeps every Close call waiting. */
  lemma CloseHangs(before: seq<Action>, s: State, acts: seq<Action>, t: State, text: string)
    requires Execution(before, Init(), s) && Untold(s.run)
    requires Execution(acts, s, t) && Says(acts, text) && !HasSuffix(text, CLOSED_TEXT)
    ensures t.wg >= 1 && forall k :: 0 <= k < |t.closers| ==> !t.closers[k].Returned?
  {
    ReachableInv(before, s);
    ExecutionKeepsInv(acts, s, t);
    UntoldStays(acts, s, t, text);
  }

  /** A Close call can be brought to return, the inner listener answering with this text. */
  ghost predicate CanReturn(s: State, k: nat, text: string)
  {
    exists acts, t :: Execution(acts, s, t) && Says(acts, text) && k < |t.closers| && t.closers[k].Returned?
  }

  /** The last two steps of a Close call: wait for rest, then return. */
  lemma WaitingReturns(s: State, k: nat, text: string)
    requires Inv(s) && k < |s.closers| && s.closers[k].ToWait? && HasSuffix(text, CLOSED_TEXT)
    ensures CanReturn(s, k, text)
  {
    var rest := DrainReachesRest(s, text);
    RestReleasesClose(rest);
    var last := [CloseLocal(k)];
    var t := Apply(rest, CloseLocal(k));
    assert Execution(last[1..], t, t);
    ExecutionConcat(Drain(s, text), last, s, rest, t);
    assert Says(Drain(s, text) + last, text);
  }

  lemma {:induction false} CloseReturns(s: State, k: nat, text: string)
    requires Inv(s) && k < |s.closers| && HasSuffix(text, CLOSED_TEXT)
    ensures CanReturn(s, k, text)
    decreases match s.closers[k] case ToCancel => 2 case ToCloseInner => 1 case _ => 0
  {
    match s.closers[k]
    case Returned =>
      assert Execution([], s, s) && Says([], text);
    case ToWait =>
      WaitingReturns(s, k, text);
    case ToCancel | ToCloseInner =>
      var a := CloseLocal(k);
      StepKeepsInv(s, a);
      CloseReturns(Apply(s, a), k, text);
      var acts, t :| Execution(acts, Apply(s, a), t) && Says(acts, text) && k < |t.closers| && t.closers[k].Returned?;
      assert ([a] + acts)[1..] == acts;
      assert Execution([a] + acts, s, t) && Says([a] + acts, text);
  }

  /** The tested words, written out. */
  ghost predicate EndsInTheWords(text: string)
  {
    exists prefix :: text == prefix + "use of closed network connection"
  }

  lemma SuffixIsTheWords(text: string)
    ensures HasSuffix(text, CLOSED_TEXT) <==> EndsInTheWords(text)
  {
    var words := "use of closed network connection";
    if HasSuffix(text, CLOSED_TEXT) {
      assert text == text[..|text| - |words|] + words;
    }
    if prefix :| text == prefix + words {
      assert text[|text| - |words|..] == words;
    }
  }

  /** A Close call of a listener not yet told of closure can return, with the inner listener
      answering `text` throughout, if and only if `text` ends in the tested words. */
  lemma CloseReturnsExactly(before: seq<Action>, s: State, k: nat, text: string)
    requires Execution(before, Init(), s) && Untold(s.run) && k < |s.closers|
    ensures EndsInTheWords(text) <==> CanReturn(s, k, text)
  {
    SuffixIsTheWords(text);
    if HasSuffix(text, CLOSED_TEXT) {
      ReachableInv(before, s);
      CloseReturns(s, k, text);
    } else if acts, t :| Execution(acts, s, t) && Says(acts, text) && k < |t.closers| && t.closers[k].Returned? {
      CloseHangs(before, s, acts, t, text);
    }
  }

  /** Whether shutdown completes depends on the text alone. After cancellation, and as long as
      `run` has not been told of closure: the listener's steps are bounded over all schedules
      if and only if the text the inner listener keeps answering ends in the tested words, and
      under the same condition, and no other, can each Close call return. */
  lemma ClosedTextDecides(before: seq<Action>, s: State, text: string)
    requires Execution(before, Init(), s) && s.cancelled && Untold(s.run)
    ensures EndsInTheWords(text) <==> exists limit: nat :: ShutdownBounded(s, text, limit)
    ensures forall k: nat :: k < |s.closers| ==> (EndsInTheWords(text) <==> CanReturn(s, k, text))
  {
    SuffixIsTheWords(text);
    ReachableInv(before, s);
    if HasSuffix(text, CLOSED_TEXT) {
      forall acts, t | Execution(acts, s, t) && Says(acts, text)
        ensures ListenerSteps(acts) <= WORK_LIMIT
      {
        ShutdownTerminates(before, s, acts, t, text);
        SaidClosureIsNotOther(acts, text);
      }
      assert ShutdownBounded(s, text, WORK_LIMIT);
    } else {
      forall limit: nat
        ensures !ShutdownBounded(s, text, limit)
      {
        OtherTextUnbounded(s, text, limit);
      }
    }
    forall k: nat | k < |s.closers|
      ensures EndsInTheWords(text) <==> CanReturn(s, k, text)
    {
      CloseReturnsExactly(before, s, k, text);
    }
  }

  /** The error this listener's own Accept returns after cancellation, were it layered under
      another one, does not stop that one's loop, and no Close call of that one returns. */
  lemma ListenerClosedTextSpins(before: seq<Action>, s: State, limit: nat)
    requires Execution(before, Init(), s) && s.cancelled && Untold(s.run)
    ensures !ShutdownBounded(s, "listener closed", limit)
    ensures forall k: nat :: k < |s.closers| ==> !CanReturn(s, k, "listener closed")
  {
    var text := "listener closed";
    assert forall prefix: string :: |text| < |prefix + "use of closed network connection"|;
    ClosedTextDecides(before, s, text);
  }
}
