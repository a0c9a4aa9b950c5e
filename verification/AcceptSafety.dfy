/** What the accept pipeline guarantees in every reachable state, and after Close. */
module AcceptSafety {
  import opened Sums
  import opened AcceptPipeline

  // ---------------------------------------------------------------------------------------
  // Settlement

  /** The number of places the pair is in: the hand of `run`, the hand of its goroutine, the
      Accept calls that returned it, and the discards that closed it. */
  ghost function Places(s: State, p: nat): nat
    requires p < |s.pairs|
  {
    ToNat(RunHolds(s.run, p)) + ToNat(TaskHolds(s.pairs[p].task)) + Deliveries(s, p) + s.pairs[p].connClosed
  }

  /** Neither `run` nor a goroutine has anything left to do for the pair. */
  predicate Finished(s: State, p: nat)
    requires p < |s.pairs|
  {
    !RunHolds(s.run, p) && (s.pairs[p].task.Unspawned? || s.pairs[p].task.Gone?)
  }

  /** In every reachable state a pair is in exactly one place; a delivered pair is intact, a
      discarded one is settled in full, no ledger entry is ever made twice, and the context of
      a finished pair has been cancelled. */
  lemma ExactlyOnce(acts: seq<Action>, s: State, p: nat)
    requires Execution(acts, Init(), s) && p < |s.pairs|
    ensures Places(s, p) == 1
    ensures Deliveries(s, p) == 1 ==> s.pairs[p].connClosed == 0 && s.pairs[p].scopeDone == 0
    ensures s.pairs[p].connClosed == 1 ==> s.pairs[p].scopeDone == ToNat(s.pairs[p].scoped)
    ensures s.pairs[p].scopeDone <= ToNat(s.pairs[p].scoped) && s.pairs[p].cancels <= 1
    ensures Finished(s, p) ==> s.pairs[p].cancels == 1 && (Deliveries(s, p) == 1 || s.pairs[p].connClosed == 1)
  {
    ReachableInv(acts, s);
    assert PairOk(s.run, p, s.pairs[p], Deliveries(s, p));
  }

  lemma NoPairIsReturnedTwice(acts: seq<Action>, s: State, k: nat, m: nat)
    requires Execution(acts, Init(), s)
    requires k < m < |s.calls| && s.calls[k].Got? && s.calls[m].Got?
    ensures s.calls[k].pair != s.calls[m].pair
  {
    ReachableInv(acts, s);
    var p := s.calls[k].pair;
    ExactlyOnce(acts, s, p);
    if s.calls[m].pair == p {
      SumAtLeastTwo(s.calls, k, m, GotWeight(p));
    }
  }

  lemma {:induction false} ResultsAreFinal(acts: seq<Action>, s: State, t: State, k: nat)
    requires Execution(acts, s, t) && k < |s.calls| && !s.calls[k].Blocked?
    ensures k < |t.calls| && t.calls[k] == s.calls[k]
    decreases |acts|
  {
    if acts != [] {
      var u := Apply(s, acts[0]);
      assert u.calls == s.calls || acts[0].Deliver? || acts[0].Refuse? || acts[0].CallAccept?;
      ResultsAreFinal(acts[1..], u, t, k);
    }
  }

  lemma {:induction false} ExecutionConcat(xs: seq<Action>, ys: seq<Action>, s: State, t: State, u: State)
    requires Execution(xs, s, t) && Execution(ys, t, u)
    ensures Execution(xs + ys, s, u)
    decreases |xs|
  {
    if xs == [] {
      assert xs + ys == ys;
    } else {
      ExecutionConcat(xs[1..], ys, Apply(s, xs[0]), t, u);
      assert (xs + ys)[1..] == xs[1..] + ys;
    }
  }

  /** Whatever happens after an Accept call returned a pair, cancellation included, the
      listener never touches that pair again. */
  lemma DeliveredStaysDelivered(acts: seq<Action>, s: State, more: seq<Action>, t: State, k: nat)
    requires Execution(acts, Init(), s) && Execution(more, s, t)
    requires k < |s.calls| && s.calls[k].Got?
    ensures k < |t.calls| && t.calls[k] == s.calls[k] && s.calls[k].pair < |t.pairs|
    ensures t.pairs[s.calls[k].pair].connClosed == 0 && t.pairs[s.calls[k].pair].scopeDone == 0
  {
    ResultsAreFinal(more, s, t, k);
    ExecutionConcat(acts, more, Init(), s, t);
    ReachableInv(acts + more, t);
    var p := t.calls[k].pair;
    ExactlyOnce(acts + more, t, p);
    SumAtLeast(t.calls, k, GotWeight(p));
  }

  ghost predicate CancelledByClose(s: State)
  {
    exists k :: 0 <= k < |s.closers| && !s.closers[k].ToCancel?
  }

  ghost predicate HonestRefusals(s: State)
  {
    && (s.cancelled ==> CancelledByClose(s))
    && forall k :: 0 <= k < |s.calls| && s.calls[k].Refused? ==> s.cancelled
  }

  lemma StepKeepsRefusalsHonest(s: State, a: Action)
    requires HonestRefusals(s) && Enabled(s, a)
    ensures HonestRefusals(Apply(s, a))
  {
    var t := Apply(s, a);
    if k :| 0 <= k < |s.closers| && !s.closers[k].ToCancel? {
      assert !t.closers[k].ToCancel?;
    }
    if a.CloseLocal? {
      assert !t.closers[a.closer].ToCancel?;
    }
  }

  lemma {:induction false} RefusalsStayHonest(acts: seq<Action>, s: State, t: State)
    requires HonestRefusals(s) && Execution(acts, s, t)
    ensures HonestRefusals(t)
    decreases |acts|
  {
    if acts != [] {
      StepKeepsRefusalsHonest(s, acts[0]);
      RefusalsStayHonest(acts[1..], Apply(s, acts[0]), t);
    }
  }

  /** An Accept call returns the closed error only after some Close call has cancelled: no
      failure of the inner listener, full queue or failed handshake ever reaches the caller. */
  lemma RefusedOnlyByClose(acts: seq<Action>, s: State, k: nat)
    requires Execution(acts, Init(), s) && k < |s.calls| && s.calls[k].Refused?
    ensures s.cancelled && CancelledByClose(s)
  {
    RefusalsStayHonest(acts, Init(), s);
  }

  // ---------------------------------------------------------------------------------------
  // The counters

  /** The semaphore holds one token per goroutine that has not run its last deferred call,
      and one while `run` is between taking a slot and starting the goroutine. So at most
      64 handshakes run at once, and the last deferred call never blocks. */
  lemma SemaphoreAccounting(acts: seq<Action>, s: State)
    requires Execution(acts, Init(), s)
    ensures s.queue == Sum(s.pairs, SlotWeight()) + ToNat(s.run.RunAdd? || s.run.RunGo?) <= 64
    ensures Sum(s.pairs, ShakingWeight()) <= 64
    ensures forall p: nat :: TaskIs(s, p, FreeSlot) ==> Enabled(s, TaskLocal(p))
  {
    ReachableInv(acts, s);
    SumBounded(s.pairs, ShakingWeight(), 1, SlotWeight());
    forall p: nat | TaskIs(s, p, FreeSlot)
      ensures Enabled(s, TaskLocal(p))
    {
      SumAtLeast(s.pairs, p, SlotWeight());
    }
  }

  /** The WaitGroup counts `run` and the goroutines before their wg.Done: it never goes
      negative, and `run` never adds to it when it is zero. */
  lemma WaitGroupDiscipline(acts: seq<Action>, s: State)
    requires Execution(acts, Init(), s)
    ensures s.wg == Sum(s.pairs, DoneWeight()) + ToNat(!s.run.RunExit?) + ToNat(s.run.RunGo?)
    ensures s.run.RunAdd? || s.run.RunUnwind? ==> s.wg >= 1
    ensures forall p: nat :: TaskIs(s, p, WgDone) ==> s.wg >= 1
  {
    ReachableInv(acts, s);
    forall p: nat | TaskIs(s, p, WgDone)
      ensures s.wg >= 1
    {
      SumAtLeast(s.pairs, p, DoneWeight());
    }
  }

  // ---------------------------------------------------------------------------------------
  // Close

  /** The WaitGroup has drained after cancellation. */
  ghost predicate ClosedDown(s: State)
  {
    Inv(s) && s.wg == 0 && s.cancelled
  }

  lemma ClosedDownMeans(s: State)
    requires ClosedDown(s)
    ensures s.run == RunExit
    ensures forall p: nat :: p < |s.pairs| ==> !BeforeDone(s.pairs[p].task)
    ensures forall p: nat :: p < |s.pairs| ==> Settled(s.pairs[p], Deliveries(s, p))
  {
    SumZero(s.pairs, DoneWeight());
    forall p: nat | p < |s.pairs|
      ensures !BeforeDone(s.pairs[p].task) && Settled(s.pairs[p], Deliveries(s, p))
    {
      assert DoneWeight()(s.pairs[p]) == 0;
      assert PairOk(s.run, p, s.pairs[p], Deliveries(s, p));
    }
  }

  lemma ClosedDownStays(s: State, a: Action)
    requires ClosedDown(s) && Enabled(s, a)
    ensures !a.Deliver? && !a.InnerPair? && ClosedDown(Apply(s, a))
  {
    ClosedDownMeans(s);
    StepKeepsInv(s, a);
  }

  /** From a closed-down state no call is ever given a pair and no pair ever arrives. */
  lemma {:induction false} NothingArrivesAfterClose(acts: seq<Action>, s: State, t: State)
    requires ClosedDown(s) && Execution(acts, s, t)
    ensures ClosedDown(t) && |t.pairs| == |s.pairs| && |t.calls| >= |s.calls|
    ensures forall k :: 0 <= k < |t.calls| && t.calls[k].Got? ==> k < |s.calls| && s.calls[k] == t.calls[k]
    decreases |acts|
  {
    if acts != [] {
      ClosedDownStays(s, acts[0]);
      NothingArrivesAfterClose(acts[1..], Apply(s, acts[0]), t);
    }
  }

  /** Once a Close call has returned, in every later state: `run` has exited, no goroutine
      holds a pair, every pair ever accepted is delivered or discarded in full, no pair has
      arrived since, and an Accept call that had not returned one by then gets none. */
  lemma QuiescentClose(acts: seq<Action>, s: State, closer: nat, more: seq<Action>, t: State)
    requires Execution(acts, Init(), s) && Execution(more, s, t)
    requires closer < |s.closers| && s.closers[closer].Returned?
    ensures t.run == RunExit && |t.pairs| == |s.pairs| && t.errorScopesDone == t.errorScopes
    ensures forall p: nat :: p < |t.pairs| ==> !TaskHolds(t.pairs[p].task) && Settled(t.pairs[p], Deliveries(t, p))
    ensures forall k :: 0 <= k < |t.calls| && t.calls[k].Got? ==> k < |s.calls| && s.calls[k] == t.calls[k]
    ensures forall k: nat :: k < |t.calls| && t.calls[k].Blocked? ==>
      Enabled(t, Refuse(k)) && Apply(t, Refuse(k)).calls == t.calls[k := Refused]
  {
    ReachableInv(acts, s);
    NothingArrivesAfterClose(more, s, t);
    ClosedDownMeans(t);
  }

  // ---------------------------------------------------------------------------------------
  // No head-of-line blocking

  predicate IsInner(a: Action) { a.InnerPair? || a.InnerError? }

  predicate IsRun(a: Action) { a.TakeSlot? || a.GiveUp? || a.RunLocal? }

  ghost function RunSteps(acts: seq<Action>): nat
  {
    if acts == [] then 0 else ToNat(IsRun(acts[0])) + RunSteps(acts[1..])
  }

  /** How many of its own steps `run` needs at most to get back to the inner Accept. */
  function Distance(run: Runner): nat
  {
    match run
    case RunSelect(_) => 4
    case RunCancel(_) => 3
    case RunRelease(_) | RunAdd(_) => 2
    case RunClose(_) | RunGo(_) | RunFail(_, _) => 1
    case RunAccept | RunUnwind | RunExit => 0
  }

  /** `run` is not stuck at the select: a slot is free or the context is done. */
  predicate Unblocked(s: State)
  {
    s.run.RunSelect? && s.run.pair < |s.pairs| ==> s.queue < 64 || ContextDone(s, s.run.pair)
  }

  lemma DispatchStep(s: State, a: Action)
    requires Inv(s) && Enabled(s, a) && !IsInner(a) && Unblocked(s)
    requires s.run.RunAccept? || InDispatch(s.run)
    ensures var t := Apply(s, a);
      && (t.run.RunAccept? || InDispatch(t.run)) && Unblocked(t)
      && Distance(t.run) + ToNat(IsRun(a)) <= Distance(s.run)
  {
    hide PairsOk, CallsOk, ClosersOk, Sum, HasSuffix;
  }

  /** While `run` is in `dispatch` and a slot is free or the context done, then under every
      interleaving, including those in which no handshake goroutine ever steps, `run` needs
      at most four steps of its own to be back in the inner Accept, and always has one to take. */
  lemma {:induction false} NoHeadOfLineBlocking(acts: seq<Action>, s: State, t: State)
    requires Inv(s) && Execution(acts, s, t) && Unblocked(s)
    requires s.run.RunAccept? || InDispatch(s.run)
    requires forall a :: a in acts ==> !IsInner(a)
    ensures RunSteps(acts) + Distance(t.run) <= Distance(s.run) <= 4
    ensures t.run.RunAccept? || exists a :: IsRun(a) && Enabled(t, a)
    decreases |acts|
  {
    if acts == [] {
      assert t.run.RunAccept? || Enabled(t, TakeSlot) || Enabled(t, GiveUp) || Enabled(t, RunLocal);
    } else {
      DispatchStep(s, acts[0]);
      StepKeepsInv(s, acts[0]);
      NoHeadOfLineBlocking(acts[1..], Apply(s, acts[0]), t);
    }
  }
}
