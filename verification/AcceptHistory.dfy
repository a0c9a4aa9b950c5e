/** What the actions of a run say about the state it leads to: why a pair was delivered or
    discarded, and that the books agree with what happened. */
module AcceptHistory {
  import opened Sums
  import opened AcceptPipeline
  import opened AcceptSafety

  /** The listener was cancelled, or thirty seconds have passed since the pair came in. */
  predicate GivenUpOn(s: State, p: nat)
    requires p < |s.pairs|
  {
    s.cancelled || s.now >= s.pairs[p].begun + 30_000_000_000
  }

  /** Where the pair is says how its handshake ended: `good` and `bad` say whether it was
      ever seen to succeed or to fail. */
  predicate Cause(s: State, p: nat, good: bool, bad: bool)
    requires p < |s.pairs|
  {
    var pair := s.pairs[p];
    && !(good && bad)
    && match pair.task
       case Unspawned =>
         !good && !bad &&
         ((RunHolds(s.run, p) && (s.run.RunSelect? || s.run.RunAdd? || s.run.RunGo?)) || GivenUpOn(s, p))
       case Shaking => !good && !bad
       case Offering => good
       case ReleaseScope | CloseConn => bad || (good && GivenUpOn(s, p))
       case CancelCtx | WgDone | FreeSlot | Gone =>
         if pair.connClosed > 0 then bad || (good && GivenUpOn(s, p)) else good
  }

  ghost predicate CauseIn(acts: seq<Action>, s: State, p: nat)
  {
    var good, bad := HandshakeEnds(p, true) in acts, HandshakeEnds(p, false) in acts;
    if p < |s.pairs| then Cause(s, p, good, bad) else !good && !bad
  }

  ghost predicate Causes(acts: seq<Action>, s: State)
  {
    forall p: nat :: CauseIn(acts, s, p)
  }

  /** An action that leaves the pair and `run` alone. */
  lemma UnmovedKeepsCause(s: State, t: State, p: nat, good: bool, bad: bool)
    requires p < |s.pairs| <= |t.pairs| && Cause(s, p, good, bad)
    requires t.pairs[p] == s.pairs[p] && t.run == s.run && (s.cancelled ==> t.cancelled) && s.now <= t.now
    ensures Cause(t, p, good, bad)
  {
  }

  lemma TaskActionKeepsCause(s: State, a: Action, p: nat, good: bool, bad: bool)
    requires Inv(s) && Enabled(s, a) && p < |s.pairs| && Cause(s, p, good, bad)
    requires (a.HandshakeEnds? || a.Deliver? || a.Withdraw? || a.TaskLocal?) && a.pair == p
    ensures Cause(Apply(s, a), p, good || a == HandshakeEnds(p, true), bad || a == HandshakeEnds(p, false))
  {
    hide Sum, RunStep;
    assert PairOk(s.run, p, s.pairs[p], Deliveries(s, p));
  }

  lemma RunActionKeepsCause(s: State, a: Action, p: nat, good: bool, bad: bool)
    requires Inv(s) && Enabled(s, a) && p < |s.pairs| && Cause(s, p, good, bad)
    requires a.InnerPair? || a.InnerError? || a.TakeSlot? || a.GiveUp?
    ensures Cause(Apply(s, a), p, good, bad)
  {
    hide Sum, RunStep, TaskStep;
    assert PairOk(s.run, p, s.pairs[p], Deliveries(s, p));
  }

  lemma RunStepKeepsCause(s: State, p: nat, good: bool, bad: bool)
    requires Inv(s) && Enabled(s, RunLocal) && p < |s.pairs| && Cause(s, p, good, bad)
    ensures Cause(RunStep(s), p, good, bad)
  {
    hide HasSuffix, Sum;
    assert PairOk(s.run, p, s.pairs[p], Deliveries(s, p));
  }

  lemma OthersLeaveThePair(s: State, a: Action, p: nat)
    requires Enabled(s, a) && p < |s.pairs| && !a.RunLocal?
    requires !(a.InnerPair? || a.InnerError? || a.TakeSlot? || a.GiveUp?)
    requires !((a.HandshakeEnds? || a.Deliver? || a.Withdraw? || a.TaskLocal?) && a.pair == p)
    ensures var t := Apply(s, a);
      && |t.pairs| == |s.pairs| && t.pairs[p] == s.pairs[p] && t.run == s.run
      && (s.cancelled ==> t.cancelled) && s.now <= t.now
  {
  }

  /** One action, seen from pair `p`. */
  lemma StepKeepsCause(s: State, a: Action, p: nat, good: bool, bad: bool)
    requires Inv(s) && Enabled(s, a) && p < |s.pairs| && Cause(s, p, good, bad)
    ensures p < |Apply(s, a).pairs|
    ensures Cause(Apply(s, a), p, good || a == HandshakeEnds(p, true), bad || a == HandshakeEnds(p, false))
  {
    hide Inv, Cause;
    if a.RunLocal? {
      RunStepKeepsCause(s, p, good, bad);
    } else if a.InnerPair? || a.InnerError? || a.TakeSlot? || a.GiveUp? {
      RunActionKeepsCause(s, a, p, good, bad);
    } else if (a.HandshakeEnds? || a.Deliver? || a.Withdraw? || a.TaskLocal?) && a.pair == p {
      TaskActionKeepsCause(s, a, p, good, bad);
    } else {
      OthersLeaveThePair(s, a, p);
      hide Apply, Enabled;
      UnmovedKeepsCause(s, Apply(s, a), p, good, bad);
    }
  }

  lemma StepKeepsCauses(past: seq<Action>, s: State, a: Action)
    requires Inv(s) && Enabled(s, a) && Causes(past, s)
    ensures Causes(past + [a], Apply(s, a))
  {
    var t := Apply(s, a);
    forall p: nat
      ensures CauseIn(past + [a], t, p)
    {
      assert CauseIn(past, s, p);
      if p < |s.pairs| {
        StepKeepsCause(s, a, p, HandshakeEnds(p, true) in past, HandshakeEnds(p, false) in past);
        hide Cause;
      }
    }
  }

  lemma {:induction false} ExecutionKeepsCauses(past: seq<Action>, acts: seq<Action>, s: State, t: State)
    requires Inv(s) && Causes(past, s) && Execution(acts, s, t)
    ensures Causes(past + acts, t)
    decreases |acts|
  {
    if acts == [] {
      assert past + acts == past;
    } else {
      StepKeepsInv(s, acts[0]);
      StepKeepsCauses(past, s, acts[0]);
      ExecutionKeepsCauses(past + [acts[0]], acts[1..], Apply(s, acts[0]), t);
      assert (past + [acts[0]]) + acts[1..] == past + acts;
    }
  }

  lemma NothingYet(s: State)
    requires s.pairs == []
    ensures Causes([], s)
  {
    hide Cause;
  }

  lemma ReachableCauses(acts: seq<Action>, s: State, p: nat)
    requires Execution(acts, Init(), s)
    ensures CauseIn(acts, s, p)
  {
    hide Inv, CauseIn;
    var start := Init();
    StartInv(start);
    NothingYet(start);
    hide Init;
    ExecutionKeepsCauses([], acts, start, s);
    assert [] + acts == acts;
  }

  /** An Accept call returns a connection only after its TLS handshake succeeded. */
  lemma DeliveredWasShaken(acts: seq<Action>, s: State, k: nat)
    requires Execution(acts, Init(), s) && k < |s.calls| && s.calls[k].Got?
    ensures HandshakeEnds(s.calls[k].pair, true) in acts && HandshakeEnds(s.calls[k].pair, false) !in acts
  {
    ReachableInv(acts, s);
    var p := s.calls[k].pair;
    ReachableCauses(acts, s, p);
    ExactlyOnce(acts, s, p);
    SumAtLeast(s.calls, k, GotWeight(p));
    assert PairOk(s.run, p, s.pairs[p], Deliveries(s, p));
  }

  /** A pair whose handshake failed reaches no Accept call, and when its goroutine is gone the
      scope was released and the connection closed. */
  lemma FailedIsDiscarded(acts: seq<Action>, s: State, p: nat)
    requires Execution(acts, Init(), s) && HandshakeEnds(p, false) in acts
    ensures p < |s.pairs| && Deliveries(s, p) == 0 && HandshakeEnds(p, true) !in acts
    ensures s.pairs[p].task.Gone? ==> s.pairs[p].connClosed == 1 && s.pairs[p].scopeDone == ToNat(s.pairs[p].scoped)
  {
    ReachableInv(acts, s);
    ReachableCauses(acts, s, p);
    assert PairOk(s.run, p, s.pairs[p], Deliveries(s, p));
  }

  /** The listener releases a scope or closes a connection for one of three reasons only: its
      handshake failed, the listener was cancelled, or thirty seconds have passed. */
  lemma DiscardHasCause(acts: seq<Action>, s: State, p: nat)
    requires Execution(acts, Init(), s) && p < |s.pairs| && s.pairs[p].scopeDone + s.pairs[p].connClosed > 0
    ensures HandshakeEnds(p, false) in acts || s.cancelled || s.now >= s.pairs[p].begun + 30_000_000_000
  {
    ReachableInv(acts, s);
    ReachableCauses(acts, s, p);
    assert PairOk(s.run, p, s.pairs[p], Deliveries(s, p));
  }

  // ---------------------------------------------------------------------------------------
  // The books

  /** The pairs that came in, in order: whether each has a scope. */
  ghost function Arrivals(acts: seq<Action>): seq<bool>
  {
    if acts == [] then []
    else
      var last := acts[|acts| - 1];
      Arrivals(acts[..|acts| - 1]) + if last.InnerPair? then [last.scoped] else []
  }

  ghost function Count(acts: seq<Action>, which: Action -> bool): nat
  {
    if acts == [] then 0 else Count(acts[..|acts| - 1], which) + ToNat(which(acts[|acts| - 1]))
  }

  predicate BringsErrorScope(a: Action) { a.InnerError? && a.scoped }

  ghost predicate BooksAgree(acts: seq<Action>, s: State)
  {
    && |Arrivals(acts)| == |s.pairs|
    && (forall p: nat :: p < |s.pairs| ==> s.pairs[p].scoped == Arrivals(acts)[p])
    && s.errorScopes == Count(acts, BringsErrorScope)
    && s.now == Count(acts, (a: Action) => a.Tick?)
    && |s.calls| == Count(acts, (a: Action) => a.CallAccept?)
    && |s.closers| == Count(acts, (a: Action) => a.CallClose?)
  }

  lemma OneMore(past: seq<Action>, a: Action, which: Action -> bool)
    ensures Count(past + [a], which) == Count(past, which) + ToNat(which(a))
    ensures Arrivals(past + [a]) == Arrivals(past) + if a.InnerPair? then [a.scoped] else []
  {
    assert (past + [a])[..|past|] == past;
  }

  lemma StepKeepsBooks(past: seq<Action>, s: State, a: Action)
    requires Enabled(s, a) && BooksAgree(past, s)
    ensures BooksAgree(past + [a], Apply(s, a))
  {
    OneMore(past, a, BringsErrorScope);
    OneMore(past, a, (x: Action) => x.Tick?);
    OneMore(past, a, (x: Action) => x.CallAccept?);
    OneMore(past, a, (x: Action) => x.CallClose?);
    hide Count, Arrivals, HasSuffix;
  }

  lemma {:induction false} ExecutionKeepsBooks(past: seq<Action>, acts: seq<Action>, s: State, t: State)
    requires BooksAgree(past, s) && Execution(acts, s, t)
    ensures BooksAgree(past + acts, t)
    decreases |acts|
  {
    if acts == [] {
      assert past + acts == past;
    } else {
      StepKeepsBooks(past, s, acts[0]);
      ExecutionKeepsBooks(past + [acts[0]], acts[1..], Apply(s, acts[0]), t);
      assert (past + [acts[0]]) + acts[1..] == past + acts;
    }
  }

  /** Nothing is invented and nothing is lost: pairs, scopes that came with errors, Accept and
      Close calls and the time are what the run brought in, in that order. */
  lemma BooksAreHonest(acts: seq<Action>, s: State)
    requires Execution(acts, Init(), s)
    ensures BooksAgree(acts, s)
  {
    ExecutionKeepsBooks([], acts, Init(), s);
    assert [] + acts == acts;
  }
}
