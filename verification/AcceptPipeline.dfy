/** The listener's accept pipeline as a labelled transition system.

    The actors are the `run` goroutine, one handshake goroutine per dispatched connection,
    any number of Accept and Close calls, the inner listener and the clock. Every action is
    one step of one actor, except the hand-over on the unbuffered channel, in which a
    handshake goroutine and an Accept call step together. */
module AcceptPipeline {
  import opened Sums

  const QUEUE_SIZE: nat := 64

  /** The context of a dispatched connection lives this long; a tick is a nanosecond. */
  const ACCEPT_TIMEOUT: nat := 30_000_000_000

  const CLOSED_TEXT := "use of closed network connection"

  predicate HasSuffix(text: string, suffix: string)
  {
    |suffix| <= |text| && text[|text| - |suffix|..] == suffix
  }

  /** The program counter of `run`; inside `dispatch` it carries the pair in hand. */
  datatype Runner =
    | RunAccept                            // in the inner listener's Accept
    | RunFail(text: string, scoped: bool)  // an error in hand, its scope not yet released
    | RunSelect(pair: nat)                 // choosing between a slot and the timed context
    | RunCancel(pair: nat)                 // gave up: cancel the context,
    | RunRelease(pair: nat)                //   release the scope,
    | RunClose(pair: nat)                  //   close the connection
    | RunAdd(pair: nat)                    // slot taken: wg.Add,
    | RunGo(pair: nat)                     //   start the goroutine
    | RunUnwind                            // left the loop: deferred wg.Done
    | RunExit

  /** The program counter of the handshake goroutine of one pair. The last four steps before
      Gone are the deferred calls in the order they run. */
  datatype Task =
    | Unspawned
    | Shaking       // in the TLS handshake
    | Offering      // choosing between an Accept caller and the timed context
    | ReleaseScope  // discarding: scope first,
    | CloseConn     //   then the connection
    | CancelCtx     // deferred cancel
    | WgDone        // deferred wg.Done
    | FreeSlot      // deferred receive from the queue
    | Gone

  /** A (connection, scope) pair and its ledger: how often the listener called Done on the
      scope, Close on the connection and cancel on the context. It entered `dispatch` at
      `begun`, and its goroutine entered the handshake, or the closing of the connection, at
      `since`. */
  datatype Pair = Pair(
    scoped: bool, begun: nat, since: nat, task: Task,
    scopeDone: nat, connClosed: nat, cancels: nat)

  datatype Call = Blocked | Got(pair: nat) | Refused

  datatype Closer = ToCancel | ToCloseInner | ToWait | Returned

  datatype State = State(
    run: Runner, pairs: seq<Pair>, queue: nat, wg: int, cancelled: bool, innerClosed: bool,
    calls: seq<Call>, closers: seq<Closer>, now: nat, errorScopes: nat, errorScopesDone: nat)

  datatype Action =
    | InnerPair(scoped: bool)
    | InnerError(text: string, scoped: bool)
    | TakeSlot
    | GiveUp
    | RunLocal
    | HandshakeEnds(pair: nat, ok: bool)
    | Deliver(pair: nat, call: nat)
    | Withdraw(pair: nat)
    | TaskLocal(pair: nat)
    | CallAccept
    | Refuse(call: nat)
    | CallClose
    | CloseLocal(closer: nat)
    | Tick

  function Init(): State { State(RunAccept, [], 0, 1, false, false, [], [], 0, 0, 0) }

  /** The context made in `dispatch` is done: its parent is cancelled, its own cancel was
      called, or its deadline has passed. */
  predicate ContextDone(s: State, p: nat)
    requires p < |s.pairs|
  {
    s.cancelled || s.pairs[p].cancels > 0 || s.now >= s.pairs[p].begun + ACCEPT_TIMEOUT
  }

  predicate TaskIs(s: State, p: nat, task: Task)
  {
    p < |s.pairs| && s.pairs[p].task == task
  }

  function ToNat(b: bool): nat { if b then 1 else 0 }

  predicate RunEnabled(s: State)
  {
    match s.run
    case RunAccept | RunSelect(_) | RunExit => false
    case RunFail(_, _) | RunUnwind => true
    case RunCancel(_) | RunRelease(_) | RunClose(_) | RunAdd(_) | RunGo(_) => s.run.pair < |s.pairs|
  }

  predicate TaskEnabled(s: State, task: Task)
  {
    match task
    case Unspawned | Shaking | Offering | Gone => false
    case ReleaseScope | CloseConn | CancelCtx | WgDone => true
    case FreeSlot => s.queue > 0  // a receive from an empty queue would block
  }

  predicate CloserEnabled(s: State, closer: Closer)
  {
    match closer
    case ToCancel | ToCloseInner => true
    case ToWait => s.wg == 0
    case Returned => false
  }

  predicate Enabled(s: State, a: Action)
  {
    match a
    case InnerPair(_) => s.run.RunAccept?
    case InnerError(_, _) => s.run.RunAccept?
    case TakeSlot => s.run.RunSelect? && s.queue < QUEUE_SIZE
    case GiveUp => s.run.RunSelect? && s.run.pair < |s.pairs| && ContextDone(s, s.run.pair)
    case RunLocal => RunEnabled(s)
    case HandshakeEnds(p, _) => TaskIs(s, p, Shaking)
    case Deliver(p, k) => TaskIs(s, p, Offering) && k < |s.calls| && s.calls[k].Blocked?
    case Withdraw(p) => TaskIs(s, p, Offering) && ContextDone(s, p)
    case TaskLocal(p) => p < |s.pairs| && TaskEnabled(s, s.pairs[p].task)
    case CallAccept => true
    case Refuse(k) => k < |s.calls| && s.calls[k].Blocked? && s.cancelled
    case CallClose => true
    case CloseLocal(k) => k < |s.closers| && CloserEnabled(s, s.closers[k])
    case Tick => true
  }

  function WithPair(s: State, p: nat, pair: Pair): State
    requires p < |s.pairs|
  {
    s.(pairs := s.pairs[p := pair])
  }

  function WithTask(s: State, p: nat, task: Task): State
    requires p < |s.pairs|
  {
    WithPair(s, p, s.pairs[p].(task := task))
  }

  /** One step of `run` that involves no other actor. */
  function RunStep(s: State): State
    requires Enabled(s, RunLocal)
  {
    match s.run
    case RunFail(text, scoped) =>
      s.(errorScopesDone := s.errorScopesDone + ToNat(scoped),
         run := if HasSuffix(text, CLOSED_TEXT) then RunUnwind else RunAccept)
    case RunCancel(p) =>
      WithPair(s, p, s.pairs[p].(cancels := s.pairs[p].cancels + 1)).(run := RunRelease(p))
    case RunRelease(p) =>
      WithPair(s, p, s.pairs[p].(scopeDone := s.pairs[p].scopeDone + ToNat(s.pairs[p].scoped)))
      .(run := RunClose(p))
    case RunClose(p) =>
      WithPair(s, p, s.pairs[p].(connClosed := s.pairs[p].connClosed + 1)).(run := RunAccept)
    case RunAdd(p) =>
      s.(wg := s.wg + 1, run := RunGo(p))
    case RunGo(p) =>
      WithPair(s, p, s.pairs[p].(task := Shaking, since := s.now)).(run := RunAccept)
    case RunUnwind =>
      s.(wg := s.wg - 1, run := RunExit)
  }

  /** What one local step of its handshake goroutine does to the pair. */
  function AfterTaskStep(pair: Pair, now: nat): Pair
  {
    match pair.task
    case Unspawned | Shaking | Offering | Gone => pair
    case ReleaseScope =>
      pair.(scopeDone := pair.scopeDone + ToNat(pair.scoped), task := CloseConn, since := now)
    case CloseConn => pair.(connClosed := pair.connClosed + 1, task := CancelCtx)
    case CancelCtx => pair.(cancels := pair.cancels + 1, task := WgDone)
    case WgDone => pair.(task := FreeSlot)
    case FreeSlot => pair.(task := Gone)
  }

  /** One step of the handshake goroutine of `p` that involves no other actor. */
  function TaskStep(s: State, p: nat): State
    requires Enabled(s, TaskLocal(p))
  {
    var task := s.pairs[p].task;
    WithPair(s, p, AfterTaskStep(s.pairs[p], s.now))
    .(wg := s.wg - ToNat(task.WgDone?), queue := if task.FreeSlot? then s.queue - 1 else s.queue)
  }

  function CloseStep(s: State, k: nat): State
    requires Enabled(s, CloseLocal(k))
  {
    match s.closers[k]
    case ToCancel => s.(cancelled := true, closers := s.closers[k := ToCloseInner])
    case ToCloseInner => s.(innerClosed := true, closers := s.closers[k := ToWait])
    case ToWait => s.(closers := s.closers[k := Returned])
  }

  function Apply(s: State, a: Action): State
    requires Enabled(s, a)
  {
    match a
    case InnerPair(scoped) =>
      s.(pairs := s.pairs + [Pair(scoped, s.now, s.now, Unspawned, 0, 0, 0)],
         run := RunSelect(|s.pairs|))
    case InnerError(text, scoped) =>
      s.(errorScopes := s.errorScopes + ToNat(scoped), run := RunFail(text, scoped))
    case TakeSlot => s.(queue := s.queue + 1, run := RunAdd(s.run.pair))
    case GiveUp => s.(run := RunCancel(s.run.pair))
    case RunLocal => RunStep(s)
    case HandshakeEnds(p, ok) => WithTask(s, p, if ok then Offering else ReleaseScope)
    case Deliver(p, k) => WithTask(s, p, CancelCtx).(calls := s.calls[k := Got(p)])
    case Withdraw(p) => WithTask(s, p, ReleaseScope)
    case TaskLocal(p) => TaskStep(s, p)
    case CallAccept => s.(calls := s.calls + [Blocked])
    case Refuse(k) => s.(calls := s.calls[k := Refused])
    case CallClose => s.(closers := s.closers + [ToCancel])
    case CloseLocal(k) => CloseStep(s, k)
    case Tick => s.(now := s.now + 1)
  }

  /** The actions `acts`, taken in order from `s`, are all possible and end in `t`. */
  ghost predicate Execution(acts: seq<Action>, s: State, t: State)
    decreases |acts|
  {
    if acts == [] then s == t
    else Enabled(s, acts[0]) && Execution(acts[1..], Apply(s, acts[0]), t)
  }

  // ---------------------------------------------------------------------------------------
  // Who holds what

  predicate InDispatch(run: Runner)
  {
    run.RunSelect? || run.RunCancel? || run.RunRelease? || run.RunClose? || run.RunAdd? || run.RunGo?
  }

  predicate RunHolds(run: Runner, p: nat)
  {
    InDispatch(run) && run.pair == p
  }

  predicate TaskHolds(task: Task)
  {
    task.Shaking? || task.Offering? || task.ReleaseScope? || task.CloseConn?
  }

  /** The goroutine exists and has not yet run its deferred wg.Done. */
  predicate BeforeDone(task: Task)
  {
    TaskHolds(task) || task.CancelCtx? || task.WgDone?
  }

  predicate HasSlot(task: Task)
  {
    BeforeDone(task) || task.FreeSlot?
  }

  function GotWeight(p: nat): Call -> nat { (c: Call) => ToNat(c == Got(p)) }
  function SlotWeight(): Pair -> nat { (q: Pair) => ToNat(HasSlot(q.task)) }
  function DoneWeight(): Pair -> nat { (q: Pair) => ToNat(BeforeDone(q.task)) }
  function ShakingWeight(): Pair -> nat { (q: Pair) => ToNat(q.task.Shaking?) }

  /** How many Accept calls returned the pair `p`. */
  ghost function Deliveries(s: State, p: nat): nat
  {
    Sum(s.calls, GotWeight(p))
  }

  /** `delivered` Accept calls returned this pair and the listener neither closed its
      connection nor released its scope, or none did and it was discarded in full. */
  predicate Settled(pair: Pair, delivered: nat)
  {
    || (delivered == 1 && pair.connClosed == 0 && pair.scopeDone == 0)
    || (delivered == 0 && pair.connClosed == 1 && pair.scopeDone == ToNat(pair.scoped))
  }

  /** Nothing irreversible has happened to the pair, except that its scope may have been
      released on the way to closing the connection. */
  predicate Untouched(pair: Pair, delivered: nat, released: bool)
  {
    delivered == 0 && pair.connClosed == 0 && pair.scopeDone == ToNat(released && pair.scoped)
  }

  predicate PairOk(run: Runner, p: nat, pair: Pair, delivered: nat)
  {
    match pair.task
    case Unspawned =>
      if RunHolds(run, p) then
        Untouched(pair, delivered, run.RunClose?) && pair.cancels == ToNat(run.RunRelease? || run.RunClose?)
      else
        delivered == 0 && Settled(pair, 0) && pair.cancels == 1
    case Shaking | Offering | ReleaseScope =>
      Untouched(pair, delivered, false) && pair.cancels == 0 && !RunHolds(run, p)
    case CloseConn => Untouched(pair, delivered, true) && pair.cancels == 0 && !RunHolds(run, p)
    case CancelCtx => Settled(pair, delivered) && pair.cancels == 0 && !RunHolds(run, p)
    case WgDone | FreeSlot | Gone =>
      Settled(pair, delivered) && pair.cancels == 1 && !RunHolds(run, p)
  }

  predicate CountersOk(s: State, slots: nat, undone: nat)
  {
    && s.queue == slots + ToNat(s.run.RunAdd? || s.run.RunGo?)
    && s.queue <= QUEUE_SIZE
    && s.wg == undone + ToNat(!s.run.RunExit?) + ToNat(s.run.RunGo?)
    && s.errorScopes == s.errorScopesDone + ToNat(s.run.RunFail? && s.run.scoped)
  }

  predicate ClosersOk(s: State)
  {
    forall k :: 0 <= k < |s.closers| ==>
      && (!s.closers[k].ToCancel? ==> s.cancelled)
      && (s.closers[k].ToWait? || s.closers[k].Returned? ==> s.innerClosed)
      && (s.closers[k].Returned? ==> s.wg == 0)
  }

  ghost predicate CallsOk(s: State)
  {
    forall k :: 0 <= k < |s.calls| && s.calls[k].Got? ==> s.calls[k].pair < |s.pairs|
  }

  ghost predicate PairsOk(s: State)
  {
    forall p: nat :: p < |s.pairs| ==> PairOk(s.run, p, s.pairs[p], Deliveries(s, p))
  }

  /** The inductive invariant. */
  ghost predicate Inv(s: State)
  {
    && CountersOk(s, Sum(s.pairs, SlotWeight()), Sum(s.pairs, DoneWeight()))
    && ClosersOk(s)
    && (InDispatch(s.run) ==> s.run.pair < |s.pairs|)
    && CallsOk(s)
    && PairsOk(s)
  }

  // ---------------------------------------------------------------------------------------
  // Preservation

  /** Replacing pair `p` and moving `run` keeps the pair part of the invariant. */
  lemma PairReplaced(s: State, t: State, p: nat)
    requires PairsOk(s) && p < |s.pairs| && |t.pairs| == |s.pairs| && t.calls == s.calls
    requires t.pairs == s.pairs[p := t.pairs[p]]
    requires PairOk(t.run, p, t.pairs[p], Deliveries(s, p))
    requires t.run == s.run || forall q: nat :: q != p ==> !RunHolds(s.run, q) && !RunHolds(t.run, q)
    ensures PairsOk(t)
    ensures Sum(t.pairs, SlotWeight()) + SlotWeight()(s.pairs[p]) ==
            Sum(s.pairs, SlotWeight()) + SlotWeight()(t.pairs[p])
    ensures Sum(t.pairs, DoneWeight()) + DoneWeight()(s.pairs[p]) ==
            Sum(s.pairs, DoneWeight()) + DoneWeight()(t.pairs[p])
  {
    SumUpdate(s.pairs, p, t.pairs[p], SlotWeight());
    SumUpdate(s.pairs, p, t.pairs[p], DoneWeight());
    forall q: nat | q < |t.pairs|
      ensures PairOk(t.run, q, t.pairs[q], Deliveries(t, q))
    {
      assert PairOk(s.run, q, s.pairs[q], Deliveries(s, q));
    }
  }

  /** `run` moves without touching a pair: neither it nor the ledger of any pair notices. */
  lemma PairsUntouched(s: State, t: State)
    requires PairsOk(s) && t.pairs == s.pairs && t.calls == s.calls
    requires t.run == s.run || (!InDispatch(s.run) && !InDispatch(t.run)) ||
             (InDispatch(s.run) && InDispatch(t.run) && s.run.pair == t.run.pair &&
              (s.run.RunSelect? || s.run.RunAdd?) && (t.run.RunCancel? || t.run.RunAdd? || t.run.RunGo?))
    ensures PairsOk(t)
  {
    forall q: nat | q < |t.pairs|
      ensures PairOk(t.run, q, t.pairs[q], Deliveries(t, q))
    {
      assert PairOk(s.run, q, s.pairs[q], Deliveries(s, q));
    }
  }

  lemma InnerPairKeepsInv(s: State, scoped: bool)
    requires Inv(s) && Enabled(s, InnerPair(scoped))
    ensures Inv(Apply(s, InnerPair(scoped)))
  {
    hide Sum;
    var t := Apply(s, InnerPair(scoped));
    var added := t.pairs[|s.pairs|];
    SumAppend(s.pairs, added, SlotWeight());
    SumAppend(s.pairs, added, DoneWeight());
    SumZero(s.calls, GotWeight(|s.pairs|));
    forall q: nat | q < |t.pairs|
      ensures PairOk(t.run, q, t.pairs[q], Deliveries(t, q))
    {
      assert q < |s.pairs| ==> PairOk(s.run, q, s.pairs[q], Deliveries(s, q));
    }
  }

  lemma RunKeepsInv(s: State, a: Action)
    requires Inv(s) && Enabled(s, a) && (a.InnerError? || a.TakeSlot? || a.GiveUp?)
    ensures Inv(Apply(s, a))
  {
    PairsUntouched(s, Apply(s, a));
  }

  lemma RunLocalKeepsInv(s: State)
    requires Inv(s) && Enabled(s, RunLocal) && (s.run.RunFail? || s.run.RunAdd? || s.run.RunUnwind?)
    ensures Inv(RunStep(s))
  {
    var t := RunStep(s);
    PairsUntouched(s, t);
    assert t.closers == s.closers;
  }

  /** `run` steps on the pair in its hand. */
  lemma RunPairKeepsInv(s: State)
    requires Inv(s) && Enabled(s, RunLocal) && InDispatch(s.run) && !s.run.RunAdd?
    ensures Inv(RunStep(s))
  {
    hide Sum;
    var p, t := s.run.pair, RunStep(s);
    assert PairOk(s.run, p, s.pairs[p], Deliveries(s, p));
    PairReplaced(s, t, p);
  }

  lemma HandshakeKeepsInv(s: State, a: Action)
    requires Inv(s) && Enabled(s, a) && (a.HandshakeEnds? || a.Withdraw?)
    ensures Inv(Apply(s, a))
  {
    hide Sum;
    var p, t := a.pair, Apply(s, a);
    assert PairOk(s.run, p, s.pairs[p], Deliveries(s, p));
    PairReplaced(s, t, p);
  }

  lemma TaskStepKeepsPairOk(run: Runner, p: nat, pair: Pair, delivered: nat, now: nat)
    requires PairOk(run, p, pair, delivered)
    ensures PairOk(run, p, AfterTaskStep(pair, now), delivered)
  {
  }

  lemma TaskKeepsInv(s: State, p: nat)
    requires Inv(s) && Enabled(s, TaskLocal(p))
    ensures Inv(TaskStep(s, p))
  {
    hide Sum;
    var t := TaskStep(s, p);
    TaskStepKeepsPairOk(s.run, p, s.pairs[p], Deliveries(s, p), s.now);
    PairReplaced(s, t, p);
    SumAtLeast(s.pairs, p, DoneWeight());
  }

  lemma DeliverKeepsInv(s: State, p: nat, k: nat)
    requires Inv(s) && Enabled(s, Deliver(p, k))
    ensures Inv(Apply(s, Deliver(p, k)))
  {
    hide Sum;
    var t := Apply(s, Deliver(p, k));
    SumUpdate(s.pairs, p, t.pairs[p], SlotWeight());
    SumUpdate(s.pairs, p, t.pairs[p], DoneWeight());
    forall q: nat | q < |t.pairs|
      ensures PairOk(t.run, q, t.pairs[q], Deliveries(t, q))
    {
      SumUpdate(s.calls, k, Got(p), GotWeight(q));
      assert PairOk(s.run, q, s.pairs[q], Deliveries(s, q));
    }
  }

  lemma CallsKeepInv(s: State, a: Action)
    requires Inv(s) && Enabled(s, a) && (a.CallAccept? || a.Refuse?)
    ensures Inv(Apply(s, a))
  {
    hide Sum;
    var t := Apply(s, a);
    forall q: nat | q < |t.pairs|
      ensures PairOk(t.run, q, t.pairs[q], Deliveries(t, q))
    {
      assert PairOk(s.run, q, s.pairs[q], Deliveries(s, q));
      if a.CallAccept? {
        SumAppend(s.calls, Blocked, GotWeight(q));
      } else {
        SumUpdate(s.calls, a.call, Refused, GotWeight(q));
      }
    }
  }

  lemma ClosersKeepInv(s: State, a: Action)
    requires Inv(s) && Enabled(s, a) && (a.CallClose? || a.CloseLocal? || a.Tick?)
    ensures Inv(Apply(s, a))
  {
    hide Sum;
    PairsUntouched(s, Apply(s, a));
  }

  lemma StepKeepsInv(s: State, a: Action)
    requires Inv(s) && Enabled(s, a)
    ensures Inv(Apply(s, a))
  {
    match a
    case InnerPair(scoped) => InnerPairKeepsInv(s, scoped);
    case InnerError(_, _) | TakeSlot | GiveUp => RunKeepsInv(s, a);
    case RunLocal =>
      if InDispatch(s.run) && !s.run.RunAdd? { RunPairKeepsInv(s); } else { RunLocalKeepsInv(s); }
    case HandshakeEnds(_, _) | Withdraw(_) => HandshakeKeepsInv(s, a);
    case TaskLocal(p) => TaskKeepsInv(s, p);
    case Deliver(p, k) => DeliverKeepsInv(s, p, k);
    case CallAccept | Refuse(_) => CallsKeepInv(s, a);
    case CallClose | CloseLocal(_) | Tick => ClosersKeepInv(s, a);
  }

  lemma {:induction false} ExecutionKeepsInv(acts: seq<Action>, s: State, t: State)
    requires Inv(s) && Execution(acts, s, t)
    ensures Inv(t)
    decreases |acts|
  {
    if acts != [] {
      StepKeepsInv(s, acts[0]);
      ExecutionKeepsInv(acts[1..], Apply(s, acts[0]), t);
    }
  }

  lemma StartCounters(s: State)
    requires s == Init()
    ensures CountersOk(s, Sum(s.pairs, SlotWeight()), Sum(s.pairs, DoneWeight()))
  {
    SumZero(s.pairs, SlotWeight());
    SumZero(s.pairs, DoneWeight());
  }

  lemma NobodyThere(s: State)
    requires s.pairs == [] && s.calls == [] && s.closers == []
    ensures PairsOk(s) && CallsOk(s) && ClosersOk(s)
  {
    hide PairOk, Deliveries;
  }

  lemma StartInv(s: State)
    requires s == Init()
    ensures Inv(s)
  {
    hide CountersOk, PairsOk, CallsOk, ClosersOk, Sum, SlotWeight, DoneWeight;
    StartCounters(s);
    NobodyThere(s);
  }

  lemma ReachableInv(acts: seq<Action>, s: State)
    requires Execution(acts, Init(), s)
    ensures Inv(s)
  {
    var start := Init();
    StartInv(start);
    ExecutionKeepsInv(acts, start, s);
  }
}
