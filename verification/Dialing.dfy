/** The dial side: what happens to the resource scope and the raw connection of a dial that
    can fail at any point. The foreign parts (resource manager, network, TLS handshake,
    upgrader) answer as the environment of the dial says. */
module Dialing {

  /** The answers one dial meets, in the order in which it asks. An upgrader that fails closes
      the connection it was given and may release the scope as well. */
  datatype Environment = Environment(
    opens: bool, setsPeer: bool, connects: bool, handshakes: bool, upgrades: bool, upgraderReleases: bool)

  /** What a dial asks of the foreign parts. */
  datatype Question = OpenScope | SetPeer | Connect | Handshake | Upgrade

  /** How often Done was called on each scope and Close on each raw connection. Done is
      idempotent: a scope is released once it was called at all. */
  datatype Ledger = Ledger(scopeDone: seq<nat>, connClosed: seq<nat>)

  /** How often Done is called on the scope of a dial: never if it succeeds, once if it fails,
      and once more if the upgrader was reached and released it too. */
  function Releases(e: Environment, ok: bool): nat
  {
    if ok then 0
    else if e.setsPeer && e.connects && e.handshakes && e.upgraderReleases then 2
    else 1
  }

  /** The ledger after one more dial that met `e` and returned `ok`. */
  predicate Settles(before: Ledger, after: Ledger, e: Environment, ok: bool)
  {
    && before.scopeDone <= after.scopeDone && before.connClosed <= after.connClosed
    && |after.scopeDone| == |before.scopeDone| + (if e.opens then 1 else 0)
    && (e.opens ==> after.scopeDone[|before.scopeDone|] == Releases(e, ok))
    && |after.connClosed| == |before.connClosed| + (if e.opens && e.setsPeer && e.connects then 1 else 0)
    && (e.opens && e.setsPeer && e.connects ==> after.connClosed[|before.connClosed|] == if ok then 0 else 1)
  }

  /** The questions asked: as many as it takes to meet a refusal. */
  function Asked(e: Environment): seq<Question>
  {
    if !e.opens then [OpenScope]
    else if !e.setsPeer then [OpenScope, SetPeer]
    else if !e.connects then [OpenScope, SetPeer, Connect]
    else if !e.handshakes then [OpenScope, SetPeer, Connect, Handshake]
    else [OpenScope, SetPeer, Connect, Handshake, Upgrade]
  }

  function Answer(e: Environment, q: Question): bool
  {
    match q
    case OpenScope => e.opens
    case SetPeer => e.setsPeer
    case Connect => e.connects
    case Handshake => e.handshakes
    case Upgrade => e.upgrades
  }

  /** Nothing is asked after a refusal, a dial that was not refused has asked everything, and
      it succeeds exactly then. */
  lemma StopsAtRefusal(e: Environment, ok: bool)
    requires ok <==> e.opens && e.setsPeer && e.connects && e.handshakes && e.upgrades
    ensures Asked(e) <= [OpenScope, SetPeer, Connect, Handshake, Upgrade]
    ensures forall k :: 0 <= k < |Asked(e)| - 1 ==> Answer(e, Asked(e)[k])
    ensures Asked(e) != [] && (ok <==> |Asked(e)| == 5 && Answer(e, Asked(e)[4]))
    ensures !ok <==> !Answer(e, Asked(e)[|Asked(e)| - 1])
  {
  }

  /** A channel of dial updates: a buffer and possibly a receiver waiting. */
  class UpdateChannel {
    const capacity: nat
    var buffered: nat
    var receiverWaiting: bool

    constructor (capacity: nat)
      ensures this.capacity == capacity && buffered == 0 && !receiverWaiting
    {
      this.capacity := capacity;
      buffered, receiverWaiting := 0, false;
    }

    /** A send was tried or not: a waiting receiver takes it, else a free place in the buffer,
        else it is dropped. */
    twostate predicate AfterTry(tried: bool)
      reads this
    {
      && receiverWaiting == (old(receiverWaiting) && !tried)
      && buffered == old(buffered) + (if tried && !old(receiverWaiting) && old(buffered) < capacity then 1 else 0)
    }

    /** A send that gives up at once when the channel cannot take the update. */
    method TrySend() returns (sent: bool)
      modifies this
      ensures sent <==> old(receiverWaiting) || old(buffered) < capacity
      ensures AfterTry(true)
    {
      if receiverWaiting {
        receiverWaiting := false;
        return true;
      }
      if buffered < capacity {
        buffered := buffered + 1;
        return true;
      }
      return false;
    }
  }

  class Transport {
    var scopeDone: seq<nat>
    var connClosed: seq<nat>
    var asked: seq<Question>  // of the foreign parts, over all dials

    constructor ()
      ensures Books() == Ledger([], []) && asked == []
    {
      scopeDone, connClosed, asked := [], [], [];
    }

    function Books(): Ledger
      reads this
    {
      Ledger(scopeDone, connClosed)
    }

    method Done(scope: nat)
      requires scope < |scopeDone|
      modifies this`scopeDone
      ensures scopeDone == old(scopeDone)[scope := old(scopeDone)[scope] + 1]
    {
      scopeDone := scopeDone[scope := scopeDone[scope] + 1];
    }

    method Ask(q: Question, e: Environment) returns (answer: bool)
      modifies this`asked
      ensures asked == old(asked) + [q] && answer == Answer(e, q)
    {
      asked := asked + [q];
      return Answer(e, q);
    }

    /** A dial, with or without a channel for its progress. It succeeds exactly when every
        foreign part agrees and asks nothing after the first that does not; a scope opened is
        released, and a connection obtained is closed, exactly when it fails. The channel has
        no say in this, and gets its update exactly when there is a connection. */
    method DialWithUpdates(e: Environment, updates: UpdateChannel?) returns (ok: bool)
      modifies this, updates
      ensures ok <==> e.opens && e.setsPeer && e.connects && e.handshakes && e.upgrades
      ensures Settles(old(Books()), Books(), e, ok)
      ensures asked == old(asked) + Asked(e)
      ensures updates != null ==> updates.AfterTry(e.opens && e.setsPeer && e.connects)
    {
      var granted := Ask(OpenScope, e);
      if !granted {
        return false;
      }
      var scope := |scopeDone|;
      scopeDone := scopeDone + [0];
      ok := DialWithScope(e, scope, updates);
      if !ok {
        Done(scope);
        return false;
      }
      return true;
    }

    /** Any sequence of dials of a new transport. */
    method DialAll(es: seq<Environment>, updates: UpdateChannel?) returns (oks: seq<bool>)
      requires Books() == Ledger([], [])
      modifies this, updates
      ensures |oks| == |es| && forall i :: 0 <= i < |es| ==>
        (oks[i] <==> es[i].opens && es[i].setsPeer && es[i].connects && es[i].handshakes && es[i].upgrades)
      ensures Live(scopeDone) == Live(connClosed) == Successes(oks)
      ensures forall n :: n in connClosed ==> n <= 1
    {
      oks := [];
      for i := 0 to |es|
        invariant |oks| == i && forall k :: 0 <= k < i ==>
          (oks[k] <==> es[k].opens && es[k].setsPeer && es[k].connects && es[k].handshakes && es[k].upgrades)
        invariant Conserved(Books(), oks)
      {
        ghost var before := Books();
        var ok := DialWithUpdates(es[i], updates);
        DialConserves(before, Books(), es[i], oks, ok);
        oks := oks + [ok];
      }
    }

    method DialWithScope(e: Environment, scope: nat, updates: UpdateChannel?) returns (ok: bool)
      requires scope < |scopeDone|
      modifies this, updates
      ensures ok <==> e.setsPeer && e.connects && e.handshakes && e.upgrades
      ensures scopeDone == old(scopeDone)[scope := old(scopeDone)[scope] +
        (if e.setsPeer && e.connects && e.handshakes && !e.upgrades && e.upgraderReleases then 1 else 0)]
      ensures connClosed == old(connClosed) + if e.setsPeer && e.connects then [if ok then 0 else 1] else []
      ensures asked == old(asked) + Asked(e.(opens := true))[1..]
      ensures updates != null ==> updates.AfterTry(e.setsPeer && e.connects)
    {
      var peerSet := Ask(SetPeer, e);
      if !peerSet {
        return false;
      }
      var connected := Ask(Connect, e);
      if !connected {
        return false;
      }
      var conn := |connClosed|;
      connClosed := connClosed + [0];
      if updates != null {
        var sent := updates.TrySend();
      }
      ok := UpgradeDialed(e, conn, scope);
    }

    method UpgradeDialed(e: Environment, conn: nat, scope: nat) returns (ok: bool)
      requires conn < |connClosed| && scope < |scopeDone|
      modifies this
      ensures ok <==> e.handshakes && e.upgrades
      ensures connClosed == old(connClosed)[conn := old(connClosed)[conn] + (if ok then 0 else 1)]
      ensures scopeDone == old(scopeDone)[scope := old(scopeDone)[scope] +
        (if e.handshakes && !e.upgrades && e.upgraderReleases then 1 else 0)]
      ensures asked == old(asked) + if e.handshakes then [Handshake, Upgrade] else [Handshake]
    {
      var shaken := Ask(Handshake, e);
      if !shaken {
        connClosed := connClosed[conn := connClosed[conn] + 1];
        return false;
      }
      ok := CallUpgrader(e, conn, scope);
    }

    /** The upgrader: on failure it closes the connection, and it may release the scope. */
    method CallUpgrader(e: Environment, conn: nat, scope: nat) returns (ok: bool)
      requires conn < |connClosed| && scope < |scopeDone|
      modifies this
      ensures ok == e.upgrades && asked == old(asked) + [Upgrade]
      ensures connClosed == old(connClosed)[conn := old(connClosed)[conn] + (if ok then 0 else 1)]
      ensures scopeDone == old(scopeDone)[scope := old(scopeDone)[scope] +
        (if !e.upgrades && e.upgraderReleases then 1 else 0)]
    {
      ok := Ask(Upgrade, e);
      if !ok {
        connClosed := connClosed[conn := connClosed[conn] + 1];
        if e.upgraderReleases {
          Done(scope);
        }
      }
    }
  }

  // ---------------------------------------------------------------------------------------
  // Any sequence of dials

  ghost function Successes(oks: seq<bool>): nat
  {
    if oks == [] then 0 else Successes(oks[..|oks| - 1]) + if oks[|oks| - 1] then 1 else 0
  }

  /** The entries that were never settled. */
  ghost function Live(counts: seq<nat>): nat
  {
    if counts == [] then 0 else Live(counts[..|counts| - 1]) + if counts[|counts| - 1] == 0 then 1 else 0
  }

  lemma LiveAppend(counts: seq<nat>, n: nat)
    ensures Live(counts + [n]) == Live(counts) + if n == 0 then 1 else 0
  {
    assert (counts + [n])[..|counts|] == counts;
  }

  /** The live entries are those with count 0, the successes those that are true. */
  lemma {:induction false} LiveMeans(counts: seq<nat>, oks: seq<bool>)
    ensures Live(counts) == multiset(counts)[0] && Successes(oks) == multiset(oks)[true]
    decreases |counts| + |oks|
  {
    if counts != [] {
      assert counts == counts[..|counts| - 1] + [counts[|counts| - 1]];
      LiveMeans(counts[..|counts| - 1], oks);
    } else if oks != [] {
      assert oks == oks[..|oks| - 1] + [oks[|oks| - 1]];
      LiveMeans(counts, oks[..|oks| - 1]);
    }
  }

  /** As many scopes held and connections open as dials succeeded, none closed twice. */
  ghost predicate Conserved(l: Ledger, oks: seq<bool>)
  {
    && Live(l.scopeDone) == Live(l.connClosed) == Successes(oks)
    && forall n :: n in l.connClosed ==> n <= 1
  }

  lemma DialConserves(before: Ledger, after: Ledger, e: Environment, oks: seq<bool>, ok: bool)
    requires Conserved(before, oks) && Settles(before, after, e, ok)
    requires ok <==> e.opens && e.setsPeer && e.connects && e.handshakes && e.upgrades
    ensures Conserved(after, oks + [ok])
  {
    assert (oks + [ok])[..|oks|] == oks;
    if e.opens {
      LiveAppend(before.scopeDone, after.scopeDone[|before.scopeDone|]);
      assert after.scopeDone == before.scopeDone + [after.scopeDone[|before.scopeDone|]];
    } else {
      assert after.scopeDone == before.scopeDone;
    }
    if e.opens && e.setsPeer && e.connects {
      LiveAppend(before.connClosed, after.connClosed[|before.connClosed|]);
      assert after.connClosed == before.connClosed + [after.connClosed[|before.connClosed|]];
    } else {
      assert after.connClosed == before.connClosed;
    }
  }

  /** Any ledgers that sequences of dials can lead to. */
  ghost predicate Dials(ls: seq<Ledger>, es: seq<Environment>, oks: seq<bool>)
  {
    && |ls| == |es| + 1 == |oks| + 1 && ls[0] == Ledger([], [])
    && forall i :: 0 <= i < |es| ==>
      && (oks[i] <==> es[i].opens && es[i].setsPeer && es[i].connects && es[i].handshakes && es[i].upgrades)
      && Settles(ls[i], ls[i + 1], es[i], oks[i])
  }

  /** Nothing leaks and nothing is settled twice: the scopes still held, and the raw
      connections still open, are as many as the dials that succeeded, and this transport
      closes a connection at most once. */
  lemma {:induction false} DialsConserve(ls: seq<Ledger>, es: seq<Environment>, oks: seq<bool>)
    requires Dials(ls, es, oks)
    ensures Live(ls[|es|].scopeDone) == Live(ls[|es|].connClosed) == multiset(oks)[true]
    ensures forall n :: n in ls[|es|].connClosed ==> n <= 1
    decreases |es|
  {
    if es != [] {
      var last := |es| - 1;
      DialsConserve(ls[..|es|], es[..last], oks[..last]);
      LiveMeans([], oks[..last]);
      DialConserves(ls[last], ls[|es|], es[last], oks[..last], oks[last]);
      assert oks == oks[..last] + [oks[last]];
    }
    LiveMeans([], oks);
  }
}
