/** What the fragmenting writer guarantees under every interleaving of any number of Write
    calls and every behaviour of the inner connection. */
module SpoofSafety {
  import opened Sums
  import opened Bytes
  import opened SpoofSystem

  /** Bytes of the payload on the wire when the call stands at `pc`. */
  function Progress(pc: PC): nat
  {
    match pc
    case Enter | Pass => 0
    case Done(n, _, _) => n
    case TrackAdd(sent, _, n, _) => sent + n
    case FragAdd(sent, n, _) => sent + n
    case TailAdd(sent, n, _) => sent + n
    case Track(_, _) | Between(_) | FragRead(_) | Frag(_) | FragCheck(_) | Pause(_) | Tail(_) => pc.sent
  }

  /** Which program counters occur in which mode, with which bounds. */
  predicate PCOk(cfg: Config, counted: nat, len: nat, cut: nat, pc: PC)
  {
    match pc
    case Enter => true
    case Pass => counted >= cfg.handshakeLen
    case Track(sent, stop) =>
      cfg.sni != [] && sent < stop <= len && (stop <= cut || sent >= cut) && (stop == len || stop == cut)
    case TrackAdd(sent, stop, n, _) =>
      cfg.sni != [] && sent < stop <= len && sent + n <= stop &&
      (stop <= cut || sent >= cut) && (stop == len || stop == cut)
    case Between(sent) => cfg.sni != [] && sent == cut < len
    case FragRead(sent) => cfg.sni == [] && sent < len
    case Frag(sent) => cfg.sni == [] && sent < len
    case FragAdd(sent, n, _) => cfg.sni == [] && sent < len && sent + n <= len
    case FragCheck(sent) => cfg.sni == [] && 0 < sent <= len
    case Pause(sent) => cfg.sni == [] && 0 < sent < len
    case Tail(sent) => cfg.sni == [] && counted >= cfg.handshakeLen && sent < len
    case TailAdd(sent, n, _) => cfg.sni == [] && counted >= cfg.handshakeLen && sent < len && sent + n <= len
    case Done(n, err, passed) => n <= len && (!passed && err == NoErr ==> n == len)
  }

  /** How many inner writes the call can have made: each one that let it go on moved a byte. */
  predicate CallsOk(len: nat, pc: PC, calls: nat)
  {
    if pc.Done? then if pc.passed then calls == 1 else calls <= len
    else calls <= Progress(pc) || (IsAdd(pc) && calls <= pc.sent + 1)
  }

  predicate WriterOk(cfg: Config, counted: nat, x: Writer, sent: seq<byte>, calls: nat)
  {
    && PCOk(cfg, counted, |x.payload|, CutOf(cfg, x.payload), x.pc)
    && Progress(x.pc) <= |x.payload| && sent == x.payload[..Progress(x.pc)]
    && CallsOk(|x.payload|, x.pc, calls)
  }

  /** A segment is a piece of its payload. A counted one lies on one side of the cut; an
      uncounted one, and in the fragmenting mode one longer than a fragment, starts past the
      handshake prefix. */
  predicate SegmentOk(cfg: Config, payload: seq<byte>, g: Segment, offset: nat)
  {
    && g.start + |g.data| <= |payload| && g.data == payload[g.start..g.start + |g.data|]
    && (g.counted && cfg.sni != [] ==> g.start + |g.data| <= CutOf(cfg, payload) || g.start >= CutOf(cfg, payload))
    && (!g.counted || (cfg.sni == [] && |g.data| > FragmentSize(cfg)) ==> offset >= cfg.handshakeLen)
  }

  ghost predicate WritersOk(cfg: Config, s: System)
  {
    forall w: nat :: w < |s.writers| ==>
      WriterOk(cfg, s.counted, s.writers[w], Sent(s.wire, w), Calls(s.wire, w))
  }

  ghost predicate WireOk(cfg: Config, s: System)
  {
    forall k: nat :: k < |s.wire| ==>
      s.wire[k].writer < |s.writers| &&
      SegmentOk(cfg, s.writers[s.wire[k].writer].payload, s.wire[k], WireLen(s.wire[..k]))
  }

  /** No update of the counter is lost: it lags behind the counted bytes on the wire by
      exactly the additions still to be made. */
  ghost predicate CounterOk(s: System)
  {
    s.counted + Sum(s.writers, PendingWeight()) == Sum(s.wire, CountedWeight()) <= WireLen(s.wire)
  }

  /** In the fragmenting mode every sleep was paid for by a byte counted since. */
  ghost predicate SleepsOk(cfg: Config, s: System)
  {
    && (forall k :: 0 <= k < |s.sleeps| ==> 0 < s.sleeps[k].delay < cfg.maxDelay)
    && (cfg.sni == [] ==>
          && |s.sleeps| + Sum(s.writers, EarnedWeight()) <= s.counted
          && (|s.sleeps| + Sum(s.writers, PauseWeight()) == 0 ||
              |s.sleeps| + Sum(s.writers, PauseWeight()) < cfg.handshakeLen))
  }

  /** No two sleeps are of the same call. */
  predicate OneSleepEach(sleeps: seq<Sleep>)
  {
    forall k, m :: 0 <= k < m < |sleeps| ==> sleeps[k].writer != sleeps[m].writer
  }

  /** In the splitting mode a call sleeps at most once, and not again. */
  ghost predicate SplitsOk(cfg: Config, s: System)
  {
    cfg.sni != [] ==>
      && OneSleepEach(s.sleeps)
      && forall k :: 0 <= k < |s.sleeps| ==>
           s.sleeps[k].writer < |s.writers| && !MaySleep(s.writers[s.sleeps[k].writer])
  }

  ghost predicate Inv(cfg: Config, s: System)
  {
    WritersOk(cfg, s) && WireOk(cfg, s) && CounterOk(s) && SleepsOk(cfg, s) && SplitsOk(cfg, s)
  }

  // ---------------------------------------------------------------------------------------
  // Preservation

  lemma {:induction false} NoSegments(wire: seq<Segment>, w: nat)
    requires forall k :: 0 <= k < |wire| ==> wire[k].writer != w
    ensures Sent(wire, w) == [] && Calls(wire, w) == 0
  {
    if wire != [] {
      NoSegments(wire[..|wire| - 1], w);
    }
  }

  lemma FreshWriterOk(cfg: Config, counted: nat, payload: seq<byte>)
    ensures WriterOk(cfg, counted, Writer(payload, Enter), [], 0)
  {
  }

  lemma CallKeepsWriters(cfg: Config, s: System, payload: seq<byte>)
    requires WritersOk(cfg, s) && WireOk(cfg, s)
    ensures WritersOk(cfg, Apply(cfg, s, Call(payload)))
  {
    var t := Apply(cfg, s, Call(payload));
    NoSegments(s.wire, |s.writers|);
    FreshWriterOk(cfg, s.counted, payload);
    hide WriterOk, SegmentOk, WireOk, Sent, Calls, WireLen;
    forall w: nat | w < |t.writers|
      ensures WriterOk(cfg, t.counted, t.writers[w], Sent(t.wire, w), Calls(t.wire, w))
    {
      assert w < |s.writers| ==> WriterOk(cfg, s.counted, s.writers[w], Sent(s.wire, w), Calls(s.wire, w));
    }
  }

  lemma CallKeepsWire(cfg: Config, s: System, payload: seq<byte>)
    requires WireOk(cfg, s)
    ensures WireOk(cfg, Apply(cfg, s, Call(payload)))
  {
    hide SegmentOk, WireLen;
  }

  lemma CallKeepsCounters(cfg: Config, s: System, payload: seq<byte>)
    requires CounterOk(s) && SleepsOk(cfg, s)
    ensures CounterOk(Apply(cfg, s, Call(payload))) && SleepsOk(cfg, Apply(cfg, s, Call(payload)))
  {
    var x := Writer(payload, Enter);
    SumAppend(s.writers, x, PendingWeight());
    SumAppend(s.writers, x, EarnedWeight());
    SumAppend(s.writers, x, PauseWeight());
    hide Sum;
  }

  lemma CallKeepsSplits(cfg: Config, s: System, payload: seq<byte>)
    requires SplitsOk(cfg, s)
    ensures SplitsOk(cfg, Apply(cfg, s, Call(payload)))
  {
  }

  lemma CallKeepsInv(cfg: Config, s: System, payload: seq<byte>)
    requires Inv(cfg, s)
    ensures Inv(cfg, Apply(cfg, s, Call(payload)))
  {
    hide WritersOk, WireOk, CounterOk, SleepsOk, SplitsOk, Apply;
    CallKeepsWriters(cfg, s, payload);
    CallKeepsWire(cfg, s, payload);
    CallKeepsCounters(cfg, s, payload);
    CallKeepsSplits(cfg, s, payload);
  }

  /** A step of `w` that leaves the wire alone: the other writers notice only that the
      counter may have grown. */
  lemma OffWire(cfg: Config, s: System, t: System, w: nat, x: Writer)
    requires WritersOk(cfg, s) && WireOk(cfg, s) && w < |s.writers|
    requires t.writers == s.writers[w := x] && x.payload == s.writers[w].payload
    requires t.wire == s.wire && t.counted >= s.counted
    requires WriterOk(cfg, t.counted, x, Sent(s.wire, w), Calls(s.wire, w))
    ensures WritersOk(cfg, t) && WireOk(cfg, t)
  {
    forall v: nat | v < |t.writers|
      ensures WriterOk(cfg, t.counted, t.writers[v], Sent(t.wire, v), Calls(t.wire, v))
    {
      assert WriterOk(cfg, s.counted, s.writers[v], Sent(s.wire, v), Calls(s.wire, v));
    }
    forall k: nat | k < |t.wire|
      ensures t.wire[k].writer < |t.writers|
      ensures SegmentOk(cfg, t.writers[t.wire[k].writer].payload, t.wire[k], WireLen(t.wire[..k]))
    {
      assert SegmentOk(cfg, s.writers[s.wire[k].writer].payload, s.wire[k], WireLen(s.wire[..k]));
    }
  }

  lemma LocalPCOk(cfg: Config, counted: nat, payload: seq<byte>, pc: PC, n: nat)
    requires IsLocal(pc) && PCOk(cfg, counted, |payload|, CutOf(cfg, payload), pc)
    requires n == if IsAdd(pc) then pc.n else 0
    ensures PCOk(cfg, counted + n, |payload|, CutOf(cfg, payload), AfterLocal(cfg, counted, payload, pc))
    ensures Progress(AfterLocal(cfg, counted, payload, pc)) == Progress(pc)
  {
  }

  lemma LocalCallsOk(cfg: Config, counted: nat, payload: seq<byte>, pc: PC, calls: nat)
    requires IsLocal(pc) && PCOk(cfg, counted, |payload|, CutOf(cfg, payload), pc)
    requires CallsOk(|payload|, pc, calls)
    ensures CallsOk(|payload|, AfterLocal(cfg, counted, payload, pc), calls)
  {
  }

  lemma LocalWriterOk(cfg: Config, counted: nat, x: Writer, sent: seq<byte>, calls: nat)
    requires WriterOk(cfg, counted, x, sent, calls) && IsLocal(x.pc)
    ensures var added := if IsAdd(x.pc) then x.pc.n else 0;
      WriterOk(cfg, counted + added, x.(pc := AfterLocal(cfg, counted, x.payload, x.pc)), sent, calls)
  {
    LocalPCOk(cfg, counted, x.payload, x.pc, if IsAdd(x.pc) then x.pc.n else 0);
    LocalCallsOk(cfg, counted, x.payload, x.pc, calls);
    hide PCOk, CallsOk, AfterLocal, Progress, CutOf;
  }

  lemma LocalKeepsWriters(cfg: Config, s: System, w: nat)
    requires WritersOk(cfg, s) && WireOk(cfg, s) && Enabled(cfg, s, Local(w))
    ensures WritersOk(cfg, Apply(cfg, s, Local(w))) && WireOk(cfg, Apply(cfg, s, Local(w)))
  {
    var t, x := Apply(cfg, s, Local(w)), s.writers[w];
    assert WriterOk(cfg, s.counted, x, Sent(s.wire, w), Calls(s.wire, w));
    hide WritersOk, WireOk, WriterOk, Sent, Calls, AfterLocal;
    LocalWriterOk(cfg, s.counted, x, Sent(s.wire, w), Calls(s.wire, w));
    OffWire(cfg, s, t, w, t.writers[w]);
  }

  /** How one writer's step changes the sums the counters are checked against. */
  lemma SumsAfter(s: System, w: nat, x: Writer)
    requires w < |s.writers|
    ensures var after := s.writers[w := x];
      && Sum(after, PendingWeight()) + PendingWeight()(s.writers[w]) ==
         Sum(s.writers, PendingWeight()) + PendingWeight()(x)
      && Sum(after, EarnedWeight()) + EarnedWeight()(s.writers[w]) == Sum(s.writers, EarnedWeight()) + EarnedWeight()(x)
      && Sum(after, PauseWeight()) + PauseWeight()(s.writers[w]) == Sum(s.writers, PauseWeight()) + PauseWeight()(x)
  {
    SumUpdate(s.writers, w, x, PendingWeight());
    SumUpdate(s.writers, w, x, EarnedWeight());
    SumUpdate(s.writers, w, x, PauseWeight());
  }

  lemma PausesAreEarned(writers: seq<Writer>)
    ensures Sum(writers, PauseWeight()) <= Sum(writers, EarnedWeight())
  {
    SumBounded(writers, PauseWeight(), 1, EarnedWeight());
  }

  /** A pause is decided on only while the handshake lasts, and only after a byte was added. */
  lemma LocalEarns(cfg: Config, counted: nat, payload: seq<byte>, pc: PC)
    requires IsLocal(pc)
    ensures var after := AfterLocal(cfg, counted, payload, pc);
      && !IsAdd(after)
      && (after.Pause? ==> pc.FragCheck? && counted < cfg.handshakeLen)
      && (after.FragCheck? ==> pc.FragAdd? && pc.n > 0)
  {
  }

  lemma LocalKeepsCounters(cfg: Config, s: System, w: nat)
    requires CounterOk(s) && SleepsOk(cfg, s) && Enabled(cfg, s, Local(w))
    ensures CounterOk(Apply(cfg, s, Local(w))) && SleepsOk(cfg, Apply(cfg, s, Local(w)))
  {
    var x, t := s.writers[w], Apply(cfg, s, Local(w));
    LocalEarns(cfg, s.counted, x.payload, x.pc);
    SumsAfter(s, w, t.writers[w]);
    PausesAreEarned(t.writers);
    assert t.sleeps == s.sleeps && t.wire == s.wire && t.writers == s.writers[w := t.writers[w]];
  }

  lemma LocalSplit(cfg: Config, counted: nat, x: Writer)
    requires IsLocal(x.pc) && MaySleep(x.(pc := AfterLocal(cfg, counted, x.payload, x.pc)))
    ensures MaySleep(x)
  {
  }

  /** A step of `w` that sleeps at most once, and only if it cannot sleep afterwards. */
  lemma WriterStepKeepsSplits(cfg: Config, s: System, t: System, w: nat, delay: int)
    requires SplitsOk(cfg, s) && w < |s.writers| == |t.writers|
    requires t.writers == s.writers[w := t.writers[w]] && (MaySleep(t.writers[w]) ==> MaySleep(s.writers[w]))
    requires t.sleeps == s.sleeps ||
             (t.sleeps == s.sleeps + [Sleep(w, delay, |s.wire|)] &&
              (cfg.sni != [] ==> MaySleep(s.writers[w]) && !MaySleep(t.writers[w])))
    ensures SplitsOk(cfg, t)
  {
  }

  lemma LocalKeepsInv(cfg: Config, s: System, w: nat)
    requires Inv(cfg, s) && Enabled(cfg, s, Local(w))
    ensures Inv(cfg, Apply(cfg, s, Local(w)))
  {
    LocalKeepsWriters(cfg, s, w);
    LocalKeepsCounters(cfg, s, w);
    if MaySleep(Apply(cfg, s, Local(w)).writers[w]) {
      LocalSplit(cfg, s.counted, s.writers[w]);
    }
    WriterStepKeepsSplits(cfg, s, Apply(cfg, s, Local(w)), w, 0);
  }

  lemma DrawPCOk(cfg: Config, counted: nat, payload: seq<byte>, pc: PC)
    requires IsDraw(pc) && PCOk(cfg, counted, |payload|, CutOf(cfg, payload), pc)
    ensures PCOk(cfg, counted, |payload|, CutOf(cfg, payload), AfterDraw(payload, pc))
    ensures Progress(AfterDraw(payload, pc)) == Progress(pc)
    ensures !AfterDraw(payload, pc).Done? && !IsAdd(AfterDraw(payload, pc))
    ensures !AfterDraw(payload, pc).Pause? && !AfterDraw(payload, pc).FragCheck?
    ensures pc.Pause? <==> cfg.sni == []
  {
  }

  lemma DrawKeepsWriters(cfg: Config, s: System, w: nat, random: Random)
    requires WritersOk(cfg, s) && WireOk(cfg, s) && Enabled(cfg, s, Draw(w, random))
    ensures WritersOk(cfg, Apply(cfg, s, Draw(w, random))) && WireOk(cfg, Apply(cfg, s, Draw(w, random)))
  {
    var t, x := Apply(cfg, s, Draw(w, random)), s.writers[w];
    assert WriterOk(cfg, s.counted, x, Sent(s.wire, w), Calls(s.wire, w));
    DrawPCOk(cfg, s.counted, x.payload, x.pc);
    OffWire(cfg, s, t, w, t.writers[w]);
  }

  lemma DrawKeepsCounters(cfg: Config, s: System, w: nat, random: Random)
    requires CounterOk(s) && SleepsOk(cfg, s) && Enabled(cfg, s, Draw(w, random))
    requires var after := AfterDraw(s.writers[w].payload, s.writers[w].pc);
      !IsAdd(after) && !after.Pause? && !after.FragCheck? && (s.writers[w].pc.Pause? <==> cfg.sni == [])
    ensures CounterOk(Apply(cfg, s, Draw(w, random))) && SleepsOk(cfg, Apply(cfg, s, Draw(w, random)))
  {
    var t := Apply(cfg, s, Draw(w, random));
    SumsAfter(s, w, t.writers[w]);
    assert t.wire == s.wire && t.counted == s.counted && t.writers == s.writers[w := t.writers[w]];
  }

  lemma DrawKeepsInv(cfg: Config, s: System, w: nat, random: Random)
    requires Inv(cfg, s) && Enabled(cfg, s, Draw(w, random))
    ensures Inv(cfg, Apply(cfg, s, Draw(w, random)))
  {
    var x := s.writers[w];
    assert WriterOk(cfg, s.counted, x, Sent(s.wire, w), Calls(s.wire, w));
    DrawPCOk(cfg, s.counted, x.payload, x.pc);
    DrawKeepsWriters(cfg, s, w, random);
    DrawKeepsCounters(cfg, s, w, random);
    WriterStepKeepsSplits(cfg, s, Apply(cfg, s, Draw(w, random)), w, RandDuration(cfg.maxDelay, random));
  }

  lemma WriteSegmentOk(cfg: Config, s: System, w: nat, n: nat, err: Err)
    requires WritersOk(cfg, s) && CounterOk(s) && Enabled(cfg, s, Write(w, n, err))
    ensures var x := s.writers[w];
      SegmentOk(cfg, x.payload, SegmentOf(cfg, w, x.payload, x.pc, n, err), WireLen(s.wire))
  {
    var x := s.writers[w];
    assert WriterOk(cfg, s.counted, x, Sent(s.wire, w), Calls(s.wire, w));
    assert CounterOk(s);
  }

  lemma WriteKeepsWire(cfg: Config, s: System, w: nat, n: nat, err: Err)
    requires WritersOk(cfg, s) && WireOk(cfg, s) && CounterOk(s) && Enabled(cfg, s, Write(w, n, err))
    ensures WireOk(cfg, Apply(cfg, s, Write(w, n, err)))
  {
    var t := Apply(cfg, s, Write(w, n, err));
    WriteSegmentOk(cfg, s, w, n, err);
    forall k: nat | k < |t.wire|
      ensures t.wire[k].writer < |t.writers|
      ensures SegmentOk(cfg, t.writers[t.wire[k].writer].payload, t.wire[k], WireLen(t.wire[..k]))
    {
      assert t.wire[..k] == s.wire[..k];
      if k < |s.wire| {
        assert SegmentOk(cfg, s.writers[s.wire[k].writer].payload, s.wire[k], WireLen(s.wire[..k]));
      } else {
        assert s.wire[..k] == s.wire;
      }
    }
  }

  lemma WritePCOk(cfg: Config, counted: nat, len: nat, cut: nat, pc: PC, stop: nat, n: nat, err: Err)
    requires IsWrite(pc) && PCOk(cfg, counted, len, cut, pc) && cut <= len
    requires pc.Track? ==> stop == pc.stop
    requires OfferStart(pc) + n <= stop <= len
    ensures PCOk(cfg, counted, len, cut, AfterWrite(pc, n, err))
    ensures Progress(AfterWrite(pc, n, err)) == Progress(pc) + n == OfferStart(pc) + n
  {
  }

  lemma WriteCallsOk(len: nat, pc: PC, calls: nat, n: nat, err: Err)
    requires IsWrite(pc) && CallsOk(len, pc, calls)
    ensures CallsOk(len, AfterWrite(pc, n, err), calls + 1)
  {
  }

  lemma WriteWriterOk(cfg: Config, counted: nat, x: Writer, n: nat, err: Err, sent: seq<byte>, calls: nat)
    requires WriterOk(cfg, counted, x, sent, calls) && IsWrite(x.pc)
    requires OfferStart(x.pc) + n <= OfferStop(cfg, x.payload, x.pc) <= |x.payload|
    ensures var start := OfferStart(x.pc);
      WriterOk(cfg, counted, x.(pc := AfterWrite(x.pc, n, err)), sent + x.payload[start..start + n], calls + 1)
  {
    var start := OfferStart(x.pc);
    WritePCOk(cfg, counted, |x.payload|, CutOf(cfg, x.payload), x.pc, OfferStop(cfg, x.payload, x.pc), n, err);
    WriteCallsOk(|x.payload|, x.pc, calls, n, err);
    assert x.payload[..start] + x.payload[start..start + n] == x.payload[..start + n];
  }

  lemma OneMoreSegment(wire: seq<Segment>, g: Segment, v: nat)
    ensures Sent(wire + [g], v) == if g.writer == v then Sent(wire, v) + g.data else Sent(wire, v)
    ensures Calls(wire + [g], v) == Calls(wire, v) + if g.writer == v then 1 else 0
  {
    SumAppend(wire, g, CallWeight(v));
    assert (wire + [g])[..|wire|] == wire;
  }

  /** A step of `w` that puts `g` on the wire: the other writers do not notice. */
  lemma OnWire(cfg: Config, s: System, t: System, w: nat, g: Segment)
    requires WritersOk(cfg, s) && w < |s.writers| == |t.writers| && g.writer == w
    requires t.wire == s.wire + [g] && t.counted == s.counted && t.writers == s.writers[w := t.writers[w]]
    requires WriterOk(cfg, t.counted, t.writers[w], Sent(s.wire, w) + g.data, Calls(s.wire, w) + 1)
    ensures WritersOk(cfg, t)
  {
    hide WriterOk, Sent, Calls;
    forall v: nat | v < |t.writers|
      ensures WriterOk(cfg, t.counted, t.writers[v], Sent(t.wire, v), Calls(t.wire, v))
    {
      OneMoreSegment(s.wire, g, v);
      assert WriterOk(cfg, s.counted, s.writers[v], Sent(s.wire, v), Calls(s.wire, v));
    }
  }

  lemma WriteKeepsWriters(cfg: Config, s: System, w: nat, n: nat, err: Err)
    requires WritersOk(cfg, s) && Enabled(cfg, s, Write(w, n, err))
    ensures WritersOk(cfg, Apply(cfg, s, Write(w, n, err)))
  {
    var t := Apply(cfg, s, Write(w, n, err));
    assert WriterOk(cfg, s.counted, s.writers[w], Sent(s.wire, w), Calls(s.wire, w));
    hide WritersOk, WriterOk, Sent, Calls, AfterWrite, CutOf;
    WriteWriterOk(cfg, s.counted, s.writers[w], n, err, Sent(s.wire, w), Calls(s.wire, w));
    OnWire(cfg, s, t, w, t.wire[|s.wire|]);
  }

  lemma WriteKeepsCounters(cfg: Config, s: System, w: nat, n: nat, err: Err)
    requires CounterOk(s) && SleepsOk(cfg, s) && Enabled(cfg, s, Write(w, n, err))
    ensures CounterOk(Apply(cfg, s, Write(w, n, err))) && SleepsOk(cfg, Apply(cfg, s, Write(w, n, err)))
  {
    hide Sum;
    var t := Apply(cfg, s, Write(w, n, err));
    var g := t.wire[|s.wire|];
    SumAppend(s.wire, g, LenWeight());
    SumAppend(s.wire, g, CountedWeight());
    SumsAfter(s, w, t.writers[w]);
  }

  lemma WriteKeepsSplits(cfg: Config, s: System, w: nat, n: nat, err: Err)
    requires SplitsOk(cfg, s) && Enabled(cfg, s, Write(w, n, err))
    ensures SplitsOk(cfg, Apply(cfg, s, Write(w, n, err)))
  {
    hide SplitsOk;
    WriterStepKeepsSplits(cfg, s, Apply(cfg, s, Write(w, n, err)), w, 0);
  }

  lemma WriteKeepsInv(cfg: Config, s: System, w: nat, n: nat, err: Err)
    requires Inv(cfg, s) && Enabled(cfg, s, Write(w, n, err))
    ensures Inv(cfg, Apply(cfg, s, Write(w, n, err)))
  {
    hide WritersOk, WireOk, CounterOk, SleepsOk, SplitsOk, Apply, Enabled;
    WriteKeepsWire(cfg, s, w, n, err);
    WriteKeepsWriters(cfg, s, w, n, err);
    WriteKeepsCounters(cfg, s, w, n, err);
    WriteKeepsSplits(cfg, s, w, n, err);
  }

  lemma StepKeepsInv(cfg: Config, s: System, e: Event)
    requires Inv(cfg, s) && Enabled(cfg, s, e)
    ensures Inv(cfg, Apply(cfg, s, e))
  {
    match e
    case Call(payload) => CallKeepsInv(cfg, s, payload);
    case Local(w) => LocalKeepsInv(cfg, s, w);
    case Write(w, n, err) => WriteKeepsInv(cfg, s, w, n, err);
    case Draw(w, random) => DrawKeepsInv(cfg, s, w, random);
  }

  lemma {:induction false} ReachableInv(cfg: Config, events: seq<Event>, s: System)
    requires Run(cfg, events) == Some(s)
    ensures Inv(cfg, s)
    decreases |events|
  {
    if events == [] {
      assert s.writers == [] && s.wire == [] && s.sleeps == [];
    } else {
      var before := Run(cfg, events[..|events| - 1]).value;
      ReachableInv(cfg, events[..|events| - 1], before);
      StepKeepsInv(cfg, before, events[|events| - 1]);
    }
  }

  lemma ReachableSegment(cfg: Config, events: seq<Event>, s: System, k: nat)
    requires Run(cfg, events) == Some(s) && k < |s.wire|
    ensures s.wire[k].writer < |s.writers|
    ensures SegmentOk(cfg, s.writers[s.wire[k].writer].payload, s.wire[k], WireLen(s.wire[..k]))
  {
    ReachableInv(cfg, events, s);
  }

  /** As many sleeps of different calls as there are calls, at most. */
  lemma {:induction false} DistinctSleepers(sleeps: seq<Sleep>, n: nat)
    requires OneSleepEach(sleeps) && forall k :: 0 <= k < |sleeps| ==> sleeps[k].writer < n
    ensures |sleeps| <= n
  {
    if k :| 0 <= k < |sleeps| && sleeps[k].writer == n - 1 {
      DistinctSleepers(sleeps[..k] + sleeps[k + 1..], n - 1);
    } else if sleeps != [] {
      assert sleeps[0].writer < n;
      DistinctSleepers(sleeps, n - 1);
    }
  }

  lemma ReachableSleeps(cfg: Config, events: seq<Event>, s: System)
    requires Run(cfg, events) == Some(s)
    ensures forall k :: 0 <= k < |s.sleeps| ==> 0 < s.sleeps[k].delay < cfg.maxDelay
    ensures cfg.sni == [] ==> |s.sleeps| == 0 || |s.sleeps| <= cfg.handshakeLen - 1
    ensures cfg.sni != [] ==> OneSleepEach(s.sleeps) && |s.sleeps| <= |s.writers|
  {
    ReachableInv(cfg, events, s);
    if cfg.sni != [] {
      DistinctSleepers(s.sleeps, |s.writers|);
    }
  }

  // ---------------------------------------------------------------------------------------
  // Main results, for every schedule of a fresh connection

  /** The counter loses no update and never exceeds the wire; a plain write, and in the
      fragmenting mode any segment longer than a fragment, starts past the handshake prefix. */
  lemma LagSafeFragmentation(cfg: Config, events: seq<Event>, s: System, k: nat)
    requires Run(cfg, events) == Some(s) && k < |s.wire|
    ensures s.counted + Sum(s.writers, PendingWeight()) == Sum(s.wire, CountedWeight()) <= WireLen(s.wire)
    ensures !s.wire[k].counted ==> WireLen(s.wire[..k]) >= cfg.handshakeLen
    ensures cfg.sni == [] && |s.wire[k].data| > (if cfg.fragmentSize > 0 then cfg.fragmentSize else 2) ==>
      WireLen(s.wire[..k]) >= cfg.handshakeLen
  {
    ReachableInv(cfg, events, s);
  }

  /** What a Write call has put on the wire is the first bytes of its payload, as many as it
      returns; within the handshake it returns no error only when it wrote everything, and it
      makes at most one inner write per byte. */
  lemma Transparency(cfg: Config, events: seq<Event>, s: System, w: nat)
    requires Run(cfg, events) == Some(s) && w < |s.writers|
    ensures var x := s.writers[w];
      && Progress(x.pc) <= |x.payload| && Sent(s.wire, w) == x.payload[..Progress(x.pc)]
      && (x.pc.Done? ==> Sent(s.wire, w) == x.payload[..x.pc.n])
      && (x.pc.Done? && x.pc.passed ==> Calls(s.wire, w) == 1)
      && (x.pc.Done? && !x.pc.passed ==> Calls(s.wire, w) <= |x.payload|)
      && (x.pc.Done? && !x.pc.passed && x.pc.err == NoErr ==> Sent(s.wire, w) == x.payload)
  {
    ReachableInv(cfg, events, s);
    assert WriterOk(cfg, s.counted, s.writers[w], Sent(s.wire, w), Calls(s.wire, w));
  }

  /** A piece of the payload on one side of the cut does not contain the name, unless the
      name occurs again from the cut on: every occurrence starts no earlier than the first
      one, whose end lies beyond the cut. */
  lemma OneSideHasNoName(cfg: Config, payload: seq<byte>, lo: nat, hi: nat)
    requires |cfg.sni| >= 2 && lo <= hi <= |payload|
    requires hi <= CutOf(cfg, payload) || lo >= CutOf(cfg, payload)
    requires forall j :: CutOf(cfg, payload) <= j ==> !OccursAt(payload, cfg.sni, j)
    ensures !Contains(payload[lo..hi], cfg.sni)
  {
    var first := Index(payload, cfg.sni);
    if first >= 0 {
      assert CutOf(cfg, payload) == first + |cfg.sni| / 2;
    }
    forall i
      ensures !OccursAt(payload[lo..hi], cfg.sni, i)
    {
      SubsliceContains(payload, lo, hi, cfg.sni, i);
    }
  }

  /** A name of two bytes or more that does not occur from the cut on is in no segment the
      handshake phase puts on the wire. */
  lemma NameNeverWhole(cfg: Config, events: seq<Event>, s: System, k: nat)
    requires Run(cfg, events) == Some(s) && k < |s.wire| && s.wire[k].counted && |cfg.sni| >= 2
    requires s.wire[k].writer < |s.writers| ==> var payload := s.writers[s.wire[k].writer].payload;
      forall j :: CutOf(cfg, payload) <= j ==> !OccursAt(payload, cfg.sni, j)
    ensures !Contains(s.wire[k].data, cfg.sni)
  {
    ReachableSegment(cfg, events, s, k);
    var g := s.wire[k];
    OneSideHasNoName(cfg, s.writers[g.writer].payload, g.start, g.start + |g.data|);
  }

  function Total(xs: seq<int>): int
  {
    if xs == [] then 0 else Total(xs[..|xs| - 1]) + xs[|xs| - 1]
  }

  lemma {:induction false} TotalBounded(xs: seq<int>, limit: int)
    requires forall k :: 0 <= k < |xs| ==> 0 < xs[k] < limit
    ensures 0 <= Total(xs) <= |xs| * (limit - 1)
  {
    if xs != [] {
      TotalBounded(xs[..|xs| - 1], limit);
      assert (|xs| - 1) * (limit - 1) + (limit - 1) == |xs| * (limit - 1);
    }
  }

  lemma ProductMonotone(a: nat, b: nat, c: nat)
    requires a <= b
    ensures a * c <= b * c
  {
  }

  /** Over the whole life of a connection without a name, however many Write calls run at
      once: fewer sleeps than handshake bytes, each shorter than the maximum. With a name: at
      most one sleep per Write call. */
  lemma DelayBudget(cfg: Config, events: seq<Event>, s: System)
    requires Run(cfg, events) == Some(s)
    ensures forall k :: 0 <= k < |s.sleeps| ==> 0 < s.sleeps[k].delay < cfg.maxDelay
    ensures cfg.sni == [] ==> |s.sleeps| == 0 || |s.sleeps| <= cfg.handshakeLen - 1
    ensures cfg.sni == [] && cfg.handshakeLen >= 1 && cfg.maxDelay >= 1 ==>
      Total(Delays(s.sleeps)) <= (cfg.handshakeLen - 1) * (cfg.maxDelay - 1)
    ensures cfg.sni != [] ==> OneSleepEach(s.sleeps) && |s.sleeps| <= |s.writers|
  {
    ReachableSleeps(cfg, events, s);
    TotalBounded(Delays(s.sleeps), cfg.maxDelay);
    if cfg.sni == [] && cfg.handshakeLen >= 1 && cfg.maxDelay >= 1 {
      ProductMonotone(|s.sleeps|, cfg.handshakeLen - 1, cfg.maxDelay - 1);
    }
  }

  lemma StepGrows(cfg: Config, s: System, e: Event)
    requires Enabled(cfg, s, e)
    ensures var t := Apply(cfg, s, e);
      && s.counted <= t.counted && s.wire <= t.wire && s.sleeps <= t.sleeps && |s.writers| <= |t.writers|
      && forall w :: 0 <= w < |s.writers| ==> t.writers[w].payload == s.writers[w].payload
  {
  }

  /** The counter only grows, so the handshake phase never comes back; and no Write call's
      payload or place on the wire is ever rewritten. */
  lemma {:induction false} PhaseNeverReverts(cfg: Config, events: seq<Event>, more: seq<Event>, s: System, t: System)
    requires Run(cfg, events) == Some(s) && Run(cfg, events + more) == Some(t)
    ensures s.counted <= t.counted && s.wire <= t.wire && s.sleeps <= t.sleeps && |s.writers| <= |t.writers|
    ensures forall w :: 0 <= w < |s.writers| ==> t.writers[w].payload == s.writers[w].payload
    decreases |more|
  {
    if more == [] {
      assert events + more == events;
    } else {
      var init, last := more[..|more| - 1], more[|more| - 1];
      assert (events + more)[..|events + more| - 1] == events + init && (events + more)[|events + more| - 1] == last;
      var u := Run(cfg, events + init).value;
      assert Enabled(cfg, u, last) && t == Apply(cfg, u, last);
      hide Run, Apply, Enabled;
      PhaseNeverReverts(cfg, events, init, s, u);
      StepGrows(cfg, u, last);
    }
  }

  // ---------------------------------------------------------------------------------------
  // What is slept, and when

  /** The delays a run sleeps: each value drawn that is positive, and half the maximum when
      the draw fails. */
  ghost function Drawn(maxDelay: int, events: seq<Event>): seq<int>
  {
    if events == [] then []
    else
      Drawn(maxDelay, events[..|events| - 1]) +
      match events[|events| - 1]
      case Draw(_, Value(n)) => if maxDelay > 0 && n > 0 then [n] else []
      case Draw(_, Failure) => if maxDelay >= 2 then [maxDelay / 2] else []
      case _ => []
  }

  lemma {:induction false} SleepsAreDrawn(cfg: Config, events: seq<Event>, s: System)
    requires Run(cfg, events) == Some(s)
    ensures Delays(s.sleeps) == Drawn(cfg.maxDelay, events)
    decreases |events|
  {
    if events != [] {
      var before, e := Run(cfg, events[..|events| - 1]).value, events[|events| - 1];
      SleepsAreDrawn(cfg, events[..|events| - 1], before);
      assert s == Apply(cfg, before, e);
      assert s.sleeps == before.sleeps || Delays(s.sleeps) == Delays(before.sleeps) + [s.sleeps[|before.sleeps|].delay];
    }
  }

  /** At the time of the sleep its call had put some of its payload on the wire but not all;
      with a name, exactly the part before the cut. */
  ghost predicate FallsBetween(cfg: Config, s: System, x: Sleep)
  {
    && x.writer < |s.writers| && x.at <= |s.wire|
    && var payload, sent := s.writers[x.writer].payload, Sent(s.wire[..x.at], x.writer);
       && 0 < |sent| < |payload| && sent == payload[..|sent|]
       && (cfg.sni != [] ==> |sent| == CutOf(cfg, payload))
  }

  lemma NewSleepFallsBetween(cfg: Config, s: System, w: nat, random: Random)
    requires Inv(cfg, s) && Enabled(cfg, s, Draw(w, random))
    ensures FallsBetween(cfg, s, Sleep(w, RandDuration(cfg.maxDelay, random), |s.wire|))
  {
    assert WriterOk(cfg, s.counted, s.writers[w], Sent(s.wire, w), Calls(s.wire, w));
    assert s.wire[..|s.wire|] == s.wire;
  }

  lemma StepKeepsBetween(cfg: Config, s: System, e: Event, x: Sleep)
    requires Enabled(cfg, s, e) && FallsBetween(cfg, s, x)
    ensures FallsBetween(cfg, Apply(cfg, s, e), x)
  {
    StepGrows(cfg, s, e);
    var t := Apply(cfg, s, e);
    assert t.wire[..x.at] == s.wire[..x.at];
    hide Apply, Enabled, Sent, CutOf;
  }

  /** Every sleep lies between two segments of its own call, whatever the others do; with a
      name, exactly between the two halves of the payload. */
  lemma {:induction false} SleepsFallBetween(cfg: Config, events: seq<Event>, s: System, k: nat)
    requires Run(cfg, events) == Some(s) && k < |s.sleeps|
    ensures FallsBetween(cfg, s, s.sleeps[k])
    decreases |events|
  {
    var before, e := Run(cfg, events[..|events| - 1]).value, events[|events| - 1];
    ReachableInv(cfg, events[..|events| - 1], before);
    assert s == Apply(cfg, before, e);
    if k < |before.sleeps| {
      SleepsFallBetween(cfg, events[..|events| - 1], before, k);
    } else {
      NewSleepFallsBetween(cfg, before, e.writer, e.random);
    }
    StepKeepsBetween(cfg, before, e, s.sleeps[k]);
  }
}
