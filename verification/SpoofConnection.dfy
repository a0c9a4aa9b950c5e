/** The connection that fragments its writes, as a class that changes its counter in place.
    Every Write is one schedule of the step system in `SpoofSystem`: the ghost `sys` follows
    it event by event, so what holds in every reachable system holds of the connection. */
module SpoofConnection {
  import opened Bytes
  import opened SpoofSystem
  import opened SpoofSafety
  import opened SpoofPlan

  /** The wrapped connection: it accepts any prefix of what it is offered, with or without
      an error, and keeps a log. */
  class InnerConn {
    var log: seq<InnerCall>

    constructor ()
      ensures log == []
    {
      log := [];
    }

    method Write(b: seq<byte>) returns (n: nat, err: Err)
      modifies this
      ensures n <= |b| && log == old(log) + [InnerCall(b, n, err)]
    {
      var k: nat :| k <= |b|;
      n, err := k, *;
      log := log + [InnerCall(b, n, err)];
    }
  }

  method RandomBelow(maximum: int) returns (random: Random)
    ensures RandomInRange(maximum, random)
  {
    random := *;
    if maximum > 0 && random.Value? && !(0 <= random.n < maximum) {
      random := Failure;
    }
  }

  /** The wire of the system is the log of the inner connection. */
  predicate SameCall(g: Segment, c: InnerCall)
  {
    g.offered == |c.offered| && g.data == c.offered[..c.n] && g.err == c.err
  }

  predicate SameLog(wire: seq<Segment>, log: seq<InnerCall>)
  {
    |wire| == |log| && forall k :: 0 <= k < |wire| ==> SameCall(wire[k], log[k])
  }

  /** The first bytes of each payload, as many as its Write returned, one after another. */
  ghost function Accepted(writers: seq<Writer>): seq<byte>
  {
    if writers == [] then []
    else
      var last := writers[|writers| - 1];
      Accepted(writers[..|writers| - 1]) +
      if last.pc.Done? && last.pc.n <= |last.payload| then last.payload[..last.pc.n] else []
  }

  lemma AcceptedAppend(writers: seq<Writer>, x: Writer)
    requires x.pc.Done? && x.pc.n <= |x.payload|
    ensures Accepted(writers + [x]) == Accepted(writers) + x.payload[..x.pc.n]
  {
    assert (writers + [x])[..|writers|] == writers;
  }

  lemma {:induction false} WireLenIsStreamLen(wire: seq<Segment>, log: seq<InnerCall>)
    requires SameLog(wire, log)
    ensures WireLen(wire) == |Stream(log)|
  {
    if wire != [] {
      WireLenIsStreamLen(wire[..|wire| - 1], log[..|log| - 1]);
    }
  }

  /** The latest writer of `s` stands at `pc` with payload `b`. */
  ghost predicate LatestAt(s: System, b: seq<byte>, pc: PC)
  {
    |s.writers| > 0 && s.writers[|s.writers| - 1] == Writer(b, pc)
  }

  ghost function WithLatest(s: System, pc: PC): seq<Writer>
    requires |s.writers| > 0
  {
    s.writers[|s.writers| - 1 := s.writers[|s.writers| - 1].(pc := pc)]
  }

  lemma LocalEvent(cfg: Config, events: seq<Event>, s: System, b: seq<byte>, pc: PC)
    requires Run(cfg, events) == Some(s) && LatestAt(s, b, pc) && IsLocal(pc)
    ensures var e := Local(|s.writers| - 1);
      && Enabled(cfg, s, e) && Run(cfg, events + [e]) == Some(Apply(cfg, s, e))
      && Apply(cfg, s, e) == System(
        s.counted + (if IsAdd(pc) then pc.n else 0), s.wire,
        WithLatest(s, AfterLocal(cfg, s.counted, b, pc)), s.sleeps)
  {
    RunExtend(cfg, events, s, Local(|s.writers| - 1));
  }

  lemma WriteEvent(cfg: Config, events: seq<Event>, s: System, b: seq<byte>, pc: PC, log: seq<InnerCall>, c: InnerCall)
    requires Run(cfg, events) == Some(s) && LatestAt(s, b, pc) && IsWrite(pc) && SameLog(s.wire, log)
    requires OfferStart(pc) <= OfferStop(cfg, b, pc) <= |b| && c.offered == b[OfferStart(pc)..OfferStop(cfg, b, pc)]
    ensures var e := Write(|s.writers| - 1, c.n, c.err);
      && Enabled(cfg, s, e) && Run(cfg, events + [e]) == Some(Apply(cfg, s, e))
      && SameLog(Apply(cfg, s, e).wire, log + [c])
      && Apply(cfg, s, e) == System(
        s.counted, Apply(cfg, s, e).wire, WithLatest(s, AfterWrite(pc, c.n, c.err)), s.sleeps)
  {
    var e := Write(|s.writers| - 1, c.n, c.err);
    hide Run;
    SliceOfSlice(b, OfferStart(pc), OfferStop(cfg, b, pc), c.n);
    RunExtend(cfg, events, s, e);
  }

  lemma DrawEvent(cfg: Config, events: seq<Event>, s: System, b: seq<byte>, pc: PC, random: Random)
    requires Run(cfg, events) == Some(s) && LatestAt(s, b, pc) && IsDraw(pc) && RandomInRange(cfg.maxDelay, random)
    ensures var e, delay := Draw(|s.writers| - 1, random), RandDuration(cfg.maxDelay, random);
      && Enabled(cfg, s, e) && Run(cfg, events + [e]) == Some(Apply(cfg, s, e))
      && Apply(cfg, s, e) == System(s.counted, s.wire, WithLatest(s, AfterDraw(b, pc)), Apply(cfg, s, e).sleeps)
      && Delays(Apply(cfg, s, e).sleeps) == Delays(s.sleeps) + if delay > 0 then [delay] else []
  {
    var e := Draw(|s.writers| - 1, random);
    RunExtend(cfg, events, s, e);
  }

  class SpoofConn {
    const conn: InnerConn
    const cfg: Config
    var bytesWritten: nat
    var draws: nat       // how many delays were drawn
    var slept: seq<int>  // the positive ones, which were slept
    ghost var sys: System
    ghost var events: seq<Event>

    constructor (conn: InnerConn, cfg: Config)
      requires conn.log == []
      ensures Valid() && this.conn == conn && this.cfg == cfg
      ensures bytesWritten == 0 && draws == 0 && slept == [] && sys == Fresh()
    {
      this.conn, this.cfg := conn, cfg;
      bytesWritten, draws, slept := 0, 0, [];
      sys, events := Fresh(), [];
    }

    ghost predicate Tied()
      reads this, conn
    {
      && Run(cfg, events) == Some(sys)
      && sys.counted == bytesWritten && slept == Delays(sys.sleeps) && |slept| <= draws
      && SameLog(sys.wire, conn.log)
    }

    /** No Write is in progress, and the wire is what the finished ones returned. */
    ghost predicate Valid()
      reads this, conn
    {
      && Tied() && Stream(conn.log) == Accepted(sys.writers)
      && forall x :: x in sys.writers ==> x.pc.Done?
    }

    /** The latest Write stands at `pc` and has the payload `b`. */
    ghost predicate Running(b: seq<byte>, pc: PC)
      reads this, conn
    {
      Tied() && LatestAt(sys, b, pc)
    }

    /** The Writes before the latest one. */
    ghost function Others(): seq<Writer>
      reads this
    {
      if sys.writers == [] then [] else sys.writers[..|sys.writers| - 1]
    }

    /** A locked read of the counter and the branch it decides. */
    ghost method Look(b: seq<byte>, pc: PC)
      requires Running(b, pc) && IsLocal(pc) && !IsAdd(pc)
      modifies this`sys, this`events
      ensures Running(b, AfterLocal(cfg, bytesWritten, b, pc)) && Others() == old(Others())
    {
      hide Run, SameLog;
      var e := Local(|sys.writers| - 1);
      LocalEvent(cfg, events, sys, b, pc);
      events, sys := events + [e], Apply(cfg, sys, e);
    }

    /** One inner write and the locked addition that follows it. */
    method WriteAndCount(chunk: seq<byte>, ghost b: seq<byte>, ghost pc: PC) returns (n: nat, err: Err)
      requires Running(b, pc) && IsWrite(pc) && !pc.Pass?
      requires OfferStart(pc) <= OfferStop(cfg, b, pc) <= |b| && chunk == b[OfferStart(pc)..OfferStop(cfg, b, pc)]
      modifies this`bytesWritten, this`sys, this`events, conn
      ensures n <= |chunk| && conn.log == old(conn.log) + [InnerCall(chunk, n, err)]
      ensures bytesWritten == old(bytesWritten) + n
      ensures var after := AfterLocal(cfg, old(bytesWritten), b, AfterWrite(pc, n, err));
        Running(b, after) && Others() == old(Others())
    {
      hide Run, SameLog;
      n, err := conn.Write(chunk);
      ghost var wrote := SpoofSystem.Write(|sys.writers| - 1, n, err);
      WriteEvent(cfg, events, sys, b, pc, old(conn.log), InnerCall(chunk, n, err));
      events, sys := events + [wrote], Apply(cfg, sys, wrote);
      bytesWritten := bytesWritten + n;
      ghost var added := Local(|sys.writers| - 1);
      LocalEvent(cfg, events, sys, b, AfterWrite(pc, n, err));
      events, sys := events + [added], Apply(cfg, sys, added);
    }

    /** Draw a delay and sleep if it is positive. */
    method MaybeSleep(ghost b: seq<byte>, ghost pc: PC)
      requires Running(b, pc) && IsDraw(pc)
      modifies this`draws, this`slept, this`sys, this`events
      ensures Running(b, AfterDraw(b, pc)) && Others() == old(Others())
      ensures draws == old(draws) + 1
      ensures slept == old(slept) || exists delay :: 0 < delay < cfg.maxDelay && slept == old(slept) + [delay]
    {
      hide Run, SameLog, Delays, AfterDraw, Apply;
      var random := RandomBelow(cfg.maxDelay);
      var delay := RandDuration(cfg.maxDelay, random);
      draws := draws + 1;
      if delay > 0 {
        slept := slept + [delay];
      }
      ghost var e := Draw(|sys.writers| - 1, random);
      DrawEvent(cfg, events, sys, b, pc, random);
      events, sys := events + [e], Apply(cfg, sys, e);
    }

    /** The Write stopped at this answer, or goes on at `next`. */
    ghost predicate RunningAfter(b: seq<byte>, sent: nat, n: nat, err: Err, next: PC)
      reads this, conn
    {
      Running(b, if Moved(n, err) then next
                 else Done(sent + n, StopError(n, err), false))
    }

    method TrackOnce(chunk: seq<byte>, ghost b: seq<byte>, ghost sent: nat, ghost stop: nat) returns (n: nat, err: Err)
      requires sent < stop <= |b| && chunk == b[sent..stop] && Running(b, Track(sent, stop))
      modifies this`bytesWritten, this`sys, this`events, conn
      ensures n <= |chunk| && conn.log == old(conn.log) + [InnerCall(chunk, n, err)]
      ensures bytesWritten == old(bytesWritten) + n
      ensures RunningAfter(b, sent, n, err, TrackAt(b, sent + n, stop)) && Others() == old(Others())
    {
      hide Run, SameLog;
      n, err := WriteAndCount(chunk, b, Track(sent, stop));
    }

    /** Write-all of `b[start..stop]`, which the caller passes as `part`. */
    method TrackedWrite(part: seq<byte>, ghost b: seq<byte>, ghost start: nat, ghost stop: nat)
        returns (n: nat, err: Err, ghost calls: seq<InnerCall>)
      requires start <= stop <= |b| && part == b[start..stop]
      requires Running(b, TrackAt(b, start, stop))
      modifies this`bytesWritten, this`sys, this`events, conn
      ensures n <= |part| && bytesWritten == old(bytesWritten) + n && (err == NoErr ==> n == |part|)
      ensures conn.log == old(conn.log) + calls && WroteParts(calls, part, NonEmpty(part), n, err)
      ensures var after := if err == NoErr then TrackAt(b, stop, stop) else Done(start + n, err, false);
        Running(b, after) && Others() == old(Others())
    {
      hide WritingAll, WroteParts, SpoofConn.Running, SpoofConn.Others;
      var total: nat := 0;
      var rest := part;
      calls := [];
      WritingAllStarts(part);
      while |rest| > 0
        invariant total <= |part| && rest == part[total..]
        invariant bytesWritten == old(bytesWritten) + total
        invariant conn.log == old(conn.log) + calls
        invariant WritingAll(calls, part, total)
        invariant Running(b, TrackAt(b, start + total, stop))
        invariant Others() == old(Others())
        decreases |rest|
      {
        n, err := TrackOnce(rest, b, start + total, stop);
        WritingAllStep(calls, part, total, InnerCall(rest, n, err));
        calls := calls + [InnerCall(rest, n, err)];
        total := total + n;
        if n == 0 && err == NoErr {
          return total, ShortWrite, calls;
        }
        if err != NoErr {
          return total, err, calls;
        }
        rest := rest[n..];
      }
      WritingAllEnds(calls, part);
      return total, NoErr, calls;
    }

    /** At most one delay was drawn since, and at most that one slept. */
    predicate AtMostOneMore(drawsBefore: nat, sleptBefore: seq<int>)
      reads this
    {
      && drawsBefore <= draws <= drawsBefore + 1
      && (slept == sleptBefore || (|slept| == |sleptBefore| + 1 && sleptBefore < slept && draws > drawsBefore))
    }

    /** Split once inside the name, if the payload has it. */
    method SniSplitWrite(b: seq<byte>) returns (n: nat, err: Err, ghost calls: seq<InnerCall>)
      requires Running(b, TrackAt(b, 0, CutOf(cfg, b)))
      modifies this`bytesWritten, this`draws, this`slept, this`sys, this`events, conn
      ensures n <= |b| && bytesWritten == old(bytesWritten) + n
      ensures conn.log == old(conn.log) + calls && WroteParts(calls, b, SplitParts(cfg, b), n, err)
      ensures AllFull(calls) ==> draws == old(draws) + if CutOf(cfg, b) < |b| then 1 else 0
      ensures AtMostOneMore(old(draws), old(slept))
      ensures Running(b, Done(n, err, false)) && Others() == old(Others())
    {
      hide WroteParts, AllFull, SplitParts, SpoofConn.Running, SpoofConn.Others;
      var i := Index(b, cfg.sni);
      if i < 0 {
        assert CutOf(cfg, b) == |b|;
        n, err, calls := TrackedWrite(b, b, 0, |b|);
        WholePart(cfg, calls, b, n, err);
        return;
      }
      var cut := i + |cfg.sni| / 2;
      if cut <= 0 || cut >= |b| {
        assert CutOf(cfg, b) == |b|;
        n, err, calls := TrackedWrite(b, b, 0, |b|);
        WholePart(cfg, calls, b, n, err);
        return;
      }
      n, err, calls := TrackedWrite(b[..cut], b, 0, cut);
      if err != NoErr {
        FirstPartStopped(cfg, calls, b, n, err);
        return;
      }
      MaybeSleep(b, Between(cut));
      ghost var more;
      var m;
      m, err, more := TrackedWrite(b[cut..], b, cut, |b|);
      BothParts(cfg, calls, more, b, n, m, err);
      n, calls := n + m, calls + more;
    }

    ghost method LookAhead(b: seq<byte>, sent: nat)
      requires Running(b, FragRead(sent))
      modifies this`sys, this`events
      ensures Running(b, if bytesWritten >= cfg.handshakeLen then Tail(sent) else Frag(sent))
      ensures Others() == old(Others())
    {
      Look(b, FragRead(sent));
    }

    ghost method LookBack(b: seq<byte>, sent: nat)
      requires Running(b, FragCheck(sent))
      modifies this`sys, this`events
      ensures var after := if sent < |b| && bytesWritten < cfg.handshakeLen then Pause(sent) else FragAt(b, sent);
        Running(b, after) && Others() == old(Others())
    {
      Look(b, FragCheck(sent));
    }

    method FragmentOnce(chunk: seq<byte>, ghost b: seq<byte>, ghost sent: nat) returns (n: nat, err: Err)
      requires sent < |b| && chunk == b[sent..Min(sent + FragmentSize(cfg), |b|)] && Running(b, Frag(sent))
      modifies this`bytesWritten, this`sys, this`events, conn
      ensures n <= |chunk| && conn.log == old(conn.log) + [InnerCall(chunk, n, err)]
      ensures bytesWritten == old(bytesWritten) + n
      ensures RunningAfter(b, sent, n, err, FragCheck(sent + n)) && Others() == old(Others())
    {
      hide Run, SameLog;
      n, err := WriteAndCount(chunk, b, Frag(sent));
    }

    method TailOnce(chunk: seq<byte>, ghost b: seq<byte>, ghost sent: nat) returns (n: nat, err: Err)
      requires sent < |b| && chunk == b[sent..] && Running(b, Tail(sent))
      modifies this`bytesWritten, this`sys, this`events, conn
      ensures n <= |chunk| && conn.log == old(conn.log) + [InnerCall(chunk, n, err)]
      ensures bytesWritten == old(bytesWritten) + n
      ensures RunningAfter(b, sent, n, err, TailAt(b, sent + n)) && Others() == old(Others())
    {
      hide Run, SameLog;
      n, err := WriteAndCount(chunk, b, Tail(sent));
    }

    /** The inner loop of the fragmenting Write: the rest of the payload, past the handshake.
        `done` are the calls made so far. */
    method WriteRest(b: seq<byte>, sent: nat, ghost before: nat, ghost done: seq<InnerCall>)
        returns (n: nat, err: Err, ghost calls: seq<InnerCall>)
      requires sent <= |b| && bytesWritten == before + sent && bytesWritten >= cfg.handshakeLen
      requires Fragmenting(cfg, done, b, before, sent) && Running(b, TailAt(b, sent))
      modifies this`bytesWritten, this`sys, this`events, conn
      ensures n <= |b| && bytesWritten == before + n
      ensures conn.log == old(conn.log) + calls && WroteParts(done + calls, b, FragmentsOf(cfg, before, b), n, err)
      ensures Running(b, Done(n, err, false)) && Others() == old(Others())
    {
      hide Fragmenting, WroteParts, SpoofConn.Running, SpoofConn.Others;
      var total: nat := sent;
      var rest := b[sent..];
      calls := [];
      assert done + calls == done;
      while |rest| > 0
        invariant total <= |b| && rest == b[total..]
        invariant bytesWritten == before + total && bytesWritten >= cfg.handshakeLen
        invariant conn.log == old(conn.log) + calls
        invariant Fragmenting(cfg, done + calls, b, before, total)
        invariant Running(b, TailAt(b, total))
        invariant Others() == old(Others())
        decreases |rest|
      {
        n, err := TailOnce(rest, b, total);
        FragmentingStep(cfg, done + calls, b, before, total, InnerCall(rest, n, err));
        assert (done + calls) + [InnerCall(rest, n, err)] == done + (calls + [InnerCall(rest, n, err)]);
        calls := calls + [InnerCall(rest, n, err)];
        total := total + n;
        if n == 0 && err == NoErr {
          return total, ShortWrite, calls;
        }
        if err != NoErr {
          return total, err, calls;
        }
        rest := rest[n..];
      }
      FragmentingEnds(cfg, done + calls, b, before);
      return total, NoErr, calls;
    }

    /** Fragment until the handshake prefix is counted, then write the rest at once. */
    method FragmentedWrite(b: seq<byte>) returns (n: nat, err: Err, ghost calls: seq<InnerCall>)
      requires Running(b, FragAt(b, 0))
      modifies this`bytesWritten, this`draws, this`slept, this`sys, this`events, conn
      ensures n <= |b| && bytesWritten == old(bytesWritten) + n
      ensures conn.log == old(conn.log) + calls && WroteParts(calls, b, FragmentsOf(cfg, old(bytesWritten), b), n, err)
      ensures AllFull(calls) ==> draws == old(draws) + DrawsOf(cfg, old(bytesWritten), b)
      ensures Running(b, Done(n, err, false)) && Others() == old(Others())
    {
      hide Fragmenting, Pacing, DrawsOf, FragmentsOf, AllFull, WroteParts, AfterLocal, IsLocal, IsAdd;
      hide SpoofConn.Running, SpoofConn.Others;
      var fragSize := cfg.fragmentSize;
      if fragSize <= 0 {
        fragSize := DEFAULT_FRAGMENT_SIZE;
      }
      ghost var before := bytesWritten;
      var total: nat := 0;
      var rest := b;
      calls := [];
      FragmentingStarts(cfg, b, before);
      PacingStarts(cfg, b, before);
      while |rest| > 0
        invariant total <= |b| && rest == b[total..] && fragSize == FragmentSize(cfg)
        invariant before == old(bytesWritten) && bytesWritten == before + total
        invariant conn.log == old(conn.log) + calls
        invariant Fragmenting(cfg, calls, b, before, total)
        invariant draws >= old(draws) && Pacing(cfg, calls, b, before, total, draws - old(draws))
        invariant Running(b, FragAt(b, total))
        invariant Others() == old(Others())
        decreases |rest|
      {
        var pastHandshake := bytesWritten >= cfg.handshakeLen;
        LookAhead(b, total);
        if pastHandshake {
          ghost var more;
          n, err, more := WriteRest(b, total, before, calls);
          PacingEnds(cfg, calls, more, b, before, total, draws - old(draws));
          return n, err, calls + more;
        }
        var size := if fragSize <= |rest| then fragSize else |rest|;
        n, err := FragmentOnce(rest[..size], b, total);
        FragmentingStep(cfg, calls, b, before, total, InnerCall(rest[..size], n, err));
        PacingStep(cfg, calls, b, before, total, draws - old(draws), InnerCall(rest[..size], n, err));
        calls := calls + [InnerCall(rest[..size], n, err)];
        total := total + n;
        if n == 0 && err == NoErr {
          return total, ShortWrite, calls;
        }
        if err != NoErr {
          return total, err, calls;
        }
        rest := rest[n..];
        var stillHandshake := bytesWritten < cfg.handshakeLen;
        LookBack(b, total);
        if |rest| > 0 && stillHandshake {
          MaybeSleep(b, Pause(total));
        }
      }
      FragmentingEnds(cfg, calls, b, before);
      PacingEnds(cfg, calls, [], b, before, total, draws - old(draws));
      assert calls + [] == calls;
      return total, NoErr, calls;
    }

    /** The one entry point. Past the handshake prefix it makes a single inner write of the
        whole payload, whose answer it returns as it is and does not count. Before, the inner
        calls are those of a Write of `b` that stops at the first answer which moves nothing
        or carries an error, and with full answers the chunks are those of `Plan`. */
    method Write(b: seq<byte>) returns (n: nat, err: Err, ghost calls: seq<InnerCall>)
      requires Valid()
      modifies this`bytesWritten, this`draws, this`slept, this`sys, this`events, conn
      ensures Valid()
      ensures sys.writers == old(sys.writers) + [Writer(b, Done(n, err, old(bytesWritten) >= cfg.handshakeLen))]
      ensures n <= |b| && conn.log == old(conn.log) + calls
      ensures Stream(conn.log) == Stream(old(conn.log)) + b[..n]
      ensures AllFull(calls) ==> Offered(calls) == Plan(cfg, old(bytesWritten), b)
      ensures AllFull(calls) ==> draws == old(draws) + Draws(cfg, old(bytesWritten), b)
      ensures cfg.sni != [] || old(bytesWritten) >= cfg.handshakeLen ==> AtMostOneMore(old(draws), old(slept))
      ensures if old(bytesWritten) >= cfg.handshakeLen
        then calls == [InnerCall(b, n, err)] && bytesWritten == old(bytesWritten)
        else Wrote(calls, b, n, err) && EndedRightly(calls, b, n, err) && bytesWritten == old(bytesWritten) + n
    {
      hide Wrote, EndedRightly, WroteParts, AllFull, Run, SameLog, Stream, SpoofConn.Running, SpoofConn.Valid;
      Begin(b);
      var pastHandshake := bytesWritten >= cfg.handshakeLen;
      Look(b, Enter);
      if pastHandshake {
        n, err, calls := PlainWrite(b);
      } else if |cfg.sni| > 0 {
        n, err, calls := SniSplitWrite(b);
        WroteInParts(calls, b, SplitParts(cfg, b), n, err);
        HowItEnded(calls, b, n, err);
      } else {
        n, err, calls := FragmentedWrite(b);
        WroteInParts(calls, b, FragmentsOf(cfg, old(bytesWritten), b), n, err);
        HowItEnded(calls, b, n, err);
      }
      Join(old(conn.log), calls);
      End(b, Done(n, err, pastHandshake));
    }

    ghost method Begin(b: seq<byte>)
      requires Valid()
      modifies this`sys, this`events
      ensures Running(b, Enter) && Others() == old(sys.writers) && Stream(conn.log) == Accepted(Others())
      ensures forall x :: x in Others() ==> x.pc.Done?
    {
      var e := Call(b);
      RunExtend(cfg, events, sys, e);
      events, sys := events + [e], Apply(cfg, sys, e);
    }

    lemma End(b: seq<byte>, pc: PC)
      requires Running(b, pc) && pc.Done? && pc.n <= |b| && Stream(conn.log) == Accepted(Others()) + b[..pc.n]
      requires forall x :: x in Others() ==> x.pc.Done?
      ensures Valid() && sys.writers == Others() + [Writer(b, pc)]
    {
      hide Run, SameLog;
      assert sys.writers == Others() + [Writer(b, pc)];
      AcceptedAppend(Others(), Writer(b, pc));
    }

    method PlainWrite(b: seq<byte>) returns (n: nat, err: Err, ghost calls: seq<InnerCall>)
      requires Running(b, Pass)
      modifies this`sys, this`events, conn
      ensures n <= |b| && calls == [InnerCall(b, n, err)] && conn.log == old(conn.log) + calls
      ensures Running(b, Done(n, err, true)) && Others() == old(Others())
      ensures Stream(calls) == b[..n] && Offered(calls) == [b]
    {
      hide Run, Stream, Offered, SameLog;
      n, err := conn.Write(b);
      calls := [InnerCall(b, n, err)];
      assert b[0..|b|] == b;
      SingleCall(InnerCall(b, n, err));
      ghost var e := SpoofSystem.Write(|sys.writers| - 1, n, err);
      WriteEvent(cfg, events, sys, b, Pass, old(conn.log), InnerCall(b, n, err));
      events, sys := events + [e], Apply(cfg, sys, e);
    }

    /** What any sequence of Writes leaves behind, whatever the inner connection did. */
    lemma LifeOfConnection(k: nat)
      requires Valid() && k < |conn.log|
      ensures Stream(conn.log) == Accepted(sys.writers) && bytesWritten <= |Stream(conn.log)|
      ensures cfg.sni == [] && conn.log[k].n > (if cfg.fragmentSize > 0 then cfg.fragmentSize else 2) ==>
        |Stream(conn.log[..k])| >= cfg.handshakeLen
      ensures forall i :: 0 <= i < |slept| ==> 0 < slept[i] < cfg.maxDelay
      ensures cfg.sni == [] ==> |slept| == 0 || |slept| <= cfg.handshakeLen - 1
      ensures cfg.sni != [] ==> OneSleepEach(sys.sleeps) && |slept| == |sys.sleeps| <= |sys.writers|
    {
      WireLenIsStreamLen(sys.wire, conn.log);
      WireLenIsStreamLen(sys.wire[..k], conn.log[..k]);
      LagSafeFragmentation(cfg, events, sys, k);
      ReachableSleeps(cfg, events, sys);
    }

    /** Nothing the handshake phase put on the wire contains a name of two bytes or more,
        unless the payload repeats it from the cut on. */
    lemma NameStaysHidden(k: nat)
      requires Valid() && k < |conn.log| && |cfg.sni| >= 2 && sys.wire[k].counted
      requires sys.wire[k].writer < |sys.writers| ==> var payload := sys.writers[sys.wire[k].writer].payload;
        forall j :: CutOf(cfg, payload) <= j ==> !OccursAt(payload, cfg.sni, j)
      ensures !Contains(conn.log[k].offered[..conn.log[k].n], cfg.sni)
    {
      NameNeverWhole(cfg, events, sys, k);
    }
  }
}
