/** The fragmenting writer as a step system: any number of concurrent Write calls on one
    connection, interleaved at every locked read, write of the inner connection, locked
    addition and random draw. The inner connection may accept any prefix of what it is
    offered, nothing included, with or without an error. */
module SpoofSystem {
  import opened Sums
  import opened Bytes

  const DEFAULT_FRAGMENT_SIZE: nat := 2

  datatype Config = Config(fragmentSize: int, handshakeLen: int, maxDelay: int, sni: seq<byte>)

  datatype Err = NoErr | ShortWrite | ConnErr(code: nat)

  datatype Random = Failure | Value(n: int)

  /** One call of the inner connection: it was offered `offered` bytes of the payload of
      `writer` from `start` on and accepted `data`; `counted` says whether the call site adds
      that to the counter. */
  datatype Segment = Segment(writer: nat, start: nat, offered: nat, data: seq<byte>, err: Err, counted: bool)

  /** Where a Write call stands. `sent` bytes of its payload have been accepted and added;
      in the Add states `n` more have been accepted. */
  datatype PC =
    | Enter                                                    // before the first locked read
    | Pass                                                     // past the handshake: one plain write
    | Track(sent: nat, stop: nat)                              // write-all of the payload up to `stop`
    | TrackAdd(sent: nat, stop: nat, n: nat, err: Err)
    | Between(sent: nat)                                       // the two halves: draw a delay
    | FragRead(sent: nat)                                      // head of the fragment loop
    | Frag(sent: nat)                                          // about to write one fragment
    | FragAdd(sent: nat, n: nat, err: Err)
    | FragCheck(sent: nat)                                     // still in the handshake?
    | Pause(sent: nat)                                         // draw a delay
    | Tail(sent: nat)                                          // past the handshake: write-all
    | TailAdd(sent: nat, n: nat, err: Err)
    | Done(n: nat, err: Err, passed: bool)

  datatype Writer = Writer(payload: seq<byte>, pc: PC)

  /** A sleep of the Write call `writer`, when `at` segments were on the wire. */
  datatype Sleep = Sleep(writer: nat, delay: int, at: nat)

  datatype System = System(counted: nat, wire: seq<Segment>, writers: seq<Writer>, sleeps: seq<Sleep>)

  datatype Event =
    | Call(payload: seq<byte>)
    | Local(writer: nat)
    | Write(writer: nat, n: nat, err: Err)
    | Draw(writer: nat, random: Random)

  function Fresh(): System { System(0, [], [], []) }

  /** The fragment size after the fallback. */
  function FragmentSize(cfg: Config): (f: nat)
    ensures f >= 1
  {
    if cfg.fragmentSize <= 0 then DEFAULT_FRAGMENT_SIZE else cfg.fragmentSize
  }

  /** Where the payload is split: inside the first occurrence of the name, or at its end when
      there is none or the cut would leave one side empty. */
  function CutOf(cfg: Config, payload: seq<byte>): (cut: nat)
    ensures cut <= |payload|
  {
    var i := Index(payload, cfg.sni);
    if i < 0 then |payload|
    else
      var cut := i + |cfg.sni| / 2;
      if cut <= 0 || cut >= |payload| then |payload| else cut
  }

  predicate RandomInRange(maximum: int, random: Random)
  {
    maximum > 0 && random.Value? ==> 0 <= random.n < maximum
  }

  function RandDuration(maximum: int, random: Random): (delay: int)
    requires RandomInRange(maximum, random)
    ensures 0 <= delay
    ensures if maximum <= 0 then delay == 0 else delay < maximum
    ensures maximum > 0 && random.Value? ==> delay == random.n
    ensures maximum > 0 && random.Failure? ==> maximum - 1 <= 2 * delay <= maximum
  {
    if maximum <= 0 then 0
    else if random.Failure? then maximum / 2
    else random.n
  }

  function TrackAt(payload: seq<byte>, sent: nat, stop: nat): PC
  {
    if sent < stop then Track(sent, stop)
    else if stop < |payload| then Between(stop)
    else Done(sent, NoErr, false)
  }

  function FragAt(payload: seq<byte>, sent: nat): PC
  {
    if sent < |payload| then FragRead(sent) else Done(sent, NoErr, false)
  }

  function TailAt(payload: seq<byte>, sent: nat): PC
  {
    if sent < |payload| then Tail(sent) else Done(sent, NoErr, false)
  }

  /** After an inner write that accepted `n` bytes and was added: stop on a zero write or an
      error, else go on at `next`. */
  function AfterAdd(sent: nat, n: nat, err: Err, next: PC): PC
  {
    if n == 0 && err == NoErr then Done(sent, ShortWrite, false)
    else if err != NoErr then Done(sent + n, err, false)
    else next
  }

  predicate IsLocal(pc: PC)
  {
    pc.Enter? || pc.TrackAdd? || pc.FragRead? || pc.FragAdd? || pc.FragCheck? || pc.TailAdd?
  }

  predicate IsAdd(pc: PC) { pc.TrackAdd? || pc.FragAdd? || pc.TailAdd? }

  predicate IsWrite(pc: PC) { pc.Pass? || pc.Track? || pc.Frag? || pc.Tail? }

  predicate IsDraw(pc: PC) { pc.Between? || pc.Pause? }

  function Min(a: nat, b: nat): nat { if a <= b then a else b }

  /** The part of the payload offered to the inner connection: it starts here, */
  function OfferStart(pc: PC): nat
    requires IsWrite(pc)
  {
    if pc.Pass? then 0 else pc.sent
  }

  /** and ends here. */
  function OfferStop(cfg: Config, payload: seq<byte>, pc: PC): nat
    requires IsWrite(pc)
  {
    match pc
    case Track(_, stop) => stop
    case Frag(sent) => Min(sent + FragmentSize(cfg), |payload|)
    case _ => |payload|
  }

  predicate Enabled(cfg: Config, s: System, e: Event)
  {
    match e
    case Call(_) => true
    case Local(w) => w < |s.writers| && IsLocal(s.writers[w].pc)
    case Write(w, n, _) =>
      w < |s.writers| && IsWrite(s.writers[w].pc) &&
      OfferStart(s.writers[w].pc) + n <= OfferStop(cfg, s.writers[w].payload, s.writers[w].pc) <= |s.writers[w].payload|
    case Draw(w, random) =>
      w < |s.writers| && IsDraw(s.writers[w].pc) && RandomInRange(cfg.maxDelay, random)
  }

  function WithPC(s: System, w: nat, pc: PC): System
    requires w < |s.writers|
  {
    s.(writers := s.writers[w := s.writers[w].(pc := pc)])
  }

  /** The next program counter after a locked read of `counted` or a locked addition. */
  function AfterLocal(cfg: Config, counted: nat, payload: seq<byte>, pc: PC): PC
    requires IsLocal(pc)
  {
    match pc
    case Enter =>
      if counted >= cfg.handshakeLen then Pass
      else if |cfg.sni| > 0 then TrackAt(payload, 0, CutOf(cfg, payload))
      else FragAt(payload, 0)
    case TrackAdd(sent, stop, n, err) => AfterAdd(sent, n, err, TrackAt(payload, sent + n, stop))
    case FragRead(sent) => if counted >= cfg.handshakeLen then Tail(sent) else Frag(sent)
    case FragAdd(sent, n, err) => AfterAdd(sent, n, err, FragCheck(sent + n))
    case FragCheck(sent) =>
      if sent < |payload| && counted < cfg.handshakeLen then Pause(sent) else FragAt(payload, sent)
    case TailAdd(sent, n, err) => AfterAdd(sent, n, err, TailAt(payload, sent + n))
  }

  function AfterWrite(pc: PC, n: nat, err: Err): PC
    requires IsWrite(pc)
  {
    match pc
    case Pass => Done(n, err, true)
    case Track(sent, stop) => TrackAdd(sent, stop, n, err)
    case Frag(sent) => FragAdd(sent, n, err)
    case Tail(sent) => TailAdd(sent, n, err)
  }

  function AfterDraw(payload: seq<byte>, pc: PC): PC
    requires IsDraw(pc)
  {
    match pc
    case Between(sent) => TrackAt(payload, sent, |payload|)
    case Pause(sent) => FragAt(payload, sent)
  }

  function SegmentOf(cfg: Config, w: nat, payload: seq<byte>, pc: PC, n: nat, err: Err): Segment
    requires IsWrite(pc) && OfferStart(pc) + n <= OfferStop(cfg, payload, pc) <= |payload|
  {
    var start, stop := OfferStart(pc), OfferStop(cfg, payload, pc);
    Segment(w, start, stop - start, payload[start..start + n], err, !pc.Pass?)
  }

  function Apply(cfg: Config, s: System, e: Event): System
    requires Enabled(cfg, s, e)
  {
    match e
    case Call(payload) => s.(writers := s.writers + [Writer(payload, Enter)])
    case Local(w) =>
      var Writer(payload, pc) := s.writers[w];
      WithPC(s, w, AfterLocal(cfg, s.counted, payload, pc))
      .(counted := s.counted + PendingWeight()(s.writers[w]))
    case Write(w, n, err) =>
      var Writer(payload, pc) := s.writers[w];
      WithPC(s, w, AfterWrite(pc, n, err))
      .(wire := s.wire + [SegmentOf(cfg, w, payload, pc, n, err)])
    case Draw(w, random) =>
      var Writer(payload, pc) := s.writers[w];
      var delay := RandDuration(cfg.maxDelay, random);
      WithPC(s, w, AfterDraw(payload, pc))
      .(sleeps := if delay > 0 then s.sleeps + [Sleep(w, delay, |s.wire|)] else s.sleeps)
  }

  datatype Option<T> = None | Some(value: T)

  /** The state after these events of a fresh connection, if they are possible in this order. */
  ghost function Run(cfg: Config, events: seq<Event>): Option<System>
  {
    if events == [] then Some(Fresh())
    else
      var before := Run(cfg, events[..|events| - 1]);
      var e := events[|events| - 1];
      if before.Some? && Enabled(cfg, before.value, e) then Some(Apply(cfg, before.value, e)) else None
  }

  lemma RunExtend(cfg: Config, events: seq<Event>, s: System, e: Event)
    requires Run(cfg, events) == Some(s) && Enabled(cfg, s, e)
    ensures Run(cfg, events + [e]) == Some(Apply(cfg, s, e))
  {
    assert (events + [e])[..|events|] == events;
  }

  // ---------------------------------------------------------------------------------------
  // Measures on the wire

  function LenWeight(): Segment -> nat { (g: Segment) => |g.data| }
  function CountedWeight(): Segment -> nat { (g: Segment) => if g.counted then |g.data| else 0 }
  function CallWeight(w: nat): Segment -> nat { (g: Segment) => if g.writer == w then 1 else 0 }

  ghost function WireLen(wire: seq<Segment>): nat { Sum(wire, LenWeight()) }

  /** The number of inner writes of one Write call. */
  ghost function Calls(wire: seq<Segment>, w: nat): nat { Sum(wire, CallWeight(w)) }

  /** What one Write call put on the wire, in order. */
  ghost function Sent(wire: seq<Segment>, w: nat): seq<byte>
  {
    if wire == [] then []
    else
      var last := wire[|wire| - 1];
      Sent(wire[..|wire| - 1], w) + if last.writer == w then last.data else []
  }

  function PendingWeight(): Writer -> nat { (x: Writer) => if IsAdd(x.pc) then x.pc.n else 0 }
  function PauseWeight(): Writer -> nat { (x: Writer) => if x.pc.Pause? then 1 else 0 }
  function EarnedWeight(): Writer -> nat { (x: Writer) => if x.pc.Pause? || x.pc.FragCheck? then 1 else 0 }

  /** The call can still sleep between the halves of its payload. */
  predicate MaySleep(x: Writer)
  {
    x.pc.Enter? || x.pc.Between? || ((x.pc.Track? || x.pc.TrackAdd?) && x.pc.stop < |x.payload|)
  }

  function Delays(sleeps: seq<Sleep>): seq<int>
  {
    seq(|sleeps|, k requires 0 <= k < |sleeps| => sleeps[k].delay)
  }
}
