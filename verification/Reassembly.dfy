/** Fragmentation seen by the record parser: invisible on the whole stream, opaque segment
    by segment. */
module Reassembly {
  import opened Bytes
  import opened SpoofSystem
  import opened SpoofSafety
  import opened SpoofPlan
  import opened SpoofConnection
  import opened TlsRecords

  function Payloads(writers: seq<Writer>): seq<seq<byte>>
  {
    if writers == [] then [] else Payloads(writers[..|writers| - 1]) + [writers[|writers| - 1].payload]
  }

  predicate WroteAll(writers: seq<Writer>)
  {
    forall x :: x in writers ==> x.pc.Done? && x.pc.n == |x.payload|
  }

  lemma {:induction false} AcceptedInFull(writers: seq<Writer>)
    requires WroteAll(writers)
    ensures Accepted(writers) == Concat(Payloads(writers))
  {
    if writers != [] {
      var init, last := writers[..|writers| - 1], writers[|writers| - 1];
      assert last in writers && forall x :: x in init ==> x in writers;
      AcceptedInFull(init);
      var parts := Payloads(init) + [last.payload];
      assert parts[..|parts| - 1] == Payloads(init);
    }
  }

  /** After any Writes that each wrote everything, the wire is the payloads one after another,
      so the parser, like any other reader of the stream, sees no fragmentation. */
  lemma FragmentationIsInvisible(c: SpoofConn)
    requires c.Valid() && WroteAll(c.sys.writers)
    ensures Stream(c.conn.log) == Concat(Payloads(c.sys.writers))
    ensures Scan(Stream(c.conn.log)) == Scan(Concat(Payloads(c.sys.writers)))
  {
    AcceptedInFull(c.sys.writers);
  }

  /** If only the last Write may have been cut short, the parser reads on the wire a prefix of
      the records it would read in the payloads sent whole. */
  lemma CutWriteShowsPrefix(c: SpoofConn)
    requires c.Valid() && c.sys.writers != [] && WroteAll(c.sys.writers[..|c.sys.writers| - 1])
    ensures Stream(c.conn.log) <= Concat(Payloads(c.sys.writers))
    ensures Scan(Stream(c.conn.log)).records <= Scan(Concat(Payloads(c.sys.writers))).records
  {
    var init, last := c.sys.writers[..|c.sys.writers| - 1], c.sys.writers[|c.sys.writers| - 1];
    AcceptedInFull(init);
    var parts := Payloads(init) + [last.payload];
    assert parts[..|parts| - 1] == Payloads(init);
    var whole, wire := Concat(parts), Stream(c.conn.log);
    assert last in c.sys.writers && last.pc.Done?;
    assert wire <= whole && whole[..|wire|] == wire;
    PrefixMonotone(whole, |wire|);
  }

  /** With a configured fragment size below the five bytes of a record header, the fallback
      for a size that is not positive included, no segment that starts inside the handshake
      prefix shows a record on its own, under any interleaving of Writes. */
  lemma SegmentsAreOpaque(cfg: Config, events: seq<Event>, s: System, k: nat)
    requires Run(cfg, events) == Some(s) && k < |s.wire|
    requires cfg.sni == [] && cfg.fragmentSize < 5 && WireLen(s.wire[..k]) < cfg.handshakeLen
    ensures Scan(s.wire[k].data).records == []
  {
    LagSafeFragmentation(cfg, events, s, k);
  }
}
