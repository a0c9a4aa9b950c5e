/** Exactly when the single split hides the name. */
module SpoofNames {
  import opened Bytes
  import opened SpoofSystem
  import opened SpoofSafety
  import opened SpoofPlan

  /** On a connection that accepts everything, a name of two bytes or more is whole in some
      chunk of a handshake-phase Write exactly when it occurs again from the cut on. */
  lemma WholeIffRepeated(cfg: Config, counted: nat, b: seq<byte>)
    requires |cfg.sni| >= 2 && counted < cfg.handshakeLen
    ensures SomeChunkHas(Plan(cfg, counted, b), cfg.sni) <==>
            exists j :: CutOf(cfg, b) <= j && OccursAt(b, cfg.sni, j)
  {
    var cut := CutOf(cfg, b);
    var plan := Plan(cfg, counted, b);
    if j :| cut <= j && OccursAt(b, cfg.sni, j) {
      SubsliceContains(b, cut, |b|, cfg.sni, j - cut);
      assert b[cut..|b|] == b[cut..] == plan[|plan| - 1];
      assert OccursAt(plan[|plan| - 1], cfg.sni, j - cut);
    } else {
      OneSideHasNoName(cfg, b, 0, cut);
      OneSideHasNoName(cfg, b, cut, |b|);
      assert b[0..cut] == b[..cut] && b[cut..|b|] == b[cut..];
    }
  }

  /** With a one-byte name the last chunk starts with its first occurrence. */
  lemma LastChunkHasIt(cfg: Config, counted: nat, b: seq<byte>)
    requires |cfg.sni| == 1 && counted < cfg.handshakeLen && Contains(b, cfg.sni)
    ensures SomeChunkHas(Plan(cfg, counted, b), cfg.sni)
  {
    var plan, first := Plan(cfg, counted, b), Index(b, cfg.sni);
    if first == 0 {
      assert plan == [b[..|b|]] && b[..|b|] == b;
      assert OccursAt(plan[0], cfg.sni, 0);
    } else {
      var rest := b[first..];
      assert rest == plan[|plan| - 1];
      assert rest[0..1] == b[first..first + 1];
      assert OccursAt(rest, cfg.sni, 0);
    }
  }

  /** A one-byte name cannot be split: it is whole in some chunk whenever it occurs at all. */
  lemma OneByteNameIsWhole(cfg: Config, counted: nat, b: seq<byte>)
    requires |cfg.sni| == 1 && counted < cfg.handshakeLen
    ensures SomeChunkHas(Plan(cfg, counted, b), cfg.sni) <==> Contains(b, cfg.sni)
  {
    var cut := CutOf(cfg, b);
    var plan := Plan(cfg, counted, b);
    forall k, i | 0 <= k < |plan| && OccursAt(plan[k], cfg.sni, i)
      ensures Contains(b, cfg.sni)
    {
      var lo := if plan[k] == b[cut..] then cut else 0;
      var hi := lo + |plan[k]|;
      assert plan[k] == b[lo..hi];
      SubsliceContains(b, lo, hi, cfg.sni, i);
    }
    if Contains(b, cfg.sni) {
      LastChunkHasIt(cfg, counted, b);
    }
  }

  /** The name twice in one payload: the second one goes out whole. */
  lemma RepeatedNameEscapes()
    ensures var cfg := Config(2, 2048, 0, [97, 98]);
      var b := [97, 98, 97, 98];
      Plan(cfg, 0, b) == [[97], [98, 97, 98]] && SomeChunkHas(Plan(cfg, 0, b), cfg.sni)
  {
    var cfg := Config(2, 2048, 0, [97, 98]);
    var b: seq<byte> := [97, 98, 97, 98];
    assert OccursAt(b, cfg.sni, 0);
    assert Index(b, cfg.sni) == 0;
    assert CutOf(cfg, b) == 1;
    assert b[..1] == [97] && b[1..] == [98, 97, 98];
    assert OccursAt(b, cfg.sni, 2);
    WholeIffRepeated(cfg, 0, b);
  }
}
