/** The inner calls of one Write: which ones are a clean stop, and which chunks go out when
    the inner connection accepts everything it is offered. */
module SpoofPlan {
  import opened Bytes
  import opened SpoofSystem

  /** One call of the inner connection and its answer. */
  datatype InnerCallAny = InnerCall(offered: seq<byte>, n: nat, err: Err)

  type InnerCall = c: InnerCallAny | c.n <= |c.offered| witness InnerCall([], 0, NoErr)

  predicate Moved(n: nat, err: Err) { n > 0 && err == NoErr }

  /** The error a Write returns for an answer it stops at. */
  function StopError(n: nat, err: Err): Err
  {
    if n == 0 && err == NoErr then ShortWrite else err
  }

  /** Every call moved bytes without an error. */
  ghost predicate AllMoved(calls: seq<InnerCall>)
  {
    calls != [] ==>
      var last := calls[|calls| - 1];
      Moved(last.n, last.err) && AllMoved(calls[..|calls| - 1])
  }

  /** Every call was accepted in full without an error. */
  ghost predicate AllFull(calls: seq<InnerCall>)
  {
    calls != [] ==>
      var last := calls[|calls| - 1];
      last.n == |last.offered| && last.err == NoErr && AllFull(calls[..|calls| - 1])
  }

  ghost function Stream(calls: seq<InnerCall>): seq<byte>
  {
    if calls == [] then []
    else Stream(calls[..|calls| - 1]) + calls[|calls| - 1].offered[..calls[|calls| - 1].n]
  }

  ghost function Offered(calls: seq<InnerCall>): seq<seq<byte>>
  {
    if calls == [] then [] else Offered(calls[..|calls| - 1]) + [calls[|calls| - 1].offered]
  }

  lemma Append(calls: seq<InnerCall>, c: InnerCall)
    ensures AllMoved(calls + [c]) <==> AllMoved(calls) && Moved(c.n, c.err)
    ensures AllFull(calls + [c]) <==> AllFull(calls) && c.n == |c.offered| && c.err == NoErr
    ensures Stream(calls + [c]) == Stream(calls) + c.offered[..c.n]
    ensures Offered(calls + [c]) == Offered(calls) + [c.offered]
  {
    assert (calls + [c])[..|calls|] == calls;
  }

  lemma SingleCall(c: InnerCall)
    ensures Stream([c]) == c.offered[..c.n] && Offered([c]) == [c.offered]
  {
    Append([], c);
    assert [] + [c] == [c] && Stream([]) == [] && Offered([]) == [];
  }

  lemma {:induction false} Join(xs: seq<InnerCall>, ys: seq<InnerCall>)
    ensures AllMoved(xs + ys) <==> AllMoved(xs) && AllMoved(ys)
    ensures AllFull(xs + ys) <==> AllFull(xs) && AllFull(ys)
    ensures Stream(xs + ys) == Stream(xs) + Stream(ys)
    ensures Offered(xs + ys) == Offered(xs) + Offered(ys)
  {
    if ys == [] {
      assert xs + ys == xs;
    } else {
      hide AllMoved, AllFull, Stream, Offered;
      var init, last := ys[..|ys| - 1], ys[|ys| - 1];
      Join(xs, init);
      Append(xs + init, last);
      assert (xs + init) + [last] == xs + ys;
      Append(init, last);
      assert init + [last] == ys;
    }
  }

  /** The calls put `b[..n]` on the wire, each one but the last moved bytes without an error,
      and the last one tells how the Write ended. */
  ghost predicate Wrote(calls: seq<InnerCall>, b: seq<byte>, n: nat, err: Err)
  {
    && n <= |b| && Stream(calls) == b[..n] && |calls| <= |b|
    && if err == NoErr then n == |b| && AllMoved(calls)
       else calls != [] && AllMoved(calls[..|calls| - 1]) && StoppedAt(calls[|calls| - 1], err)
  }

  predicate StoppedAt(c: InnerCall, err: Err)
  {
    !Moved(c.n, c.err) && err == StopError(c.n, c.err)
  }

  /** One more call, of a chunk that starts where the last one stopped. */
  lemma WroteStep(calls: seq<InnerCall>, b: seq<byte>, total: nat, c: InnerCall)
    requires total < |b| && Wrote(calls, b[..total], total, NoErr) && c.offered <= b[total..]
    ensures total + c.n <= |b|
    ensures Moved(c.n, c.err) ==> Wrote(calls + [c], b[..total + c.n], total + c.n, NoErr)
    ensures !Moved(c.n, c.err) ==> Wrote(calls + [c], b, total + c.n, StopError(c.n, c.err))
  {
    Append(calls, c);
    assert (calls + [c])[..|calls|] == calls;
    assert b[total..][..c.n] == c.offered[..c.n];
    assert b[..total] + b[total..][..c.n] == b[..total + c.n];
    assert b[..total][..total] == b[..total];
    assert b[..total + c.n][..total + c.n] == b[..total + c.n];
  }

  /** A finished Write of the first part followed by a Write of the rest. */
  lemma WroteConcat(xs: seq<InnerCall>, ys: seq<InnerCall>, b: seq<byte>, cut: nat, n: nat, err: Err)
    requires cut <= |b| && Wrote(xs, b[..cut], cut, NoErr) && Wrote(ys, b[cut..], n, err)
    ensures Wrote(xs + ys, b, cut + n, err)
  {
    Join(xs, ys);
    assert b[..cut][..cut] + b[cut..][..n] == b[..cut + n];
    if ys != [] {
      Join(xs, ys[..|ys| - 1]);
      assert (xs + ys)[..|xs + ys| - 1] == xs + ys[..|ys| - 1];
    }
  }

  lemma {:induction false} AllMovedAt(calls: seq<InnerCall>)
    ensures AllMoved(calls) <==> forall c :: c in calls ==> c.n > 0 && c.err == NoErr
  {
    if calls != [] {
      AllMovedAt(calls[..|calls| - 1]);
      assert calls == calls[..|calls| - 1] + [calls[|calls| - 1]];
    }
  }

  lemma {:induction false} AllFullAt(calls: seq<InnerCall>)
    ensures AllFull(calls) <==> forall c :: c in calls ==> c.n == |c.offered| && c.err == NoErr
  {
    if calls != [] {
      AllFullAt(calls[..|calls| - 1]);
      assert calls == calls[..|calls| - 1] + [calls[|calls| - 1]];
    }
  }

  lemma {:induction false} OfferedAt(calls: seq<InnerCall>, k: nat)
    requires k < |calls|
    ensures |Offered(calls)| == |calls| && Offered(calls)[k] == calls[k].offered
  {
    if |calls| > 1 {
      OfferedAt(calls[..|calls| - 1], if k < |calls| - 1 then k else 0);
    }
  }

  /** How a Write ended: without an error when every call moved bytes and all was written;
      else at the first call that did not, with the inner connection's own error, or with the
      short-write error if that call moved nothing and gave none. */
  ghost predicate EndedRightly(calls: seq<InnerCall>, b: seq<byte>, n: nat, err: Err)
  {
    && (forall k :: 0 <= k < |calls| - 1 ==> calls[k].n > 0 && calls[k].err == NoErr)
    && if calls == [] then b == [] && err == NoErr
       else
         var last := calls[|calls| - 1];
         if last.err != NoErr then err == last.err
         else if last.n == 0 then err == ShortWrite
         else err == NoErr && n == |b|
  }

  lemma HowItEnded(calls: seq<InnerCall>, b: seq<byte>, n: nat, err: Err)
    requires Wrote(calls, b, n, err)
    ensures EndedRightly(calls, b, n, err)
  {
    AllMovedAt(calls);
    if calls != [] {
      var init := calls[..|calls| - 1];
      AllMovedAt(init);
      assert forall k :: 0 <= k < |init| ==> init[k] == calls[k] && init[k] in init;
      assert calls[|calls| - 1] in calls;
    }
  }

  // ---------------------------------------------------------------------------------------
  // The chunks of a Write when everything offered is accepted

  /** Fragments of `f` bytes until `limit` bytes are counted, then the rest in one piece. */
  function FragmentPlan(f: nat, limit: int, counted: nat, b: seq<byte>): seq<seq<byte>>
    requires f >= 1
    decreases |b|
  {
    if b == [] then []
    else if counted >= limit then [b]
    else
      var size := Min(f, |b|);
      [b[..size]] + FragmentPlan(f, limit, counted + size, b[size..])
  }

  function NonEmpty(b: seq<byte>): seq<seq<byte>>
  {
    if b == [] then [] else [b]
  }

  /** The two sides of the cut. */
  function SplitParts(cfg: Config, b: seq<byte>): seq<seq<byte>>
  {
    NonEmpty(b[..CutOf(cfg, b)]) + NonEmpty(b[CutOf(cfg, b)..])
  }

  /** The chunks of one Write in either mode. */
  function Plan(cfg: Config, counted: nat, b: seq<byte>): seq<seq<byte>>
  {
    if counted >= cfg.handshakeLen then [b]
    else if |cfg.sni| > 0 then SplitParts(cfg, b)
    else FragmentsOf(cfg, counted, b)
  }

  /** A Write of `b` ended, and if everything offered was accepted it went out in these parts. */
  ghost predicate WroteParts(calls: seq<InnerCall>, b: seq<byte>, parts: seq<seq<byte>>, n: nat, err: Err)
  {
    Wrote(calls, b, n, err) && (AllFull(calls) ==> Offered(calls) == parts)
  }

  lemma WroteInParts(calls: seq<InnerCall>, b: seq<byte>, parts: seq<seq<byte>>, n: nat, err: Err)
    requires WroteParts(calls, b, parts, n, err)
    ensures Wrote(calls, b, n, err) && Stream(calls) == b[..n]
    ensures AllFull(calls) ==> Offered(calls) == parts
  {
  }

  lemma WholePart(cfg: Config, calls: seq<InnerCall>, b: seq<byte>, n: nat, err: Err)
    requires CutOf(cfg, b) == |b| && WroteParts(calls, b, NonEmpty(b), n, err)
    ensures WroteParts(calls, b, SplitParts(cfg, b), n, err)
  {
    assert b[..|b|] == b && NonEmpty(b) + [] == NonEmpty(b);
  }

  lemma FirstPartStopped(cfg: Config, calls: seq<InnerCall>, b: seq<byte>, n: nat, err: Err)
    requires err != NoErr && WroteParts(calls, b[..CutOf(cfg, b)], NonEmpty(b[..CutOf(cfg, b)]), n, err)
    ensures WroteParts(calls, b, SplitParts(cfg, b), n, err)
    ensures !AllFull(calls)
  {
    var chunks, last := Offered(calls), calls[|calls| - 1];
    assert b[..CutOf(cfg, b)][..n] == b[..n];
    assert chunks[|chunks| - 1] == last.offered;
    assert !AllFull(calls);
  }

  lemma BothParts(cfg: Config, xs: seq<InnerCall>, ys: seq<InnerCall>, b: seq<byte>, n: nat, m: nat, err: Err)
    requires WroteParts(xs, b[..CutOf(cfg, b)], NonEmpty(b[..CutOf(cfg, b)]), n, NoErr)
    requires WroteParts(ys, b[CutOf(cfg, b)..], NonEmpty(b[CutOf(cfg, b)..]), m, err)
    ensures n == CutOf(cfg, b) && WroteParts(xs + ys, b, SplitParts(cfg, b), n + m, err)
  {
    WroteConcat(xs, ys, b, n, m, err);
    Join(xs, ys);
  }

  /** A write-all of `part` has got to `total`. */
  ghost predicate WritingAll(calls: seq<InnerCall>, part: seq<byte>, total: nat)
  {
    && total <= |part| && Wrote(calls, part[..total], total, NoErr)
    && (total == 0 ==> calls == [])
    && (AllFull(calls) && total > 0 ==> total == |part| && Offered(calls) == [part])
  }

  lemma WritingAllStarts(part: seq<byte>)
    ensures WritingAll([], part, 0)
  {
  }

  lemma WritingAllEnds(calls: seq<InnerCall>, part: seq<byte>)
    requires WritingAll(calls, part, |part|)
    ensures WroteParts(calls, part, NonEmpty(part), |part|, NoErr)
  {
    assert part[..|part|] == part;
  }

  lemma WritingAllStep(calls: seq<InnerCall>, part: seq<byte>, total: nat, c: InnerCall)
    requires total < |part| && WritingAll(calls, part, total) && c.offered == part[total..]
    ensures Moved(c.n, c.err) ==> WritingAll(calls + [c], part, total + c.n)
    ensures !Moved(c.n, c.err) ==> WroteParts(calls + [c], part, NonEmpty(part), total + c.n, StopError(c.n, c.err))
  {
    WroteStep(calls, part, total, c);
    Append(calls, c);
    if AllFull(calls + [c]) {
      assert total == 0 && calls == [] && c.offered == part;
    }
  }

  /** A fragmenting Write of `b` that began with `before` bytes counted has got to `total`. */
  ghost predicate Fragmenting(cfg: Config, calls: seq<InnerCall>, b: seq<byte>, before: nat, total: nat)
  {
    && total <= |b| && Wrote(calls, b[..total], total, NoErr)
    && (AllFull(calls) ==> Offered(calls) + FragmentsOf(cfg, before + total, b[total..]) == FragmentsOf(cfg, before, b))
  }

  function FragmentsOf(cfg: Config, counted: nat, b: seq<byte>): seq<seq<byte>>
  {
    FragmentPlan(FragmentSize(cfg), cfg.handshakeLen, counted, b)
  }

  lemma FragmentingStarts(cfg: Config, b: seq<byte>, before: nat)
    ensures Fragmenting(cfg, [], b, before, 0)
  {
    assert b[0..] == b;
    assert Offered([]) + FragmentsOf(cfg, before, b) == FragmentsOf(cfg, before, b);
  }

  lemma FragmentingEnds(cfg: Config, calls: seq<InnerCall>, b: seq<byte>, before: nat)
    requires Fragmenting(cfg, calls, b, before, |b|)
    ensures WroteParts(calls, b, FragmentsOf(cfg, before, b), |b|, NoErr)
  {
    assert b[..|b|] == b;
    assert Offered(calls) + [] == Offered(calls);
  }

  lemma FragmentingStep(cfg: Config, calls: seq<InnerCall>, b: seq<byte>, before: nat, total: nat, c: InnerCall)
    requires total < |b| && Fragmenting(cfg, calls, b, before, total)
    requires c.offered == if before + total >= cfg.handshakeLen then b[total..]
                          else b[total..Min(total + FragmentSize(cfg), |b|)]
    ensures Moved(c.n, c.err) ==> Fragmenting(cfg, calls + [c], b, before, total + c.n)
    ensures !Moved(c.n, c.err) ==>
      WroteParts(calls + [c], b, FragmentsOf(cfg, before, b), total + c.n, StopError(c.n, c.err))
  {
    WroteStep(calls, b, total, c);
    hide Wrote;
    Append(calls, c);
    PlanHead(cfg, before + total, b[total..], c.offered);
    hide FragmentsOf, Offered, AllFull;
    if AllFull(calls + [c]) {
      var after := FragmentsOf(cfg, before + total + c.n, b[total + c.n..]);
      assert b[total..][c.n..] == b[total + c.n..];
      Assoc(Offered(calls), [c.offered], after);
    }
  }

  /** The first chunk of a plan, and the plan of the rest. */
  lemma PlanHead(cfg: Config, counted: nat, rest: seq<byte>, chunk: seq<byte>)
    requires rest != []
    requires chunk == if counted >= cfg.handshakeLen then rest else rest[..Min(FragmentSize(cfg), |rest|)]
    ensures |chunk| <= |rest|
    ensures FragmentsOf(cfg, counted, rest) == [chunk] + FragmentsOf(cfg, counted + |chunk|, rest[|chunk|..])
  {
  }

  /** The number of fragments needed for `x` bytes, rounded up. */
  function CeilDiv(x: int, f: nat): (k: nat)
    requires x >= 0 && f >= 1
    ensures k * f >= x && (k == 0 <==> x == 0) && (k > 0 ==> (k - 1) * f < x)
  {
    CeilDivSteps(x, f);
    (x + f - 1) / f
  }

  lemma CeilDivSteps(x: int, f: nat)
    requires x >= 0 && f >= 1
    ensures var k := (x + f - 1) / f;
      k >= 0 && k * f >= x && (k == 0 <==> x == 0) && (k > 0 ==> (k - 1) * f < x)
  {
    var k := (x + f - 1) / f;
    assert x + f - 1 == k * f + (x + f - 1) % f;
    assert (k - 1) * f == k * f - f;
    if k < 0 {
      ProductAtMost(k, -1, f);
    } else if k > 0 {
      ProductAtMost(1, k, f);
    }
  }

  lemma ProductAtMost(a: int, b: int, f: nat)
    requires a <= b
    ensures a * f <= b * f
  {
  }

  lemma CeilDivUnique(x: int, f: nat, k: nat)
    requires x >= 0 && f >= 1 && k * f >= x && (k > 0 ==> (k - 1) * f < x)
    ensures CeilDiv(x, f) == k
  {
    var c := CeilDiv(x, f);
    if c < k {
      ProductAtMost(c, k - 1, f);
    } else if k < c {
      ProductAtMost(k, c - 1, f);
    }
  }

  /** Dropping one fragment. */
  lemma CeilDivDrop(x: int, f: nat)
    requires x > 0 && f >= 1
    ensures x <= f ==> CeilDiv(x, f) == 1
    ensures x > f ==> CeilDiv(x, f) == 1 + CeilDiv(x - f, f)
  {
    if x <= f {
      CeilDivUnique(x, f, 1);
    } else {
      var k := CeilDiv(x - f, f);
      assert (k + 1) * f == k * f + f;
      assert k > 0 ==> (k - 1) * f + f == k * f;
      CeilDivUnique(x, f, k + 1);
    }
  }

  /** Where the `k`th fragment starts. */
  function Start(f: nat, k: nat): nat { k * f }

  /** The `i`th fragment of the payload. */
  function Fragment(f: nat, b: seq<byte>, i: nat): seq<byte>
  {
    if Start(f, i) <= |b| then b[Start(f, i)..Min(Start(f, i) + f, |b|)] else []
  }

  /** `K` nonempty fragments, and the rest in one piece when there is any. */
  predicate FragmentsAndTail(plan: seq<seq<byte>>, f: nat, b: seq<byte>, K: nat)
  {
    var stop := Start(f, K);
    && |plan| == K + (if |b| > stop then 1 else 0)
    && (forall i :: 0 <= i < K ==> plan[i] == Fragment(f, b, i) && plan[i] != [])
    && (|b| > stop ==> plan[K] == b[stop..])
  }

  lemma FragmentOfRest(f: nat, b: seq<byte>, i: nat)
    requires 1 <= i && 1 <= f <= |b|
    ensures Fragment(f, b, i) == Fragment(f, b[f..], i - 1)
    ensures Start(f, i) == Start(f, i - 1) + f
  {
    assert (i - 1) * f + f == i * f;
  }

  /** The shape of the whole from the shape of the rest. */
  lemma OneMoreFragment(f: nat, b: seq<byte>, plan: seq<seq<byte>>, K: nat)
    requires 1 <= f < |b| && K >= 1 && FragmentsAndTail(plan, f, b[f..], K - 1)
    ensures FragmentsAndTail([b[..f]] + plan, f, b, K)
  {
    var whole := [b[..f]] + plan;
    FragmentOfRest(f, b, K);
    forall i | 0 <= i < K
      ensures whole[i] == Fragment(f, b, i) && whole[i] != []
    {
      if i > 0 {
        FragmentOfRest(f, b, i);
        assert whole[i] == plan[i - 1];
      }
    }
  }

  lemma OneFragment(f: nat, limit: int, w: nat, b: seq<byte>)
    requires f >= 1 && w < limit && b != [] && (|b| <= f || limit - w <= f)
    ensures FragmentsAndTail(FragmentPlan(f, limit, w, b), f, b, 1) && Start(f, 1) == f
  {
    var size := Min(f, |b|);
    assert FragmentPlan(f, limit, w, b) == [b[..size]] + FragmentPlan(f, limit, w + size, b[size..]);
    assert Fragment(f, b, 0) == b[..size];
  }

  /** Exact segment arithmetic: with `w` bytes counted and `R` bytes of handshake left, a
      payload of length L goes out as K = ceil(min(L, R) / f) fragments of `f` bytes, the
      last of which may be the short end of the payload, and one tail exactly when L > K * f.
      When the payload outlasts the handshake, the fragments end less than `f` bytes past it. */
  lemma {:induction false} FragmentArithmetic(f: nat, limit: int, w: nat, b: seq<byte>)
    requires f >= 1 && w < limit
    ensures var L, R := |b|, limit - w;
      var K := CeilDiv(if L <= R then L else R, f);
      && FragmentsAndTail(FragmentPlan(f, limit, w, b), f, b, K)
      && (L >= R ==> limit <= w + Min(Start(f, K), L) <= limit + f - 1)
    decreases |b|
  {
    var L, R := |b|, limit - w;
    var K := CeilDiv(if L <= R then L else R, f);
    var plan := FragmentPlan(f, limit, w, b);
    if b != [] {
      CeilDivDrop(if L <= R then L else R, f);
      if L <= f || R <= f {
        OneFragment(f, limit, w, b);
      } else {
        FragmentArithmetic(f, limit, w + f, b[f..]);
        OneMoreFragment(f, b, FragmentPlan(f, limit, w + f, b[f..]), K);
        FragmentOfRest(f, b, K);
      }
    }
  }

  // ---------------------------------------------------------------------------------------
  // The delays of a Write when everything offered is accepted

  /** A fragmenting Write pauses when payload and handshake both go on. */
  function PauseAt(limit: int, counted: nat, rest: seq<byte>): nat
  {
    if rest != [] && counted < limit then 1 else 0
  }

  /** The delays drawn between the fragments of a payload. */
  function FragmentDraws(f: nat, limit: int, counted: nat, b: seq<byte>): nat
    requires f >= 1
    decreases |b|
  {
    if b == [] || counted >= limit then 0
    else
      var size := Min(f, |b|);
      PauseAt(limit, counted + size, b[size..]) + FragmentDraws(f, limit, counted + size, b[size..])
  }

  function DrawsOf(cfg: Config, counted: nat, b: seq<byte>): nat
  {
    FragmentDraws(FragmentSize(cfg), cfg.handshakeLen, counted, b)
  }

  /** The delays of one Write in either mode. */
  function Draws(cfg: Config, counted: nat, b: seq<byte>): nat
  {
    if counted >= cfg.handshakeLen then 0
    else if |cfg.sni| > 0 then if CutOf(cfg, b) < |b| then 1 else 0
    else DrawsOf(cfg, counted, b)
  }

  /** A fragmenting Write of `b` that has got to `total` has drawn `drawn` delays. */
  ghost predicate Pacing(cfg: Config, calls: seq<InnerCall>, b: seq<byte>, before: nat, total: nat, drawn: nat)
  {
    && total <= |b|
    && (AllFull(calls) ==> drawn + DrawsOf(cfg, before + total, b[total..]) == DrawsOf(cfg, before, b))
  }

  lemma PacingStarts(cfg: Config, b: seq<byte>, before: nat)
    ensures Pacing(cfg, [], b, before, 0, 0)
  {
    assert b[0..] == b;
  }

  /** One more fragment, and the pause that follows it, if any. */
  lemma PacingStep(cfg: Config, calls: seq<InnerCall>, b: seq<byte>, before: nat, total: nat, drawn: nat, c: InnerCall)
    requires total < |b| && Pacing(cfg, calls, b, before, total, drawn) && before + total < cfg.handshakeLen
    requires c.offered == b[total..Min(total + FragmentSize(cfg), |b|)]
    ensures total + c.n <= |b|
    ensures var pause := PauseAt(cfg.handshakeLen, before + total + c.n, b[total + c.n..]);
      Pacing(cfg, calls + [c], b, before, total + c.n, drawn + pause)
    ensures !Moved(c.n, c.err) ==> !AllFull(calls + [c])
  {
    Append(calls, c);
    if c.n == |c.offered| {
      assert b[total..][c.n..] == b[total + c.n..];
    }
  }

  /** Nothing is drawn past the end or past the handshake. */
  lemma PacingEnds(cfg: Config, calls: seq<InnerCall>, more: seq<InnerCall>, b: seq<byte>,
                   before: nat, total: nat, drawn: nat)
    requires Pacing(cfg, calls, b, before, total, drawn) && (total == |b| || before + total >= cfg.handshakeLen)
    ensures AllFull(calls + more) ==> drawn == DrawsOf(cfg, before, b)
  {
    Join(calls, more);
  }

  /** One delay fewer than there are fragments. */
  lemma {:induction false} DrawArithmetic(f: nat, limit: int, w: nat, b: seq<byte>)
    requires f >= 1 && w < limit && b != []
    ensures FragmentDraws(f, limit, w, b) == CeilDiv(if |b| <= limit - w then |b| else limit - w, f) - 1
    decreases |b|
  {
    var L, R := |b|, limit - w;
    CeilDivDrop(if L <= R then L else R, f);
    if L > f && R > f {
      DrawArithmetic(f, limit, w + f, b[f..]);
    }
  }

  /** The chunks of a Write are its payload, cut up. */
  lemma {:induction false} FragmentsJoin(f: nat, limit: int, counted: nat, b: seq<byte>)
    requires f >= 1
    ensures Concat(FragmentPlan(f, limit, counted, b)) == b
    decreases |b|
  {
    if b == [] {
    } else if counted >= limit {
      assert Concat([b]) == Concat([]) + b;
    } else {
      var size := Min(f, |b|);
      var rest := FragmentPlan(f, limit, counted + size, b[size..]);
      FragmentsJoin(f, limit, counted + size, b[size..]);
      ConcatAppend([b[..size]], rest);
      assert Concat([b[..size]]) == Concat([]) + b[..size];
    }
  }

  lemma PlanJoins(cfg: Config, counted: nat, b: seq<byte>)
    ensures Concat(Plan(cfg, counted, b)) == b
  {
    if counted >= cfg.handshakeLen {
      assert Concat([b]) == Concat([]) + b;
    } else if |cfg.sni| > 0 {
      var xs, ys := NonEmpty(b[..CutOf(cfg, b)]), NonEmpty(b[CutOf(cfg, b)..]);
      ConcatAppend(xs, ys);
      assert Concat(xs) == b[..CutOf(cfg, b)] && Concat(ys) == b[CutOf(cfg, b)..] by {
        assert forall x: seq<byte> :: Concat([x]) == Concat([]) + x;
      }
    } else {
      FragmentsJoin(FragmentSize(cfg), cfg.handshakeLen, counted, b);
    }
  }

  ghost predicate SomeChunkHas(chunks: seq<seq<byte>>, name: seq<byte>)
  {
    exists k :: 0 <= k < |chunks| && Contains(chunks[k], name)
  }

  // ---------------------------------------------------------------------------------------
  // In terms of the configuration

  /** Without a name: fragments of the configured size, or of two bytes if that is not
      positive, as many as cover the rest of the handshake, and one tail; one delay fewer. */
  lemma ConfiguredFragments(cfg: Config, counted: nat, b: seq<byte>)
    requires cfg.sni == [] && counted < cfg.handshakeLen
    ensures var f := if cfg.fragmentSize > 0 then cfg.fragmentSize else 2;
      var K := CeilDiv(if |b| <= cfg.handshakeLen - counted then |b| else cfg.handshakeLen - counted, f);
      && FragmentsAndTail(Plan(cfg, counted, b), f, b, K)
      && Draws(cfg, counted, b) == if b == [] then 0 else K - 1
  {
    FragmentArithmetic(FragmentSize(cfg), cfg.handshakeLen, counted, b);
    if b != [] {
      DrawArithmetic(FragmentSize(cfg), cfg.handshakeLen, counted, b);
    }
  }

  /** The configured default of two bytes and 2048 bytes of handshake, on a fresh connection. */
  lemma DefaultFragments(b: seq<byte>, k: nat)
    requires |b| == 100 && k < 50
    ensures var plan := Plan(Config(2, 2048, 0, []), 0, b);
      |plan| == 50 && plan[k] == b[2 * k..2 * k + 2]
  {
    var cfg := Config(2, 2048, 0, []);
    ConfiguredFragments(cfg, 0, b);
    CeilDivUnique(100, 2, 50);
    assert Start(2, k) == 2 * k && Start(2, 50) == 100;
    assert Plan(cfg, 0, b)[k] == Fragment(2, b, k);
  }

  /** With a name of two bytes or more that occurs first at `i`: two parts, the first ending
      in the first half of the name, rounded down, the second starting with the rest of it. */
  lemma SplitInTheMiddle(cfg: Config, counted: nat, b: seq<byte>, i: nat)
    requires |cfg.sni| >= 2 && counted < cfg.handshakeLen
    requires OccursAt(b, cfg.sni, i) && forall j :: 0 <= j < i ==> !OccursAt(b, cfg.sni, j)
    ensures var half := |cfg.sni| / 2;
      && i + |cfg.sni| <= |b|
      && Plan(cfg, counted, b) == [b[..i + half], b[i + half..]] && Draws(cfg, counted, b) == 1
      && b[i..i + half] == cfg.sni[..half] && b[i + half..i + |cfg.sni|] == cfg.sni[half..]
  {
    assert Index(b, cfg.sni) == i;
  }

  /** Without an occurrence of the name: the payload whole, and no delay. */
  lemma NoSplitWithoutName(cfg: Config, counted: nat, b: seq<byte>)
    requires cfg.sni != [] && counted < cfg.handshakeLen && b != [] && !Contains(b, cfg.sni)
    ensures Plan(cfg, counted, b) == [b] && Draws(cfg, counted, b) == 0
  {
    assert CutOf(cfg, b) == |b| && b[..|b|] == b;
  }
}
