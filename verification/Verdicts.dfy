/** The verdict run: collect the findings of the lab flows, sort them, decide. */
module Verdicts {
  import opened Bytes
  import opened Orders
  import opened Flows

  // ---------------------------------------------------------------------------------------
  // What the run should find, without any iteration order

  ghost function LabFlows(all: seq<Flow>, wireA: string, wireB: string, port: int): seq<Flow>
  {
    if all == [] then []
    else
      var last := all[|all| - 1];
      LabFlows(all[..|all| - 1], wireA, wireB, port) + if OnLabWire(last, wireA, wireB, port) then [last] else []
  }

  /** Which flows are kept, and how often: TCP flows with the lab port at one end and the two
      wire addresses at the two ends, in either direction. */
  lemma {:induction false} KeptExactly(all: seq<Flow>, wireA: string, wireB: string, port: int, f: Flow)
    ensures var onWire := f.l4 == "TCP" && (f.srcPort == port || f.dstPort == port) &&
                          multiset{f.srcIP, f.dstIP} == multiset{wireA, wireB};
      && multiset(LabFlows(all, wireA, wireB, port))[f] == (if onWire then multiset(all)[f] else 0)
      && (f in LabFlows(all, wireA, wireB, port) <==> f in all && onWire)
  {
    EndsEitherWay(f.srcIP, f.dstIP, wireA, wireB);
    if all != [] {
      var init, last := all[..|all| - 1], all[|all| - 1];
      KeptExactly(init, wireA, wireB, port, f);
      assert all == init + [last];
    }
  }

  lemma EndsEitherWay(src: string, dst: string, wireA: string, wireB: string)
    ensures multiset{src, dst} == multiset{wireA, wireB} <==>
            (src == wireA && dst == wireB) || (src == wireB && dst == wireA)
  {
    if multiset{src, dst} == multiset{wireA, wireB} {
      assert src in multiset{wireA, wireB};
      var rest := multiset{src, dst} - multiset{src};
      assert rest == multiset{dst};
      if src == wireA {
        assert multiset{wireA, wireB} - multiset{src} == multiset{wireB};
      } else {
        assert multiset{wireA, wireB} - multiset{src} == multiset{wireA};
      }
      assert dst in rest;
    }
  }

  lemma OneMoreFlowKept(all: seq<Flow>, f: Flow, wireA: string, wireB: string, port: int)
    ensures LabFlows(all + [f], wireA, wireB, port) ==
            LabFlows(all, wireA, wireB, port) + if OnLabWire(f, wireA, wireB, port) then [f] else []
  {
    assert (all + [f])[..|all|] == all;
  }

  /** The flows keep their order. */
  lemma {:induction false} KeptInOrder(xs: seq<Flow>, ys: seq<Flow>, wireA: string, wireB: string, port: int)
    ensures LabFlows(xs + ys, wireA, wireB, port) == LabFlows(xs, wireA, wireB, port) + LabFlows(ys, wireA, wireB, port)
  {
    if ys == [] {
      assert xs + ys == xs;
    } else {
      hide LabFlows, OnLabWire;
      var init, last := ys[..|ys| - 1], ys[|ys| - 1];
      KeptInOrder(xs, init, wireA, wireB, port);
      OneMoreFlowKept(xs + init, last, wireA, wireB, port);
      OneMoreFlowKept(init, last, wireA, wireB, port);
      assert (xs + init) + [last] == xs + ys && init + [last] == ys;
    }
  }

  /** The two ends of the wire are alike. */
  lemma {:induction false} WiresSwapped(all: seq<Flow>, wireA: string, wireB: string, port: int)
    ensures LabFlows(all, wireA, wireB, port) == LabFlows(all, wireB, wireA, port)
  {
    if all != [] {
      WiresSwapped(all[..|all| - 1], wireA, wireB, port);
    }
  }

  /** The handshakes of any flows are their SYNs, added up. */
  lemma {:induction false} HandshakesAddUp(xs: seq<Flow>, ys: seq<Flow>, f: Flow)
    ensures Handshakes([]) == 0 && Handshakes([f]) == f.syns
    ensures Handshakes(xs + ys) == Handshakes(xs) + Handshakes(ys)
  {
    assert [f][..0] == [];
    if ys == [] {
      assert xs + ys == xs;
    } else {
      HandshakesAddUp(xs, ys[..|ys| - 1], f);
      assert (xs + ys)[..|xs + ys| - 1] == xs + ys[..|ys| - 1];
    }
  }

  ghost function Handshakes(flows: seq<Flow>): int
  {
    if flows == [] then 0 else Handshakes(flows[..|flows| - 1]) + flows[|flows| - 1].syns
  }

  /** The check on one condition: a line of text when it fails. */
  function Failing(render: Render, ok: bool, finding: Finding): seq<string>
  {
    if ok then [] else [render(finding)]
  }

  /** The failure one risk id gives, if any: a tell, or a risk in neither table. */
  function RiskFailure(render: Render, index: nat, f: Flow): string -> seq<string>
  {
    (id: string) =>
      if IsTell(id) then [render(TellRisk(TagOf(index, f), id, RiskText(f, id)))]
      else if IsDeployment(id) then []
      else [render(UntriagedRisk(TagOf(index, f), id, RiskText(f, id)))]
  }

  function NoteLine(render: Render, index: nat, f: Flow, id: string): string
  {
    render(AllowedRisk(TagOf(index, f), id, RiskText(f, id)))
  }

  /** The note one risk id gives, if any. */
  function RiskNote(render: Render, index: nat, f: Flow): string -> seq<string>
  {
    (id: string) =>
      if IsTell(id) || !IsDeployment(id) then [] else [NoteLine(render, index, f, id)]
  }

  ghost predicate ByDPI(f: Flow) { Contains(Confidence(f.confidence), "DPI") }

  ghost function FlowFailures(render: Render, index: nat, f: Flow): seq<string>
  {
    FailuresOf(render, index, f, SomeOrder(f.risks.Keys))
  }

  ghost function FlowNotes(render: Render, index: nat, f: Flow): seq<string>
  {
    Emitted(SomeOrder(f.risks.Keys), RiskNote(render, index, f))
  }

  ghost function AllFlowFailures(render: Render, flows: seq<Flow>): seq<string>
  {
    if flows == [] then []
    else
      AllFlowFailures(render, flows[..|flows| - 1]) + FlowFailures(render, |flows| - 1, flows[|flows| - 1])
  }

  ghost function AllFlowNotes(render: Render, flows: seq<Flow>): seq<string>
  {
    if flows == [] then []
    else AllFlowNotes(render, flows[..|flows| - 1]) + FlowNotes(render, |flows| - 1, flows[|flows| - 1])
  }

  ghost function CountFailures(render: Render, flows: seq<Flow>, minFlows: int, minHandshakes: int): seq<string>
  {
    Failing(render, |flows| >= minFlows, TooFewFlows(minFlows, |flows|)) +
    Failing(render, Handshakes(flows) >= minHandshakes, TooFewHandshakes(minHandshakes, Handshakes(flows)))
  }

  /** A log that was given but shows no browser. */
  function LabelFailure(render: Render, log: Log): seq<string>
  {
    Failing(render, !log.Label? || log.text != "", NoBrowserLabel)
  }

  /** The findings, sorted. */
  ghost function Findings(render: Render, flows: seq<Flow>, minFlows: int, minHandshakes: int, log: Log): seq<string>
  {
    Sort(CountFailures(render, flows, minFlows, minHandshakes) +
         AllFlowFailures(render, flows) + LabelFailure(render, log))
  }

  // ---------------------------------------------------------------------------------------
  // What an empty list of findings means

  ghost predicate FlowLooksLikeBrowsing(f: Flow)
  {
    && MasterProto(f) == "TLS"
    && SomeValueHas(f.confidence, "DPI")
    && forall id :: id in f.risks ==> !IsTell(id) && IsDeployment(id)
  }

  ghost predicate LooksLikeBrowsing(flows: seq<Flow>, minFlows: int, minHandshakes: int, log: Log)
  {
    && |flows| >= minFlows && Handshakes(flows) >= minHandshakes
    && (forall f :: f in flows ==> FlowLooksLikeBrowsing(f))
    && (log.Label? ==> log.text != "")
  }

  lemma ConfidenceNeedsDPI(f: Flow)
    ensures ByDPI(f) <==> SomeValueHas(f.confidence, "DPI")
  {
    assert !Contains("none", "DPI") by {
      forall i
        ensures !OccursAt("none", "DPI", i)
      {
        if 0 <= i <= 1 {
          assert "none"[i..i + 3][0] == "none"[i] != 'D' == "DPI"[0];
        }
      }
    }
    ConfidenceHas(f.confidence, "DPI");
  }

  lemma {:induction false} NothingEmitted<K, T>(order: seq<K>, emit: K -> seq<T>)
    ensures Emitted(order, emit) == [] <==> forall x :: x in order ==> emit(x) == []
  {
    if order != [] {
      var init, last := order[..|order| - 1], order[|order| - 1];
      NothingEmitted(init, emit);
      assert order == init + [last];
    }
  }

  lemma RisksHaveNoFailures(render: Render, index: nat, f: Flow)
    ensures Emitted(SomeOrder(f.risks.Keys), RiskFailure(render, index, f)) == [] <==>
            forall id :: id in f.risks ==> !IsTell(id) && IsDeployment(id)
  {
    hide IsTell, IsDeployment, Emitted;
    var order, emit := SomeOrder(f.risks.Keys), RiskFailure(render, index, f);
    NothingEmitted(order, emit);
    assert forall id :: id in order <==> id in multiset(order);
    assert forall id :: id in f.risks <==> id in order;
    assert forall id :: emit(id) == [] <==> !IsTell(id) && IsDeployment(id);
  }

  lemma FlowHasNoFailures(render: Render, index: nat, f: Flow)
    ensures FlowFailures(render, index, f) == [] <==> FlowLooksLikeBrowsing(f)
  {
    hide IsTell, IsDeployment, Emitted, RiskFailure, Contains, Confidence, SomeValueHas, MasterProto;
    RisksHaveNoFailures(render, index, f);
    ConfidenceNeedsDPI(f);
  }

  lemma {:induction false} FlowsHaveNoFailures(render: Render, flows: seq<Flow>)
    ensures AllFlowFailures(render, flows) == [] <==> forall f :: f in flows ==> FlowLooksLikeBrowsing(f)
  {
    hide FlowFailures, FlowLooksLikeBrowsing;
    if flows != [] {
      var init, last := flows[..|flows| - 1], flows[|flows| - 1];
      FlowsHaveNoFailures(render, init);
      FlowHasNoFailures(render, |flows| - 1, last);
      assert flows == init + [last];
    }
  }

  /** There is nothing to report exactly when flows and handshakes suffice, every lab flow is
      TLS by DPI with no risk outside the deployment table, and the log, if given, names a
      browser. */
  lemma NoFindingsExactly(render: Render, flows: seq<Flow>, minFlows: int, minHandshakes: int, log: Log)
    ensures Findings(render, flows, minFlows, minHandshakes, log) == [] <==>
            LooksLikeBrowsing(flows, minFlows, minHandshakes, log)
  {
    FlowsHaveNoFailures(render, flows);
    var lines := CountFailures(render, flows, minFlows, minHandshakes) +
      AllFlowFailures(render, flows) + LabelFailure(render, log);
    assert |Sort(lines)| == |multiset(Sort(lines))| == |multiset(lines)| == |lines|;
  }

  /** The outcome the findings and the expectation call for. */
  function Decide(findings: nat, wanted: string): Outcome
  {
    if wanted == "browsing" then if findings > 0 then Distinguishable(findings) else Success
    else if wanted == "not-browsing" then if findings == 0 then ControlLooksLikeBrowsing else Success
    else UnknownExpect(wanted)
  }

  class Verdict {
    const render: Render
    var flows: seq<Flow>
    var fails: seq<string>
    var notes: seq<string>

    constructor (render: Render)
      ensures this.render == render && flows == [] && fails == [] && notes == []
    {
      this.render := render;
      flows, fails, notes := [], [], [];
    }

    method Check(ok: bool, failure: Finding)
      modifies this`fails
      ensures fails == old(fails) + Failing(render, ok, failure)
    {
      if !ok {
        fails := fails + [render(failure)];
      }
    }

    method Note(note: Finding)
      modifies this`notes
      ensures notes == old(notes) + [render(note)]
    {
      notes := notes + [render(note)];
    }

    method Report(wanted: string) returns (outcome: Outcome)
      modifies this`fails
      ensures fails == Sort(old(fails)) && outcome == Decide(|fails|, wanted)
    {
      fails := Sort(fails);
      if wanted == "browsing" {
        if |fails| > 0 {
          return Distinguishable(|fails|);
        }
        return Success;
      } else if wanted == "not-browsing" {
        if |fails| == 0 {
          return ControlLooksLikeBrowsing;
        }
        return Success;
      }
      return UnknownExpect(wanted);
    }

    /** The loop over the risks of one flow, in whatever order the map yields them. */
    method CheckRisks(index: nat, f: Flow) returns (ghost order: seq<string>)
      modifies this`fails, this`notes
      ensures Enumerates(order, f.risks.Keys)
      ensures fails == old(fails) + Emitted(order, RiskFailure(render, index, f))
      ensures notes == old(notes) + Emitted(order, RiskNote(render, index, f))
    {
      hide Emitted, IsTell, IsDeployment;
      EmittedNothing<string, string>(RiskFailure(render, index, f));
      EmittedNothing<string, string>(RiskNote(render, index, f));
      order := [];
      var left := f.risks.Keys;
      while left != {}
        invariant left <= f.risks.Keys && Enumerates(order, f.risks.Keys - left)
        invariant fails == old(fails) + Emitted(order, RiskFailure(render, index, f))
        invariant notes == old(notes) + Emitted(order, RiskNote(render, index, f))
        decreases left
      {
        var id :| id in left;
        if IsTell(id) {
          Check(false, TellRisk(TagOf(index, f), id, RiskText(f, id)));
        } else if IsDeployment(id) {
          Note(AllowedRisk(TagOf(index, f), id, RiskText(f, id)));
        } else {
          Check(false, UntriagedRisk(TagOf(index, f), id, RiskText(f, id)));
        }
        EmittedAppend(order, id, RiskFailure(render, index, f));
        EmittedAppend(order, id, RiskNote(render, index, f));
        EnumeratesOneMore(order, f.risks.Keys, left, id);
        left, order := left - {id}, order + [id];
      }
      AllEnumerated(order, f.risks.Keys);
    }

    /** The three checks of one flow. */
    method CheckFlow(index: nat, f: Flow) returns (ghost order: seq<string>)
      modifies this`fails, this`notes
      ensures Enumerates(order, f.risks.Keys)
      ensures fails == old(fails) + FailuresOf(render, index, f, order)
      ensures notes == old(notes) + Emitted(order, RiskNote(render, index, f))
    {
      hide Emitted, RiskFailure, RiskNote, Failing, Confidence, Enumerates;
      Check(MasterProto(f) == "TLS", NotTLS(TagOf(index, f), f.proto));
      var confidence := ConfidenceOf(f);
      Check(Index(confidence, "DPI") >= 0, NotByDPI(TagOf(index, f), f.proto, confidence));
      order := CheckRisks(index, f);
    }

    method CheckFlows()
      modifies this`fails, this`notes
      ensures multiset(fails) == multiset(old(fails)) + multiset(AllFlowFailures(render, flows))
      ensures multiset(notes) == multiset(old(notes)) + multiset(AllFlowNotes(render, flows))
    {
      hide FlowFailures, FlowNotes, FailuresOf, Emitted, Enumerates;
      for i := 0 to |flows|
        invariant multiset(fails) == multiset(old(fails)) + multiset(AllFlowFailures(render, flows[..i]))
        invariant multiset(notes) == multiset(old(notes)) + multiset(AllFlowNotes(render, flows[..i]))
      {
        OneMoreFlow(render, flows, i);
        ghost var failsBefore, notesBefore := fails, notes;
        ghost var order := CheckFlow(i, flows[i]);
        FailuresAlong(render, i, flows[i], order);
        Accumulate(failsBefore, FailuresOf(render, i, flows[i], order), FlowFailures(render, i, flows[i]),
                   old(fails), AllFlowFailures(render, flows[..i]));
        Accumulate(notesBefore, Emitted(order, RiskNote(render, i, flows[i])), FlowNotes(render, i, flows[i]),
                   old(notes), AllFlowNotes(render, flows[..i]));
      }
      assert flows[..|flows|] == flows;
    }

    /** Keep the flows of the lab wire. */
    method Select(all: seq<Flow>, wireA: string, wireB: string, port: int)
      requires flows == []
      modifies this`flows
      ensures flows == LabFlows(all, wireA, wireB, port)
    {
      hide OnLabWire;
      for k := 0 to |all|
        invariant flows == LabFlows(all[..k], wireA, wireB, port)
      {
        assert all[..k + 1][..k] == all[..k];
        if OnLabWire(all[k], wireA, wireB, port) {
          flows := flows + [all[k]];
        }
      }
      assert all[..|all|] == all;
    }

    method CountHandshakes() returns (handshakes: int)
      ensures handshakes == Handshakes(flows)
    {
      handshakes := 0;
      for k := 0 to |flows|
        invariant handshakes == Handshakes(flows[..k])
      {
        assert flows[..k + 1][..k] == flows[..k];
        handshakes := handshakes + flows[k].syns;
      }
      assert flows[..|flows|] == flows;
    }

    /** The checks on the number of flows and of handshakes. */
    method CheckCounts(minFlows: int, minHandshakes: int)
      modifies this`fails
      ensures fails == old(fails) + CountFailures(render, flows, minFlows, minHandshakes)
    {
      hide Failing;
      Check(|flows| >= minFlows, TooFewFlows(minFlows, |flows|));
      var handshakes := CountHandshakes();
      Check(handshakes >= minHandshakes, TooFewHandshakes(minHandshakes, handshakes));
    }

    /** The verdict part of the run, on decoded flows and the label found in the log. */
    method RunVerify(all: seq<Flow>, wireA: string, wireB: string, port: int,
                     minFlows: int, minHandshakes: int, log: Log, wanted: string) returns (outcome: Outcome)
      requires flows == [] && fails == [] && notes == []
      modifies this
      ensures flows == LabFlows(all, wireA, wireB, port)
      ensures forall f :: f in flows <==>
        f in all && f.l4 == "TCP" && (f.srcPort == port || f.dstPort == port) &&
        multiset{f.srcIP, f.dstIP} == multiset{wireA, wireB}
      ensures multiset(notes) == multiset(AllFlowNotes(render, flows))
      ensures log.Unreadable? ==> outcome == LogError
      ensures !log.Unreadable? ==>
        && fails == Findings(render, flows, minFlows, minHandshakes, log)
        && outcome == Decide(|fails|, wanted)
    {
      hide LabFlows, CountFailures, Failing, AllFlowFailures, AllFlowNotes, Decide, Sort, LabelFailure, Findings;
      Select(all, wireA, wireB, port);
      forall f: Flow {
        KeptExactly(all, wireA, wireB, port, f);
      }
      CheckCounts(minFlows, minHandshakes);
      CheckFlows();
      ghost var lines := fails;
      if log.Unreadable? {
        return LogError;
      }
      if log.Label? {
        Check(log.text != "", NoBrowserLabel);
      }
      LabelAdded(render, log);
      assert fails == lines + LabelFailure(render, log);
      AllFound(render, flows, minFlows, minHandshakes, log, lines);
      outcome := Report(wanted);
    }
  }

  lemma Accumulate(lines: seq<string>, found: seq<string>, more: seq<string>, start: seq<string>, sofar: seq<string>)
    requires multiset(lines) == multiset(start) + multiset(sofar) && multiset(found) == multiset(more)
    ensures multiset(lines + found) == multiset(start) + multiset(sofar + more)
  {
  }

  /** The lines collected before the log was looked at, in any order, give the findings. */
  lemma AllFound(render: Render, flows: seq<Flow>, minFlows: int, minHandshakes: int, log: Log,
                 lines: seq<string>)
    requires multiset(lines) ==
             multiset(CountFailures(render, flows, minFlows, minHandshakes)) + multiset(AllFlowFailures(render, flows))
    ensures Sort(lines + LabelFailure(render, log)) == Findings(render, flows, minFlows, minHandshakes, log)
  {
    hide CountFailures, AllFlowFailures, LabelFailure, Sort;
    SortPermuted(
      lines + LabelFailure(render, log),
      CountFailures(render, flows, minFlows, minHandshakes) + AllFlowFailures(render, flows) +
      LabelFailure(render, log));
  }

  lemma LabelAdded(render: Render, log: Log)
    ensures log.Label? ==> LabelFailure(render, log) == Failing(render, log.text != "", NoBrowserLabel)
    ensures !log.Label? ==> LabelFailure(render, log) == []
  {
  }

  lemma OneMoreFlow(render: Render, flows: seq<Flow>, i: nat)
    requires i < |flows|
    ensures AllFlowFailures(render, flows[..i + 1]) ==
            AllFlowFailures(render, flows[..i]) + FlowFailures(render, i, flows[i])
    ensures AllFlowNotes(render, flows[..i + 1]) == AllFlowNotes(render, flows[..i]) + FlowNotes(render, i, flows[i])
  {
    assert flows[..i + 1][..i] == flows[..i];
  }

  /** The failures of one flow for one order of its risks. */
  ghost function FailuresOf(render: Render, index: nat, f: Flow, order: seq<string>): seq<string>
  {
    Failing(render, MasterProto(f) == "TLS", NotTLS(TagOf(index, f), f.proto)) +
    Failing(render, ByDPI(f), NotByDPI(TagOf(index, f), f.proto, Confidence(f.confidence))) +
    Emitted(order, RiskFailure(render, index, f))
  }

  lemma FailuresAlong(render: Render, index: nat, f: Flow, order: seq<string>)
    requires Enumerates(order, f.risks.Keys)
    ensures multiset(FailuresOf(render, index, f, order)) == multiset(FlowFailures(render, index, f))
    ensures multiset(Emitted(order, RiskNote(render, index, f))) == multiset(FlowNotes(render, index, f))
  {
    hide Emitted, RiskFailure, RiskNote, ByDPI, MasterProto;
    EmittedPermuted(order, SomeOrder(f.risks.Keys), RiskFailure(render, index, f));
    EmittedPermuted(order, SomeOrder(f.risks.Keys), RiskNote(render, index, f));
  }

  // ---------------------------------------------------------------------------------------
  // Main results about the outcome

  /** The two arms on the same readable input: one succeeds exactly when the flows look like
      browsing, the other exactly when they do not, and no third expectation ever succeeds. */
  lemma ArmsAreComplementary(render: Render, flows: seq<Flow>, minFlows: int, minHandshakes: int,
                             log: Log, wanted: string)
    ensures var n := |Findings(render, flows, minFlows, minHandshakes, log)|;
      && (Decide(n, "browsing") == Success <==> LooksLikeBrowsing(flows, minFlows, minHandshakes, log))
      && (Decide(n, "not-browsing") == Success <==> !LooksLikeBrowsing(flows, minFlows, minHandshakes, log))
      && (Decide(n, "browsing") == Success || Decide(n, "browsing") == Distinguishable(n))
      && (Decide(n, "not-browsing") == Success || Decide(n, "not-browsing") == ControlLooksLikeBrowsing)
      && (wanted != "browsing" && wanted != "not-browsing" ==> Decide(n, wanted) == UnknownExpect(wanted))
  {
    NoFindingsExactly(render, flows, minFlows, minHandshakes, log);
    var browsing, other := "browsing", "not-browsing";
    assert |browsing| != |other|;
  }

  /** The notes, unlike the findings, are not sorted: the notes of one flow come out the same
      for every order of its risk map exactly when all of them are the same line. */
  lemma NotesShowTheOrder(render: Render, index: nat, f: Flow)
    ensures OrderFree(f.risks.Keys, RiskNote(render, index, f)) <==>
      forall x, y :: x in f.risks && y in f.risks && IsDeployment(x) && IsDeployment(y) ==>
        NoteLine(render, index, f, x) == NoteLine(render, index, f, y)
  {
    hide IsTell, IsDeployment;
    var ids, emit := f.risks.Keys, RiskNote(render, index, f);
    TablesAreDisjoint();
    assert forall id :: IsDeployment(id) ==> emit(id) == [NoteLine(render, index, f, id)];
    assert forall id :: !IsDeployment(id) ==> emit(id) == [];
    OrderFreeExactly(ids, emit);
  }

  /** A note begins with the name of its flow, the risk's id and a space. */
  ghost predicate NamesTheRisk(render: Render, head: Tag -> string)
  {
    forall tag, id, text :: NoteHead(head, tag, id) <= render(AllowedRisk(tag, id, text))
  }

  function NoteHead(head: Tag -> string, tag: Tag, id: string): string
  {
    head(tag) + ": risk " + id + " "
  }

  /** Two lines with the same start tell their ids apart at the first space. */
  lemma SameLineSameId(line: string, start: string, x: string, y: string)
    requires start + x + " " <= line && start + y + " " <= line
    requires ' ' !in x && ' ' !in y && |x| <= |y|
    ensures x == y
  {
    var rest := line[|start|..];
    assert x == rest[..|x|] && rest[|x|] == ' ' && y == rest[..|y|];
    assert forall i :: 0 <= i < |y| ==> rest[i] == y[i] && y[i] in y;
  }

  lemma DeploymentHasNoSpace(id: string)
    requires IsDeployment(id)
    ensures ' ' !in id
  {
  }

  lemma NotesDiffer(render: Render, head: Tag -> string, index: nat, f: Flow, x: string, y: string)
    requires NamesTheRisk(render, head) && IsDeployment(x) && IsDeployment(y)
    requires NoteLine(render, index, f, x) == NoteLine(render, index, f, y)
    ensures x == y
  {
    DeploymentHasNoSpace(x);
    DeploymentHasNoSpace(y);
    hide IsDeployment;
    var line, start := NoteLine(render, index, f, x), head(TagOf(index, f)) + ": risk ";
    assert NoteHead(head, TagOf(index, f), x) <= line && NoteHead(head, TagOf(index, f), y) <= line;
    if |x| <= |y| {
      SameLineSameId(line, start, x, y);
    } else {
      SameLineSameId(line, start, y, x);
    }
  }

  /** With lines that name the risk, as the real ones do: the notes of a flow do not depend on
      the order of its risk map exactly when at most one of its risks is a deployment risk. */
  lemma NotesOrderFreeExactly(render: Render, head: Tag -> string, index: nat, f: Flow)
    requires NamesTheRisk(render, head)
    ensures OrderFree(f.risks.Keys, RiskNote(render, index, f)) <==>
      forall x, y :: x in f.risks && y in f.risks && IsDeployment(x) && IsDeployment(y) ==> x == y
  {
    hide IsDeployment, NamesTheRisk, NoteLine, OrderFree, RiskNote;
    NotesShowTheOrder(render, index, f);
    forall x, y | IsDeployment(x) && IsDeployment(y) && NoteLine(render, index, f, x) == NoteLine(render, index, f, y)
      ensures x == y
    {
      NotesDiffer(render, head, index, f, x, y);
    }
  }

  /** A flow on a relay port without DNS: its two notes come out in either order. */
  lemma NotesOutOfOrder(render: Render, head: Tag -> string)
    requires NamesTheRisk(render, head)
    ensures var f := Flow("10.0.0.1", "10.0.0.2", 4001, 4001, "TCP", 1, "TLS", map["6" := "DPI"],
        map["5" := "Known Proto on Non Std Port", "51" := "Unresolved hostname"]);
      !OrderFree(f.risks.Keys, RiskNote(render, 0, f))
  {
    var f := Flow("10.0.0.1", "10.0.0.2", 4001, 4001, "TCP", 1, "TLS", map["6" := "DPI"],
        map["5" := "Known Proto on Non Std Port", "51" := "Unresolved hostname"]);
    assert "5" in f.risks && "51" in f.risks && IsDeployment("5") && IsDeployment("51") && |"5"| != |"51"|;
    NotesOrderFreeExactly(render, head, 0, f);
  }

  /** No risk is both a tell and allowed, so the order of the two lookups does not matter. */
  lemma TablesAreDisjoint()
    ensures forall id :: IsDeployment(id) ==> !IsTell(id)
  {
  }

  /** A protocol name counts as TLS exactly when it is "TLS" or goes on with a dot. */
  lemma MasterIsTLS(f: Flow)
    ensures MasterProto(f) == "TLS" <==> f.proto == "TLS" || "TLS." <= f.proto
  {
    var p := f.proto;
    if |p| >= 3 {
      assert BeforeDot(p[1..]) == if p[1] == '.' then [] else [p[1]] + BeforeDot(p[1..][1..]);
      assert p[1..][1..] == p[2..] && p[2..][1..] == p[3..];
      assert BeforeDot(p[2..]) == if p[2] == '.' then [] else [p[2]] + BeforeDot(p[3..]);
      assert BeforeDot(p[3..]) == [] <==> |p| == 3 || p[3] == '.';
      assert p == p[..3] + p[3..];
    } else {
      BeforeDotShorter(p);
    }
  }

  lemma {:induction false} BeforeDotShorter(s: string)
    ensures |BeforeDot(s)| <= |s|
  {
    if s != [] {
      BeforeDotShorter(s[1..]);
    }
  }

  // ---------------------------------------------------------------------------------------
  // The findings, one by one

  /** The lines one flow gives rise to. */
  ghost predicate FlowGives(render: Render, index: nat, f: Flow, line: string)
  {
    var tag := Tag(index, f.srcIP, f.srcPort, f.dstIP, f.dstPort);
    || (!(f.proto == "TLS" || "TLS." <= f.proto) && line == render(NotTLS(tag, f.proto)))
    || (!SomeValueHas(f.confidence, "DPI") && line == render(NotByDPI(tag, f.proto, Confidence(f.confidence))))
    || (exists id :: RiskGives(render, tag, f, id, line))
  }

  /** The line one risk of a flow gives rise to. */
  predicate RiskGives(render: Render, tag: Tag, f: Flow, id: string, line: string)
  {
    && id in f.risks
    && if IsTell(id) then line == render(TellRisk(tag, id, f.risks[id]))
       else !IsDeployment(id) && line == render(UntriagedRisk(tag, id, f.risks[id]))
  }

  lemma {:induction false} EmittedMember<K, T>(order: seq<K>, emit: K -> seq<T>, v: T)
    ensures v in Emitted(order, emit) <==> exists x :: x in order && v in emit(x)
  {
    if order != [] {
      var init, last := order[..|order| - 1], order[|order| - 1];
      EmittedMember(init, emit, v);
      assert order == init + [last];
    }
  }

  lemma OneRiskGives(render: Render, index: nat, f: Flow, id: string, line: string)
    requires id in f.risks
    ensures line in RiskFailure(render, index, f)(id) <==> RiskGives(render, TagOf(index, f), f, id, line)
  {
    hide IsTell, IsDeployment;
    var emitted, tag := RiskFailure(render, index, f)(id), TagOf(index, f);
    assert RiskText(f, id) == f.risks[id];
    if IsTell(id) {
      assert emitted == [render(TellRisk(tag, id, RiskText(f, id)))];
    } else if IsDeployment(id) {
      assert emitted == [];
    } else {
      assert emitted == [render(UntriagedRisk(tag, id, RiskText(f, id)))];
    }
  }

  lemma RiskFailuresAre(render: Render, index: nat, f: Flow, line: string)
    ensures line in Emitted(SomeOrder(f.risks.Keys), RiskFailure(render, index, f)) <==>
            exists id :: RiskGives(render, TagOf(index, f), f, id, line)
  {
    var order, emit := SomeOrder(f.risks.Keys), RiskFailure(render, index, f);
    EmittedMember(order, emit, line);
    InOrder(f, order);
    forall id | id in f.risks
      ensures line in emit(id) <==> RiskGives(render, TagOf(index, f), f, id, line)
    {
      OneRiskGives(render, index, f, id, line);
    }
    assert forall id :: RiskGives(render, TagOf(index, f), f, id, line) ==> id in f.risks;
    hide RiskGives, Emitted, RiskFailure;
  }

  lemma InOrder(f: Flow, order: seq<string>)
    requires Enumerates(order, f.risks.Keys)
    ensures forall id :: id in order <==> id in f.risks
  {
    assert forall id :: id in order <==> id in multiset(order);
  }

  lemma FlowFailuresAre(render: Render, index: nat, f: Flow, line: string)
    ensures line in FlowFailures(render, index, f) <==> FlowGives(render, index, f, line)
  {
    hide IsTell, IsDeployment, Emitted, RiskFailure, BeforeDot, Contains, Confidence, SomeValueHas;
    RiskFailuresAre(render, index, f, line);
    MasterIsTLS(f);
    ConfidenceNeedsDPI(f);
  }

  lemma {:induction false} AllFailuresAre(render: Render, flows: seq<Flow>, line: string)
    ensures line in AllFlowFailures(render, flows) <==>
            exists i :: 0 <= i < |flows| && FlowGives(render, i, flows[i], line)
  {
    hide FlowGives, FlowFailures;
    if flows != [] {
      var init, last := flows[..|flows| - 1], flows[|flows| - 1];
      AllFailuresAre(render, init, line);
      FlowFailuresAre(render, |flows| - 1, last, line);
      assert forall i :: 0 <= i < |init| ==> init[i] == flows[i];
    }
  }

  /** Exactly which lines a run reports. */
  lemma FindingsAre(render: Render, flows: seq<Flow>, minFlows: int, minHandshakes: int, log: Log, line: string)
    ensures line in Findings(render, flows, minFlows, minHandshakes, log) <==>
      || (|flows| < minFlows && line == render(TooFewFlows(minFlows, |flows|)))
      || (Handshakes(flows) < minHandshakes && line == render(TooFewHandshakes(minHandshakes, Handshakes(flows))))
      || (exists i :: 0 <= i < |flows| && FlowGives(render, i, flows[i], line))
      || (log == Label("") && line == render(NoBrowserLabel))
  {
    hide FlowGives, AllFlowFailures, Sort;
    AllFailuresAre(render, flows, line);
    var lines := CountFailures(render, flows, minFlows, minHandshakes) +
      AllFlowFailures(render, flows) + LabelFailure(render, log);
    assert line in lines <==> line in multiset(lines);
    assert line in Sort(lines) <==> line in multiset(Sort(lines));
  }

  /** How many lines one flow gives rise to: one for each risk but the deployment ones. */
  ghost function LinesOf(f: Flow): nat
  {
    (if f.proto == "TLS" || "TLS." <= f.proto then 0 else 1) +
    (if SomeValueHas(f.confidence, "DPI") then 0 else 1) +
    |set id | id in f.risks && (IsTell(id) || !IsDeployment(id))|
  }

  ghost function LinesOfAll(flows: seq<Flow>): nat
  {
    if flows == [] then 0 else LinesOfAll(flows[..|flows| - 1]) + LinesOf(flows[|flows| - 1])
  }

  lemma RiskFailureCount(render: Render, index: nat, f: Flow)
    ensures |Emitted(SomeOrder(f.risks.Keys), RiskFailure(render, index, f))| ==
            |set id | id in f.risks && (IsTell(id) || !IsDeployment(id))|
  {
    hide IsTell, IsDeployment, Emitted;
    var emit := RiskFailure(render, index, f);
    EmittedCount(SomeOrder(f.risks.Keys), f.risks.Keys, emit);
    assert Emitters(f.risks.Keys, emit) == set id | id in f.risks && (IsTell(id) || !IsDeployment(id));
  }

  lemma FlowFailureCount(render: Render, index: nat, f: Flow)
    ensures |FlowFailures(render, index, f)| == LinesOf(f)
  {
    hide IsTell, IsDeployment, Emitted, RiskFailure, BeforeDot, Contains, Confidence, SomeValueHas;
    MasterIsTLS(f);
    ConfidenceNeedsDPI(f);
    RiskFailureCount(render, index, f);
  }

  lemma {:induction false} AllFailureCount(render: Render, flows: seq<Flow>)
    ensures |AllFlowFailures(render, flows)| == LinesOfAll(flows)
  {
    hide FlowFailures, LinesOf;
    if flows != [] {
      AllFailureCount(render, flows[..|flows| - 1]);
      FlowFailureCount(render, |flows| - 1, flows[|flows| - 1]);
    }
  }

  /** The number of findings the verdict names. */
  lemma FindingCount(render: Render, flows: seq<Flow>, minFlows: int, minHandshakes: int, log: Log)
    ensures |Findings(render, flows, minFlows, minHandshakes, log)| ==
      (if |flows| < minFlows then 1 else 0) + (if Handshakes(flows) < minHandshakes then 1 else 0) +
      LinesOfAll(flows) + (if log == Label("") then 1 else 0)
  {
    hide AllFlowFailures, Sort, LinesOfAll;
    AllFailureCount(render, flows);
    var lines := CountFailures(render, flows, minFlows, minHandshakes) +
      AllFlowFailures(render, flows) + LabelFailure(render, log);
    assert |Sort(lines)| == |multiset(Sort(lines))| == |multiset(lines)| == |lines|;
  }

  /** The two tables, by number. */
  lemma TablesByNumber(id: string)
    ensures IsTell(id) <==>
      id in ["6", "7", "8", "9", "10", "12", "15", "16", "17", "24", "28", "29",
             "31", "32", "33", "34", "35", "39", "41", "52", "55", "56"]
    ensures IsDeployment(id) <==> id in ["5", "46", "48", "49", "50", "51"]
  {
  }

  /** One clean flow with `k` SYNs passes a run that wants `k` handshakes, not `k + 1`; with
      the risk of obfuscated traffic it passes none; with the port risk it still passes. */
  lemma OneFlow(render: Render, f: Flow, k: int)
    requires f.proto == "TLS.Google" && f.confidence == map["6" := "DPI"] && f.syns == k
    ensures f.risks == map[] ==> LooksLikeBrowsing([f], 1, k, NoLog) && !LooksLikeBrowsing([f], 1, k + 1, NoLog)
    ensures "56" in f.risks ==> !LooksLikeBrowsing([f], 1, k, NoLog)
    ensures f.risks.Keys == {"5"} ==> LooksLikeBrowsing([f], 1, k, NoLog)
  {
    HandshakesAddUp([], [], f);
    MasterIsTLS(f);
    assert f.proto[..4] == "TLS.";
    var dpi := f.confidence["6"];
    assert dpi[0..3] == "DPI" && OccursAt(dpi, "DPI", 0);
    assert f in [f];
    assert f.risks.Keys == {"5"} ==> forall id :: id in f.risks ==> id in f.risks.Keys;
  }
}
