/** The verdict on the flows a DPI engine reports: whether they can be told from browsing. */
module Flows {
  import opened Bytes
  import opened Orders

  /** The decoded fields of a flow the verdict reads; `risks` maps a risk id to its text. */
  datatype Flow = Flow(
    srcIP: string, dstIP: string, srcPort: int, dstPort: int, l4: string, syns: int,
    proto: string, confidence: map<string, string>, risks: map<string, string>)

  /** What names a flow in a line of text. */
  datatype Tag = Tag(index: nat, srcIP: string, srcPort: int, dstIP: string, dstPort: int)

  function TagOf(index: nat, f: Flow): Tag
  {
    Tag(index, f.srcIP, f.srcPort, f.dstIP, f.dstPort)
  }

  function RiskText(f: Flow, id: string): string
  {
    if id in f.risks then f.risks[id] else ""
  }

  /** A distinguisher or an allowed note, with what its line of text is made from; `render`
      below makes it. */
  datatype Finding =
    | TooFewFlows(expected: int, got: int)
    | TooFewHandshakes(expected: int, got: int)
    | NotTLS(tag: Tag, proto: string)
    | NotByDPI(tag: Tag, proto: string, confidence: string)
    | TellRisk(tag: Tag, id: string, text: string)
    | AllowedRisk(tag: Tag, id: string, text: string)
    | UntriagedRisk(tag: Tag, id: string, text: string)
    | NoBrowserLabel

  type Render = Finding -> string

  /** The fingerprint log: not given, not readable, or the browser label found in it. */
  datatype Log = NoLog | Unreadable | Label(text: string)

  datatype Outcome =
    | Success
    | LogError
    | Distinguishable(findings: nat)
    | ControlLooksLikeBrowsing
    | UnknownExpect(value: string)

  // Every entry of the two tables has a nonempty reason, so a lookup that does not yield the
  // empty string is membership.

  predicate IsTell(id: string)
  {
    id in {"56", "15", "35", "17", "24", "52", "31", "33", "34", "6", "10",
           "32", "9", "41", "7", "8", "16", "12", "28", "29", "55", "39"}
  }

  predicate IsDeployment(id: string)
  {
    id in {"5", "51", "48", "50", "49", "46"}
  }

  predicate OnLabWire(f: Flow, wireA: string, wireB: string, port: int)
  {
    && f.l4 == "TCP"
    && (f.srcPort == port || f.dstPort == port)
    && ((f.srcIP == wireA && f.dstIP == wireB) || (f.srcIP == wireB && f.dstIP == wireA))
  }

  /** The part of a protocol name before its first dot. */
  function BeforeDot(proto: string): string
  {
    if proto == [] || proto[0] == '.' then [] else [proto[0]] + BeforeDot(proto[1..])
  }

  function MasterProto(f: Flow): string { BeforeDot(f.proto) }

  function Join(parts: seq<string>): string
  {
    if parts == [] then []
    else if |parts| == 1 then parts[0]
    else parts[0] + "," + Join(parts[1..])
  }

  // ---------------------------------------------------------------------------------------
  // Confidence

  function ValueOf(m: map<string, string>): string -> seq<string>
  {
    (k: string) => if k in m then [m[k]] else []
  }

  /** The confidence string for one order of the map. */
  function ConfidenceAlong(m: map<string, string>, order: seq<string>): string
  {
    if order == [] then "none" else Join(Sort(Emitted(order, ValueOf(m))))
  }

  ghost function Confidence(m: map<string, string>): string
  {
    ConfidenceAlong(m, SomeOrder(m.Keys))
  }

  /** The confidence string is the same for every iteration order of the map. */
  lemma ConfidenceOrderFree(m: map<string, string>, order: seq<string>)
    requires Enumerates(order, m.Keys)
    ensures ConfidenceAlong(m, order) == Confidence(m)
  {
    var other := SomeOrder(m.Keys);
    assert |order| == |multiset(order)| == |multiset(other)| == |other|;
    EmittedPermuted(order, other, ValueOf(m));
    SortPermuted(Emitted(order, ValueOf(m)), Emitted(other, ValueOf(m)));
  }

  method ConfidenceOf(f: Flow) returns (s: string)
    ensures s == Confidence(f.confidence)
  {
    if |f.confidence| == 0 {
      assert f.confidence.Keys == {};
      return "none";
    }
    var out: seq<string> := [];
    var left := f.confidence.Keys;
    ghost var order: seq<string> := [];
    hide Emitted;
    EmittedNothing<string, string>(ValueOf(f.confidence));
    while left != {}
      invariant left <= f.confidence.Keys && Enumerates(order, f.confidence.Keys - left)
      invariant out == Emitted(order, ValueOf(f.confidence))
      decreases left
    {
      var k :| k in left;
      EmittedAppend(order, k, ValueOf(f.confidence));
      EnumeratesOneMore(order, f.confidence.Keys, left, k);
      out := out + [f.confidence[k]];
      left, order := left - {k}, order + [k];
    }
    AllEnumerated(order, f.confidence.Keys);
    ConfidenceOrderFree(f.confidence, order);
    s := Join(Sort(out));
  }

  ghost predicate SomeValueHas(m: map<string, string>, sub: string)
  {
    exists k :: k in m && Contains(m[k], sub)
  }

  lemma {:induction false} JoinContains(parts: seq<string>, sub: string)
    requires sub != [] && ',' !in sub
    ensures Contains(Join(parts), sub) <==> exists i :: 0 <= i < |parts| && Contains(parts[i], sub)
  {
    if |parts| == 1 {
      assert Join(parts) == parts[0];
    } else if |parts| > 1 {
      var rest := parts[1..];
      JoinContains(rest, sub);
      CommaSplits(parts[0], Join(rest), sub);
      assert Join(parts) == parts[0] + "," + Join(rest);
      if i :| 0 <= i < |parts| && Contains(parts[i], sub) {
        if i > 0 {
          assert rest[i - 1] == parts[i];
        }
      }
      if Contains(Join(rest), sub) {
        var i :| 0 <= i < |rest| && Contains(rest[i], sub);
        assert parts[i + 1] == rest[i];
      }
    }
  }

  /** A string without a comma cannot straddle one. */
  lemma CommaSplits(a: string, b: string, sub: string)
    requires sub != [] && ',' !in sub
    ensures Contains(a + "," + b, sub) <==> Contains(a, sub) || Contains(b, sub)
  {
    var whole := a + "," + b;
    assert whole[0..|a|] == a && whole[|a| + 1..|whole|] == b;
    forall i
      ensures OccursAt(whole, sub, i) <==> OccursAt(a, sub, i) || OccursAt(b, sub, i - |a| - 1)
    {
      SubsliceContains(whole, 0, |a|, sub, i);
      SubsliceContains(whole, |a| + 1, |whole|, sub, i - |a| - 1);
      if 0 <= i <= |a| < i + |sub| <= |whole| {
        assert whole[i..i + |sub|][|a| - i] == ',' && sub[|a| - i] in sub;
      }
    }
    if j :| OccursAt(b, sub, j) {
      assert OccursAt(b, sub, (j + |a| + 1) - |a| - 1);
      assert OccursAt(whole, sub, j + |a| + 1);
    }
  }

  lemma {:induction false} EmittedValues(m: map<string, string>, order: seq<string>, v: string)
    requires forall k :: k in order ==> k in m
    ensures v in Emitted(order, ValueOf(m)) <==> exists k :: k in order && m[k] == v
  {
    if order != [] {
      var init, last := order[..|order| - 1], order[|order| - 1];
      assert order == init + [last];
      EmittedValues(m, init, v);
    }
  }

  lemma SortedValues(m: map<string, string>, order: seq<string>, v: string)
    requires Enumerates(order, m.Keys)
    ensures v in Sort(Emitted(order, ValueOf(m))) <==> exists k :: k in m && m[k] == v
  {
    var values := Emitted(order, ValueOf(m));
    assert forall k :: k in order <==> k in multiset(order);
    assert v in Sort(values) <==> v in multiset(Sort(values));
    assert v in values <==> v in multiset(values);
    EmittedValues(m, order, v);
  }

  /** The check on the joined string is a check on the values. */
  lemma ConfidenceHas(m: map<string, string>, sub: string)
    requires sub != [] && ',' !in sub && !Contains("none", sub)
    ensures Contains(Confidence(m), sub) <==> SomeValueHas(m, sub)
  {
    hide Contains, Join, ValueOf;
    var order := SomeOrder(m.Keys);
    var sorted := Sort(Emitted(order, ValueOf(m)));
    if order == [] {
      AllEnumerated(order, m.Keys);
      assert forall k :: k in m ==> k in m.Keys;
    } else {
      JoinContains(sorted, sub);
      if i :| 0 <= i < |sorted| && Contains(sorted[i], sub) {
        SortedValues(m, order, sorted[i]);
      }
      if k :| k in m && Contains(m[k], sub) {
        SortedValues(m, order, m[k]);
      }
    }
  }

  lemma EmittedTwo(k: string, m: string, emit: string -> seq<string>)
    ensures Emitted([k], emit) == emit(k) && Emitted([k, m], emit) == emit(k) + emit(m)
  {
    EmittedNothing<string, string>(emit);
    EmittedAppend([], k, emit);
    EmittedAppend([k], m, emit);
    hide Emitted;
    assert [] + [k] == [k] && [k] + [m] == [k, m];
  }

  lemma SortedTwo(a: string, b: string)
    requires Le(a, b)
    ensures Sort([a]) == [a] && Sort([a, b]) == [a, b]
  {
    SortedUnique(Sort([a]), [a]);
    SortedUnique(Sort([a, b]), [a, b]);
    hide Sort;
  }

  lemma JoinedTwo(a: string, b: string)
    ensures Join([a]) == a && Join([a, b]) == a + "," + b
  {
    assert [a, b][1..] == [b];
  }

  lemma OneValue(k: string, a: string)
    ensures Confidence(map[k := a]) == a
  {
    hide Emitted, Sort, Join, Confidence, Le;
    var m := map[k := a];
    assert m.Keys == {k};
    ConfidenceOrderFree(m, [k]);
    EmittedTwo(k, k, ValueOf(m));
    LeReflexive(a);
    SortedTwo(a, a);
    JoinedTwo(a, a);
  }

  lemma TwoValues(k: string, m: string, a: string, b: string)
    requires k != m && Le(a, b)
    ensures Confidence(map[k := a, m := b]) == a + "," + b
  {
    hide Emitted, Sort, Join, Confidence, Le;
    var both := map[k := a, m := b];
    assert both.Keys == {k, m};
    ConfidenceOrderFree(both, [k, m]);
    EmittedTwo(k, m, ValueOf(both));
    assert ValueOf(both)(k) + ValueOf(both)(m) == [a, b];
    SortedTwo(a, b);
    JoinedTwo(a, b);
  }

  lemma NoValue(m: map<string, string>)
    requires m.Keys == {}
    ensures Confidence(m) == "none"
  {
    ConfidenceOrderFree(m, []);
    hide Confidence, Emitted, Sort, Join, Le;
  }

  /** The string for none, one and two values: in dictionary order, with a comma between. */
  lemma ConfidenceIsJoined(k: string, m: string, a: string, b: string)
    requires k != m && Le(a, b)
    ensures Confidence(map[]) == "none"
    ensures Confidence(map[k := a]) == a
    ensures Confidence(map[k := a, m := b]) == a + "," + b
    ensures Confidence(map[k := b, m := a]) == a + "," + b
  {
    hide Confidence, Emitted, Sort, Join, Le;
    NoValue(map[]);
    OneValue(k, a);
    TwoValues(k, m, a, b);
    TwoValues(m, k, a, b);
    SameEitherWay(k, m, b, a);
  }

  lemma SameEitherWay(k: string, m: string, a: string, b: string)
    requires k != m
    ensures map[k := a, m := b] == map[m := b, k := a]
  {
  }
}
