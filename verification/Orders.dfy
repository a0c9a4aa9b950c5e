/** Iterating over an unordered collection and sorting strings: results that must not depend
    on the order in which the keys of a map come. */
module Orders {

  /** `order` lists every element of `s` once. */
  ghost predicate Enumerates<T>(order: seq<T>, s: set<T>)
  {
    multiset(order) == multiset(s)
  }

  ghost function SomeOrder<T>(s: set<T>): (order: seq<T>)
    ensures Enumerates(order, s)
  {
    if s == {} then []
    else
      var x :| x in s;
      assert s == (s - {x}) + {x};
      SomeOrder(s - {x}) + [x]
  }

  /** A loop that takes `k` from what is left extends the enumeration of what is done. */
  lemma EnumeratesOneMore<K>(order: seq<K>, all: set<K>, left: set<K>, k: K)
    requires k in left && left <= all && Enumerates(order, all - left)
    ensures Enumerates(order + [k], all - (left - {k}))
  {
    assert all - (left - {k}) == (all - left) + {k};
  }

  lemma AllEnumerated<K>(order: seq<K>, all: set<K>)
    requires Enumerates(order, all - {})
    ensures Enumerates(order, all) && (order == [] <==> all == {})
  {
    assert all - {} == all;
    assert |order| == |multiset(order)| == |multiset(all)| == |all|;
  }

  /** What a loop over the elements of `order` appends, when it appends `emit(x)` for `x`. */
  function Emitted<K, T>(order: seq<K>, emit: K -> seq<T>): seq<T>
  {
    if order == [] then [] else Emitted(order[..|order| - 1], emit) + emit(order[|order| - 1])
  }

  lemma EmittedNothing<K, T>(emit: K -> seq<T>)
    ensures Emitted([], emit) == []
  {
  }

  lemma EmittedAppend<K, T>(order: seq<K>, x: K, emit: K -> seq<T>)
    ensures Emitted(order + [x], emit) == Emitted(order, emit) + emit(x)
  {
    assert (order + [x])[..|order|] == order;
  }

  lemma {:induction false} EmittedJoin<K, T>(xs: seq<K>, ys: seq<K>, emit: K -> seq<T>)
    ensures Emitted(xs + ys, emit) == Emitted(xs, emit) + Emitted(ys, emit)
  {
    if ys == [] {
      assert xs + ys == xs;
    } else {
      hide Emitted;
      var init, last := ys[..|ys| - 1], ys[|ys| - 1];
      EmittedJoin(xs, init, emit);
      EmittedAppend(xs + init, last, emit);
      EmittedAppend(init, last, emit);
      assert (xs + init) + [last] == xs + ys && init + [last] == ys;
    }
  }

  lemma EmittedWithout<K, T>(before: seq<K>, x: K, after: seq<K>, emit: K -> seq<T>)
    ensures multiset(Emitted(before + [x] + after, emit)) == multiset(Emitted(before + after, emit)) + multiset(emit(x))
  {
    EmittedJoin(before + [x], after, emit);
    EmittedAppend(before, x, emit);
    EmittedJoin(before, after, emit);
  }

  /** Two enumerations of the same elements make the loop append the same things, up to order. */
  lemma {:induction false} EmittedPermuted<K, T>(xs: seq<K>, ys: seq<K>, emit: K -> seq<T>)
    requires multiset(xs) == multiset(ys)
    ensures multiset(Emitted(xs, emit)) == multiset(Emitted(ys, emit))
    decreases |xs|
  {
    if xs == [] {
      assert |multiset(ys)| == 0;
    } else {
      hide Emitted;
      var init, x := xs[..|xs| - 1], xs[|xs| - 1];
      assert xs == init + [x];
      var before, after := SplitAt(ys, x);
      WithoutOne(init, x, []);
      WithoutOne(before, x, after);
      assert init + [x] + [] == xs && init + [] == init;
      EmittedPermuted(init, before + after, emit);
      EmittedWithout(before, x, after, emit);
      EmittedAppend(init, x, emit);
    }
  }

  lemma WithoutOne<K>(before: seq<K>, x: K, after: seq<K>)
    ensures multiset(before + after) == multiset(before + [x] + after) - multiset{x}
  {
  }

  lemma SplitAt<K>(ys: seq<K>, x: K) returns (before: seq<K>, after: seq<K>)
    requires x in multiset(ys)
    ensures ys == before + [x] + after
  {
    var i: nat :| i < |ys| && ys[i] == x;
    before, after := ys[..i], ys[i + 1..];
  }

  // ---------------------------------------------------------------------------------------
  // Strings in lexicographic order

  predicate Le(a: string, b: string)
  {
    a == [] || (b != [] && (a[0] < b[0] || (a[0] == b[0] && Le(a[1..], b[1..]))))
  }

  lemma {:induction false} LeTotal(a: string, b: string)
    ensures Le(a, b) || Le(b, a)
  {
    if a != [] && b != [] {
      LeTotal(a[1..], b[1..]);
    }
  }

  lemma {:induction false} LeTransitive(a: string, b: string, c: string)
    requires Le(a, b) && Le(b, c)
    ensures Le(a, c)
  {
    if a != [] {
      if a[0] == b[0] == c[0] {
        LeTransitive(a[1..], b[1..], c[1..]);
      }
    }
  }

  lemma {:induction false} LeAntisymmetric(a: string, b: string)
    requires Le(a, b) && Le(b, a)
    ensures a == b
  {
    if a != [] {
      LeAntisymmetric(a[1..], b[1..]);
      assert a == [a[0]] + a[1..] && b == [b[0]] + b[1..];
    }
  }

  /** The dictionary order by characters: a prefix first, else the first difference decides. */
  lemma {:induction false} LeIsLexicographic(a: string, b: string)
    ensures Le(a, b) <==>
      a <= b || exists i :: 0 <= i < |a| && i < |b| && a[..i] == b[..i] && a[i] < b[i]
  {
    if a != [] && b != [] && a[0] == b[0] {
      LeIsLexicographic(a[1..], b[1..]);
      assert a == [a[0]] + a[1..] && b == [b[0]] + b[1..];
      if i :| 0 <= i < |a[1..]| && i < |b[1..]| && a[1..][..i] == b[1..][..i] && a[1..][i] < b[1..][i] {
        assert a[..i + 1] == [a[0]] + a[1..][..i] && b[..i + 1] == [b[0]] + b[1..][..i];
        assert a[i + 1] < b[i + 1];
      }
      if i :| 0 <= i < |a| && i < |b| && a[..i] == b[..i] && a[i] < b[i] {
        assert a[1..][..i - 1] == a[..i][1..] && b[1..][..i - 1] == b[..i][1..];
        assert a[1..][i - 1] < b[1..][i - 1];
      }
    } else if a != [] && b != [] {
      assert a[..0] == b[..0];
    }
  }

  ghost predicate Sorted(xs: seq<string>)
  {
    forall i, j :: 0 <= i < j < |xs| ==> Le(xs[i], xs[j])
  }

  lemma {:induction false} LeReflexive(a: string)
    ensures Le(a, a)
  {
    if a != [] {
      LeReflexive(a[1..]);
    }
  }

  lemma FirstIsLeast(xs: seq<string>, y: string)
    requires Sorted(xs) && y in xs
    ensures Le(xs[0], y)
  {
    var i :| 0 <= i < |xs| && xs[i] == y;
    LeReflexive(y);
  }

  lemma SortedCons(x: string, xs: seq<string>)
    requires Sorted(xs) && forall y :: y in xs ==> Le(x, y)
    ensures Sorted([x] + xs)
  {
  }

  lemma FirstsAgree(xs: seq<string>, ys: seq<string>)
    requires Sorted(xs) && Sorted(ys) && multiset(xs) == multiset(ys) && xs != []
    ensures ys != [] && xs[0] == ys[0]
  {
    assert xs[0] in multiset(ys) && ys[0] in multiset(xs);
    FirstIsLeast(xs, ys[0]);
    FirstIsLeast(ys, xs[0]);
    LeAntisymmetric(xs[0], ys[0]);
  }

  lemma WithoutFirst(xs: seq<string>)
    requires xs != []
    ensures multiset(xs[1..]) == multiset(xs) - multiset{xs[0]}
    ensures Sorted(xs) ==> Sorted(xs[1..])
  {
    assert xs == [xs[0]] + xs[1..];
  }

  /** A sorted sequence is determined by its elements, so whatever sorts gives the same. */
  lemma {:induction false} SortedUnique(xs: seq<string>, ys: seq<string>)
    requires Sorted(xs) && Sorted(ys) && multiset(xs) == multiset(ys)
    ensures xs == ys
  {
    hide Le, Sorted;
    if xs == [] {
      assert |multiset(ys)| == 0;
    } else {
      FirstsAgree(xs, ys);
      WithoutFirst(xs);
      WithoutFirst(ys);
      SortedUnique(xs[1..], ys[1..]);
      assert xs == [xs[0]] + xs[1..] && ys == [ys[0]] + ys[1..];
    }
  }

  function Insert(x: string, xs: seq<string>): seq<string>
  {
    if xs == [] then [x]
    else if Le(x, xs[0]) then [x] + xs
    else [xs[0]] + Insert(x, xs[1..])
  }

  lemma {:induction false} InsertSorts(x: string, xs: seq<string>)
    requires Sorted(xs)
    ensures Sorted(Insert(x, xs)) && multiset(Insert(x, xs)) == multiset(xs) + multiset{x}
  {
    hide Le;
    if xs == [] {
    } else if Le(x, xs[0]) {
      forall y | y in xs
        ensures Le(x, y)
      {
        FirstIsLeast(xs, y);
        LeTransitive(x, xs[0], y);
      }
      SortedCons(x, xs);
    } else {
      var rest := Insert(x, xs[1..]);
      InsertSorts(x, xs[1..]);
      LeTotal(x, xs[0]);
      assert xs == [xs[0]] + xs[1..];
      forall y | y in rest
        ensures Le(xs[0], y)
      {
        assert y in multiset(xs[1..]) + multiset{x};
        if y != x {
          FirstIsLeast(xs, y);
        }
      }
      SortedCons(xs[0], rest);
    }
  }

  /** The library's sort. */
  function Sort(xs: seq<string>): (ys: seq<string>)
    ensures Sorted(ys) && multiset(ys) == multiset(xs)
  {
    if xs == [] then []
    else
      assert xs == [xs[0]] + xs[1..];
      InsertSorts(xs[0], Sort(xs[1..]));
      Insert(xs[0], Sort(xs[1..]))
  }

  lemma SortPermuted(xs: seq<string>, ys: seq<string>)
    requires multiset(xs) == multiset(ys)
    ensures Sort(xs) == Sort(ys)
  {
    SortedUnique(Sort(xs), Sort(ys));
  }

  // ---------------------------------------------------------------------------------------
  // When the order shows

  ghost predicate OrderFree<K(!new), T>(s: set<K>, emit: K -> seq<T>)
  {
    forall xs, ys :: Enumerates(xs, s) && Enumerates(ys, s) ==> Emitted(xs, emit) == Emitted(ys, emit)
  }

  ghost predicate AllAlike<K(!new), T>(s: set<K>, emit: K -> seq<T>)
  {
    forall x, y :: x in s && y in s && emit(x) != [] && emit(y) != [] ==> emit(x) == emit(y)
  }

  ghost predicate AtMostOne<K(!new), T>(s: set<K>, emit: K -> seq<T>)
  {
    forall x :: x in s ==> |emit(x)| <= 1
  }

  /** The keys for which the loop appends something. */
  ghost function Emitters<K(!new), T>(s: set<K>, emit: K -> seq<T>): set<K>
  {
    set x | x in s && emit(x) != []
  }

  lemma OneEmitterLess<K(!new), T>(s: set<K>, x: K, emit: K -> seq<T>)
    requires x in s
    ensures |Emitters(s, emit)| == |Emitters(s - {x}, emit)| + if emit(x) != [] then 1 else 0
  {
    assert Emitters(s, emit) == Emitters(s - {x}, emit) + if emit(x) != [] then {x} else {};
  }

  lemma SetWithoutOne<K>(s: set<K>, x: K)
    requires x in s
    ensures multiset(s - {x}) == multiset(s) - multiset{x}
  {
  }

  lemma LastEnumerated<K>(order: seq<K>, s: set<K>)
    requires Enumerates(order, s) && order != []
    ensures order[|order| - 1] in s && Enumerates(order[..|order| - 1], s - {order[|order| - 1]})
  {
    var init, x := order[..|order| - 1], order[|order| - 1];
    assert order == init + [x] && x in multiset(order);
    WithoutOne(init, x, []);
    assert init + [x] + [] == order && init + [] == init;
    SetWithoutOne(s, x);
  }

  /** Such a loop appends one thing for each key that has one. */
  lemma {:induction false} EmittedCount<K(!new), T>(order: seq<K>, s: set<K>, emit: K -> seq<T>)
    requires Enumerates(order, s) && AtMostOne(s, emit)
    ensures |Emitted(order, emit)| == |Emitters(s, emit)|
  {
    if order == [] {
      assert |s| == |multiset(s)| == |multiset(order)| == 0;
      assert Emitters(s, emit) == {};
    } else {
      var init, x := order[..|order| - 1], order[|order| - 1];
      LastEnumerated(order, s);
      OneEmitterLess(s, x, emit);
      hide Enumerates, Emitters;
      EmittedCount(init, s - {x}, emit);
    }
  }

  /** Loops that append at most one thing per key give the same sequence for every order
      exactly when everything they append is the same. */
  lemma OrderFreeExactly<K(!new), T>(s: set<K>, emit: K -> seq<T>)
    requires AtMostOne(s, emit)
    ensures OrderFree(s, emit) <==> AllAlike(s, emit)
  {
    if x, y :| x in s && y in s && emit(x) != [] && emit(y) != [] && emit(x) != emit(y) {
      OrderShows(s, x, y, emit);
    } else {
      forall xs, ys | Enumerates(xs, s) && Enumerates(ys, s)
        ensures Emitted(xs, emit) == Emitted(ys, emit)
      {
        OrderHidden(s, xs, ys, emit);
      }
    }
  }

  lemma OrderShows<K(!new), T>(s: set<K>, x: K, y: K, emit: K -> seq<T>)
    requires x in s && y in s && |emit(x)| == |emit(y)| == 1 && emit(x) != emit(y)
    ensures !OrderFree(s, emit)
  {
    hide Emitted;
    var rest := SomeOrder(s - {x, y});
    BothFirst(s, x, y, rest);
    BothFirst(s, y, x, rest);
    TwoThenRest(x, y, rest, emit);
    TwoThenRest(y, x, rest, emit);
    assert Emitted([x, y] + rest, emit)[0] == emit(x)[0];
    assert Emitted([y, x] + rest, emit)[0] == emit(y)[0];
    assert emit(x) == [emit(x)[0]] && emit(y) == [emit(y)[0]];
  }

  lemma BothFirst<K>(s: set<K>, x: K, y: K, rest: seq<K>)
    requires x in s && y in s && x != y && Enumerates(rest, s - {x, y})
    ensures Enumerates([x, y] + rest, s)
  {
    assert s == (s - {x, y}) + {x, y};
    assert multiset(s) == multiset(s - {x, y}) + multiset{x, y};
  }

  lemma TwoThenRest<K, T>(x: K, y: K, rest: seq<K>, emit: K -> seq<T>)
    ensures Emitted([x, y] + rest, emit) == emit(x) + emit(y) + Emitted(rest, emit)
  {
    EmittedJoin([x, y], rest, emit);
    EmittedAppend([], x, emit);
    EmittedAppend([x], y, emit);
    assert [] + [x] == [x] && [x] + [y] == [x, y];
  }

  lemma OrderHidden<K(!new), T>(s: set<K>, xs: seq<K>, ys: seq<K>, emit: K -> seq<T>)
    requires AtMostOne(s, emit) && AllAlike(s, emit) && Enumerates(xs, s) && Enumerates(ys, s)
    ensures Emitted(xs, emit) == Emitted(ys, emit)
  {
    hide Emitted;
    EmittedPermuted(xs, ys, emit);
    forall v, w | v in Emitted(xs, emit) && w in Emitted(ys, emit)
      ensures v == w
    {
      var x := EmittedBy(xs, emit, v);
      var y := EmittedBy(ys, emit, w);
      assert x in multiset(xs) && y in multiset(ys);
      assert emit(x) == [v] && emit(y) == [w];
    }
    AlikeEqual(Emitted(xs, emit), Emitted(ys, emit));
  }

  lemma {:induction false} EmittedBy<K, T>(order: seq<K>, emit: K -> seq<T>, v: T) returns (x: K)
    requires v in Emitted(order, emit)
    ensures x in order && v in emit(x)
  {
    x := order[|order| - 1];
    if v !in emit(x) {
      x := EmittedBy(order[..|order| - 1], emit, v);
    }
  }

  lemma AlikeEqual<T>(xs: seq<T>, ys: seq<T>)
    requires multiset(xs) == multiset(ys) && forall v, w :: v in xs && w in ys ==> v == w
    ensures xs == ys
  {
    assert |xs| == |multiset(xs)| == |multiset(ys)| == |ys|;
    assert forall i :: 0 <= i < |xs| ==> xs[i] in xs && ys[i] in ys;
  }
}
