/**
 * packages/storage/src/spans.ts, getSpanTree
 *
 * The rows of a trace, in the order of their start, are linked into trees. Nodes are named by
 * the place of their row.
 */
module Spans {
  import opened Prelude

  datatype Span = Span(spanId: string, parentSpanId: Option<string>, name: string, startNs: int)

  /** A trace holds a span id once, and the query sorts by start. */
  ghost predicate TraceOk(rows: seq<Span>) {
    && (forall i, j :: 0 <= i < j < |rows| ==> rows[i].spanId != rows[j].spanId)
    && (forall i, j :: 0 <= i < j < |rows| ==> rows[i].startNs <= rows[j].startNs)
  }

  function IndexOf(rows: seq<Span>, id: string): (r: Option<nat>)
    ensures r.Some? ==> r.value < |rows| && rows[r.value].spanId == id
    ensures r.None? ==> forall i :: 0 <= i < |rows| ==> rows[i].spanId != id
  {
    if rows == [] then None
    else if rows[|rows| - 1].spanId == id then Some(|rows| - 1)
    else IndexOf(rows[..|rows| - 1], id)
  }

  /** The row a span is put under, if its parent is in the trace. */
  function ParentOf(rows: seq<Span>, j: nat): (r: Option<nat>)
    requires j < |rows|
    ensures r.Some? ==> r.value < |rows|
  {
    if rows[j].parentSpanId.Some? then IndexOf(rows, rows[j].parentSpanId.value) else None
  }

  /** The first `n` rows that belong under `p`, or at the top. */
  function Under(rows: seq<Span>, p: Option<nat>, n: nat): seq<nat>
    requires n <= |rows|
  {
    if n == 0 then [] else Under(rows, p, n - 1) + (if ParentOf(rows, n - 1) == p then [n - 1] else [])
  }

  function Children(rows: seq<Span>, i: nat): seq<nat> { Under(rows, Some(i), |rows|) }

  function Roots(rows: seq<Span>): seq<nat> { Under(rows, None, |rows|) }

  /** The map of the ids leads to the same parents. */
  lemma ParentLookup(rows: seq<Span>, byId: map<string, nat>, j: nat)
    requires j < |rows| && IdsIndexed(rows, byId)
    ensures rows[j].parentSpanId.Some? && rows[j].parentSpanId.value in byId ==> byId[rows[j].parentSpanId.value] < |rows|
    ensures ParentOf(rows, j) == if rows[j].parentSpanId.Some? && rows[j].parentSpanId.value in byId
                                 then Some(byId[rows[j].parentSpanId.value]) else None
  {
  }

  /** The first loop: the map of the ids. */
  method IndexRows(rows: seq<Span>) returns (byId: map<string, nat>)
    requires TraceOk(rows)
    ensures IdsIndexed(rows, byId)
  {
    byId := map[];
    for i := 0 to |rows|
      invariant forall id :: id in byId ==> byId[id] < i && rows[byId[id]].spanId == id
      invariant forall k :: 0 <= k < i ==> rows[k].spanId in byId && byId[rows[k].spanId] == k
    {
      byId := byId[rows[i].spanId := i];
    }
  }

  ghost predicate IdsIndexed(rows: seq<Span>, byId: map<string, nat>) {
    && (forall id :: id in byId ==> byId[id] < |rows| && rows[byId[id]].spanId == id)
    && (forall k :: 0 <= k < |rows| ==> rows[k].spanId in byId && byId[rows[k].spanId] == k)
  }

  method GetSpanTree(rows: seq<Span>) returns (roots: seq<nat>, children: seq<seq<nat>>)
    requires TraceOk(rows)
    ensures roots == Roots(rows)
    ensures |children| == |rows| && forall i :: 0 <= i < |rows| ==> children[i] == Children(rows, i)
  {
    var byId := IndexRows(rows);
    roots := [];
    children := seq(|rows|, _ => []);
    assert Linked(rows, children, 0);
    hide ParentOf, TraceOk, IdsIndexed, Linked, Under;
    for j := 0 to |rows|
      invariant roots == Under(rows, None, j)
      invariant |children| == |rows| && Linked(rows, children, j)
    {
      var span := rows[j];
      ParentLookup(rows, byId, j);
      if span.parentSpanId.Some? && span.parentSpanId.value in byId {
        var parent := byId[span.parentSpanId.value];
        LinkOne(rows, children, j);
        children := children[parent := children[parent] + [j]];
      } else {
        LinkOne(rows, children, j);
        roots := roots + [j];
      }
    }
    AllLinked(rows, children);
  }

  lemma AllLinked(rows: seq<Span>, children: seq<seq<nat>>)
    requires Linked(rows, children, |rows|)
    ensures |children| == |rows| && forall i :: 0 <= i < |rows| ==> children[i] == Children(rows, i)
  {
  }

  ghost predicate Linked(rows: seq<Span>, children: seq<seq<nat>>, n: nat)
    requires n <= |rows|
  {
    |children| == |rows| && forall i :: 0 <= i < |rows| ==> children[i] == Under(rows, Some(i), n)
  }

  lemma LinkOne(rows: seq<Span>, children: seq<seq<nat>>, j: nat)
    requires j < |rows| && Linked(rows, children, j)
    ensures match ParentOf(rows, j)
            case Some(p) => p < |children| && Linked(rows, children[p := children[p] + [j]], j + 1)
            case None => Linked(rows, children, j + 1)
    ensures Under(rows, None, j + 1) == Under(rows, None, j) + if ParentOf(rows, j).None? then [j] else []
  {
    hide IndexOf;
    assert forall i :: 0 <= i < |rows| ==>
      Under(rows, Some(i), j + 1) == Under(rows, Some(i), j) + (if ParentOf(rows, j) == Some(i) then [j] else []);
  }

  /** What stands under a span are the spans that recorded it as their parent, in the order of their start. */
  lemma {:induction false} UnderMeans(rows: seq<Span>, p: Option<nat>, n: nat)
    requires n <= |rows|
    ensures forall j: nat :: j in Under(rows, p, n) <==> j < n && ParentOf(rows, j) == p
    ensures forall a, b :: 0 <= a < b < |Under(rows, p, n)| ==> Under(rows, p, n)[a] < Under(rows, p, n)[b]
  {
    hide ParentOf;
    if n > 0 {
      UnderMeans(rows, p, n - 1);
      var init, u := Under(rows, p, n - 1), Under(rows, p, n);
      assert u == if ParentOf(rows, n - 1) == p then init + [n - 1] else init;
      assert forall a :: 0 <= a < |init| ==> init[a] in init;
    }
  }

  /** How often a node occurs. */
  function Times(s: seq<nat>, x: nat): nat {
    if s == [] then 0 else (if s[0] == x then 1 else 0) + Times(s[1..], x)
  }

  lemma {:induction false} TimesConcat(a: seq<nat>, b: seq<nat>, x: nat)
    ensures Times(a + b, x) == Times(a, x) + Times(b, x)
  {
    if a == [] {
      assert a + b == b;
    } else {
      TimesConcat(a[1..], b, x);
      assert (a + b)[1..] == a[1..] + b;
    }
  }

  lemma {:induction false} CountUnder(rows: seq<Span>, p: Option<nat>, n: nat, j: nat)
    requires n <= |rows|
    ensures Times(Under(rows, p, n), j) == if j < n && ParentOf(rows, j) == p then 1 else 0
  {
    hide ParentOf;
    if n > 0 {
      var init := Under(rows, p, n - 1);
      CountUnder(rows, p, n - 1, j);
      var last := if ParentOf(rows, n - 1) == p then [n - 1] else [];
      assert Under(rows, p, n) == init + last;
      TimesConcat(init, last, j);
    }
  }

  ghost predicate StartOrder(rows: seq<Span>, nodes: seq<nat>) {
    forall a, b :: 0 <= a < b < |nodes| && nodes[a] < |rows| && nodes[b] < |rows| ==> rows[nodes[a]].startNs <= rows[nodes[b]].startNs
  }

  lemma ChildrenAreRecorded(rows: seq<Span>, i: nat)
    requires TraceOk(rows) && i < |rows|
    ensures forall j: nat :: j in Children(rows, i) <==> j < |rows| && rows[j].parentSpanId == Some(rows[i].spanId)
    ensures StartOrder(rows, Children(rows, i))
  {
    UnderMeans(rows, Some(i), |rows|);
    forall j | 0 <= j < |rows| && rows[j].parentSpanId == Some(rows[i].spanId) ensures ParentOf(rows, j) == Some(i) {
      var k := IndexOf(rows, rows[i].spanId).value;
      assert rows[k].spanId == rows[i].spanId;
    }
  }

  /** The spans at the top are those without a parent in the trace. */
  lemma RootsHaveNoParent(rows: seq<Span>)
    ensures forall j: nat :: j in Roots(rows) <==> j < |rows| && ParentIsAbsent(rows, j)
  {
    UnderMeans(rows, None, |rows|);
  }

  ghost predicate ParentIsAbsent(rows: seq<Span>, j: nat)
    requires j < |rows|
  {
    rows[j].parentSpanId.Some? ==> forall i :: 0 <= i < |rows| ==> rows[i].spanId != rows[j].parentSpanId.value
  }

  // ----- Walking the trees --------------------------------------------------------------------------

  /** The trees of these nodes, flattened, down to a depth. */
  function Flat(rows: seq<Span>, nodes: seq<nat>, depth: nat): seq<nat>
    decreases depth, |nodes|
  {
    if depth == 0 || nodes == [] then []
    else [nodes[0]] + Flat(rows, Children(rows, nodes[0]), depth - 1) + Flat(rows, nodes[1..], depth)
  }

  function AllChildren(rows: seq<Span>, nodes: seq<nat>): seq<nat> {
    if nodes == [] then [] else Children(rows, nodes[0]) + AllChildren(rows, nodes[1..])
  }

  lemma {:induction false} FlatConcat(rows: seq<Span>, a: seq<nat>, b: seq<nat>, depth: nat)
    ensures Flat(rows, a + b, depth) == Flat(rows, a, depth) + Flat(rows, b, depth)
    decreases |a|
  {
    if a == [] {
      assert a + b == b;
    } else {
      assert (a + b)[1..] == a[1..] + b;
      FlatConcat(rows, a[1..], b, depth);
    }
  }

  /** A flattening holds the nodes, and the flattening of all their children. */
  lemma {:induction false} FlatByLevel(rows: seq<Span>, nodes: seq<nat>, depth: nat, j: nat)
    requires depth > 0
    ensures Times(Flat(rows, nodes, depth), j) == Times(nodes, j) + Times(Flat(rows, AllChildren(rows, nodes), depth - 1), j)
    decreases |nodes|
  {
    if nodes != [] {
      hide Flat, AllChildren, Children, Times;
      var x, c, rest := nodes[0], Children(rows, nodes[0]), AllChildren(rows, nodes[1..]);
      FlatByLevel(rows, nodes[1..], depth, j);
      FlatCons(rows, nodes, depth);
      FlatConcat(rows, c, rest, depth - 1);
      TimesOfLevel(x, nodes[1..], Flat(rows, c, depth - 1), Flat(rows, nodes[1..], depth), Flat(rows, rest, depth - 1), j);
      assert nodes == [x] + nodes[1..];
    }
  }

  lemma TimesOfLevel(x: nat, tail: seq<nat>, below: seq<nat>, flat: seq<nat>, rest: seq<nat>, j: nat)
    requires Times(flat, j) == Times(tail, j) + Times(rest, j)
    ensures Times([x] + below + flat, j) == Times([x] + tail, j) + Times(below + rest, j)
  {
    hide Times;
    TimesConcat([x] + below, flat, j);
    TimesConcat([x], below, j);
    TimesConcat(below, rest, j);
    TimesConcat([x], tail, j);
  }

  lemma FlatCons(rows: seq<Span>, nodes: seq<nat>, depth: nat)
    requires nodes != [] && depth > 0
    ensures Flat(rows, nodes, depth) == [nodes[0]] + Flat(rows, Children(rows, nodes[0]), depth - 1) + Flat(rows, nodes[1..], depth)
    ensures AllChildren(rows, nodes) == Children(rows, nodes[0]) + AllChildren(rows, nodes[1..])
  {
  }

  function Level(rows: seq<Span>, k: nat): seq<nat> {
    if k == 0 then Roots(rows) else AllChildren(rows, Level(rows, k - 1))
  }

  /** The parents of a span lead to the top in so many steps. */
  predicate AtDepth(rows: seq<Span>, j: nat, k: nat)
    requires j < |rows|
    decreases k
  {
    var p := ParentOf(rows, j);
    if k == 0 then p == None else p.Some? && AtDepth(rows, p.value, k - 1)
  }

  lemma {:induction false} DepthIsUnique(rows: seq<Span>, j: nat, k: nat, l: nat)
    requires j < |rows| && AtDepth(rows, j, k) && AtDepth(rows, j, l)
    ensures k == l
    decreases k
  {
    if k > 0 && l > 0 {
      DepthIsUnique(rows, ParentOf(rows, j).value, k - 1, l - 1);
    }
  }

  lemma {:induction false} CountAllChildren(rows: seq<Span>, nodes: seq<nat>, j: nat)
    requires j < |rows|
    ensures Times(AllChildren(rows, nodes), j) ==
            if ParentOf(rows, j).Some? then Times(nodes, ParentOf(rows, j).value) else 0
  {
    if nodes != [] {
      CountAllChildren(rows, nodes[1..], j);
      CountUnder(rows, Some(nodes[0]), |rows|, j);
      TimesConcat(Children(rows, nodes[0]), AllChildren(rows, nodes[1..]), j);
      hide ParentOf, Under;
    }
  }

  lemma {:induction false} CountLevel(rows: seq<Span>, j: nat, k: nat)
    requires j < |rows|
    ensures Times(Level(rows, k), j) == if AtDepth(rows, j, k) then 1 else 0
    decreases k
  {
    if k == 0 {
      CountUnder(rows, None, |rows|, j);
    } else {
      CountAllChildren(rows, Level(rows, k - 1), j);
      var p := ParentOf(rows, j);
      if p.Some? {
        CountLevel(rows, p.value, k - 1);
      }
    }
  }

  /** The span is at some depth from `k` on, below `k + depth`. */
  ghost predicate Within(rows: seq<Span>, j: nat, k: nat, depth: nat)
    requires j < |rows|
  {
    exists e :: k <= e < k + depth && AtDepth(rows, j, e)
  }

  lemma {:induction false} CountFlatLevel(rows: seq<Span>, j: nat, k: nat, depth: nat)
    requires j < |rows|
    ensures Times(Flat(rows, Level(rows, k), depth), j) == if Within(rows, j, k, depth) then 1 else 0
    decreases depth
  {
    hide Flat, Level, Within, AtDepth;
    if depth > 0 {
      FlatLevelStep(rows, k, depth, j);
      CountLevel(rows, j, k);
      CountFlatLevel(rows, j, k + 1, depth - 1);
      WithinStep(rows, j, k, depth);
    } else {
      FlatNothing(rows, j, k);
    }
  }

  lemma FlatNothing(rows: seq<Span>, j: nat, k: nat)
    requires j < |rows|
    ensures Flat(rows, Level(rows, k), 0) == [] && !Within(rows, j, k, 0)
  {
  }

  lemma FlatLevelStep(rows: seq<Span>, k: nat, depth: nat, j: nat)
    requires depth > 0
    ensures Times(Flat(rows, Level(rows, k), depth), j) ==
            Times(Level(rows, k), j) + Times(Flat(rows, Level(rows, k + 1), depth - 1), j)
  {
    FlatByLevel(rows, Level(rows, k), depth, j);
    assert AllChildren(rows, Level(rows, k)) == Level(rows, k + 1);
  }

  lemma WithinStep(rows: seq<Span>, j: nat, k: nat, depth: nat)
    requires j < |rows| && depth > 0
    ensures Within(rows, j, k, depth) <==> AtDepth(rows, j, k) || Within(rows, j, k + 1, depth - 1)
    ensures !(AtDepth(rows, j, k) && Within(rows, j, k + 1, depth - 1))
  {
    if AtDepth(rows, j, k) && Within(rows, j, k + 1, depth - 1) {
      var e :| k + 1 <= e < k + depth && AtDepth(rows, j, e);
      DepthIsUnique(rows, j, k, e);
    }
  }

  // ----- No trace is deeper than it has spans ---------------------------------------------------------

  /** The ancestor so many steps up. */
  function Up(rows: seq<Span>, j: nat, k: nat): (r: Option<nat>)
    requires j < |rows|
    ensures r.Some? ==> r.value < |rows|
    decreases k
  {
    if k == 0 then Some(j)
    else
      var p := ParentOf(rows, j);
      if p.None? then None else Up(rows, p.value, k - 1)
  }

  ghost predicate OnCycle(rows: seq<Span>, i: nat)
    requires i < |rows|
  {
    exists k :: k > 0 && Up(rows, i, k) == Some(i)
  }

  lemma {:induction false} UpAdds(rows: seq<Span>, j: nat, a: nat, b: nat)
    requires j < |rows| && Up(rows, j, a).Some?
    ensures Up(rows, j, a + b) == Up(rows, Up(rows, j, a).value, b)
    decreases a
  {
    if a > 0 {
      UpAdds(rows, ParentOf(rows, j).value, a - 1, b);
    }
  }

  /** Either the parents lead to the top within `k` steps, or there are that many ancestors. */
  lemma {:induction false} TopOrAncestors(rows: seq<Span>, j: nat, k: nat)
    requires j < |rows|
    ensures Within(rows, j, 0, k) <==> Up(rows, j, k).None?
    decreases k
  {
    if k > 0 {
      var p := ParentOf(rows, j);
      if p.None? {
        assert AtDepth(rows, j, 0);
      } else {
        TopOrAncestors(rows, p.value, k - 1);
        if Within(rows, p.value, 0, k - 1) {
          var e :| 0 <= e < k - 1 && AtDepth(rows, p.value, e);
          assert AtDepth(rows, j, e + 1);
        }
        if Within(rows, j, 0, k) {
          var e :| 0 <= e < k && AtDepth(rows, j, e);
          assert AtDepth(rows, p.value, e - 1);
        }
      }
    }
  }

  lemma {:induction false} Pigeonhole(s: seq<nat>, n: nat)
    requires |s| > n && forall i :: 0 <= i < |s| ==> s[i] < n
    ensures exists a, b :: 0 <= a < b < |s| && s[a] == s[b]
  {
    if forall a, b :: 0 <= a < b < |s| ==> s[a] != s[b] {
      DistinctBound(s, n);
    }
  }

  lemma {:induction false} DistinctBound(s: seq<nat>, n: nat)
    requires forall i :: 0 <= i < |s| ==> s[i] < n
    requires forall a, b :: 0 <= a < b < |s| ==> s[a] != s[b]
    ensures |s| <= n
    decreases n
  {
    if s != [] {
      assert s[0] < n;
      if k :| 0 <= k < |s| && s[k] == n - 1 {
        DistinctBound(s[..k] + s[k + 1..], n - 1);
      } else {
        DistinctBound(s, n - 1);
      }
    }
  }

  function Ancestors(rows: seq<Span>, j: nat, k: nat): seq<nat>
    requires j < |rows| && Up(rows, j, k).Some?
    requires forall a :: 0 <= a <= k ==> Up(rows, j, a).Some?
  {
    seq(k + 1, a requires 0 <= a <= k => Up(rows, j, a).value)
  }

  lemma {:induction false} UpIsDefinedBelow(rows: seq<Span>, j: nat, k: nat)
    requires j < |rows| && Up(rows, j, k).Some?
    ensures forall a :: 0 <= a <= k ==> Up(rows, j, a).Some?
    decreases k
  {
    if k > 0 {
      UpIsDefinedBelow(rows, ParentOf(rows, j).value, k - 1);
      forall a | 0 <= a <= k ensures Up(rows, j, a).Some? {
        if a > 0 {
          assert Up(rows, ParentOf(rows, j).value, a - 1).Some?;
        }
      }
    }
  }

  /** A span with as many ancestors as there are rows is above itself, or below one that is. */
  lemma {:induction false} TooManyAncestors(rows: seq<Span>, j: nat)
    requires j < |rows| && Up(rows, j, |rows|).Some?
    ensures exists i: nat :: i < |rows| && OnCycle(rows, i)
  {
    UpIsDefinedBelow(rows, j, |rows|);
    var up := Ancestors(rows, j, |rows|);
    Pigeonhole(up, |rows|);
    var a, b :| 0 <= a < b < |up| && up[a] == up[b];
    UpAdds(rows, j, a, b - a);
    assert Up(rows, up[a], b - a) == Some(up[a]);
    assert OnCycle(rows, up[a]);
  }

  /** A span on a cycle has ancestors without end. */
  lemma {:induction false} CycleNeverEnds(rows: seq<Span>, i: nat, k: nat, n: nat)
    requires i < |rows| && k > 0 && Up(rows, i, k) == Some(i)
    ensures Up(rows, i, n).Some?
    decreases n
  {
    if n <= k {
      UpIsDefinedBelow(rows, i, k);
    } else {
      CycleNeverEnds(rows, i, k, n - k);
      UpAdds(rows, i, k, n - k);
    }
  }

  // ----- The forest ----------------------------------------------------------------------------------

  /** The forest flattened; no tree is deeper than the number of rows. */
  function Forest(rows: seq<Span>): seq<nat> { Flat(rows, Roots(rows), |rows|) }

  /**
   * A span occurs in the forest exactly once if its parents lead to the top; otherwise, when
   * they run into a cycle, it does not occur at all, however deep one looks.
   */
  lemma {:induction false} OccursOnceOrNever(rows: seq<Span>, j: nat, depth: nat)
    requires j < |rows| && depth >= |rows|
    ensures Times(Flat(rows, Roots(rows), depth), j) == if ReachesTop(rows, j) then 1 else 0
  {
    assert Level(rows, 0) == Roots(rows);
    CountFlatLevel(rows, j, 0, depth);
    hide Flat, Roots, Level;
    if ReachesTop(rows, j) {
      var k: nat :| AtDepth(rows, j, k);
      DepthBelowCount(rows, j, k);
      assert Within(rows, j, 0, depth);
    }
  }

  /** The parents of the span lead to the top. */
  ghost predicate ReachesTop(rows: seq<Span>, j: nat)
    requires j < |rows|
  {
    exists k: nat :: AtDepth(rows, j, k)
  }

  lemma {:induction false} DepthBelowCount(rows: seq<Span>, j: nat, k: nat)
    requires j < |rows| && AtDepth(rows, j, k)
    ensures k < |rows|
  {
    var n := |rows|;
    assert Within(rows, j, 0, k + 1);
    TopOrAncestors(rows, j, k + 1);
    if k >= n {
      if Up(rows, j, n).None? {
        TopOrAncestors(rows, j, n);
        var e :| 0 <= e < n && AtDepth(rows, j, e);
        DepthIsUnique(rows, j, e, k);
      } else {
        EndlessAncestor(rows, j, k + 1);
      }
    }
  }

  /** With so many ancestors there are ancestors without end. */
  lemma {:induction false} EndlessAncestor(rows: seq<Span>, j: nat, m: nat)
    requires j < |rows| && Up(rows, j, |rows|).Some?
    ensures Up(rows, j, m).Some?
  {
    UpIsDefinedBelow(rows, j, |rows|);
    var up := Ancestors(rows, j, |rows|);
    Pigeonhole(up, |rows|);
    var a, b :| 0 <= a < b < |up| && up[a] == up[b];
    UpAdds(rows, j, a, b - a);
    if m <= a {
      UpIsDefinedBelow(rows, j, |rows|);
    } else {
      CycleNeverEnds(rows, up[a], b - a, m - a);
      UpAdds(rows, j, a, m - a);
    }
  }

  /** The forest holds every span exactly once if and only if the parent references have no cycle. */
  lemma {:induction false} CompleteIffNoCycle(rows: seq<Span>)
    ensures EverySpanOnce(rows) <==> NoCycle(rows)
  {
    hide Forest, OnCycle;
    if NoCycle(rows) {
      forall j | 0 <= j < |rows| ensures Times(Forest(rows), j) == 1 {
        NoCycleOccurs(rows, j);
      }
    }
    if EverySpanOnce(rows) {
      forall i | 0 <= i < |rows| ensures !OnCycle(rows, i) {
        OccurringIsOffCycle(rows, i);
      }
    }
  }

  ghost predicate EverySpanOnce(rows: seq<Span>) { forall j :: 0 <= j < |rows| ==> Times(Forest(rows), j) == 1 }

  ghost predicate NoCycle(rows: seq<Span>) { forall i :: 0 <= i < |rows| ==> !OnCycle(rows, i) }

  lemma NoCycleOccurs(rows: seq<Span>, j: nat)
    requires j < |rows| && NoCycle(rows)
    ensures Times(Forest(rows), j) == 1
  {
    OccursOnceOrNever(rows, j, |rows|);
    TopOrAncestors(rows, j, |rows|);
    if Up(rows, j, |rows|).Some? {
      TooManyAncestors(rows, j);
    }
  }

  lemma OccurringIsOffCycle(rows: seq<Span>, i: nat)
    requires i < |rows| && Times(Forest(rows), i) == 1
    ensures !OnCycle(rows, i)
  {
    OccursOnceOrNever(rows, i, |rows|);
    assert ReachesTop(rows, i);
    var k: nat :| AtDepth(rows, i, k);
    assert Within(rows, i, 0, k + 1);
    TopOrAncestors(rows, i, k + 1);
    if l :| l > 0 && Up(rows, i, l) == Some(i) {
      CycleNeverEnds(rows, i, l, k + 1);
    }
  }
}
