/** packages/storage/src/search/hybrid.ts, rerankResults, and packages/storage/src/rerank/mock.ts */
module Rerank {
  import opened Prelude
  import I = Inversions

  datatype Chunk = Chunk(chunkId: string, memoryId: string, text: string, score: real)

  datatype Entry = Entry(score: real, index: nat)

  /** Higher scores first; equal scores in their original order, as a stable sort leaves them. */
  predicate Ahead(a: Entry, b: Entry) { a.score > b.score || (a.score == b.score && a.index < b.index) }

  function Insert(e: Entry, s: seq<Entry>): seq<Entry> {
    if s == [] then [e] else if s[|s| - 1].score >= e.score then s + [e] else Insert(e, s[..|s| - 1]) + [s[|s| - 1]]
  }

  /** Stable, by descending score. */
  function SortDescending(s: seq<Entry>): seq<Entry> {
    if s == [] then [] else Insert(s[|s| - 1], SortDescending(s[..|s| - 1]))
  }

  function Indexed(scores: seq<real>): seq<Entry> {
    seq(|scores|, i requires 0 <= i < |scores| => Entry(scores[i], i))
  }

  /** `slice(0, k)`, where a negative end counts from the back. */
  function Take<T>(s: seq<T>, k: int): seq<T> {
    if k >= 0 then s[..if k < |s| then k else |s|] else s[..if |s| + k > 0 then |s| + k else 0]
  }

  function IndicesOf(s: seq<Entry>): seq<int> { seq(|s|, i requires 0 <= i < |s| => s[i].index) }

  /** The chunks of the entries; an entry without a chunk is left out. */
  function ChunksOf(initial: seq<Chunk>, s: seq<Entry>): seq<Chunk> {
    if s == [] then []
    else (if s[0].index < |initial| then [initial[s[0].index]] else []) + ChunksOf(initial, s[1..])
  }

  datatype Answer = Answer(chunks: seq<Chunk>, swaps: Option<nat>)

  /** `scores` is what the reranker returned, if there is one. */
  function Rerank(initial: seq<Chunk>, scores: Option<seq<real>>, topK: int): Answer {
    if scores.None? || initial == [] then Answer(Take(initial, topK), None)
    else
      var final := Take(SortDescending(Indexed(scores.value)), topK);
      Answer(ChunksOf(initial, final), Some(I.Inversions(IndicesOf(final))))
  }

  method RerankResults(initial: seq<Chunk>, scores: Option<seq<real>>, topK: int) returns (a: Answer)
    ensures a == Rerank(initial, scores, topK)
  {
    if scores.None? || |initial| == 0 {
      return Answer(Take(initial, topK), None);
    }
    var final := Take(SortDescending(Indexed(scores.value)), topK);
    var swaps := I.CountInversions(IndicesOf(final));
    a := Answer(ChunksOf(initial, final), Some(swaps));
  }

  function MockScores(n: nat): seq<real> { seq(n, i requires 0 <= i < n => (n - i) as real) }

  // ----- The sort --------------------------------------------------------------------------------

  ghost predicate InOrder(s: seq<Entry>) { forall i, j :: 0 <= i < j < |s| ==> Ahead(s[i], s[j]) }

  /** The place of the new entry: behind all that are at least as good, before all that are worse. */
  lemma {:induction false} InsertAt(e: Entry, s: seq<Entry>) returns (i: nat)
    requires InOrder(s)
    ensures i <= |s| && Insert(e, s) == s[..i] + [e] + s[i..]
    ensures forall k :: 0 <= k < |s| ==> if k < i then s[k].score >= e.score else s[k].score < e.score
  {
    i := |s|;
    if s != [] && s[|s| - 1].score < e.score {
      i := InsertAt(e, s[..|s| - 1]);
    }
  }

  lemma InsertSorts(e: Entry, s: seq<Entry>)
    requires InOrder(s) && forall x :: x in s ==> x.index < e.index
    ensures InOrder(Insert(e, s)) && multiset(Insert(e, s)) == multiset(s) + multiset{e}
  {
    var i := InsertAt(e, s);
    hide Insert, InOrder;
    assert s == s[..i] + s[i..];
    forall k | 0 <= k < i ensures Ahead(s[..i][k], e) {
      assert s[k] in s;
    }
    forall k | 0 <= k < |s| - i ensures Ahead(e, s[i..][k]) {
      assert s[i + k] in s;
    }
    Spliced(s[..i], e, s[i..]);
  }

  lemma Spliced(p: seq<Entry>, e: Entry, q: seq<Entry>)
    requires InOrder(p + q)
    requires forall k :: 0 <= k < |p| ==> Ahead(p[k], e)
    requires forall k :: 0 <= k < |q| ==> Ahead(e, q[k])
    ensures InOrder(p + [e] + q)
  {
    hide Ahead;
    var s, t := p + q, p + [e] + q;
    forall i, j | 0 <= i < j < |t| ensures Ahead(t[i], t[j]) {
      var i', j' := if i > |p| then i - 1 else i, if j > |p| then j - 1 else j;
      if i != |p| && j != |p| {
        assert s[i'] == t[i] && s[j'] == t[j];
      } else if i == |p| {
        assert t[j] == q[j - |p| - 1];
      }
    }
  }

  lemma {:induction false} SortSorts(s: seq<Entry>)
    requires forall i, j :: 0 <= i < j < |s| ==> s[i].index < s[j].index
    ensures InOrder(SortDescending(s)) && multiset(SortDescending(s)) == multiset(s)
  {
    if s != [] {
      var init, last := s[..|s| - 1], s[|s| - 1];
      assert s == init + [last];
      SortSorts(init);
      forall x | x in SortDescending(init) ensures x.index < last.index {
        assert x in multiset(SortDescending(init));
        assert x in init;
      }
      InsertSorts(last, SortDescending(init));
    }
  }

  /** There is only one way to put entries in this order. */
  lemma {:induction false} OrderIsUnique(a: seq<Entry>, b: seq<Entry>)
    requires InOrder(a) && InOrder(b) && multiset(a) == multiset(b)
    ensures a == b
  {
    assert |a| == |multiset(a)| == |multiset(b)| == |b|;
    if a != [] {
      SameFirst(a, b);
      assert a == [a[0]] + a[1..] && b == [b[0]] + b[1..];
      assert multiset(a[1..]) == multiset(a) - multiset{a[0]};
      assert multiset(b[1..]) == multiset(b) - multiset{b[0]};
      OrderIsUnique(a[1..], b[1..]);
    }
  }

  lemma SameFirst(a: seq<Entry>, b: seq<Entry>)
    requires a != [] && b != [] && InOrder(a) && InOrder(b) && multiset(a) == multiset(b)
    ensures a[0] == b[0]
  {
    assert a[0] in multiset(b) && b[0] in multiset(a);
    FirstIsAhead(a, b[0]);
    FirstIsAhead(b, a[0]);
  }

  lemma FirstIsAhead(s: seq<Entry>, x: Entry)
    requires InOrder(s) && x in s
    ensures x == s[0] || Ahead(s[0], x)
  {
  }

  // ----- The result ------------------------------------------------------------------------------

  lemma {:induction false} IndexInRange(scores: seq<real>, e: Entry)
    ensures e in SortDescending(Indexed(scores)) <==> e.index < |scores| && scores[e.index] == e.score
  {
    SortSorts(Indexed(scores));
    assert e in SortDescending(Indexed(scores)) <==> e in multiset(Indexed(scores));
    if e.index < |scores| && scores[e.index] == e.score {
      assert Indexed(scores)[e.index] == e;
    }
  }

  lemma {:induction false} ChunkAt(initial: seq<Chunk>, s: seq<Entry>)
    requires forall e :: e in s ==> e.index < |initial|
    ensures |ChunksOf(initial, s)| == |s|
    ensures forall i :: 0 <= i < |s| ==> ChunksOf(initial, s)[i] == initial[s[i].index]
  {
    if s != [] {
      ChunkAt(initial, s[1..]);
    }
  }

  /**
   * With one score for each chunk: the answer is the chunks at certain places, best first;
   * every place that is kept is ahead of every place that is not.
   */
  lemma {:induction false} TopOfStableSort(initial: seq<Chunk>, scores: seq<real>, topK: int)
    requires |scores| == |initial| > 0
    ensures var all := SortDescending(Indexed(scores));
            var final := Take(all, topK);
            var a := Rerank(initial, Some(scores), topK);
            && InOrder(all) && multiset(all) == multiset(Indexed(scores))
            && |a.chunks| == |final| == |Take(initial, topK)|
            && (forall i :: 0 <= i < |final| ==> final[i].index < |initial| && a.chunks[i] == initial[final[i].index])
            && (forall x, y :: x in final && y in all && y !in final ==> Ahead(x, y))
  {
    hide Ahead, InOrder;
    var all := SortDescending(Indexed(scores));
    var final := Take(all, topK);
    assert forall i, j :: 0 <= i < j < |Indexed(scores)| ==> Indexed(scores)[i].index < Indexed(scores)[j].index;
    SortSorts(Indexed(scores));
    assert |all| == |multiset(all)| == |Indexed(scores)|;
    forall e | e in final ensures e.index < |initial| {
      assert e in all;
      IndexInRange(scores, e);
    }
    ChunkAt(initial, final);
    KeptAhead(all, topK);
  }

  lemma KeptAhead(all: seq<Entry>, topK: int)
    requires InOrder(all)
    ensures forall x, y :: x in Take(all, topK) && y in all && y !in Take(all, topK) ==> Ahead(x, y)
  {
    hide Ahead;
    var final := Take(all, topK);
    forall x, y | x in final && y in all && y !in final ensures Ahead(x, y) {
      var i :| 0 <= i < |final| && final[i] == x;
      var j :| 0 <= j < |all| && all[j] == y;
      assert forall k :: 0 <= k < |final| ==> final[k] in final && final[k] == all[k];
    }
  }

  ghost predicate Better(scores: seq<real>, x: int, y: int)
    requires 0 <= x < |scores| && 0 <= y < |scores|
  {
    scores[x] > scores[y] || (scores[x] == scores[y] && x < y)
  }

  /** As many as asked for, or all but so many; but no more than there are, and no fewer than none. */
  function Size(n: nat, topK: int): nat {
    if topK >= n then n else if topK >= 0 then topK else if n + topK >= 0 then n + topK else 0
  }

  /** The places of the best chunks, best first. */
  ghost predicate BestPlaces(scores: seq<real>, at: seq<int>) {
    && (forall i :: 0 <= i < |at| ==> 0 <= at[i] < |scores|)
    && (forall i, j :: 0 <= i < j < |at| ==> Better(scores, at[i], at[j]))
    && (forall i, y :: 0 <= i < |at| && 0 <= y < |scores| && y !in at ==> Better(scores, at[i], y))
  }

  /**
   * With one score for each chunk the answer holds the best chunks, best first and by their order in case of equal scores, as
   * many as asked for; and the number of swaps is that of the neighbours to be swapped to get there from the first order.
   */
  lemma {:induction false} BestAreKept(initial: seq<Chunk>, scores: seq<real>, topK: int) returns (at: seq<int>)
    requires |scores| == |initial| > 0
    ensures BestPlaces(scores, at)
    ensures var a := Rerank(initial, Some(scores), topK);
            && |a.chunks| == |at| == Size(|initial|, topK) && a.swaps == Some(I.Inversions(at))
            && forall i :: 0 <= i < |at| ==> a.chunks[i] == initial[at[i]]
  {
    var all := SortDescending(Indexed(scores));
    var final := Take(all, topK);
    at := IndicesOf(final);
    TopOfStableSort(initial, scores, topK);
    hide Rerank, SortDescending, Indexed, I.Inversions;
    forall e ensures e in all <==> e.index < |scores| && scores[e.index] == e.score {
      IndexInRange(scores, e);
    }
    PlacesOf(scores, all, final);
  }

  lemma PlacesOf(scores: seq<real>, all: seq<Entry>, final: seq<Entry>)
    requires InOrder(all) && final <= all
    requires forall e :: e in all <==> e.index < |scores| && scores[e.index] == e.score
    requires forall x, y :: x in final && y in all && y !in final ==> Ahead(x, y)
    ensures BestPlaces(scores, IndicesOf(final))
  {
    var at := IndicesOf(final);
    forall i | 0 <= i < |at| ensures final[i] in all && at[i] == final[i].index && final[i].score == scores[at[i]] {
      assert all[i] == final[i];
    }
    forall i, j | 0 <= i < j < |at| ensures Better(scores, at[i], at[j]) {
      assert Ahead(all[i], all[j]);
    }
    forall i, y | 0 <= i < |at| && 0 <= y < |scores| && y !in at ensures Better(scores, at[i], y) {
      var e := Entry(scores[y], y);
      IndexStays(final, e);
      assert Ahead(final[i], e);
    }
  }

  lemma IndexStays(s: seq<Entry>, e: Entry)
    ensures e in s ==> e.index in IndicesOf(s)
  {
    if e in s {
      var k :| 0 <= k < |s| && s[k] == e;
      assert IndicesOf(s)[k] == e.index;
    }
  }

  /** Without a reranker the first chunks are kept, and no swaps are reported. */
  lemma FirstAreKept(initial: seq<Chunk>, topK: int)
    ensures Rerank(initial, None, topK) == Answer(initial[..Size(|initial|, topK)], None)
  {
  }

  ghost predicate InFirstOrder(s: seq<Entry>) { forall i, j :: 0 <= i < j < |s| ==> s[i].index <= s[j].index }

  lemma AscendingIndices(s: seq<Entry>)
    ensures I.Ascending(IndicesOf(s)) <==> InFirstOrder(s)
  {
    var ix := IndicesOf(s);
    assert forall i :: 0 <= i < |s| ==> ix[i] == s[i].index;
  }

  /** No swap is reported exactly when the kept chunks are still in their first order. */
  lemma {:induction false} NoSwapsIffInOrder(initial: seq<Chunk>, scores: seq<real>, topK: int)
    requires initial != []
    ensures Rerank(initial, Some(scores), topK).swaps == Some(0) <==>
            InFirstOrder(Take(SortDescending(Indexed(scores)), topK))
  {
    hide InFirstOrder, I.Inversions, I.Ascending;
    var final := Take(SortDescending(Indexed(scores)), topK);
    I.NoneIffAscending(IndicesOf(final));
    AscendingIndices(final);
  }

  /** The mock reranker changes nothing: the chunks are those of a search without a reranker. */
  lemma {:induction false} MockChangesNothing(initial: seq<Chunk>, topK: int)
    requires initial != []
    ensures var a := Rerank(initial, Some(MockScores(|initial|)), topK);
            a.chunks == Rerank(initial, None, topK).chunks && a.swaps == Some(0)
  {
    var scores := MockScores(|initial|);
    var final := Take(SortDescending(Indexed(scores)), topK);
    MockPlaces(|initial|, topK);
    NoSwapsIffInOrder(initial, scores, topK);
    assert Rerank(initial, Some(scores), topK).chunks == ChunksOf(initial, final);
    hide Rerank, SortDescending, Indexed, MockScores;
    assert forall e :: e in final ==> e.index < |initial|;
    ChunkAt(initial, final);
    assert ChunksOf(initial, final) == initial[..|final|] == Take(initial, topK);
  }

  lemma MockPlaces(n: nat, topK: int)
    ensures var final := Take(SortDescending(Indexed(MockScores(n))), topK);
            |final| == Size(n, topK) && forall i :: 0 <= i < |final| ==> final[i].index == i
  {
    MockKeepsOrder(n);
  }

  lemma MockKeepsOrder(n: nat)
    ensures SortDescending(Indexed(MockScores(n))) == Indexed(MockScores(n))
  {
    var entries := Indexed(MockScores(n));
    hide SortDescending;
    assert forall i :: 0 <= i < |entries| ==> entries[i] == Entry((n - i) as real, i);
    SortSorts(entries);
    OrderIsUnique(entries, SortDescending(entries));
  }
}
