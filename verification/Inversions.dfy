/**
 * packages/storage/src/search/hybrid.ts, countInversions
 */
module Inversions {
  /** How many entries are smaller than `x`. */
  function Smaller(s: seq<int>, x: int): nat {
    if s == [] then 0 else (if s[0] < x then 1 else 0) + Smaller(s[1..], x)
  }

  /** The pairs that are out of order. */
  function Inversions(s: seq<int>): nat {
    if s == [] then 0 else Smaller(s[1..], s[0]) + Inversions(s[1..])
  }

  method CountInversions(items: seq<int>) returns (count: nat)
    ensures count == Inversions(items)
  {
    count := 0;
    for i := 0 to |items|
      invariant count + Inversions(items[i..]) == Inversions(items)
    {
      assert items[i..][1..] == items[i + 1..];
      ghost var before := count;
      for j := i + 1 to |items|
        invariant count + Smaller(items[j..], items[i]) == before + Smaller(items[i + 1..], items[i])
      {
        assert items[j..][1..] == items[j + 1..];
        if items[i] > items[j] {
          count := count + 1;
        }
      }
    }
  }

  // ----- What the count means ---------------------------------------------------------------------

  predicate Descends(s: seq<int>, k: nat) { k + 1 < |s| && s[k] > s[k + 1] }

  function Swapped(s: seq<int>, k: nat): seq<int>
    requires k + 1 < |s|
  {
    s[..k] + [s[k + 1], s[k]] + s[k + 2..]
  }

  ghost predicate Ascending(s: seq<int>) { forall i, j :: 0 <= i < j < |s| ==> s[i] <= s[j] }

  lemma {:induction false} SmallerSwapped(s: seq<int>, k: nat, x: int)
    requires k + 1 < |s|
    ensures Smaller(Swapped(s, k), x) == Smaller(s, x)
  {
    var t := Swapped(s, k);
    if k == 0 {
      assert t[1..][1..] == s[1..][1..] == s[2..];
    } else {
      assert t[1..] == Swapped(s[1..], k - 1);
      SmallerSwapped(s[1..], k - 1, x);
    }
  }

  /** Swapping two neighbours that are out of order removes exactly one inversion. */
  lemma {:induction false} SwapRemovesOne(s: seq<int>, k: nat)
    requires Descends(s, k)
    ensures Inversions(s) == Inversions(Swapped(s, k)) + 1
  {
    var t := Swapped(s, k);
    if k == 0 {
      var x, y, b := s[0], s[1], s[2..];
      assert s[1..] == [y] + b && t[1..] == [x] + b && s[1..][1..] == b && t[1..][1..] == b;
      assert Smaller(s[1..], x) == 1 + Smaller(b, x);
      assert Smaller(t[1..], y) == Smaller(b, y);
    } else {
      assert t[1..] == Swapped(s[1..], k - 1) && t[0] == s[0];
      SwapRemovesOne(s[1..], k - 1);
      SmallerSwapped(s[1..], k - 1, s[0]);
    }
  }

  lemma {:induction false} SmallerNone(s: seq<int>, x: int)
    ensures Smaller(s, x) == 0 <==> forall i :: 0 <= i < |s| ==> x <= s[i]
  {
    if s != [] {
      SmallerNone(s[1..], x);
      assert s == [s[0]] + s[1..];
    }
  }

  /** The count is zero exactly for a list in order. */
  lemma {:induction false} NoneIffAscending(s: seq<int>)
    ensures Inversions(s) == 0 <==> Ascending(s)
  {
    if s != [] {
      NoneIffAscending(s[1..]);
      SmallerNone(s[1..], s[0]);
      assert forall i :: 0 <= i < |s[1..]| ==> s[1..][i] == s[i + 1];
      assert Ascending(s) ==> Ascending(s[1..]);
      if Inversions(s) == 0 {
        forall i, j | 0 <= i < j < |s| ensures s[i] <= s[j] {
          assert s[j] == s[1..][j - 1];
          if i > 0 {
            assert s[i] == s[1..][i - 1];
          }
        }
      }
    }
  }

  /** The places are swapped one after the other, each time two neighbours out of order. */
  ghost predicate SwapsTo(s: seq<int>, places: seq<nat>, t: seq<int>)
    decreases |places|
  {
    if places == [] then s == t
    else Descends(s, places[0]) && SwapsTo(Swapped(s, places[0]), places[1..], t)
  }

  /** However a list is sorted by swapping neighbours that are out of order, it takes as many swaps as it has inversions. */
  lemma {:induction false} SwapsToSort(s: seq<int>, places: seq<nat>, t: seq<int>)
    requires SwapsTo(s, places, t) && Ascending(t)
    ensures |places| == Inversions(s)
    decreases |places|
  {
    if places == [] {
      NoneIffAscending(s);
    } else {
      SwapsToSort(Swapped(s, places[0]), places[1..], t);
      SwapRemovesOne(s, places[0]);
    }
  }

  lemma {:induction false} SwapsToSnoc(s: seq<int>, places: seq<nat>, t: seq<int>, k: nat)
    requires SwapsTo(s, places, t) && Descends(t, k)
    ensures SwapsTo(s, places + [k], Swapped(t, k))
    decreases |places|
  {
    if places == [] {
      assert [k][1..] == [];
      assert places + [k] == [k];
    } else {
      assert (places + [k])[1..] == places[1..] + [k];
      SwapsToSnoc(Swapped(s, places[0]), places[1..], t, k);
    }
  }

  /** Bubble sort, the reference that the source's comment names, makes just that many swaps. */
  method BubbleSort(s: seq<int>) returns (t: seq<int>, places: seq<nat>)
    ensures Ascending(t) && SwapsTo(s, places, t) && |places| == Inversions(s)
  {
    t, places := s, [];
    var swapped := true;
    while swapped
      invariant SwapsTo(s, places, t)
      invariant !swapped ==> forall k :: 0 <= k < |t| - 1 ==> t[k] <= t[k + 1]
      decreases Inversions(t), swapped
    {
      swapped := false;
      ghost var before := t;
      for k := 0 to |t|
        invariant |t| == |before| && SwapsTo(s, places, t)
        invariant if swapped then Inversions(t) < Inversions(before) else t == before
        invariant !swapped ==> forall i :: 0 <= i < k && i + 1 < |t| ==> t[i] <= t[i + 1]
      {
        if k + 1 < |t| && t[k] > t[k + 1] {
          SwapsToSnoc(s, places, t, k);
          SwapRemovesOne(t, k);
          t, places := Swapped(t, k), places + [k];
          swapped := true;
        }
      }
    }
    NeighboursAscend(t);
    SwapsToSort(s, places, t);
  }

  lemma {:induction false} NeighboursAscend(s: seq<int>)
    requires forall k :: 0 <= k < |s| - 1 ==> s[k] <= s[k + 1]
    ensures Ascending(s)
  {
    if s != [] {
      var init := s[..|s| - 1];
      NeighboursAscend(init);
      forall i, j | 0 <= i < j < |s| ensures s[i] <= s[j] {
        if j == |s| - 1 && i < j - 1 {
          assert init[i] <= init[j - 1] && s[j - 1] <= s[j];
        } else if j < |s| - 1 {
          assert init[i] <= init[j];
        }
      }
    }
  }
}
