/** Facts about a log of admission times of which only a recent part is kept. */
module SlidingWindow {
  ghost predicate Ascending(h: seq<int>) {
    forall i, j :: 0 <= i <= j < |h| ==> h[i] <= h[j]
  }

  /** `buffer` is the end of the log, and what is missing from it happened at or before `cutoff`. */
  ghost predicate Remembers(h: seq<int>, buffer: seq<int>, cutoff: int) {
    && |buffer| <= |h|
    && (forall i :: 0 <= i < |buffer| ==> buffer[i] == h[|h| - |buffer| + i])
    && (forall i :: 0 <= i < |h| - |buffer| ==> h[i] <= cutoff)
  }

  /** Admission `i + limit` comes at least `gap` after admission `i`. */
  ghost predicate Spaced(h: seq<int>, limit: nat, gap: int) {
    forall i :: 0 <= i && i + limit < |h| ==> h[i] + gap <= h[i + limit]
  }

  /** Spacing means that no stretch of time shorter than `gap` holds more than `limit` admissions. */
  lemma SpacedMeansBounded(h: seq<int>, limit: nat, gap: int, i: nat, j: nat)
    requires Ascending(h) && Spaced(h, limit, gap) && i <= j < |h| && h[j] - h[i] < gap
    ensures j - i + 1 <= limit
  {
    assert i + limit < |h| ==> h[i] + gap <= h[i + limit];
    assert forall k :: i <= k <= j ==> h[k] <= h[j];
  }

  /** Two memories of one log, the one full and the other at least as long, agree on the full one's first entry. */
  lemma SameFirst(h: seq<int>, b: seq<int>, e: seq<int>, before: int, cutoff: int)
    requires Ascending(h) && Remembers(h, b, before) && Remembers(h, e, cutoff) && 0 < |b| <= |e|
    ensures e[0] <= b[0]
  {
    assert e[0] == h[|h| - |e|] && b[0] == h[|h| - |b|];
  }

  /** The entries of a sorted buffer later than the cutoff. */
  function Later(buffer: seq<int>, cutoff: int): seq<int> {
    if buffer == [] then [] else (if buffer[0] > cutoff then [buffer[0]] else []) + Later(buffer[1..], cutoff)
  }

  lemma {:induction false} LaterAll(buffer: seq<int>, cutoff: int)
    requires forall i :: 0 <= i < |buffer| ==> buffer[i] > cutoff
    ensures Later(buffer, cutoff) == buffer
  {
    if buffer != [] {
      LaterAll(buffer[1..], cutoff);
    }
  }

  lemma RememberedAscends(h: seq<int>, buffer: seq<int>, cutoff: int)
    requires Ascending(h) && Remembers(h, buffer, cutoff)
    ensures forall i :: 0 <= i < |buffer| ==> buffer[0] <= buffer[i]
  {
  }

  lemma ForgetFirst(h: seq<int>, buffer: seq<int>, before: int, cutoff: int)
    requires Remembers(h, buffer, before) && before <= cutoff && buffer != [] && buffer[0] <= cutoff
    ensures Remembers(h, buffer[1..], cutoff)
  {
    assert |h| - |buffer[1..]| == |h| - |buffer| + 1;
  }

  /** Filtering a remembered buffer keeps it a remembered buffer, with only live entries in it. */
  lemma {:induction false} LaterRemembers(h: seq<int>, buffer: seq<int>, before: int, cutoff: int)
    requires Ascending(h) && Remembers(h, buffer, before) && before <= cutoff
    ensures Remembers(h, Later(buffer, cutoff), cutoff)
    ensures forall i :: 0 <= i < |Later(buffer, cutoff)| ==> Later(buffer, cutoff)[i] > cutoff
    ensures |Later(buffer, cutoff)| <= |buffer|
    decreases |buffer|
  {
    if buffer != [] {
      if buffer[0] > cutoff {
        RememberedAscends(h, buffer, before);
        LaterAll(buffer, cutoff);
      } else {
        ForgetFirst(h, buffer, before, cutoff);
        LaterRemembers(h, buffer[1..], cutoff, cutoff);
      }
    }
  }

  /** Admitting one more when fewer than `limit` live entries are kept preserves the spacing. */
  lemma AdmitKeepsSpacing(h: seq<int>, buffer: seq<int>, limit: nat, gap: int, now: int)
    requires Ascending(h) && (forall i :: 0 <= i < |h| ==> h[i] <= now)
    requires Remembers(h, buffer, now - gap) && Spaced(h, limit, gap) && |buffer| < limit
    ensures Ascending(h + [now]) && Spaced(h + [now], limit, gap)
    ensures Remembers(h + [now], buffer + [now], now - gap)
  {
    var g := h + [now];
    forall i | 0 <= i && i + limit < |g| ensures g[i] + gap <= g[i + limit] {
      if i + limit == |h| {
        assert h[i] <= now - gap;
      } else {
        assert h[i] + gap <= h[i + limit];
      }
    }
  }
}
