/**
 * packages/server/src/gateway/rate-limit.ts
 *
 * One sliding window per key. `order` is the insertion order of the source's Map, from
 * which the oldest key is evicted when there are too many.
 */
module RequestLimit {
  import opened Prelude
  import W = SlidingWindow

  datatype Config = Config(windowMs: nat, maxRequests: nat, maxKeys: nat)

  datatype Value = Value(order: seq<string>, windows: map<string, seq<int>>)

  datatype Decision = Allowed(remaining: nat) | Refused(retryAfterMs: int)

  const Empty := Value([], map[])

  function Buffer(v: Value, key: string): seq<int> { GetOr(v.windows, key, []) }

  /** The key that makes room for a new one. */
  function Evicts(c: Config, v: Value, key: string): Option<string> {
    if key !in v.windows && |v.order| >= c.maxKeys && v.order != [] then Some(v.order[0]) else None
  }

  /** The entry of the key exists afterwards. */
  function Touch(c: Config, v: Value, key: string): Value {
    if key in v.windows then v
    else
      var w := if Evicts(c, v, key).Some? then Value(v.order[1..], v.windows - {v.order[0]}) else v;
      Value(w.order + [key], w.windows[key := []])
  }

  function DoCheck(c: Config, v: Value, key: string, now: int): (Value, Decision) {
    var w := Touch(c, v, key);
    var live := W.Later(Buffer(w, key), now - c.windowMs);
    if |live| >= c.maxRequests then
      (w.(windows := w.windows[key := live]), Refused((if live == [] then now else live[0]) + c.windowMs - now))
    else
      var entries := live + [now];
      (w.(windows := w.windows[key := entries]),
       Allowed(if c.maxRequests < |entries| then 0 else c.maxRequests - |entries|))
  }

  /** `cleanup`, over the keys from `ks` on. */
  function DoCleanup(c: Config, v: Value, now: int, ks: seq<string>): Value
    decreases |ks|
  {
    if ks == [] then v
    else
      var live := W.Later(Buffer(v, ks[0]), now - c.windowMs);
      var w := if live == [] then Value(Without(v.order, ks[0]), v.windows - {ks[0]})
               else v.(windows := v.windows[ks[0] := live]);
      DoCleanup(c, w, now, ks[1..])
  }

  function Without(ks: seq<string>, k: string): seq<string> {
    if ks == [] then [] else (if ks[0] == k then [] else [ks[0]]) + Without(ks[1..], k)
  }

  class RequestRateLimiter {
    const config: Config
    var order: seq<string>
    var windows: map<string, seq<int>>

    function Contents(): Value
      reads this
    {
      Value(order, windows)
    }

    constructor (config: Config)
      ensures this.config == config && Contents() == Empty
    {
      this.config := config;
      order, windows := [], map[];
    }

    method Check(key: string, now: int) returns (d: Decision)
      modifies this
      ensures (Contents(), d) == DoCheck(config, old(Contents()), key, now)
    {
      hide W.Later;
      var windowStart := now - config.windowMs;
      ghost var w := Touch(config, Contents(), key);
      if key !in windows {
        if |order| >= config.maxKeys && |order| > 0 {
          windows := windows - {order[0]};
          order := order[1..];
        }
        order := order + [key];
        windows := windows[key := []];
      }
      assert Contents() == w;
      hide Touch, Evicts;
      ghost var touched := windows;
      windows := windows[key := W.Later(windows[key], windowStart)];
      if |windows[key]| >= config.maxRequests {
        var oldestInWindow := if windows[key] == [] then now else windows[key][0];
        return Refused(oldestInWindow + config.windowMs - now);
      }
      windows := windows[key := windows[key] + [now]];
      assert windows == touched[key := W.Later(touched[key], windowStart) + [now]];
      d := Allowed(if config.maxRequests < |windows[key]| then 0 else config.maxRequests - |windows[key]|);
    }

    method Cleanup(now: int)
      modifies this
      ensures Contents() == DoCleanup(config, old(Contents()), now, old(order))
    {
      var ks := order;
      var i := 0;
      assert ks[0..] == ks;
      while i < |ks|
        invariant i <= |ks|
        invariant DoCleanup(config, Contents(), now, ks[i..]) == DoCleanup(config, old(Contents()), now, ks)
      {
        var key := ks[i];
        assert ks[i..][1..] == ks[i + 1..];
        var live := W.Later(GetOr(windows, key, []), now - config.windowMs);
        if live == [] {
          order := Without(order, key);
          windows := windows - {key};
        } else {
          windows := windows[key := live];
        }
        i := i + 1;
      }
    }
  }

  // ----- Runs ----------------------------------------------------------------------------

  /** `log`: per key, the admissions since the key was last evicted. */
  datatype Sys = Sys(v: Value, now: int, log: map<string, seq<int>>)

  datatype Event = CheckAt(key: string, now: int) | CleanupAt(now: int)

  function Init(start: int): Sys { Sys(Empty, start, map[]) }

  /** The clock never goes back. */
  predicate Enabled(s: Sys, e: Event) { e.now >= s.now }

  function Log(s: Sys, key: string): seq<int> { GetOr(s.log, key, []) }

  function Step(c: Config, s: Sys, e: Event): Sys {
    match e
    case CheckAt(key, now) =>
      var (w, d) := DoCheck(c, s.v, key, now);
      var kept := if Evicts(c, s.v, key).Some? then s.log - {Evicts(c, s.v, key).value} else s.log;
      Sys(w, now, if d.Allowed? then kept[key := GetOr(kept, key, []) + [now]] else kept)
    case CleanupAt(now) => Sys(DoCleanup(c, s.v, now, s.v.order), now, s.log)
  }

  predicate Feasible(c: Config, s: Sys, es: seq<Event>)
    decreases |es|
  {
    es == [] || (Enabled(s, es[0]) && Feasible(c, Step(c, s, es[0]), es[1..]))
  }

  function Run(c: Config, s: Sys, es: seq<Event>): Sys
    decreases |es|
  {
    if es == [] then s else Run(c, Step(c, s, es[0]), es[1..])
  }

  /** What the buffer of one key knows about the log of that key. */
  ghost predicate LogOk(c: Config, h: seq<int>, buffer: seq<int>, now: int) {
    && W.Ascending(h) && (forall i :: 0 <= i < |h| ==> h[i] <= now)
    && W.Remembers(h, buffer, now - c.windowMs)
    && W.Spaced(h, c.maxRequests, c.windowMs)
    && |buffer| <= c.maxRequests
  }

  ghost predicate Inv(c: Config, s: Sys) {
    && (forall key :: LogOk(c, Log(s, key), Buffer(s.v, key), s.now))
    && OrderOk(s.v) && |s.v.order| <= Capacity(c)
  }

  /** Keys are inserted once. */
  ghost predicate OrderOk(v: Value) {
    && (forall x :: x in v.order <==> x in v.windows)
    && (forall i, j :: 0 <= i < j < |v.order| ==> v.order[i] != v.order[j])
  }

  function Capacity(c: Config): nat { if c.maxKeys == 0 then 1 else c.maxKeys }

  lemma TimePasses(c: Config, h: seq<int>, buffer: seq<int>, now: int, later: int)
    requires LogOk(c, h, buffer, now) && now <= later
    ensures LogOk(c, h, buffer, later)
  {
  }

  lemma EmptyLog(c: Config, now: int)
    ensures LogOk(c, [], [], now)
  {
  }

  lemma FilterKeeps(c: Config, h: seq<int>, buffer: seq<int>, now: int)
    requires LogOk(c, h, buffer, now)
    ensures LogOk(c, h, W.Later(buffer, now - c.windowMs), now)
  {
    W.LaterRemembers(h, buffer, now - c.windowMs, now - c.windowMs);
  }

  lemma AdmitKeeps(c: Config, h: seq<int>, buffer: seq<int>, now: int)
    requires LogOk(c, h, buffer, now) && |buffer| < c.maxRequests
    ensures LogOk(c, h + [now], buffer + [now], now)
  {
    W.AdmitKeepsSpacing(h, buffer, c.maxRequests, c.windowMs, now);
  }

  /** What `check` does to the buffer and the log of each key. */
  lemma CheckAtKey(c: Config, s: Sys, key: string, now: int, x: string)
    ensures var t := Step(c, s, CheckAt(key, now));
            var gone := Evicts(c, s.v, key) == Some(x) && x != key;
            var h, b := if gone then [] else Log(s, x), if gone then [] else Buffer(s.v, x);
            var live := W.Later(b, now - c.windowMs);
            if x != key then Log(t, x) == h && Buffer(t.v, x) == b
            else if |live| < c.maxRequests then Log(t, x) == h + [now] && Buffer(t.v, x) == live + [now]
            else Log(t, x) == h && Buffer(t.v, x) == live
    requires Evicts(c, s.v, key) != Some(key)
  {
  }

  lemma CheckKeepsInv(c: Config, s: Sys, key: string, now: int)
    requires Inv(c, s) && now >= s.now
    ensures Inv(c, Step(c, s, CheckAt(key, now)))
  {
    var t := Step(c, s, CheckAt(key, now));
    assert s.v.order != [] ==> s.v.order[0] in s.v.windows;
    forall x ensures LogOk(c, Log(t, x), Buffer(t.v, x), now) {
      hide LogOk;
      CheckAtKey(c, s, key, now, x);
      assert LogOk(c, Log(s, x), Buffer(s.v, x), s.now);
      var gone := Evicts(c, s.v, key) == Some(x) && x != key;
      var h, b := if gone then [] else Log(s, x), if gone then [] else Buffer(s.v, x);
      if gone {
        EmptyLog(c, now);
      } else {
        TimePasses(c, h, b, s.now, now);
      }
      FilterKeeps(c, h, b, now);
      var live := W.Later(b, now - c.windowMs);
      if x == key && |live| < c.maxRequests {
        AdmitKeeps(c, h, live, now);
      }
    }
    CheckKeepsOrder(c, s.v, key, now);
  }

  lemma CheckKeepsOrder(c: Config, v: Value, key: string, now: int)
    requires OrderOk(v) && |v.order| <= Capacity(c)
    ensures var w := DoCheck(c, v, key, now).0; OrderOk(w) && |w.order| <= Capacity(c)
  {
    TouchKeepsOrder(c, v, key);
    hide Touch, W.Later;
  }

  lemma TouchKeepsOrder(c: Config, v: Value, key: string)
    requires OrderOk(v) && |v.order| <= Capacity(c)
    ensures var w := Touch(c, v, key); OrderOk(w) && |w.order| <= Capacity(c) && key in w.windows
  {
    if key !in v.windows {
      var w := if Evicts(c, v, key).Some? then Value(v.order[1..], v.windows - {v.order[0]}) else v;
      if Evicts(c, v, key).Some? {
        EvictKeepsOrder(v);
      }
      InsertKeepsOrder(w, key);
    }
  }

  lemma EvictKeepsOrder(v: Value)
    requires OrderOk(v) && v.order != []
    ensures OrderOk(Value(v.order[1..], v.windows - {v.order[0]}))
  {
    assert v.order == [v.order[0]] + v.order[1..];
    assert forall i :: 0 <= i < |v.order[1..]| ==> v.order[1..][i] == v.order[i + 1];
    assert v.order[0] !in v.order[1..];
  }

  lemma InsertKeepsOrder(v: Value, key: string)
    requires OrderOk(v) && key !in v.windows
    ensures OrderOk(Value(v.order + [key], v.windows[key := []]))
  {
    assert key !in v.order;
  }

  lemma {:induction false} WithoutMeans(ks: seq<string>, k: string)
    requires forall i, j :: 0 <= i < j < |ks| ==> ks[i] != ks[j]
    ensures forall x :: x in Without(ks, k) <==> x in ks && x != k
    ensures forall i, j :: 0 <= i < j < |Without(ks, k)| ==> Without(ks, k)[i] != Without(ks, k)[j]
    ensures |Without(ks, k)| <= |ks|
  {
    if ks != [] {
      assert forall i, j :: 0 <= i < j < |ks[1..]| ==> ks[1..][i] == ks[i + 1] && ks[1..][j] == ks[j + 1];
      WithoutMeans(ks[1..], k);
      assert ks == [ks[0]] + ks[1..];
      assert ks[0] !in ks[1..];
    }
  }

  /** Cleanup filters the buffer of each visited key and forgets no other. */
  lemma {:induction false} CleanupAtKey(c: Config, v: Value, now: int, ks: seq<string>, x: string)
    ensures Buffer(DoCleanup(c, v, now, ks), x) == Buffer(v, x)
         || Buffer(DoCleanup(c, v, now, ks), x) == W.Later(Buffer(v, x), now - c.windowMs)
    decreases |ks|
  {
    if ks != [] {
      var live := W.Later(Buffer(v, ks[0]), now - c.windowMs);
      var w := if live == [] then Value(Without(v.order, ks[0]), v.windows - {ks[0]})
               else v.(windows := v.windows[ks[0] := live]);
      CleanupAtKey(c, w, now, ks[1..], x);
      LaterTwice(Buffer(v, x), now - c.windowMs);
      assert Buffer(w, x) == if x == ks[0] then live else Buffer(v, x);
    }
  }

  lemma {:induction false} LaterTwice(b: seq<int>, cutoff: int)
    ensures W.Later(W.Later(b, cutoff), cutoff) == W.Later(b, cutoff)
  {
    if b != [] {
      LaterTwice(b[1..], cutoff);
      if b[0] > cutoff {
        assert W.Later(b, cutoff)[1..] == W.Later(b[1..], cutoff);
      } else {
        assert W.Later(b, cutoff) == W.Later(b[1..], cutoff);
      }
    }
  }

  lemma {:induction false} CleanupKeepsOrder(c: Config, v: Value, now: int, ks: seq<string>)
    requires OrderOk(v) && (forall i :: 0 <= i < |ks| ==> ks[i] in v.windows)
    requires forall i, j :: 0 <= i < j < |ks| ==> ks[i] != ks[j]
    ensures var w := DoCleanup(c, v, now, ks); OrderOk(w) && |w.order| <= |v.order|
    decreases |ks|
  {
    if ks != [] {
      var w := VisitKeepsOrder(c, v, now, ks);
      hide OrderOk;
      CleanupKeepsOrder(c, w, now, ks[1..]);
    }
  }

  /** One turn of the cleanup loop. */
  lemma VisitKeepsOrder(c: Config, v: Value, now: int, ks: seq<string>) returns (w: Value)
    requires OrderOk(v) && ks != [] && (forall i :: 0 <= i < |ks| ==> ks[i] in v.windows)
    requires forall i, j :: 0 <= i < j < |ks| ==> ks[i] != ks[j]
    ensures DoCleanup(c, v, now, ks) == DoCleanup(c, w, now, ks[1..])
    ensures OrderOk(w) && |w.order| <= |v.order|
    ensures forall i :: 0 <= i < |ks[1..]| ==> ks[1..][i] in w.windows
    ensures forall i, j :: 0 <= i < j < |ks[1..]| ==> ks[1..][i] != ks[1..][j]
  {
    var live := W.Later(Buffer(v, ks[0]), now - c.windowMs);
    w := if live == [] then Value(Without(v.order, ks[0]), v.windows - {ks[0]})
         else v.(windows := v.windows[ks[0] := live]);
    assert DoCleanup(c, v, now, ks) == DoCleanup(c, w, now, ks[1..]);
    hide DoCleanup, W.Later;
    if live == [] {
      DeleteKeepsOrder(v, ks[0]);
    }
    assert forall i :: 0 <= i < |ks[1..]| ==> ks[1..][i] == ks[i + 1];
  }

  lemma DeleteKeepsOrder(v: Value, k: string)
    requires OrderOk(v)
    ensures OrderOk(Value(Without(v.order, k), v.windows - {k})) && |Without(v.order, k)| <= |v.order|
  {
    hide Without;
    WithoutMeans(v.order, k);
  }

  lemma CleanupKeepsInv(c: Config, s: Sys, now: int)
    requires Inv(c, s) && now >= s.now
    ensures Inv(c, Step(c, s, CleanupAt(now)))
  {
    var t := Step(c, s, CleanupAt(now));
    forall x ensures LogOk(c, Log(t, x), Buffer(t.v, x), now) {
      hide LogOk;
      CleanupAtKey(c, s.v, now, s.v.order, x);
      assert LogOk(c, Log(s, x), Buffer(s.v, x), s.now);
      TimePasses(c, Log(s, x), Buffer(s.v, x), s.now, now);
      FilterKeeps(c, Log(s, x), Buffer(s.v, x), now);
    }
    CleanupKeepsOrder(c, s.v, now, s.v.order);
  }

  lemma {:induction false} RunKeepsInv(c: Config, s: Sys, es: seq<Event>)
    requires Inv(c, s) && Feasible(c, s, es)
    ensures Inv(c, Run(c, s, es))
    decreases |es|
  {
    if es != [] {
      match es[0] {
        case CheckAt(key, now) => CheckKeepsInv(c, s, key, now);
        case CleanupAt(now) => CleanupKeepsInv(c, s, now);
      }
      RunKeepsInv(c, Step(c, s, es[0]), es[1..]);
    }
  }

  /**
   * Whatever the requests and cleanups, any stretch of time shorter than the window holds
   * at most `maxRequests` admissions of a key since it was last evicted.
   */
  lemma {:induction false} WindowBound(c: Config, start: int, es: seq<Event>, key: string, i: nat, j: nat)
    requires Feasible(c, Init(start), es)
    requires var h := Log(Run(c, Init(start), es), key); i <= j < |h| && h[j] - h[i] < c.windowMs
    ensures j - i + 1 <= c.maxRequests
  {
    EmptyLog(c, start);
    RunKeepsInv(c, Init(start), es);
    var s := Run(c, Init(start), es);
    assert LogOk(c, Log(s, key), Buffer(s.v, key), s.now);
    W.SpacedMeansBounded(Log(s, key), c.maxRequests, c.windowMs, i, j);
  }

  /** The table holds at most `maxKeys` keys (or one, if that is zero). */
  lemma {:induction false} TableBound(c: Config, start: int, es: seq<Event>)
    requires Feasible(c, Init(start), es)
    ensures |Run(c, Init(start), es).v.order| <= Capacity(c)
  {
    EmptyLog(c, start);
    RunKeepsInv(c, Init(start), es);
  }

  /** Cleanup never forgets an admission that still counts. */
  lemma {:induction false} CleanupIsInvisible(c: Config, s: Sys, key: string, now: int, later: int)
    requires Inv(c, s) && s.now <= now <= later
    ensures var t := Step(c, s, CleanupAt(now));
            W.Later(Buffer(t.v, key), later - c.windowMs) == W.Later(Buffer(s.v, key), later - c.windowMs)
  {
    CleanupAtKey(c, s.v, now, s.v.order, key);
    LaterAbsorbs(Buffer(s.v, key), now - c.windowMs, later - c.windowMs);
  }

  lemma {:induction false} LaterAbsorbs(b: seq<int>, low: int, high: int)
    requires low <= high
    ensures W.Later(W.Later(b, low), high) == W.Later(b, high)
  {
    if b != [] {
      LaterAbsorbs(b[1..], low, high);
      if b[0] > low {
        assert W.Later(b, low)[1..] == W.Later(b[1..], low);
      } else {
        assert W.Later(b, low) == W.Later(b[1..], low);
      }
    }
  }

  /** The times at which requests of the key are admitted in a run, evictions or not. */
  function Admissions(c: Config, s: Sys, es: seq<Event>, key: string): seq<int>
    decreases |es|
  {
    if es == [] then [] else AdmittedBy(c, s, es[0], key) + Admissions(c, Step(c, s, es[0]), es[1..], key)
  }

  function AdmittedBy(c: Config, s: Sys, e: Event, key: string): seq<int> {
    if e.CheckAt? && e.key == key && DoCheck(c, s.v, key, e.now).1.Allowed? then [e.now] else []
  }

  /** Without admissions the log of a key stays as it is, or is cleared by an eviction. */
  lemma {:induction false} LogStaysOrGoes(c: Config, s: Sys, es: seq<Event>, key: string)
    requires Inv(c, s) && Feasible(c, s, es) && Admissions(c, s, es, key) == []
    ensures Log(Run(c, s, es), key) == Log(s, key) || Log(Run(c, s, es), key) == []
    decreases |es|
  {
    hide Inv, Step, DoCheck;
    if es != [] {
      RunKeepsInv(c, s, [es[0]]);
      assert es[..1] == [es[0]] && Run(c, s, [es[0]]) == Run(c, Step(c, s, es[0]), []);
      LogOfStep(c, s, es[0], key);
      LogStaysOrGoes(c, Step(c, s, es[0]), es[1..], key);
    }
  }

  lemma LogOfStep(c: Config, s: Sys, e: Event, key: string)
    requires Inv(c, s)
    ensures var g := if e.CheckAt? && e.key != key && Evicts(c, s.v, e.key) == Some(key) then [] else Log(s, key);
            Log(Step(c, s, e), key) == g + AdmittedBy(c, s, e, key)
  {
    if e.CheckAt? {
      assert Evicts(c, s.v, e.key) != Some(e.key);
      hide Inv, DoCheck, W.Later, Evicts, Step;
      CheckAtKey(c, s, e.key, e.now, key);
      CheckIsAboutItsKey(c, s.v, e.key, e.now);
    }
  }

  /**
   * A refused caller that waits `retryAfterMs` is admitted, whatever other keys did in
   * between, as long as no other request of its key was admitted. An eviction of the key does
   * no harm.
   */
  lemma {:induction false} WaitingWorks(c: Config, s: Sys, key: string, now: int, es: seq<Event>, later: int)
    requires Inv(c, s) && now >= s.now && c.maxRequests > 0
    requires DoCheck(c, s.v, key, now).1.Refused?
    requires var t := Step(c, s, CheckAt(key, now));
             && Feasible(c, t, es)
             && Admissions(c, t, es, key) == []
             && later >= Run(c, t, es).now
             && later >= now + DoCheck(c, s.v, key, now).1.retryAfterMs
    ensures DoCheck(c, Run(c, Step(c, s, CheckAt(key, now)), es).v, key, later).1.Allowed?
  {
    var t := Step(c, s, CheckAt(key, now));
    CheckKeepsInv(c, s, key, now);
    RunKeepsInv(c, t, es);
    LogOfStep(c, s, CheckAt(key, now), key);
    LogStaysOrGoes(c, t, es, key);
    var u := Run(c, t, es);
    var h, b, d := Log(s, key), Buffer(s.v, key), Buffer(u.v, key);
    assert LogOk(c, h, b, s.now) && LogOk(c, Log(u, key), d, u.now);
    CheckIsAboutItsKey(c, s.v, key, now);
    CheckIsAboutItsKey(c, u.v, key, later);
    if Log(u, key) == h {
      hide LogOk, Step, Run, Feasible, Inv;
      ForgottenIsEmpty(c, h, b, d, s.now, now, u.now, later);
    } else {
      assert d == [];
    }
  }

  /** The decision depends on the buffer of the key alone. */
  lemma CheckIsAboutItsKey(c: Config, v: Value, key: string, now: int)
    ensures DoCheck(c, v, key, now).1 == Decide(c, W.Later(Buffer(v, key), now - c.windowMs), now)
  {
    hide W.Later;
    if key !in v.windows {
      assert Buffer(Touch(c, v, key), key) == [] == Buffer(v, key);
    }
  }

  function Decide(c: Config, live: seq<int>, now: int): Decision {
    if |live| >= c.maxRequests then Refused((if live == [] then now else live[0]) + c.windowMs - now)
    else Allowed(c.maxRequests - |live| - 1)
  }

  lemma ForgottenIsEmpty(c: Config, h: seq<int>, b: seq<int>, d: seq<int>, before: int, now: int, after: int, later: int)
    requires LogOk(c, h, b, before) && LogOk(c, h, d, after) && before <= now && after <= later && c.maxRequests > 0
    requires var r := Decide(c, W.Later(b, now - c.windowMs), now);
             r.Refused? && later >= now + r.retryAfterMs
    ensures Decide(c, W.Later(d, later - c.windowMs), later).Allowed?
  {
    hide W.Later;
    var live, e := W.Later(b, now - c.windowMs), W.Later(d, later - c.windowMs);
    W.LaterRemembers(h, b, before - c.windowMs, now - c.windowMs);
    W.LaterRemembers(h, d, after - c.windowMs, later - c.windowMs);
    if |e| >= c.maxRequests {
      W.SameFirst(h, live, e, now - c.windowMs, later - c.windowMs);
    }
  }

  /**
   * The bound does not reach across an eviction: with room for one key, two keys in turn are
   * each admitted as often as they like.
   */
  lemma EvictionForgets(now: int)
    ensures var c := Config(60000, 1, 1);
            var s := Step(c, Step(c, Init(now), CheckAt("a", now)), CheckAt("b", now));
            && DoCheck(c, Init(now).v, "a", now).1.Allowed?
            && DoCheck(c, s.v, "a", now).1.Allowed?
  {
    var c := Config(60000, 1, 1);
    var s := Step(c, Init(now), CheckAt("a", now));
    assert s.v.order == ["a"] && s.v.windows.Keys == {"a"};
    var t := Step(c, s, CheckAt("b", now));
    assert t.v.order == ["b"] && "a" !in t.v.windows;
  }

  /** `remaining` is exact: so many more requests of the key are admitted at the same time, and then no more. */
  lemma {:induction false} RemainingCountsDown(c: Config, v: Value, key: string, now: int)
    requires c.windowMs > 0 && DoCheck(c, v, key, now).1.Allowed?
    ensures var (w, d) := DoCheck(c, v, key, now);
            var again := DoCheck(c, w, key, now).1;
            if d.remaining > 0 then again == Allowed(d.remaining - 1) else again.Refused?
  {
    var cutoff := now - c.windowMs;
    var live := W.Later(Buffer(Touch(c, v, key), key), cutoff);
    LaterIsLate(Buffer(Touch(c, v, key), key), cutoff);
    W.LaterAll(live + [now], cutoff);
  }

  lemma {:induction false} LaterIsLate(b: seq<int>, cutoff: int)
    ensures forall i :: 0 <= i < |W.Later(b, cutoff)| ==> W.Later(b, cutoff)[i] > cutoff
  {
    if b != [] {
      LaterIsLate(b[1..], cutoff);
    }
  }

  /** A limit of zero refuses every request, however long the caller waits. */
  lemma ZeroLimitRefusesAll(c: Config, v: Value, key: string, now: int)
    requires c.maxRequests == 0
    ensures DoCheck(c, v, key, now).1.Refused?
  {
  }

  // ----- Exactly when the bound survives evictions ---------------------------------------------

  ghost predicate OnlyKeys(es: seq<Event>, keys: set<string>) {
    forall e :: e in es && e.CheckAt? ==> e.key in keys
  }

  /** No stretch of time shorter than the window holds more than `maxRequests` of the times. */
  ghost predicate WithinLimit(c: Config, h: seq<int>) {
    forall i, j :: 0 <= i <= j < |h| && h[j] - h[i] < c.windowMs ==> j - i + 1 <= c.maxRequests
  }

  /** Whatever requests of these keys are made, the limit is kept for every one of them. */
  ghost predicate AlwaysWithin(c: Config, keys: set<string>) {
    forall start, es, key :: Feasible(c, Init(start), es) && OnlyKeys(es, keys) ==>
      WithinLimit(c, Admissions(c, Init(start), es, key))
  }

  ghost predicate TableWithin(v: Value, keys: set<string>) { forall x :: x in v.order ==> x in keys }

  lemma {:induction false} DistinctInSet(ks: seq<string>, keys: set<string>)
    requires forall i, j :: 0 <= i < j < |ks| ==> ks[i] != ks[j]
    requires forall x :: x in ks ==> x in keys
    ensures |ks| <= |keys|
  {
    if ks != [] {
      var n := |ks| - 1;
      assert forall x :: x in ks[..n] ==> x in ks;
      assert ks[n] !in ks[..n];
      DistinctInSet(ks[..n], keys - {ks[n]});
    }
  }

  /** A table that has room for every key in use never evicts. */
  lemma RoomForAll(c: Config, s: Sys, key: string, keys: set<string>)
    requires Inv(c, s) && TableWithin(s.v, keys) && key in keys && |keys| <= Capacity(c)
    ensures Evicts(c, s.v, key).None?
  {
    hide LogOk;
    if key !in s.v.windows {
      DistinctInSet(s.v.order, keys - {key});
    }
  }

  lemma {:induction false} WithoutIsPart(ks: seq<string>, k: string)
    ensures forall x :: x in Without(ks, k) ==> x in ks
  {
    if ks != [] {
      WithoutIsPart(ks[1..], k);
    }
  }

  lemma {:induction false} CleanupKeepsWithin(c: Config, v: Value, now: int, ks: seq<string>, keys: set<string>)
    requires TableWithin(v, keys)
    ensures TableWithin(DoCleanup(c, v, now, ks), keys)
    decreases |ks|
  {
    if ks != [] {
      var live := W.Later(Buffer(v, ks[0]), now - c.windowMs);
      var w := if live == [] then Value(Without(v.order, ks[0]), v.windows - {ks[0]})
               else v.(windows := v.windows[ks[0] := live]);
      WithoutIsPart(v.order, ks[0]);
      CleanupKeepsWithin(c, w, now, ks[1..], keys);
    }
  }

  lemma StepKeepsWithin(c: Config, s: Sys, e: Event, keys: set<string>)
    requires Inv(c, s) && TableWithin(s.v, keys) && (e.CheckAt? ==> e.key in keys) && |keys| <= Capacity(c)
    ensures TableWithin(Step(c, s, e).v, keys) && forall key :: Log(Step(c, s, e), key) == Log(s, key) + AdmittedBy(c, s, e, key)
  {
    match e
    case CheckAt(k, now) =>
      RoomForAll(c, s, k, keys);
      hide Inv, DoCheck, AdmittedBy, Capacity;
      CheckStaysWithin(c, s, k, now, keys);
      forall key ensures Log(Step(c, s, e), key) == Log(s, key) + AdmittedBy(c, s, e, key) {
        LogOfStep(c, s, e, key);
      }
    case CleanupAt(now) =>
      hide Inv, DoCleanup;
      CleanupKeepsWithin(c, s.v, now, s.v.order, keys);
  }

  lemma CheckStaysWithin(c: Config, s: Sys, k: string, now: int, keys: set<string>)
    requires TableWithin(s.v, keys) && k in keys && Evicts(c, s.v, k).None?
    ensures TableWithin(Step(c, s, CheckAt(k, now)).v, keys)
  {
    hide W.Later;
  }

  /** Then the log of a key holds all its admissions. */
  lemma {:induction false} NothingIsForgotten(c: Config, s: Sys, es: seq<Event>, keys: set<string>, key: string)
    requires Inv(c, s) && TableWithin(s.v, keys) && Feasible(c, s, es) && OnlyKeys(es, keys) && |keys| <= Capacity(c)
    ensures Log(Run(c, s, es), key) == Log(s, key) + Admissions(c, s, es, key)
    decreases |es|
  {
    hide Inv, Step, TableWithin, AdmittedBy;
    if es == [] {
      assert Log(s, key) + [] == Log(s, key);
    } else {
      var t := Step(c, s, es[0]);
      assert es[0] in es && forall e :: e in es[1..] ==> e in es;
      InvStep(c, s, es[0]);
      StepKeepsWithin(c, s, es[0], keys);
      NothingIsForgotten(c, t, es[1..], keys, key);
      assert Log(s, key) + (AdmittedBy(c, s, es[0], key) + Admissions(c, t, es[1..], key))
          == (Log(s, key) + AdmittedBy(c, s, es[0], key)) + Admissions(c, t, es[1..], key);
    }
  }

  lemma InvStep(c: Config, s: Sys, e: Event)
    requires Inv(c, s) && Enabled(s, e)
    ensures Inv(c, Step(c, s, e))
  {
    match e
    case CheckAt(key, now) => CheckKeepsInv(c, s, key, now);
    case CleanupAt(now) => CleanupKeepsInv(c, s, now);
  }

  lemma {:induction false} FewKeysKeepLimit(c: Config, keys: set<string>, start: int, es: seq<Event>, key: string)
    requires |keys| <= Capacity(c) && Feasible(c, Init(start), es) && OnlyKeys(es, keys)
    ensures WithinLimit(c, Admissions(c, Init(start), es, key))
  {
    InitInv(c, start);
    hide Inv, Feasible, Run, Admissions, OnlyKeys, Capacity;
    NothingIsForgotten(c, Init(start), es, keys, key);
    var h := Admissions(c, Init(start), es, key);
    assert Log(Run(c, Init(start), es), key) == [] + h == h;
    forall i, j | 0 <= i <= j < |h| && h[j] - h[i] < c.windowMs ensures j - i + 1 <= c.maxRequests {
      WindowBound(c, start, es, key, i, j);
    }
  }

  lemma {:induction false} ZeroLimitAdmitsNone(c: Config, s: Sys, es: seq<Event>, key: string)
    requires c.maxRequests == 0
    ensures Admissions(c, s, es, key) == []
    decreases |es|
  {
    if es != [] {
      ZeroLimitAdmitsNone(c, Step(c, s, es[0]), es[1..], key);
    }
  }

  // ----- One key too many: a run at a single moment ---------------------------------------------

  /** A request for each of the keys. */
  function ChecksOf(ks: seq<string>, now: int): seq<Event> {
    if ks == [] then [] else [CheckAt(ks[0], now)] + ChecksOf(ks[1..], now)
  }

  lemma {:induction false} ChecksAreFeasible(c: Config, s: Sys, ks: seq<string>, now: int)
    requires s.now == now
    ensures Feasible(c, s, ChecksOf(ks, now)) && Run(c, s, ChecksOf(ks, now)).now == now
    decreases |ks|
  {
    if ks != [] {
      assert ChecksOf(ks, now)[1..] == ChecksOf(ks[1..], now);
      ChecksAreFeasible(c, Step(c, s, CheckAt(ks[0], now)), ks[1..], now);
    }
  }

  lemma {:induction false} ChecksAreOf(ks: seq<string>, now: int, keys: set<string>)
    requires forall x :: x in ks ==> x in keys
    ensures OnlyKeys(ChecksOf(ks, now), keys)
  {
    if ks != [] {
      ChecksAreOf(ks[1..], now, keys);
      assert ks[0] in ks && forall x :: x in ks[1..] ==> x in ks;
    }
  }

  lemma {:induction false} ChecksConcat(a: seq<string>, b: seq<string>, now: int)
    ensures ChecksOf(a + b, now) == ChecksOf(a, now) + ChecksOf(b, now)
  {
    if a == [] {
      assert a + b == b;
    } else {
      ChecksConcat(a[1..], b, now);
      assert (a + b)[1..] == a[1..] + b;
    }
  }

  lemma {:induction false} AdmissionsConcat(c: Config, s: Sys, a: seq<Event>, b: seq<Event>, key: string)
    ensures Admissions(c, s, a + b, key) == Admissions(c, s, a, key) + Admissions(c, Run(c, s, a), b, key)
    decreases |a|
  {
    hide Step, AdmittedBy;
    if a == [] {
      assert a + b == b;
    } else {
      var t := Step(c, s, a[0]);
      AdmissionsConcat(c, t, a[1..], b, key);
      assert (a + b)[1..] == a[1..] + b;
      assert AdmittedBy(c, s, a[0], key) + (Admissions(c, t, a[1..], key) + Admissions(c, Run(c, t, a[1..]), b, key))
          == (AdmittedBy(c, s, a[0], key) + Admissions(c, t, a[1..], key)) + Admissions(c, Run(c, t, a[1..]), b, key);
    }
  }

  function Times(key: string, n: nat): seq<string> { if n == 0 then [] else [key] + Times(key, n - 1) }

  ghost predicate AllAt(h: seq<int>, now: int) { forall i :: 0 <= i < |h| ==> h[i] == now }

  /** One more request of a key that is alone in the table and below its limit, at the same moment. */
  lemma UseOne(c: Config, s: Sys, key: string, now: int)
    requires c.windowMs > 0 && AllAt(Buffer(s.v, key), now) && |Buffer(s.v, key)| < c.maxRequests
    requires s.v.order == (if key in s.v.windows then [key] else [])
    ensures var e := CheckAt(key, now);
            var t := Step(c, s, e);
            && t.v.order == [key] && key in t.v.windows && Buffer(t.v, key) == Buffer(s.v, key) + [now]
            && AdmittedBy(c, s, e, key) == [now]
  {
    hide W.Later;
    W.LaterAll(Buffer(s.v, key), now - c.windowMs);
    CheckAtKey(c, s, key, now, key);
    CheckIsAboutItsKey(c, s.v, key, now);
  }

  /** The first key uses up its limit. */
  lemma {:induction false} UseUp(c: Config, s: Sys, key: string, now: int, n: nat)
    requires c.windowMs > 0 && AllAt(Buffer(s.v, key), now) && |Buffer(s.v, key)| + n <= c.maxRequests
    requires s.v.order == (if key in s.v.windows then [key] else [])
    ensures var es := ChecksOf(Times(key, n), now);
            && |Admissions(c, s, es, key)| == n && AllAt(Admissions(c, s, es, key), now)
            && Run(c, s, es).v.order == (if n > 0 then [key] else s.v.order)
    decreases n
  {
    hide Step, AdmittedBy, Buffer;
    if n > 0 {
      var t := Step(c, s, CheckAt(key, now));
      UseOne(c, s, key, now);
      UseUp(c, t, key, now, n - 1);
      ChecksCons(key, Times(key, n - 1), now);
    }
  }

  lemma ChecksCons(k: string, ks: seq<string>, now: int)
    ensures var es := ChecksOf([k] + ks, now); es != [] && es[0] == CheckAt(k, now) && es[1..] == ChecksOf(ks, now)
  {
    assert ([k] + ks)[1..] == ks;
  }

  /** As many other keys as the table holds push it out. */
  lemma {:induction false} PushOut(c: Config, s: Sys, key: string, now: int, ks: seq<string>)
    requires Inv(c, s) && s.now == now && s.v.order != [] && s.v.order[0] == key && key !in ks
    requires (forall i, j :: 0 <= i < j < |ks| ==> ks[i] != ks[j]) && forall x :: x in ks ==> x !in s.v.order
    requires |ks| > 0 && |s.v.order| + |ks| == Capacity(c) + 1
    ensures var t := Run(c, s, ChecksOf(ks, now));
            key !in t.v.windows && Admissions(c, s, ChecksOf(ks, now), key) == []
    decreases |ks|
  {
    var e := CheckAt(ks[0], now);
    var t := Step(c, s, e);
    var es := ChecksOf(ks, now);
    assert es[1..] == ChecksOf(ks[1..], now) && es[0] == e;
    assert ks[0] in ks && ks[0] !in s.v.windows;
    InvStep(c, s, e);
    if |ks| == 1 {
      assert Evicts(c, s.v, ks[0]) == Some(key);
      assert key !in t.v.windows;
      assert ks[1..] == [];
    } else {
      assert Evicts(c, s.v, ks[0]).None?;
      assert t.v.order == s.v.order + [ks[0]];
      hide Inv, Step;
      assert forall x :: x in ks[1..] ==> x in ks && x != ks[0];
      assert forall i, j :: 0 <= i < j < |ks[1..]| ==> ks[1..][i] == ks[i + 1] && ks[1..][j] == ks[j + 1];
      PushOut(c, t, key, now, ks[1..]);
    }
  }

  lemma {:induction false} SomeOf(keys: set<string>, n: nat) returns (ks: seq<string>)
    requires n <= |keys|
    ensures |ks| == n && (forall i, j :: 0 <= i < j < n ==> ks[i] != ks[j]) && forall x :: x in ks ==> x in keys
  {
    if n == 0 {
      ks := [];
    } else {
      var k :| k in keys;
      var rest := SomeOf(keys - {k}, n - 1);
      ks := [k] + rest;
    }
  }

  /** With one key more than there is room for, the first key is admitted once too often. */
  lemma {:induction false} OneKeyTooMany(c: Config, keys: set<string>, key: string, ks: seq<string>, now: int)
    requires c.maxRequests > 0 && c.windowMs > 0
    requires |ks| == Capacity(c) && key !in ks && forall i, j :: 0 <= i < j < |ks| ==> ks[i] != ks[j]
    ensures var es := ChecksOf(Times(key, c.maxRequests) + ks + [key], now);
            && Feasible(c, Init(now), es)
            && |Admissions(c, Init(now), es, key)| == c.maxRequests + 1 && AllAt(Admissions(c, Init(now), es, key), now)
  {
    hide Step, Inv, AdmittedBy;
    var first := Times(key, c.maxRequests);
    var s0 := Init(now);
    var es1, es2, es3 := ChecksOf(first, now), ChecksOf(ks, now), ChecksOf([key], now);
    ChecksConcat(first + ks, [key], now);
    ChecksConcat(first, ks, now);
    UseUp(c, s0, key, now, c.maxRequests);
    ChecksAreFeasible(c, s0, first, now);
    InitInv(c, now);
    RunKeepsInv(c, s0, es1);
    var s1 := Run(c, s0, es1);
    PushOut(c, s1, key, now, ks);
    var s2 := Run(c, s1, es2);
    AbsentIsAdmitted(c, s2, key, now);
    AdmissionsConcat(c, s0, es1, es2, key);
    AdmissionsConcat(c, s0, es1 + es2, es3, key);
    RunConcat(c, s0, es1, es2);
    ChecksAreFeasible(c, s0, first + ks + [key], now);
  }

  lemma InitInv(c: Config, start: int)
    ensures Inv(c, Init(start))
  {
    EmptyLog(c, start);
  }

  lemma AbsentIsAdmitted(c: Config, s: Sys, key: string, now: int)
    requires key !in s.v.windows && c.maxRequests > 0
    ensures Admissions(c, s, ChecksOf([key], now), key) == [now]
  {
    CheckIsAboutItsKey(c, s.v, key, now);
    ChecksCons(key, [], now);
    assert [key] + [] == [key];
  }

  lemma {:induction false} RunConcat(c: Config, s: Sys, a: seq<Event>, b: seq<Event>)
    ensures Run(c, s, a + b) == Run(c, Run(c, s, a), b)
    decreases |a|
  {
    hide Step;
    if a == [] {
      assert a + b == b;
    } else {
      RunConcat(c, Step(c, s, a[0]), a[1..], b);
      assert (a + b)[1..] == a[1..] + b;
    }
  }

  lemma {:induction false} TimesAre(key: string, n: nat)
    ensures forall x :: x in Times(key, n) ==> x == key
  {
    if n > 0 {
      TimesAre(key, n - 1);
    }
  }

  /**
   * Which keys the limiter can serve without ever admitting one of them too often, in any stretch
   * of time shorter than the window and counting all admissions: as many as it has room for, and
   * no more, unless the limit or the window is zero.
   */
  lemma {:induction false} BoundSurvivesIff(c: Config, keys: set<string>)
    ensures AlwaysWithin(c, keys) <==> |keys| <= Capacity(c) || c.maxRequests == 0 || c.windowMs == 0
  {
    if |keys| <= Capacity(c) {
      forall start, es, key | Feasible(c, Init(start), es) && OnlyKeys(es, keys)
        ensures WithinLimit(c, Admissions(c, Init(start), es, key)) {
        FewKeysKeepLimit(c, keys, start, es, key);
      }
    } else if c.maxRequests == 0 {
      forall start, es, key | Feasible(c, Init(start), es) && OnlyKeys(es, keys)
        ensures WithinLimit(c, Admissions(c, Init(start), es, key)) {
        ZeroLimitAdmitsNone(c, Init(start), es, key);
      }
    } else if c.windowMs == 0 {
      forall start, es, key | Feasible(c, Init(start), es) && OnlyKeys(es, keys)
        ensures WithinLimit(c, Admissions(c, Init(start), es, key)) {
        AdmissionsAscend(c, Init(start), es, key);
      }
    } else {
      var all := SomeOf(keys, Capacity(c) + 1);
      TooManyKeys(c, keys, all);
    }
  }

  lemma TooManyKeys(c: Config, keys: set<string>, all: seq<string>)
    requires c.maxRequests > 0 && c.windowMs > 0 && |all| == Capacity(c) + 1
    requires (forall i, j :: 0 <= i < j < |all| ==> all[i] != all[j]) && forall x :: x in all ==> x in keys
    ensures !AlwaysWithin(c, keys)
  {
    hide Feasible, Admissions, ChecksOf;
    var key, ks := all[0], all[1..];
    assert forall i :: 0 <= i < |ks| ==> ks[i] == all[i + 1];
    OneKeyTooMany(c, keys, key, ks, 0);
    var list := Times(key, c.maxRequests) + ks + [key];
    TimesAre(key, c.maxRequests);
    ChecksAreOf(list, 0, keys);
    var h := Admissions(c, Init(0), ChecksOf(list, 0), key);
    assert h[0] == h[c.maxRequests] == 0;
    assert !WithinLimit(c, h);
  }

  lemma {:induction false} AdmissionsAscend(c: Config, s: Sys, es: seq<Event>, key: string)
    requires Feasible(c, s, es)
    ensures var h := Admissions(c, s, es, key);
            W.Ascending(h) && forall i :: 0 <= i < |h| ==> h[i] >= s.now
    decreases |es|
  {
    hide DoCheck, DoCleanup;
    if es != [] {
      AdmissionsAscend(c, Step(c, s, es[0]), es[1..], key);
    }
  }

  /** The wait of a refused caller is positive and exact: asking again any sooner is refused again. */
  lemma {:induction false} NoSoonerThan(c: Config, s: Sys, key: string, now: int, later: int)
    requires Inv(c, s) && s.now <= now <= later && c.windowMs > 0
    requires DoCheck(c, s.v, key, now).1.Refused?
    requires later < now + DoCheck(c, s.v, key, now).1.retryAfterMs
    ensures DoCheck(c, DoCheck(c, s.v, key, now).0, key, later).1.Refused?
  {
    var w := DoCheck(c, s.v, key, now).0;
    CheckIsAboutItsKey(c, s.v, key, now);
    CheckIsAboutItsKey(c, w, key, later);
    assert LogOk(c, Log(s, key), Buffer(s.v, key), s.now);
    RefusalKeepsLive(c, s.v, key, now);
    hide LogOk, Inv, DoCheck, W.Later, W.Spaced;
    StillFull(c, Log(s, key), Buffer(s.v, key), s.now, now, later);
  }

  lemma StillFull(c: Config, h: seq<int>, b: seq<int>, before: int, now: int, later: int)
    requires W.Ascending(h) && W.Remembers(h, b, before - c.windowMs) && before <= now <= later && c.windowMs > 0
    requires var d := Decide(c, W.Later(b, now - c.windowMs), now); d.Refused? && later < now + d.retryAfterMs
    ensures Decide(c, W.Later(W.Later(b, now - c.windowMs), later - c.windowMs), later).Refused?
  {
    var live := W.Later(b, now - c.windowMs);
    W.LaterRemembers(h, b, before - c.windowMs, now - c.windowMs);
    hide W.Later, Decide;
    DecideIs(c, live, now);
    DecideIs(c, W.Later(live, later - c.windowMs), later);
    if live != [] {
      W.RememberedAscends(h, live, now - c.windowMs);
      hide W.Remembers, W.Ascending;
      W.LaterAll(live, later - c.windowMs);
    } else {
      NothingIsLater(later - c.windowMs);
    }
  }

  lemma DecideIs(c: Config, live: seq<int>, now: int)
    ensures Decide(c, live, now).Refused? <==> |live| >= c.maxRequests
    ensures Decide(c, live, now).Refused? && live != [] ==> Decide(c, live, now).retryAfterMs == live[0] + c.windowMs - now
  {
  }

  lemma NothingIsLater(cutoff: int)
    ensures W.Later([], cutoff) == []
  {
  }

  lemma RefusalKeepsLive(c: Config, v: Value, key: string, now: int)
    requires DoCheck(c, v, key, now).1.Refused?
    ensures Buffer(DoCheck(c, v, key, now).0, key) == W.Later(Buffer(v, key), now - c.windowMs)
  {
    hide W.Later;
    if key !in v.windows {
      assert Buffer(Touch(c, v, key), key) == [] == Buffer(v, key);
    }
  }

  /** Cleanup leaves exactly the keys with an admission that still counts, each with those that do. */
  lemma {:induction false} CleanupLeaves(c: Config, v: Value, now: int, key: string)
    requires OrderOk(v)
    ensures var w, live := DoCleanup(c, v, now, v.order), W.Later(Buffer(v, key), now - c.windowMs);
            && (key in w.windows <==> live != []) && Buffer(w, key) == live
            && OrderOk(w)
  {
    CleanupKeepsOrder(c, v, now, v.order);
    CleanupVisits(c, v, now, v.order, key);
    assert key !in v.order ==> Buffer(v, key) == [];
  }

  lemma {:induction false} CleanupVisits(c: Config, v: Value, now: int, ks: seq<string>, x: string)
    requires forall i, j :: 0 <= i < j < |ks| ==> ks[i] != ks[j]
    ensures var w, live := DoCleanup(c, v, now, ks), W.Later(Buffer(v, x), now - c.windowMs);
            if x in ks then (x in w.windows <==> live != []) && Buffer(w, x) == live
            else (x in w.windows <==> x in v.windows) && Buffer(w, x) == Buffer(v, x)
    decreases |ks|
  {
    if ks != [] {
      var live := W.Later(Buffer(v, ks[0]), now - c.windowMs);
      var w := if live == [] then Value(Without(v.order, ks[0]), v.windows - {ks[0]})
               else v.(windows := v.windows[ks[0] := live]);
      assert forall i :: 0 <= i < |ks[1..]| ==> ks[1..][i] == ks[i + 1];
      hide W.Later;
      CleanupVisits(c, w, now, ks[1..], x);
      assert ks[0] !in ks[1..];
      assert x in ks <==> x == ks[0] || x in ks[1..];
    }
  }

  function Newest(n: nat, ks: seq<string>): seq<string> { if |ks| <= n then ks else ks[|ks| - n..] }

  lemma NewestSnoc(n: nat, ks: seq<string>, k: string)
    requires n > 0
    ensures var kept := Newest(n, ks);
            Newest(n, ks + [k]) == if |kept| < n then kept + [k] else kept[1..] + [k]
  {
  }

  lemma OrderAfterCheck(c: Config, v: Value, key: string, now: int)
    requires OrderOk(v) && |v.order| <= Capacity(c) && key !in v.order
    ensures var w := DoCheck(c, v, key, now).0;
            OrderOk(w) && w.order == (if |v.order| < Capacity(c) then v.order else v.order[1..]) + [key]
  {
    CheckKeepsOrder(c, v, key, now);
    hide W.Later, OrderOk;
  }

  /** Which keys are evicted: of distinct keys that come in turn, the table holds the newest, in their order. */
  lemma {:induction false} TableHoldsNewest(c: Config, s: Sys, before: seq<string>, ks: seq<string>, now: int)
    requires OrderOk(s.v) && s.v.order == Newest(Capacity(c), before)
    requires forall i, j :: 0 <= i < j < |before + ks| ==> (before + ks)[i] != (before + ks)[j]
    ensures Run(c, s, ChecksOf(ks, now)).v.order == Newest(Capacity(c), before + ks)
    decreases |ks|
  {
    hide Step, OrderOk, Newest;
    if ks == [] {
      assert before + ks == before;
    } else {
      var k := ks[0];
      var t := Step(c, s, CheckAt(k, now));
      KeyIsNew(c, s.v, before, ks);
      OrderAfterCheck(c, s.v, k, now);
      NewestSnoc(Capacity(c), before, k);
      TableOfStep(c, s, k, now);
      assert ChecksOf(ks, now)[1..] == ChecksOf(ks[1..], now);
      assert (before + [k]) + ks[1..] == before + ks;
      TableHoldsNewest(c, t, before + [k], ks[1..], now);
    }
  }

  lemma KeyIsNew(c: Config, v: Value, before: seq<string>, ks: seq<string>)
    requires ks != [] && v.order == Newest(Capacity(c), before)
    requires forall i, j :: 0 <= i < j < |before + ks| ==> (before + ks)[i] != (before + ks)[j]
    ensures |v.order| <= Capacity(c) && ks[0] !in v.order
  {
    assert (before + ks)[|before|] == ks[0] && forall i :: 0 <= i < |before| ==> (before + ks)[i] == before[i];
    assert ks[0] !in before;
  }

  lemma TableOfStep(c: Config, s: Sys, key: string, now: int)
    ensures Step(c, s, CheckAt(key, now)).v == DoCheck(c, s.v, key, now).0
  {
  }
}
