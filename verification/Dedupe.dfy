/**
 * packages/infra/src/dedupe.ts
 *
 * A cache of calls by key. `keys` is the insertion order of the source's Map.
 */
module Dedupe {
  import opened Prelude

  datatype Config = Config(ttlMs: nat, maxSize: nat)

  datatype Value = Value(keys: seq<string>, expiresAt: map<string, int>)

  const Empty := Value([], map[])

  predicate Check(v: Value, key: string) { key in v.expiresAt }

  ghost predicate Valid(v: Value) {
    && (forall k :: k in v.expiresAt <==> k in v.keys)
    && (forall i, j :: 0 <= i < j < |v.keys| ==> v.keys[i] != v.keys[j])
  }

  /** `execute` up to the point where it returns its promise; the flag says whether an earlier one is shared. */
  function DoExecute(c: Config, v: Value, key: string, now: int): (Value, bool) {
    if key in v.expiresAt && (c.ttlMs == 0 || now < v.expiresAt[key]) then (v, true)
    else
      var keys := if key in v.expiresAt then v.keys else v.keys + [key];
      var expires := v.expiresAt[key := now + c.ttlMs];
      if |keys| > c.maxSize then (Value(keys[1..], expires - {keys[0]}), false)
      else (Value(keys, expires), false)
  }

  function Without(keys: seq<string>, key: string): seq<string> {
    if keys == [] then [] else (if keys[0] == key then [] else [keys[0]]) + Without(keys[1..], key)
  }

  /** The call has settled: without a time to live its key is forgotten, whoever registered it last. */
  function DoSettle(c: Config, v: Value, key: string): Value {
    if c.ttlMs == 0 then Value(Without(v.keys, key), v.expiresAt - {key}) else v
  }

  class Dedupe {
    const config: Config
    var keys: seq<string>
    var expiresAt: map<string, int>

    function Contents(): Value
      reads this
    {
      Value(keys, expiresAt)
    }

    constructor (config: Config)
      ensures this.config == config && Contents() == Empty
    {
      this.config := config;
      keys, expiresAt := [], map[];
    }

    method Execute(key: string, now: int) returns (shared: bool)
      modifies this
      ensures (Contents(), shared) == DoExecute(config, old(Contents()), key, now)
    {
      if key in expiresAt && (config.ttlMs == 0 || now < expiresAt[key]) {
        return true;
      }
      if key !in expiresAt {
        keys := keys + [key];
      }
      expiresAt := expiresAt[key := now + config.ttlMs];
      if |keys| > config.maxSize {
        expiresAt := expiresAt - {keys[0]};
        keys := keys[1..];
      }
      shared := false;
    }

    method OnSettled(key: string)
      modifies this
      ensures Contents() == DoSettle(config, old(Contents()), key)
    {
      if config.ttlMs == 0 {
        keys, expiresAt := Without(keys, key), expiresAt - {key};
      }
    }

    method Check(key: string) returns (hit: bool)
      ensures hit == (key in expiresAt)
    {
      hit := key in expiresAt;
    }
  }

  /** The last `n` elements of a log. */
  function Last(n: nat, log: seq<string>): seq<string> {
    if |log| <= n then log else log[|log| - n..]
  }

  lemma DropFirst(keys: seq<string>)
    requires keys != [] && forall i, j :: 0 <= i < j < |keys| ==> keys[i] != keys[j]
    ensures forall k :: k in keys[1..] <==> k in keys && k != keys[0]
    ensures forall i, j :: 0 <= i < j < |keys[1..]| ==> keys[1..][i] != keys[1..][j]
  {
    assert keys == [keys[0]] + keys[1..];
    assert forall i :: 0 <= i < |keys[1..]| ==> keys[1..][i] == keys[i + 1];
  }

  lemma ExecuteKeepsValid(c: Config, v: Value, key: string, now: int)
    requires Valid(v)
    ensures Valid(DoExecute(c, v, key, now).0)
  {
    var keys := if key in v.expiresAt then v.keys else v.keys + [key];
    var all := Value(keys, v.expiresAt[key := now + c.ttlMs]);
    assert Valid(all);
    if |keys| > c.maxSize {
      DropFirst(keys);
      assert Valid(Value(keys[1..], all.expiresAt - {keys[0]}));
    }
  }

  /** Registering a key that is not cached keeps the cache equal to the newest keys registered. */
  lemma ExecuteKeepsNewest(c: Config, v: Value, key: string, now: int, log: seq<string>)
    requires Valid(v) && v.keys == Last(c.maxSize, log) && !Check(v, key)
    ensures var t := DoExecute(c, v, key, now).0;
            Valid(t) && t.keys == Last(c.maxSize, log + [key])
  {
    ExecuteKeepsValid(c, v, key, now);
    hide Valid;
    var all := v.keys + [key];
    assert |all| > c.maxSize ==> all[1..] == Last(c.maxSize, log + [key]);
  }

  lemma {:induction false} WithoutMeans(keys: seq<string>, key: string)
    requires forall i, j :: 0 <= i < j < |keys| ==> keys[i] != keys[j]
    ensures var r := Without(keys, key);
            && (forall k :: k in r <==> k in keys && k != key)
            && (forall i, j :: 0 <= i < j < |r| ==> r[i] != r[j])
  {
    if keys != [] {
      WithoutMeans(keys[1..], key);
      assert keys == [keys[0]] + keys[1..];
      var r, rest := Without(keys, key), Without(keys[1..], key);
      assert forall i :: 0 <= i < |rest| ==> rest[i] in keys[1..];
      if keys[0] != key {
        assert r[1..] == rest;
      }
    }
  }

  /**
   * Without a time to live a cached key is shared, whatever the clock says, and no more once a call
   * of it has settled; other keys do not notice.
   */
  lemma {:induction false} SharedUntilSettled(c: Config, v: Value, key: string, now: int)
    requires Valid(v) && c.ttlMs == 0 && Check(v, key)
    ensures DoExecute(c, v, key, now) == (v, true)
    ensures var t := DoSettle(c, v, key);
            Valid(t) && !DoExecute(c, t, key, now).1 && forall k :: k != key ==> (Check(t, k) <==> Check(v, k))
  {
    WithoutMeans(v.keys, key);
  }

  /** `check` ignores the time to live: an entry is a duplicate long after it expired. */
  lemma CheckIgnoresExpiry(c: Config, key: string, now: int, later: int)
    requires c.ttlMs > 0 && c.maxSize > 0 && later >= now + c.ttlMs
    ensures var v := DoExecute(c, Empty, key, now).0;
            Check(v, key) && !DoExecute(c, v, key, later).1
  {
  }

  /** With a time to live, a key is shared exactly until that has passed since it was registered, as long as it is cached. */
  lemma SharedWhileFresh(c: Config, v: Value, key: string, now: int, later: int)
    requires c.ttlMs > 0
    ensures var (w, shared) := DoExecute(c, v, key, now);
            !shared && Check(w, key) ==> (DoExecute(c, w, key, later).1 <==> later < now + c.ttlMs)
  {
  }


  // ----- Calls in flight, without a time to live -------------------------------------------------

  datatype Call = Call(id: nat, key: string)

  /** `flight`: the calls of `fn` that were started and have not settled. */
  datatype Sys = Sys(v: Value, flight: set<Call>, next: nat)

  datatype Event = Execute(key: string, now: int) | Settle(call: Call)

  const Init := Sys(Empty, {}, 0)

  predicate Enabled(s: Sys, e: Event) { e.Settle? ==> e.call in s.flight }

  function Step(c: Config, s: Sys, e: Event): Sys {
    match e
    case Execute(key, now) =>
      var (w, shared) := DoExecute(c, s.v, key, now);
      if shared then s.(v := w) else Sys(w, s.flight + {Call(s.next, key)}, s.next + 1)
    case Settle(call) => s.(v := DoSettle(c, s.v, call.key), flight := s.flight - {call})
  }

  predicate Feasible(c: Config, s: Sys, es: seq<Event>)
    decreases |es|
  {
    es == [] || (Enabled(s, es[0]) && Feasible(c, Step(c, s, es[0]), es[1..]))
  }

  function Run(c: Config, s: Sys, es: seq<Event>): Sys
    decreases |es|
  {
    if es == [] then s else Run(c, Step(c, s, es[0]), es[1..])
  }

  predicate InFlight(s: Sys, key: string) { exists f :: f in s.flight && f.key == key }

  /** A key has one call at most, and is shared exactly while it has one. */
  ghost predicate Exact(s: Sys) {
    && (forall f, g :: f in s.flight && g in s.flight && f.key == g.key ==> f == g)
    && (forall key :: Check(s.v, key) <==> InFlight(s, key))
  }

  ghost predicate OnlyKeys(es: seq<Event>, keys: set<string>) { forall e :: e in es && e.Execute? ==> e.key in keys }

  /** Whatever calls of these keys are made and settle, in whatever order. */
  ghost predicate AlwaysExact(c: Config, keys: set<string>) {
    forall es :: Feasible(c, Init, es) && OnlyKeys(es, keys) ==> Exact(Run(c, Init, es))
  }

  ghost predicate Inv(s: Sys, keys: set<string>) {
    Valid(s.v) && Exact(s) && (forall f :: f in s.flight ==> f.id < s.next) && forall k :: k in s.v.keys ==> k in keys
  }

  lemma {:induction false} DistinctInSet(ks: seq<string>, keys: set<string>)
    requires forall i, j :: 0 <= i < j < |ks| ==> ks[i] != ks[j]
    requires forall k :: k in ks ==> k in keys
    ensures |ks| <= |keys|
  {
    if ks != [] {
      var n := |ks| - 1;
      assert forall k :: k in ks[..n] ==> k in ks;
      assert ks[n] !in ks[..n];
      DistinctInSet(ks[..n], keys - {ks[n]});
    }
  }

  /** With room for all keys in use nothing is evicted. */
  lemma ExecuteStays(c: Config, s: Sys, keys: set<string>, key: string, now: int)
    requires c.ttlMs == 0 && Inv(s, keys) && key in keys && |keys| <= c.maxSize
    ensures Inv(Step(c, s, Execute(key, now)), keys)
  {
    var t := Step(c, s, Execute(key, now));
    if !Check(s.v, key) {
      var all := s.v.keys + [key];
      DistinctInSet(all, keys);
      assert t.v == Value(all, s.v.expiresAt[key := now + c.ttlMs]);
      ExecuteKeepsValid(c, s.v, key, now);
      forall k ensures Check(t.v, k) <==> InFlight(t, k) {
        if k == key {
          assert Call(s.next, key) in t.flight;
        } else {
          assert InFlight(s, k) <==> InFlight(t, k);
        }
      }
      forall f, g | f in t.flight && g in t.flight && f.key == g.key ensures f == g {
        assert !InFlight(s, key);
      }
    }
  }

  lemma SettleStays(c: Config, s: Sys, keys: set<string>, call: Call)
    requires c.ttlMs == 0 && Inv(s, keys) && call in s.flight
    ensures Inv(Step(c, s, Settle(call)), keys)
  {
    var t := Step(c, s, Settle(call));
    WithoutMeans(s.v.keys, call.key);
    forall k ensures Check(t.v, k) <==> InFlight(t, k) {
      if k == call.key {
        assert !InFlight(t, k);
      } else {
        assert InFlight(s, k) <==> InFlight(t, k);
      }
    }
  }

  lemma {:induction false} RunStays(c: Config, s: Sys, es: seq<Event>, keys: set<string>)
    requires c.ttlMs == 0 && Inv(s, keys) && Feasible(c, s, es) && OnlyKeys(es, keys) && |keys| <= c.maxSize
    ensures Inv(Run(c, s, es), keys)
    decreases |es|
  {
    hide Inv, Step;
    if es != [] {
      assert es[0] in es && forall e :: e in es[1..] ==> e in es;
      match es[0] {
        case Execute(key, now) => ExecuteStays(c, s, keys, key, now);
        case Settle(call) => SettleStays(c, s, keys, call);
      }
      RunStays(c, Step(c, s, es[0]), es[1..], keys);
    }
  }

  /** A call of each of the keys, none of which settles. */
  function CallsOf(ks: seq<string>): seq<Event> {
    if ks == [] then [] else [Execute(ks[0], 0)] + CallsOf(ks[1..])
  }

  lemma {:induction false} CallsRun(c: Config, s: Sys, done: seq<string>, ks: seq<string>)
    requires Valid(s.v) && s.v.keys == Last(c.maxSize, done)
    requires forall i, j :: 0 <= i < j < |done + ks| ==> (done + ks)[i] != (done + ks)[j]
    ensures Feasible(c, s, CallsOf(ks))
    ensures var t := Run(c, s, CallsOf(ks));
            Valid(t.v) && t.v.keys == Last(c.maxSize, done + ks) && s.flight <= t.flight && forall k :: k in ks ==> InFlight(t, k)
    decreases |ks|
  {
    if ks == [] {
      assert done + ks == done;
    } else {
      var t := Step(c, s, Execute(ks[0], 0));
      NotYetCached(c, s.v, done, ks);
      assert CallsOf(ks)[1..] == CallsOf(ks[1..]);
      assert (done + [ks[0]]) + ks[1..] == done + ks;
      ExecuteKeepsNewest(c, s.v, ks[0], 0, done);
      assert Call(s.next, ks[0]) in t.flight;
      CallsRun(c, t, done + [ks[0]], ks[1..]);
    }
  }

  lemma NotYetCached(c: Config, v: Value, done: seq<string>, ks: seq<string>)
    requires Valid(v) && v.keys == Last(c.maxSize, done) && ks != []
    requires forall i, j :: 0 <= i < j < |done + ks| ==> (done + ks)[i] != (done + ks)[j]
    ensures !Check(v, ks[0])
  {
    assert (done + ks)[|done|] == ks[0];
    assert forall i :: 0 <= i < |done| ==> (done + ks)[i] == done[i];
    assert ks[0] !in done;
  }

  lemma {:induction false} CallsAreOf(ks: seq<string>, keys: set<string>)
    requires forall k :: k in ks ==> k in keys
    ensures OnlyKeys(CallsOf(ks), keys)
  {
    if ks != [] {
      CallsAreOf(ks[1..], keys);
      assert ks[0] in ks && forall k :: k in ks[1..] ==> k in ks;
    }
  }

  lemma {:induction false} SomeOf(keys: set<string>, n: nat) returns (ks: seq<string>)
    requires n <= |keys|
    ensures |ks| == n && (forall i, j :: 0 <= i < j < n ==> ks[i] != ks[j]) && forall k :: k in ks ==> k in keys
  {
    if n == 0 {
      ks := [];
    } else {
      var k :| k in keys;
      var rest := SomeOf(keys - {k}, n - 1);
      ks := [k] + rest;
    }
  }

  /** One key too many: the first is forgotten while its call is on. */
  lemma TooManyKeys(c: Config, keys: set<string>, ks: seq<string>)
    requires |ks| == c.maxSize + 1 && (forall i, j :: 0 <= i < j < |ks| ==> ks[i] != ks[j]) && forall k :: k in ks ==> k in keys
    ensures !AlwaysExact(c, keys)
  {
    assert [] + ks == ks;
    CallsRun(c, Init, [], ks);
    CallsAreOf(ks, keys);
    var t := Run(c, Init, CallsOf(ks));
    hide Run, Feasible, CallsOf;
    assert ks[0] in ks && ks[0] !in ks[1..];
    assert InFlight(t, ks[0]) && !Check(t.v, ks[0]);
  }

  /**
   * For which keys, without a time to live, a key has one call at a time and is shared exactly
   * while that call is on: for as many keys as the cache holds, and no more.
   */
  lemma {:induction false} SharingIsExactIff(c: Config, keys: set<string>)
    requires c.ttlMs == 0
    ensures AlwaysExact(c, keys) <==> |keys| <= c.maxSize
  {
    if |keys| <= c.maxSize {
      assert Inv(Init, keys);
      forall es | Feasible(c, Init, es) && OnlyKeys(es, keys) ensures Exact(Run(c, Init, es)) {
        RunStays(c, Init, es, keys);
      }
    } else {
      var ks := SomeOf(keys, c.maxSize + 1);
      TooManyKeys(c, keys, ks);
    }
  }

  /**
   * With room for one key, "a", "b" and "a" again: two calls of "a" are on at once; and when the
   * first of them settles, the second is no longer shared although it is still on.
   */
  lemma EvictedCallRunsTwice()
    ensures var c := Config(0, 1);
            var es := [Execute("a", 0), Execute("b", 0), Execute("a", 0), Settle(Call(0, "a"))];
            && Feasible(c, Init, es)
            && Run(c, Init, es[..3]).flight == {Call(0, "a"), Call(1, "b"), Call(2, "a")}
            && InFlight(Run(c, Init, es), "a") && !Check(Run(c, Init, es).v, "a")
  {
    var c := Config(0, 1);
    var es := [Execute("a", 0), Execute("b", 0), Execute("a", 0), Settle(Call(0, "a"))];
    var s1 := Step(c, Init, es[0]);
    var s2 := Step(c, s1, es[1]);
    var s3 := Step(c, s2, es[2]);
    var s4 := Step(c, s3, es[3]);
    assert s1 == Sys(Value(["a"], map["a" := 0]), {Call(0, "a")}, 1);
    assert s2.v.keys == ["b"] && s2.v.expiresAt == map["b" := 0] && s2.flight == {Call(0, "a"), Call(1, "b")};
    assert s3.v.keys == ["a"] && s3.v.expiresAt == map["a" := 0] && s3.flight == {Call(0, "a"), Call(1, "b"), Call(2, "a")};
    assert Call(2, "a") in s4.flight && "a" !in s4.v.expiresAt;
    RunOfFour(c, Init, s1, s2, s3, s4, es);
  }

  lemma RunOfFour(c: Config, s0: Sys, s1: Sys, s2: Sys, s3: Sys, s4: Sys, es: seq<Event>)
    requires |es| == 4 && s1 == Step(c, s0, es[0]) && s2 == Step(c, s1, es[1]) && s3 == Step(c, s2, es[2]) && s4 == Step(c, s3, es[3])
    requires Enabled(s0, es[0]) && Enabled(s1, es[1]) && Enabled(s2, es[2]) && Enabled(s3, es[3])
    ensures Feasible(c, s0, es) && Run(c, s0, es) == s4 && Run(c, s0, es[..3]) == s3
  {
    hide Step, Enabled;
    assert Run(c, s3, es[3..]) == Run(c, s4, es[4..]) == s4 && Feasible(c, s3, es[3..]) by {
      assert es[3..][1..] == es[4..] == [];
    }
    assert es[2..][1..] == es[3..] && es[1..][1..] == es[2..];
    assert Run(c, s2, es[2..]) == s4 && Feasible(c, s2, es[2..]);
    assert Run(c, s1, es[1..]) == s4 && Feasible(c, s1, es[1..]);
    var f := es[..3];
    assert f[2..][1..] == [] && f[1..][1..] == f[2..];
    assert Run(c, s2, f[2..]) == s3;
    assert Run(c, s1, f[1..]) == s3;
  }
}
