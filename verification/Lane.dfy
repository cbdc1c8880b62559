/**
 * packages/infra/src/concurrency-lane.ts
 *
 * A lane limits, per key, how many holders run at once. The class is proved against the
 * `Do...` functions; `Sys` adds what the callers hold.
 */
module Lane {
  import opened Prelude

  type Key = string

  /** A queued acquire. `id` stands for the identity of the waiter object. */
  datatype Waiter = Waiter(id: nat, generation: nat)

  /** A granted slot. `id` is the acquire call it answers. */
  datatype Handle = Handle(id: nat, key: Key, generation: nat)

  datatype Config = Config(maxConcurrent: nat, maxQueueSize: nat)

  datatype Value = Value(active: map<Key, nat>, generation: nat, waiters: map<Key, seq<Waiter>>)

  datatype Outcome = Granted(handle: Handle) | Queued | QueueFull

  const Empty := Value(map[], 0, map[])

  function Active(v: Value, k: Key): nat { GetOr(v.active, k, 0) }

  function Queue(v: Value, k: Key): seq<Waiter> { GetOr(v.waiters, k, []) }

  function IndexOf(q: seq<Waiter>, id: nat): (i: nat)
    ensures i <= |q|
    ensures i < |q| ==> q[i].id == id
    ensures forall j :: 0 <= j < i ==> q[j].id != id
  {
    if q == [] then 0 else if q[0].id == id then 0 else 1 + IndexOf(q[1..], id)
  }

  function DoAcquire(c: Config, v: Value, k: Key, id: nat): (Value, Outcome) {
    if Active(v, k) < c.maxConcurrent then
      (v.(active := v.active[k := Active(v, k) + 1]), Granted(Handle(id, k, v.generation)))
    else if |Queue(v, k)| >= c.maxQueueSize then
      (v, QueueFull)
    else
      (v.(waiters := v.waiters[k := Queue(v, k) + [Waiter(id, v.generation)]]), Queued)
  }

  function DoRelease(v: Value, h: Handle): (Value, Option<Handle>) {
    var q := Queue(v, h.key);
    if h.generation != v.generation then (v, None)
    else if |q| > 0 then
      (v.(waiters := v.waiters[h.key := q[1..]]), Some(Handle(q[0].id, h.key, q[0].generation)))
    else if Active(v, h.key) <= 1 then (v.(active := v.active - {h.key}), None)
    else (v.(active := v.active[h.key := Active(v, h.key) - 1]), None)
  }

  function DoTimeout(v: Value, k: Key, id: nat): Value {
    var q := Queue(v, k);
    var i := IndexOf(q, id);
    if i < |q| then v.(waiters := v.waiters[k := q[..i] + q[i + 1..]]) else v
  }

  function DoReset(v: Value): Value {
    v.(generation := v.generation + 1, waiters := map[])
  }

  /** The class, with the fields the source updates in place. */
  class ConcurrencyLane {
    const config: Config
    var active: map<Key, nat>
    var generation: nat
    var waiters: map<Key, seq<Waiter>>

    function Contents(): Value
      reads this
    {
      Value(active, generation, waiters)
    }

    constructor (config: Config)
      ensures this.config == config && Contents() == Empty
    {
      this.config := config;
      active, generation, waiters := map[], 0, map[];
    }

    method Acquire(key: Key, id: nat) returns (r: Outcome)
      modifies this
      ensures (Contents(), r) == DoAcquire(config, old(Contents()), key, id)
    {
      var current := GetOr(active, key, 0);
      var gen := generation;
      if current < config.maxConcurrent {
        active := active[key := current + 1];
        return Granted(Handle(id, key, gen));
      }
      if |GetOr(waiters, key, [])| >= config.maxQueueSize {
        return QueueFull;
      }
      var waiter := Waiter(id, gen);
      if key !in waiters {
        waiters := waiters[key := []];
      }
      waiters := waiters[key := waiters[key] + [waiter]];
      assert waiters == old(waiters)[key := GetOr(old(waiters), key, []) + [waiter]];
      r := Queued;
    }

    /** `handle.release()`; `granted` is the slot handed to the next waiter, if any. */
    method ReleaseIfCurrent(h: Handle) returns (granted: Option<Handle>)
      modifies this
      ensures (Contents(), granted) == DoRelease(old(Contents()), h)
    {
      if h.generation != generation {
        return None;
      }
      granted := Release(h.key);
    }

    method Release(key: Key) returns (granted: Option<Handle>)
      modifies this
      ensures (Contents(), granted) == DoRelease(old(Contents()), Handle(0, key, old(generation)))
    {
      var current := GetOr(active, key, 0);
      if key in waiters && |waiters[key]| > 0 {
        var next := waiters[key][0];
        waiters := waiters[key := waiters[key][1..]];
        granted := Some(Handle(next.id, key, next.generation));
      } else {
        if current <= 1 {
          active := active - {key};
        } else {
          active := active[key := current - 1];
        }
        granted := None;
      }
    }

    /** The timer callback of a waiter. */
    method OnTimeout(key: Key, id: nat)
      modifies this
      ensures Contents() == DoTimeout(old(Contents()), key, id)
    {
      if key in waiters {
        var queue := waiters[key];
        var idx := 0;
        while idx < |queue| && queue[idx].id != id
          invariant idx <= |queue|
          invariant IndexOf(queue, id) == idx + IndexOf(queue[idx..], id)
        {
          assert queue[idx..][1..] == queue[idx + 1..];
          idx := idx + 1;
        }
        if idx < |queue| {
          waiters := waiters[key := queue[..idx] + queue[idx + 1..]];
        }
      }
    }

    method ResetGeneration()
      modifies this
      ensures Contents() == DoReset(old(Contents()))
    {
      generation := generation + 1;
      ClearWaiters();
    }

    method ClearWaiters()
      modifies this`waiters
      ensures waiters == map[]
    {
      waiters := map[];
    }
  }

  // ----- The lane together with its callers --------------------------------------------

  datatype Settlement = WasGranted | WasFull | WasTimedOut | WasCleared

  /**
   * `outstanding`: handles granted and not yet released. `armed`: the live timers, each
   * with the key its callback captured. `settled`: how each acquire call's promise ended.
   * `grants`: every handle ever handed out, in order. `lost`: slots held at past resets.
   */
  datatype Sys = Sys(
    lane: Value,
    outstanding: set<Handle>,
    armed: map<nat, Key>,
    nextId: nat,
    settled: map<nat, Settlement>,
    grants: seq<Handle>,
    lost: map<Key, nat>
  )

  datatype Event = AcquireCall(key: Key) | ReleaseCall(handle: Handle) | Timeout(id: nat) | Reset

  const Init := Sys(Empty, {}, map[], 0, map[], [], map[])

  /** A handle is released once, and a timer fires only while it is armed. */
  predicate Enabled(s: Sys, e: Event) {
    match e
    case ReleaseCall(h) => h in s.outstanding
    case Timeout(id) => id in s.armed
    case _ => true
  }

  function StepAcquire(c: Config, s: Sys, k: Key): Sys {
    var (v, r) := DoAcquire(c, s.lane, k, s.nextId);
    var t := s.(lane := v, nextId := s.nextId + 1);
    match r
    case Granted(h) =>
      t.(outstanding := s.outstanding + {h}, grants := s.grants + [h], settled := s.settled[s.nextId := WasGranted])
    case Queued => t.(armed := s.armed[s.nextId := k])
    case QueueFull => t.(settled := s.settled[s.nextId := WasFull])
  }

  function StepRelease(s: Sys, h: Handle): Sys {
    var (v, g) := DoRelease(s.lane, h);
    var t := s.(lane := v, outstanding := s.outstanding - {h});
    match g
    case None => t
    case Some(n) =>
      t.(outstanding := t.outstanding + {n}, grants := s.grants + [n],
         armed := s.armed - {n.id}, settled := s.settled[n.id := WasGranted])
  }

  function StepTimeout(s: Sys, id: nat): Sys
    requires id in s.armed
  {
    s.(lane := DoTimeout(s.lane, s.armed[id], id), armed := s.armed - {id}, settled := s.settled[id := WasTimedOut])
  }

  /** Every slot held now will be released under an old generation, which the lane ignores. */
  function StepReset(s: Sys): Sys {
    s.(lane := DoReset(s.lane), armed := map[], lost := s.lane.active,
       settled := s.settled + map id | id in s.armed :: WasCleared)
  }

  function Step(c: Config, s: Sys, e: Event): Sys
    requires Enabled(s, e)
  {
    match e
    case AcquireCall(k) => StepAcquire(c, s, k)
    case ReleaseCall(h) => StepRelease(s, h)
    case Timeout(id) => StepTimeout(s, id)
    case Reset => StepReset(s)
  }

  predicate Feasible(c: Config, s: Sys, es: seq<Event>)
    decreases |es|
  {
    es == [] || (Enabled(s, es[0]) && Feasible(c, Step(c, s, es[0]), es[1..]))
  }

  function Run(c: Config, s: Sys, es: seq<Event>): Sys
    requires Feasible(c, s, es)
    decreases |es|
  {
    if es == [] then s else Run(c, Step(c, s, es[0]), es[1..])
  }

  function Lost(s: Sys, k: Key): nat { GetOr(s.lost, k, 0) }

  function Current(s: Sys, k: Key): set<Handle> {
    set h | h in s.outstanding && h.key == k && h.generation == s.lane.generation
  }

  /** The slots of a key: who holds them, and when callers may wait. */
  ghost predicate SlotsInv(c: Config, s: Sys, k: Key) {
    var q := Queue(s.lane, k);
    && Active(s.lane, k) == |Current(s, k)| + Lost(s, k) <= c.maxConcurrent
    && (|q| > 0 ==> Active(s.lane, k) == c.maxConcurrent)
    && |q| <= c.maxQueueSize
  }

  /** The queue of a key: live timers of this generation, in call order, after all grants. */
  ghost predicate QueueInv(s: Sys, k: Key) {
    var q := Queue(s.lane, k);
    && (forall i :: 0 <= i < |q| ==> q[i].generation == s.lane.generation && q[i].id in s.armed && s.armed[q[i].id] == k)
    && (forall i, j :: 0 <= i < j < |q| ==> q[i].id < q[j].id)
    && (forall i, j :: 0 <= i < |s.grants| && 0 <= j < |q| && s.grants[i].key == k ==> s.grants[i].id < q[j].id)
  }

  ghost predicate InQueue(q: seq<Waiter>, id: nat) {
    exists i :: 0 <= i < |q| && q[i].id == id
  }

  ghost predicate InLog(log: seq<Handle>, id: nat) {
    exists i :: 0 <= i < |log| && log[i].id == id
  }

  /** Every call made so far is settled or has a live timer and a queue slot, never both. */
  ghost predicate SettlementInv(s: Sys) {
    && (forall id: nat :: id < s.nextId <==> id in s.settled || id in s.armed)
    && s.settled.Keys !! s.armed.Keys
    && (forall id :: id in s.armed ==> InQueue(Queue(s.lane, s.armed[id]), id))
  }

  /** The grant log: one entry per granted call, in call order within a key. */
  ghost predicate GrantsInv(s: Sys) {
    && (forall h :: h in s.outstanding ==> h in s.grants && h.generation <= s.lane.generation)
    && (forall id: nat :: id in s.settled && s.settled[id] == WasGranted <==> InLog(s.grants, id))
    && (forall i, j :: 0 <= i < j < |s.grants| ==> s.grants[i].id != s.grants[j].id)
    && (forall i, j :: 0 <= i < j < |s.grants| && s.grants[i].key == s.grants[j].key ==> s.grants[i].id < s.grants[j].id)
  }

  ghost predicate Inv(c: Config, s: Sys) {
    (forall k :: SlotsInv(c, s, k) && QueueInv(s, k)) && SettlementInv(s) && GrantsInv(s)
  }

  // ----- One step keeps the invariant --------------------------------------------------

  lemma CurrentAdd(s: Sys, t: Sys, h: Handle, k: Key)
    requires t.outstanding == s.outstanding + {h} && h !in s.outstanding
    requires t.lane.generation == s.lane.generation == h.generation
    ensures |Current(t, k)| == |Current(s, k)| + (if k == h.key then 1 else 0)
  {
    if k == h.key {
      assert Current(t, k) == Current(s, k) + {h};
    } else {
      assert Current(t, k) == Current(s, k);
    }
  }

  lemma CurrentRemove(s: Sys, t: Sys, h: Handle, k: Key)
    requires t.outstanding == s.outstanding - {h} && h in s.outstanding
    requires t.lane.generation == s.lane.generation
    ensures |Current(t, k)| == |Current(s, k)| - (if k == h.key && h.generation == s.lane.generation then 1 else 0)
  {
    if k == h.key && h.generation == s.lane.generation {
      assert Current(s, k) == Current(t, k) + {h};
    } else {
      assert Current(t, k) == Current(s, k);
    }
  }

  lemma NotYetGranted(s: Sys, h: Handle)
    requires GrantsInv(s) && h.id !in s.settled
    ensures h !in s.outstanding && !InLog(s.grants, h.id)
  {
    if h in s.outstanding {
      var i :| 0 <= i < |s.grants| && s.grants[i] == h;
      assert InLog(s.grants, h.id);
    }
  }

  /** Appending a call that was not settled before keeps the log in order. */
  lemma LogAppend(s: Sys, t: Sys, h: Handle)
    requires GrantsInv(s) && h.id !in s.settled
    requires t.grants == s.grants + [h] && t.settled == s.settled[h.id := WasGranted]
    requires forall x :: x in t.outstanding ==> x in s.outstanding || x == h
    requires h.generation == t.lane.generation == s.lane.generation
    requires forall i :: 0 <= i < |s.grants| && s.grants[i].key == h.key ==> s.grants[i].id < h.id
    ensures GrantsInv(t)
  {
    NotYetGranted(s, h);
    assert t.grants[|s.grants|] == h;
    forall id: nat
      ensures id in t.settled && t.settled[id] == WasGranted <==> InLog(t.grants, id)
    {
      if InLog(s.grants, id) {
        var i :| 0 <= i < |s.grants| && s.grants[i].id == id;
        assert t.grants[i].id == id;
      }
    }
  }

  lemma LoggedIdsAreOld(c: Config, s: Sys)
    requires Inv(c, s)
    ensures forall i :: 0 <= i < |s.grants| ==> s.grants[i].id < s.nextId
  {
    forall i | 0 <= i < |s.grants| ensures s.grants[i].id < s.nextId {
      assert InLog(s.grants, s.grants[i].id);
    }
  }

  lemma AcquireSlots(c: Config, s: Sys, k: Key, x: Key)
    requires GrantsInv(s) && s.nextId !in s.settled && SlotsInv(c, s, k) && SlotsInv(c, s, x)
    ensures SlotsInv(c, StepAcquire(c, s, k), x)
  {
    hide GrantsInv;
    var t := StepAcquire(c, s, k);
    var r := DoAcquire(c, s.lane, k, s.nextId).1;
    if r.Granted? {
      NotYetGranted(s, r.handle);
      CurrentAdd(s, t, r.handle, x);
    } else {
      assert Current(t, x) == Current(s, x);
    }
  }

  /** What an acquire does to the queue of a key, the timers and the grants. */
  lemma AcquireEffect(c: Config, s: Sys, k: Key, x: Key)
    ensures var t, r := StepAcquire(c, s, k), DoAcquire(c, s.lane, k, s.nextId).1;
            && t.nextId == s.nextId + 1 && t.lane.generation == s.lane.generation
            && t.grants == (if r.Granted? then s.grants + [Handle(s.nextId, k, s.lane.generation)] else s.grants)
            && t.armed == (if r.Queued? then s.armed[s.nextId := k] else s.armed)
            && t.settled == (if r.Granted? then s.settled[s.nextId := WasGranted]
                             else if r.QueueFull? then s.settled[s.nextId := WasFull] else s.settled)
            && Queue(t.lane, x) == Queue(s.lane, x) + (if r.Queued? && k == x then [Waiter(s.nextId, s.lane.generation)] else [])
            && (r.Granted? ==> r.handle == Handle(s.nextId, k, s.lane.generation) && Active(s.lane, k) < c.maxConcurrent)
  {
  }

  lemma AcquireQueue(c: Config, s: Sys, k: Key, x: Key)
    requires QueueInv(s, x) && SlotsInv(c, s, x)
    requires forall i :: 0 <= i < |s.grants| ==> s.grants[i].id < s.nextId
    requires forall id :: id in s.armed ==> id < s.nextId
    ensures QueueInv(StepAcquire(c, s, k), x)
  {
    var q := Queue(s.lane, x);
    AcquireEffect(c, s, k, x);
    assert DoAcquire(c, s.lane, k, s.nextId).1.Granted? && k == x ==> q == [];
    assert forall i :: 0 <= i < |q| ==> q[i].id < s.nextId;
    var t, r := StepAcquire(c, s, k), DoAcquire(c, s.lane, k, s.nextId).1;
    hide StepAcquire, DoAcquire, Queue, Active, Current, SlotsInv;
    if r.Queued? && k == x {
      QueueSnoc(s, t, x, Waiter(s.nextId, s.lane.generation));
    } else {
      QueueStays(s, t, x, Handle(s.nextId, k, s.lane.generation));
    }
  }

  /** A new last waiter, with its timer. */
  lemma QueueSnoc(s: Sys, t: Sys, x: Key, w: Waiter)
    requires QueueInv(s, x) && Queue(t.lane, x) == Queue(s.lane, x) + [w]
    requires t.lane.generation == s.lane.generation == w.generation && t.grants == s.grants && t.armed == s.armed[w.id := x]
    requires forall i :: 0 <= i < |Queue(s.lane, x)| ==> Queue(s.lane, x)[i].id < w.id
    requires forall i :: 0 <= i < |s.grants| ==> s.grants[i].id < w.id
    ensures QueueInv(t, x)
  {
    hide Queue;
  }

  /** The same waiters; a grant, if it is for this key, only to an empty queue. */
  lemma QueueStays(s: Sys, t: Sys, x: Key, h: Handle)
    requires QueueInv(s, x) && Queue(t.lane, x) == Queue(s.lane, x) && t.lane.generation == s.lane.generation
    requires t.grants == s.grants || (t.grants == s.grants + [h] && (h.key == x ==> Queue(s.lane, x) == []))
    requires t.armed == s.armed || (t.armed == s.armed[h.id := h.key] && h.id !in s.armed)
    ensures QueueInv(t, x)
  {
    hide Queue;
  }

  lemma AcquireSettlement(c: Config, s: Sys, k: Key)
    requires SettlementInv(s)
    ensures SettlementInv(StepAcquire(c, s, k))
  {
    hide StepAcquire, DoAcquire, Queue, InQueue;
    var t := StepAcquire(c, s, k);
    AcquireEffect(c, s, k, k);
    forall id | id in t.armed ensures InQueue(Queue(t.lane, t.armed[id]), id) {
      var x := t.armed[id];
      AcquireEffect(c, s, k, x);
      assert id in s.armed ==> InQueue(Queue(s.lane, x), id);
      JoinsQueue(Queue(s.lane, x), Queue(t.lane, x), id);
    }
  }

  lemma JoinsQueue(q: seq<Waiter>, q': seq<Waiter>, id: nat)
    requires q <= q' && (InQueue(q, id) || (|q'| > |q| && q'[|q|].id == id))
    ensures InQueue(q', id)
  {
    if InQueue(q, id) {
      var i :| 0 <= i < |q| && q[i].id == id;
      assert q'[i].id == id;
    }
  }

  lemma AcquireKeepsInv(c: Config, s: Sys, k: Key)
    requires Inv(c, s)
    ensures Inv(c, StepAcquire(c, s, k))
  {
    var t := StepAcquire(c, s, k);
    LoggedIdsAreOld(c, s);
    AcquireSettlement(c, s, k);
    AcquireGrants(c, s, k);
    hide StepAcquire, GrantsInv, SlotsInv, QueueInv;
    forall x ensures SlotsInv(c, t, x) && QueueInv(t, x) {
      assert SlotsInv(c, s, x) && QueueInv(s, x) && SlotsInv(c, s, k);
      AcquireSlots(c, s, k, x);
      AcquireQueue(c, s, k, x);
    }
  }

  lemma AcquireGrants(c: Config, s: Sys, k: Key)
    requires GrantsInv(s) && s.nextId !in s.settled && forall i :: 0 <= i < |s.grants| ==> s.grants[i].id < s.nextId
    ensures GrantsInv(StepAcquire(c, s, k))
  {
    var r := DoAcquire(c, s.lane, k, s.nextId).1;
    if r.Granted? {
      LogAppend(s, StepAcquire(c, s, k), r.handle);
    }
  }

  /** The call at the head of a queue has not been answered yet. */
  lemma HeadIsPending(c: Config, s: Sys, k: Key)
    requires Inv(c, s) && |Queue(s.lane, k)| > 0
    ensures var w := Queue(s.lane, k)[0];
            w.id !in s.settled && w.generation == s.lane.generation && w.id in s.armed && s.armed[w.id] == k
  {
    assert QueueInv(s, k);
  }

  lemma ReleaseSlots(c: Config, s: Sys, h: Handle, x: Key)
    requires SlotsInv(c, s, x) && SlotsInv(c, s, h.key) && h in s.outstanding
    requires var g := DoRelease(s.lane, h).1; g.Some? ==> g.value !in s.outstanding && g.value.generation == s.lane.generation
    ensures SlotsInv(c, StepRelease(s, h), x)
  {
    var t := StepRelease(s, h);
    var g := DoRelease(s.lane, h).1;
    var u := s.(outstanding := s.outstanding - {h});
    CurrentRemove(s, u, h, x);
    if g.Some? {
      CurrentAdd(u, t, g.value, x);
    } else {
      assert Current(u, x) == Current(t, x);
    }
    ReleaseCounts(s, h, x);
    ReleaseTakes(s, h, x);
    ReleaseTakes(s, h, h.key);
    hide StepRelease, DoRelease, Current, Queue, Active;
  }

  /** What a release does to the queue of a key, ... */
  lemma ReleaseTakes(s: Sys, h: Handle, x: Key)
    ensures var t, g := StepRelease(s, h), DoRelease(s.lane, h).1;
            && t.lane.generation == s.lane.generation && t.lost == s.lost
            && (g.Some? <==> h.generation == s.lane.generation && Queue(s.lane, h.key) != [])
            && (g.Some? ==> g.value.key == h.key)
            && Queue(t.lane, x) == if g.Some? && x == h.key then Queue(s.lane, x)[1..] else Queue(s.lane, x)
  {
    hide Active;
  }

  /** ... and to its count. */
  lemma ReleaseCounts(s: Sys, h: Handle, x: Key)
    ensures var t, g := StepRelease(s, h), DoRelease(s.lane, h).1;
            Active(t.lane, x) == if x == h.key && g.None? && h.generation == s.lane.generation && Active(s.lane, x) > 0
                                 then Active(s.lane, x) - 1 else Active(s.lane, x)
  {
    hide Queue;
  }

  lemma ReleaseQueue(s: Sys, h: Handle, x: Key)
    requires QueueInv(s, x) && QueueInv(s, h.key)
    ensures QueueInv(StepRelease(s, h), x)
  {
    var t := StepRelease(s, h);
    var q := Queue(s.lane, x);
    ReleaseTakes(s, h, x);
    hide Queue, Active;
    if DoRelease(s.lane, h).1.Some? && x != h.key {
      assert s.armed[Queue(s.lane, h.key)[0].id] == h.key;
    }
  }

  lemma ReleaseSettlement(s: Sys, h: Handle)
    requires SettlementInv(s)
    requires var q := Queue(s.lane, h.key); |q| > 0 ==> q[0].id in s.armed
    ensures SettlementInv(StepRelease(s, h))
  {
    var t := StepRelease(s, h);
    forall id | id in t.armed ensures InQueue(Queue(t.lane, t.armed[id]), id) {
      var q, q' := Queue(s.lane, t.armed[id]), Queue(t.lane, t.armed[id]);
      var i :| 0 <= i < |q| && q[i].id == id;
      if DoRelease(s.lane, h).1.Some? && t.armed[id] == h.key {
        assert q'[i - 1] == q[i];
      } else {
        assert q' == q;
      }
    }
  }

  lemma ReleaseKeepsInv(c: Config, s: Sys, h: Handle)
    requires Inv(c, s) && h in s.outstanding
    ensures Inv(c, StepRelease(s, h))
  {
    var t := StepRelease(s, h);
    var g := DoRelease(s.lane, h).1;
    ReleaseTakes(s, h, h.key);
    if g.Some? {
      HeadIsPending(c, s, h.key);
      NotYetGranted(s, g.value);
    }
    assert QueueInv(s, h.key);
    ReleaseSettlement(s, h);
    ReleaseGrants(s, h);
    hide StepRelease, DoRelease, GrantsInv, SlotsInv, QueueInv, SettlementInv;
    forall x ensures SlotsInv(c, t, x) && QueueInv(t, x) {
      assert SlotsInv(c, s, x) && SlotsInv(c, s, h.key) && QueueInv(s, x) && QueueInv(s, h.key);
      ReleaseSlots(c, s, h, x);
      ReleaseQueue(s, h, x);
    }
  }

  lemma ReleaseGrants(s: Sys, h: Handle)
    requires GrantsInv(s) && QueueInv(s, h.key)
    requires var g := DoRelease(s.lane, h).1; g.Some? ==> g.value.id !in s.settled
    ensures GrantsInv(StepRelease(s, h))
  {
    var g := DoRelease(s.lane, h).1;
    if g.Some? {
      LogAppend(s, StepRelease(s, h), g.value);
    }
  }

  /** The queue without its entry `i`. */
  function DropAt(q: seq<Waiter>, i: nat): (r: seq<Waiter>)
    requires i < |q|
    ensures |r| == |q| - 1 && forall n :: 0 <= n < |r| ==> r[n] == q[if n < i then n else n + 1]
  {
    q[..i] + q[i + 1..]
  }

  lemma TimeoutQueue(s: Sys, id: nat, x: Key)
    requires id in s.armed && QueueInv(s, x)
    requires s.armed[id] == x ==> InQueue(Queue(s.lane, x), id)
    ensures QueueInv(StepTimeout(s, id), x)
    ensures var q, q' := Queue(s.lane, x), Queue(StepTimeout(s, id).lane, x);
            if s.armed[id] == x then |q'| + 1 == |q| else q' == q
  {
    var t := StepTimeout(s, id);
    var q := Queue(s.lane, x);
    if s.armed[id] == x {
      var i := IndexOf(q, id);
      var j :| 0 <= j < |q| && q[j].id == id;
      assert i < |q|;
      assert Queue(t.lane, x) == DropAt(q, i);
      hide IndexOf, DropAt, Queue, DoTimeout, StepTimeout;
      StaysInOrder(s, t, q, i, x);
    } else {
      assert Queue(t.lane, x) == q;
    }
  }

  lemma StaysInOrder(s: Sys, t: Sys, q: seq<Waiter>, i: nat, x: Key)
    requires QueueInv(s, x) && q == Queue(s.lane, x) && i < |q| && Queue(t.lane, x) == DropAt(q, i)
    requires t.lane.generation == s.lane.generation && t.grants == s.grants && t.armed == s.armed - {q[i].id}
    ensures QueueInv(t, x)
  {
    hide DropAt, Queue;
    var r := DropAt(q, i);
    forall n | 0 <= n < |r| ensures r[n].generation == t.lane.generation && r[n].id in t.armed && t.armed[r[n].id] == x {
      var m := if n < i then n else n + 1;
      assert r[n] == q[m] && q[m].id != q[i].id;
    }
    forall n, k | 0 <= n < k < |r| ensures r[n].id < r[k].id {
      assert r[n] == q[if n < i then n else n + 1] && r[k] == q[if k < i then k else k + 1];
    }
    forall g, n | 0 <= g < |t.grants| && 0 <= n < |r| && t.grants[g].key == x ensures t.grants[g].id < r[n].id {
      assert r[n] == q[if n < i then n else n + 1];
    }
  }

  lemma TimeoutSettlement(s: Sys, id: nat)
    requires SettlementInv(s) && id in s.armed
    ensures SettlementInv(StepTimeout(s, id))
  {
    var t := StepTimeout(s, id);
    forall y | y in t.armed ensures InQueue(Queue(t.lane, t.armed[y]), y) {
      var q, q' := Queue(s.lane, t.armed[y]), Queue(t.lane, t.armed[y]);
      var j :| 0 <= j < |q| && q[j].id == y;
      var i := IndexOf(q, id);
      if s.armed[id] == t.armed[y] && i < |q| {
        assert q' == q[..i] + q[i + 1..];
        assert q'[if j < i then j else j - 1] == q[j];
      } else {
        assert q' == q;
      }
    }
  }

  lemma TimeoutKeepsInv(c: Config, s: Sys, id: nat)
    requires Inv(c, s) && id in s.armed
    ensures Inv(c, StepTimeout(s, id))
  {
    var t := StepTimeout(s, id);
    forall x ensures SlotsInv(c, t, x) && QueueInv(t, x) {
      assert SlotsInv(c, s, x) && QueueInv(s, x);
      TimeoutQueue(s, id, x);
      assert Current(t, x) == Current(s, x);
    }
    TimeoutSettlement(s, id);
  }

  lemma ResetKeepsInv(c: Config, s: Sys)
    requires Inv(c, s)
    ensures Inv(c, StepReset(s))
  {
    var t := StepReset(s);
    forall x ensures SlotsInv(c, t, x) && QueueInv(t, x) {
      assert SlotsInv(c, s, x);
      assert Current(t, x) == {};
    }
  }

  lemma StepKeepsInv(c: Config, s: Sys, e: Event)
    requires Inv(c, s) && Enabled(s, e)
    ensures Inv(c, Step(c, s, e))
  {
    match e
    case AcquireCall(k) => AcquireKeepsInv(c, s, k);
    case ReleaseCall(h) => ReleaseKeepsInv(c, s, h);
    case Timeout(id) => TimeoutKeepsInv(c, s, id);
    case Reset => ResetKeepsInv(c, s);
  }

  // ----- Every interleaving ------------------------------------------------------------

  /** The invariant holds after any interleaving of calls, releases, timeouts and resets. */
  lemma {:induction false} RunKeepsInv(c: Config, s: Sys, es: seq<Event>)
    requires Inv(c, s) && Feasible(c, s, es)
    ensures Inv(c, Run(c, s, es))
    decreases |es|
  {
    if es != [] {
      StepKeepsInv(c, s, es[0]);
      RunKeepsInv(c, Step(c, s, es[0]), es[1..]);
    }
  }

  lemma InitHolds(c: Config)
    ensures Inv(c, Init)
  {
    assert forall k :: Current(Init, k) == {};
  }

  /**
   * Slots never exceed the limit: the current handles of a key, plus the slots held at
   * earlier resets, are exactly the active count, and callers wait only at the limit.
   */
  lemma {:induction false} MutualExclusion(c: Config, es: seq<Event>, k: Key)
    requires Feasible(c, Init, es)
    ensures var s := Run(c, Init, es);
            && Active(s.lane, k) == |Current(s, k)| + Lost(s, k) <= c.maxConcurrent
            && |Queue(s.lane, k)| <= c.maxQueueSize
            && (Queue(s.lane, k) != [] ==> Active(s.lane, k) == c.maxConcurrent)
  {
    InitHolds(c);
    RunKeepsInv(c, Init, es);
    assert SlotsInv(c, Run(c, Init, es), k);
  }

  /** An acquire is granted at once exactly when the key is below its limit, lost slots included. */
  lemma {:induction false} GrantedAtOnce(c: Config, es: seq<Event>, k: Key, id: nat)
    requires Feasible(c, Init, es)
    ensures var s := Run(c, Init, es);
            DoAcquire(c, s.lane, k, id).1.Granted? <==> |Current(s, k)| < c.maxConcurrent - Lost(s, k)
  {
    InitHolds(c);
    RunKeepsInv(c, Init, es);
    assert SlotsInv(c, Run(c, Init, es), k);
  }

  /**
   * And otherwise: a call at the limit waits, last in the queue, exactly if the queue has room, and is
   * refused exactly if it holds as many waiters as it may; a granted call holds the next slot.
   */
  lemma {:induction false} OutcomeIff(c: Config, es: seq<Event>, k: Key)
    requires Feasible(c, Init, es)
    ensures var s := Run(c, Init, es);
            var (v, r) := DoAcquire(c, s.lane, k, s.nextId);
            var held := |Current(s, k)| + Lost(s, k);
            && (r == Granted(Handle(s.nextId, k, s.lane.generation)) <==> held < c.maxConcurrent)
            && (r == Queued <==> held == c.maxConcurrent && |Queue(s.lane, k)| < c.maxQueueSize)
            && (r == QueueFull <==> held == c.maxConcurrent && |Queue(s.lane, k)| == c.maxQueueSize)
            && Queue(v, k) == (if r.Queued? then Queue(s.lane, k) + [Waiter(s.nextId, s.lane.generation)] else Queue(s.lane, k))
            && Active(v, k) == (if r.Granted? then held + 1 else held)
            && v.generation == s.lane.generation
            && forall x :: x != k ==> Active(v, x) == Active(s.lane, x) && Queue(v, x) == Queue(s.lane, x)
  {
    InitHolds(c);
    RunKeepsInv(c, Init, es);
    var s := Run(c, Init, es);
    assert SlotsInv(c, s, k);
    hide Run, Feasible, Inv;
  }

  /** First come, first served: of two calls granted for one key, the earlier call is granted first. */
  lemma {:induction false} GrantsAreFifo(c: Config, es: seq<Event>, i: nat, j: nat)
    requires Feasible(c, Init, es)
    requires var g := Run(c, Init, es).grants;
             i < |g| && j < |g| && g[i].key == g[j].key && g[i].id < g[j].id
    ensures i < j
  {
    InitHolds(c);
    RunKeepsInv(c, Init, es);
  }

  /** The outcome of a call never changes, no matter what happens later. */
  lemma {:induction false} SettledForGood(c: Config, s: Sys, es: seq<Event>, id: nat)
    requires Inv(c, s) && Feasible(c, s, es) && id in s.settled
    ensures var t := Run(c, s, es); id in t.settled && t.settled[id] == s.settled[id]
    decreases |es|
  {
    if es != [] {
      var e := es[0];
      if e.ReleaseCall? && |Queue(s.lane, e.handle.key)| > 0 {
        HeadIsPending(c, s, e.handle.key);
      }
      StepKeepsInv(c, s, e);
      SettledForGood(c, Step(c, s, e), es[1..], id);
    }
  }

  /**
   * Each acquire call is either settled (granted once, refused, cleared or timed out) or waits,
   * once, in the queue of one key: the one for which its timer is armed.
   */
  lemma {:induction false} EveryCallAccountedFor(c: Config, es: seq<Event>, id: nat)
    requires Feasible(c, Init, es)
    ensures var s := Run(c, Init, es);
            id < s.nextId <==> (id in s.settled) != (exists k :: InQueue(Queue(s.lane, k), id))
    ensures var s := Run(c, Init, es);
            forall k :: InQueue(Queue(s.lane, k), id) <==> id in s.armed && s.armed[id] == k
    ensures var s := Run(c, Init, es);
            forall k, i, j :: 0 <= i < j < |Queue(s.lane, k)| ==> Queue(s.lane, k)[i].id != Queue(s.lane, k)[j].id
    ensures var s := Run(c, Init, es);
            (id in s.settled && s.settled[id] == WasGranted) <==> InLog(s.grants, id)
  {
    InitHolds(c);
    RunKeepsInv(c, Init, es);
    var s := Run(c, Init, es);
    forall k ensures InQueue(Queue(s.lane, k), id) <==> id in s.armed && s.armed[id] == k {
      assert QueueInv(s, k);
    }
    forall k, i, j | 0 <= i < j < |Queue(s.lane, k)| ensures Queue(s.lane, k)[i].id != Queue(s.lane, k)[j].id {
      assert QueueInv(s, k);
    }
  }

  /** No event gives back a slot that was held at a reset. */
  lemma {:induction false} LostSlotsNeverReturn(c: Config, s: Sys, es: seq<Event>, k: Key)
    requires Inv(c, s) && Feasible(c, s, es)
    ensures Lost(Run(c, s, es), k) >= Lost(s, k)
    decreases |es|
  {
    if es != [] {
      assert SlotsInv(c, s, k);
      StepKeepsInv(c, s, es[0]);
      LostSlotsNeverReturn(c, Step(c, s, es[0]), es[1..], k);
    }
  }

  /**
   * Recovery after a reset is what the class does not give: once all current handles of a
   * key are released, the key is back at zero if and only if no slot was held at any reset.
   */
  lemma {:induction false} RecoveryCondition(c: Config, es: seq<Event>, k: Key)
    requires Feasible(c, Init, es) && Current(Run(c, Init, es), k) == {}
    ensures Active(Run(c, Init, es).lane, k) == 0 <==> Lost(Run(c, Init, es), k) == 0
  {
    InitHolds(c);
    RunKeepsInv(c, Init, es);
    assert SlotsInv(c, Run(c, Init, es), k);
  }

  /** A key whose every slot was held at a reset is dead: it is never granted again. */
  lemma {:induction false} DeadKey(c: Config, s: Sys, es: seq<Event>, k: Key, id: nat)
    requires Inv(c, s) && Feasible(c, s, es)
    requires Lost(s, k) == c.maxConcurrent
    ensures !DoAcquire(c, Run(c, s, es).lane, k, id).1.Granted?
  {
    LostSlotsNeverReturn(c, s, es, k);
    RunKeepsInv(c, s, es);
    assert SlotsInv(c, Run(c, s, es), k);
  }

  /** The failing case in full: acquire, reset, release leaves a one-slot lane stuck. */
  lemma ResetStrandsSlot(k: Key)
    ensures var c := Config(1, 100);
            var h := Handle(0, k, 0);
            var es := [AcquireCall(k), Reset, ReleaseCall(h)];
            && Feasible(c, Init, es)
            && Run(c, Init, es).outstanding == {}
            && Active(Run(c, Init, es).lane, k) == 1
  {
    var c := Config(1, 100);
    var h := Handle(0, k, 0);
    var es := [AcquireCall(k), Reset, ReleaseCall(h)];
    var s1 := Step(c, Init, es[0]);
    var s2 := Step(c, s1, es[1]);
    assert es[1..][1..] == [ReleaseCall(h)];
    assert s1.outstanding == {h} && s2.outstanding == {h};
    var s3 := Step(c, s2, es[2]);
    assert Feasible(c, s3, []) && Feasible(c, s2, [ReleaseCall(h)]);
    assert Run(c, s2, [ReleaseCall(h)]) == s3;
    assert Feasible(c, s1, es[1..]);
  }
}
