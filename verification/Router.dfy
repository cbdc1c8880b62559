/**
 * packages/server/src/process/message-router.ts
 *
 * One queue, one lane and one duplicate filter, driven by messages that arrive while
 * earlier ones are still being handled. Each stretch of code between two `await`s is one
 * step. A `Frame` is a `processNext` call that is suspended at an `await`.
 *
 * The class is built from the classes of the three parts and proved against the step
 * functions of their values. The invariant ties the parts together, session by session:
 * who is being processed according to the queue, the lane, the table of controllers and
 * the frames, and what has become of every message.
 */
module Router {
  import opened Prelude
  import Lane
  import MQ = MessageQueue
  import D = Dedupe

  type Session = string

  const QUEUE_CONFIG := MQ.Config(50, MQ.DropOld)
  const LANE_CONFIG := Lane.Config(1, 100)
  const DEDUPE_CONFIG := D.Config(5000, 1000)

  /** Suspended before its lane slot is granted, after that, or inside `onProcess`. */
  datatype Phase = WaitingLane | HasLane(handle: Lane.Handle) | Running(handle: Lane.Handle)

  datatype Frame = Frame(entry: MQ.Entry, phase: Phase)

  datatype Value = Value(
    queue: MQ.Value,
    lane: Lane.Value,
    dedupe: D.Value,
    controllers: map<Session, nat>,
    counter: nat
  )

  datatype Routed = Duplicate | Admitted(entry: MQ.Entry, evicted: Option<MQ.Entry>, started: Option<Frame>)

  const Empty := Value(MQ.Empty, Lane.Empty, D.Empty, map[], 0)

  /** `processNext` up to its first `await`. A full lane rejects the call, which leaves no frame. */
  function DoProcessNext(v: Value, k: Session): (Value, Option<Frame>) {
    var (q, e) := MQ.DoDequeue(v.queue, k);
    match e
    case None => (v.(queue := q), None)
    case Some(entry) =>
      var (lane, r) := Lane.DoAcquire(LANE_CONFIG, v.lane, k, entry.id);
      var w := v.(queue := MQ.DoMarkProcessing(q, k), lane := lane);
      match r
      case Granted(h) => (w, Some(Frame(entry, HasLane(h))))
      case Queued => (w, Some(Frame(entry, WaitingLane)))
      case QueueFull => (w, None)
  }

  function DoRoute(v: Value, k: Session, m: string, now: int): (Value, Routed) {
    if D.Check(v.dedupe, m) then (v, Duplicate)
    else
      var dedupe := D.DoExecute(DEDUPE_CONFIG, v.dedupe, m, now).0;
      var e := MQ.Entry(v.counter + 1, k, m, 0);
      var evicted := MQ.Evicted(QUEUE_CONFIG, v.queue, k);
      var (q, ready) := MQ.DoEnqueue(QUEUE_CONFIG, v.queue, e);
      var w := v.(dedupe := dedupe, counter := v.counter + 1, queue := q);
      if ready then
        var (x, f) := DoProcessNext(w, k);
        (x, Admitted(e, evicted, f))
      else (w, Admitted(e, evicted, None))
  }

  /** From the granted lane to the `await` on `onProcess`. */
  function DoResume(v: Value, f: Frame): Value {
    v.(controllers := v.controllers[f.entry.session := f.entry.id])
  }

  /** The `finally` block. The last result is the slot handed to a waiting frame, if any. */
  function DoComplete(v: Value, f: Frame): (Value, Option<Frame>, Option<Lane.Handle>)
    requires f.phase.Running?
  {
    var k := f.entry.session;
    var (lane, granted) := Lane.DoRelease(v.lane, f.phase.handle);
    var (q, hasMore) := MQ.DoMarkDone(v.queue, k);
    var w := v.(controllers := v.controllers - {k}, lane := lane, queue := q);
    if hasMore then
      var (x, next) := DoProcessNext(w, k);
      (x, next, granted)
    else (w, None, granted)
  }

  class MessageRouter {
    const queue: MQ.MessageQueue
    const lane: Lane.ConcurrencyLane
    const dedupe: D.Dedupe
    var activeControllers: map<Session, nat>
    var entryCounter: nat

    ghost predicate Valid()
      reads this
    {
      queue.config == QUEUE_CONFIG && lane.config == LANE_CONFIG && dedupe.config == DEDUPE_CONFIG
    }

    function Contents(): Value
      reads this, queue, lane, dedupe
    {
      Value(queue.Contents(), lane.Contents(), dedupe.Contents(), activeControllers, entryCounter)
    }

    constructor ()
      ensures Valid() && Contents() == Empty
      ensures fresh(queue) && fresh(lane) && fresh(dedupe)
    {
      queue := new MQ.MessageQueue(QUEUE_CONFIG);
      lane := new Lane.ConcurrencyLane(LANE_CONFIG);
      dedupe := new D.Dedupe(DEDUPE_CONFIG);
      activeControllers, entryCounter := map[], 0;
    }

    method Route(key: Session, messageId: string, now: int) returns (r: Routed)
      requires Valid()
      modifies this, queue, lane, dedupe
      ensures Valid()
      ensures (Contents(), r) == DoRoute(old(Contents()), key, messageId, now)
    {
      hide D.DoExecute, MQ.DoEnqueue, DoProcessNext;
      var seen := dedupe.Check(messageId);
      if seen {
        return Duplicate;
      }
      var _ := dedupe.Execute(messageId, now);
      entryCounter := entryCounter + 1;
      var entry := MQ.Entry(entryCounter, key, messageId, 0);
      ghost var evicted := MQ.Evicted(QUEUE_CONFIG, queue.Contents(), key);
      var full := GetOr(queue.queues, key, []);
      var dropped := if |full| >= QUEUE_CONFIG.maxSize then Some(full[0]) else None;
      assert dropped == evicted;
      var ready := queue.Enqueue(entry);
      if ready {
        var f := ProcessNext(key);
        return Admitted(entry, dropped, f);
      }
      r := Admitted(entry, dropped, None);
    }

    method ProcessNext(key: Session) returns (f: Option<Frame>)
      requires Valid()
      modifies queue, lane
      ensures Valid()
      ensures (Contents(), f) == DoProcessNext(old(Contents()), key)
    {
      var e := queue.Dequeue(key);
      if e.None? {
        return None;
      }
      queue.MarkProcessing(key);
      var r := lane.Acquire(key, e.value.id);
      match r
      case Granted(h) => f := Some(Frame(e.value, HasLane(h)));
      case Queued => f := Some(Frame(e.value, WaitingLane));
      case QueueFull => f := None;
    }

    /** The code after `await laneManager.acquire(...)`, up to the call of `onProcess`. */
    method OnLaneAcquired(f: Frame) returns (g: Frame)
      requires Valid() && f.phase.HasLane?
      modifies this
      ensures Valid()
      ensures Contents() == DoResume(old(Contents()), f)
      ensures g == Frame(f.entry, Running(f.phase.handle))
    {
      activeControllers := activeControllers[f.entry.session := f.entry.id];
      g := Frame(f.entry, Running(f.phase.handle));
    }

    /** `onProcess` settled, either way. */
    method OnProcessed(f: Frame) returns (next: Option<Frame>, granted: Option<Lane.Handle>)
      requires Valid() && f.phase.Running?
      modifies this, queue, lane
      ensures Valid()
      ensures (Contents(), next, granted) == DoComplete(old(Contents()), f)
    {
      var key := f.entry.session;
      activeControllers := activeControllers - {key};
      granted := lane.ReleaseIfCurrent(f.phase.handle);
      var hasMore := queue.MarkDone(key);
      next := None;
      if hasMore {
        next := ProcessNext(key);
      }
    }
  }

  // ----- The router together with its suspended calls ------------------------------------

  /** `admitted`, `handled` and `evicted` are per-session logs; `ids` lists admitted message ids. */
  datatype Sys = Sys(
    v: Value,
    frames: set<Frame>,
    admitted: map<Session, seq<MQ.Entry>>,
    handled: map<Session, seq<MQ.Entry>>,
    evicted: map<Session, seq<MQ.Entry>>,
    ids: seq<string>
  )

  datatype Event = Arrive(session: Session, messageId: string, now: int) | Resume(frame: Frame) | Complete(frame: Frame)

  const Init := Sys(Empty, {}, map[], map[], map[], [])

  predicate Enabled(s: Sys, e: Event) {
    match e
    case Arrive(_, _, _) => true
    case Resume(f) => f in s.frames && f.phase.HasLane?
    case Complete(f) => f in s.frames && f.phase.Running?
  }

  function Some1<T>(o: Option<T>): seq<T> { if o.Some? then [o.value] else [] }

  function Append(log: map<Session, seq<MQ.Entry>>, k: Session, es: seq<MQ.Entry>): map<Session, seq<MQ.Entry>> {
    log[k := GetOr(log, k, []) + es]
  }

  function Started(frames: set<Frame>, f: Option<Frame>): set<Frame> {
    if f.Some? then frames + {f.value} else frames
  }

  function WakeOne(f: Frame, h: Lane.Handle): Frame {
    if f.phase.WaitingLane? && f.entry.id == h.id then Frame(f.entry, HasLane(h)) else f
  }

  /** A granted slot resumes the frame that waits for it. */
  function Wake(frames: set<Frame>, g: Option<Lane.Handle>): set<Frame> {
    if g.None? then frames else set f | f in frames :: WakeOne(f, g.value)
  }

  function StepArrive(s: Sys, k: Session, m: string, now: int): Sys {
    var (v, r) := DoRoute(s.v, k, m, now);
    match r
    case Duplicate => s
    case Admitted(e, evicted, f) => AfterArrive(s, k, m, v, e, Some1(evicted), f)
  }

  function AfterArrive(s: Sys, k: Session, m: string, v: Value, e: MQ.Entry, evicted: seq<MQ.Entry>, f: Option<Frame>): Sys {
    Sys(v, Started(s.frames, f), Append(s.admitted, k, [e]), s.handled, Append(s.evicted, k, evicted), s.ids + [m])
  }

  function StepResume(s: Sys, f: Frame): Sys
    requires f.phase.HasLane?
  {
    s.(v := DoResume(s.v, f), frames := s.frames - {f} + {Frame(f.entry, Running(f.phase.handle))})
  }

  function StepComplete(s: Sys, f: Frame): Sys
    requires f.phase.Running?
  {
    var (v, next, granted) := DoComplete(s.v, f);
    s.(v := v, frames := Started(Wake(s.frames - {f}, granted), next), handled := Append(s.handled, f.entry.session, [f.entry]))
  }

  function Step(s: Sys, e: Event): Sys
    requires Enabled(s, e)
  {
    match e
    case Arrive(k, m, now) => StepArrive(s, k, m, now)
    case Resume(f) => StepResume(s, f)
    case Complete(f) => StepComplete(s, f)
  }

  predicate Feasible(s: Sys, es: seq<Event>)
    decreases |es|
  {
    es == [] || (Enabled(s, es[0]) && Feasible(Step(s, es[0]), es[1..]))
  }

  function Run(s: Sys, es: seq<Event>): Sys
    requires Feasible(s, es)
    decreases |es|
  {
    if es == [] then s else Run(Step(s, es[0]), es[1..])
  }

  function Of(log: map<Session, seq<MQ.Entry>>, k: Session): seq<MQ.Entry> { GetOr(log, k, []) }

  function FramesOf(s: Sys, k: Session): set<Frame> { set f | f in s.frames && f.entry.session == k }

  function InFlight(f: Option<Frame>): seq<MQ.Entry> { if f.Some? then [f.value.entry] else [] }

  function Pending(s: Sys, k: Session): seq<MQ.Entry> { MQ.Pending(s.v.queue, k) }

  /** Ids grow along the sequence and stay at or below `limit`. */
  ghost predicate Ascending(es: seq<MQ.Entry>, limit: int) {
    es == [] || (es[|es| - 1].id <= limit && Ascending(es[..|es| - 1], es[|es| - 1].id - 1))
  }

  /** Who is running for a session, in the queue, the lane and the controller table alike. */
  ghost predicate Agreement(s: Sys, k: Session, f: Option<Frame>) {
    && FramesOf(s, k) == (if f.Some? then {f.value} else {})
    && (f.Some? ==> !f.value.phase.WaitingLane? && f.value.phase.handle == Lane.Handle(f.value.entry.id, k, 0))
    && (f.None? ==> Pending(s, k) == [])
    && (k in s.v.queue.processing <==> f.Some?)
    && (k in s.v.controllers <==> f.Some? && f.value.phase.Running?)
    && (k in s.v.controllers ==> s.v.controllers[k] == f.value.entry.id)
    && Lane.Active(s.v.lane, k) == |InFlight(f)|
    && Lane.Queue(s.v.lane, k) == []
  }

  /** The messages of a session: in arrival order, none lost, none repeated. */
  ghost predicate Book(admitted: seq<MQ.Entry>, handled: seq<MQ.Entry>, inFlight: seq<MQ.Entry>,
                       pending: seq<MQ.Entry>, evicted: seq<MQ.Entry>, limit: nat)
  {
    && Ascending(handled + inFlight + pending, limit)
    && |pending| <= QUEUE_CONFIG.maxSize
    && multiset(admitted) == multiset(handled) + multiset(inFlight) + multiset(pending) + multiset(evicted)
  }

  ghost predicate Bookkeeping(s: Sys, k: Session, f: Option<Frame>) {
    && Book(Of(s.admitted, k), Of(s.handled, k), InFlight(f), Pending(s, k), Of(s.evicted, k), s.v.counter)
    && (forall i :: 0 <= i < |Pending(s, k)| ==> Pending(s, k)[i].priority == 0 && Pending(s, k)[i].session == k)
  }

  ghost predicate SessionInv(s: Sys, k: Session, f: Option<Frame>) {
    Agreement(s, k, f) && Bookkeeping(s, k, f)
  }

  ghost predicate SharedInv(s: Sys) {
    && s.v.lane.generation == 0
    && D.Valid(s.v.dedupe)
    && s.v.dedupe.keys == D.Last(DEDUPE_CONFIG.maxSize, s.ids)
  }

  ghost predicate SessionOk(s: Sys, k: Session) {
    exists f :: SessionInv(s, k, f)
  }

  ghost predicate Inv(s: Sys) {
    SharedInv(s) && forall k :: SessionOk(s, k)
  }

  // ----- One step keeps the invariant --------------------------------------------------

  /** A step of another session leaves everything about `x` alone. */
  ghost predicate SameFor(s: Sys, t: Sys, x: Session) {
    && s.v.counter <= t.v.counter
    && FramesOf(t, x) == FramesOf(s, x)
    && Pending(t, x) == Pending(s, x)
    && (x in t.v.queue.processing <==> x in s.v.queue.processing)
    && (x in t.v.controllers <==> x in s.v.controllers) && GetOr(t.v.controllers, x, 0) == GetOr(s.v.controllers, x, 0)
    && Lane.Active(t.v.lane, x) == Lane.Active(s.v.lane, x)
    && Lane.Queue(t.v.lane, x) == Lane.Queue(s.v.lane, x)
    && Of(t.admitted, x) == Of(s.admitted, x) && Of(t.handled, x) == Of(s.handled, x) && Of(t.evicted, x) == Of(s.evicted, x)
  }

  lemma SameForKeeps(s: Sys, t: Sys, x: Session, f: Option<Frame>)
    requires SessionInv(s, x, f) && SameFor(s, t, x)
    ensures SessionInv(t, x, f)
  {
    AscendingWeaken(History(s, x, f), s.v.counter, t.v.counter);
  }

  lemma AscendingAppend(es: seq<MQ.Entry>, limit: nat, e: MQ.Entry)
    requires Ascending(es, limit) && e.id == limit + 1
    ensures Ascending(es + [e], limit + 1)
  {
    assert (es + [e])[..|es|] == es;
  }

  lemma {:induction false} AscendingWeaken(es: seq<MQ.Entry>, low: int, high: int)
    requires Ascending(es, low) && low <= high
    ensures Ascending(es, high)
  {
  }

  /** Dropping one element keeps the order. */
  lemma {:induction false} AscendingDrop(a: seq<MQ.Entry>, e: MQ.Entry, b: seq<MQ.Entry>, limit: int)
    requires Ascending(a + [e] + b, limit)
    ensures Ascending(a + b, limit)
  {
    var all := a + [e] + b;
    if b == [] {
      assert all[..|all| - 1] == a && a + b == a;
      AscendingWeaken(a, e.id - 1, limit);
    } else {
      var n := |b| - 1;
      assert all[..|all| - 1] == a + [e] + b[..n] && (a + b)[..|a| + n] == a + b[..n];
      AscendingDrop(a, e, b[..n], b[n].id - 1);
    }
  }

  ghost predicate InOrder(es: seq<MQ.Entry>) {
    forall i, j :: 0 <= i < j < |es| ==> es[i].id < es[j].id
  }

  /** The same, element by element. */
  lemma {:induction false} AscendingMeans(es: seq<MQ.Entry>, limit: int)
    requires Ascending(es, limit)
    ensures InOrder(es) && forall i :: 0 <= i < |es| ==> es[i].id <= limit
  {
    if es != [] {
      var n := |es| - 1;
      AscendingMeans(es[..n], es[n].id - 1);
      assert forall i :: 0 <= i < n ==> es[..n][i] == es[i];
    }
  }

  /** `enqueue` with equal priorities: append, after dropping the head of a full queue. */
  lemma EnqueueAt(v: Value, e: MQ.Entry, x: Session)
    requires forall i :: 0 <= i < |MQ.Pending(v.queue, e.session)| ==> MQ.Pending(v.queue, e.session)[i].priority == e.priority
    ensures var q := MQ.Pending(v.queue, x);
            MQ.Pending(MQ.DoEnqueue(QUEUE_CONFIG, v.queue, e).0, x)
            == if x != e.session then q else if |q| >= 50 then q[1..] + [e] else q + [e]
  {
    var q := MQ.Pending(v.queue, e.session);
    MQ.EqualPrioritiesAppend(if |q| >= 50 then q[1..] else q, e);
  }

  /** `processNext` on an idle session with a pending message: the lane slot is granted at once. */
  lemma ProcessNextStarts(v: Value, k: Session)
    requires |MQ.Pending(v.queue, k)| > 0 && Lane.Active(v.lane, k) == 0
    ensures var (w, f) := DoProcessNext(v, k);
            var e := MQ.Pending(v.queue, k)[0];
            && f == Some(Frame(e, HasLane(Lane.Handle(e.id, k, v.lane.generation))))
            && w.controllers == v.controllers && w.dedupe == v.dedupe && w.counter == v.counter
            && w.queue.processing == v.queue.processing + {k}
            && w.lane.generation == v.lane.generation && w.lane.waiters == v.lane.waiters
  {
  }

  lemma ProcessNextAt(v: Value, k: Session, x: Session)
    requires |MQ.Pending(v.queue, k)| > 0 && Lane.Active(v.lane, k) == 0
    ensures var w := DoProcessNext(v, k).0;
            && MQ.Pending(w.queue, x) == (if x == k then MQ.Pending(v.queue, k)[1..] else MQ.Pending(v.queue, x))
            && Lane.Active(w.lane, x) == (if x == k then 1 else Lane.Active(v.lane, x))
            && Lane.Queue(w.lane, x) == Lane.Queue(v.lane, x)
  {
  }

  /** What `route` leaves in the queue, before `processNext` takes anything out. */
  function Enqueued(v: Value, k: Session, m: string, now: int): Value {
    v.(dedupe := D.DoExecute(DEDUPE_CONFIG, v.dedupe, m, now).0, counter := v.counter + 1,
       queue := MQ.DoEnqueue(QUEUE_CONFIG, v.queue, MQ.Entry(v.counter + 1, k, m, 0)).0)
  }

  lemma RouteUnfolds(v: Value, k: Session, m: string, now: int)
    requires !D.Check(v.dedupe, m)
    ensures var e := MQ.Entry(v.counter + 1, k, m, 0);
            var w := Enqueued(v, k, m, now);
            && w.queue.processing == v.queue.processing
            && DoRoute(v, k, m, now) ==
               if k in v.queue.processing then (w, Admitted(e, MQ.Evicted(QUEUE_CONFIG, v.queue, k), None))
               else (DoProcessNext(w, k).0, Admitted(e, MQ.Evicted(QUEUE_CONFIG, v.queue, k), DoProcessNext(w, k).1))
  {
  }

  /** A new message joins the pending ones; a full queue gives up its oldest entry first. */
  lemma BookArrive(a: seq<MQ.Entry>, h: seq<MQ.Entry>, fl: seq<MQ.Entry>, q: seq<MQ.Entry>, x: seq<MQ.Entry>, limit: nat,
                   e: MQ.Entry, p: seq<MQ.Entry>, y: seq<MQ.Entry>)
    requires Book(a, h, fl, q, x, limit) && e.id == limit + 1
    requires p == if |q| >= 50 then q[1..] + [e] else q + [e]
    requires y == x + if |q| >= 50 then [q[0]] else []
    ensures Book(a + [e], h, fl, p, y, limit + 1)
  {
    var kept := if |q| < 50 then q else q[1..];
    assert h + fl + kept + [e] == h + fl + (kept + [e]);
    if |q| == 50 {
      assert q == [q[0]] + kept;
      assert h + fl + q == h + fl + [q[0]] + kept;
      AscendingDrop(h + fl, q[0], kept, limit);
    }
    AscendingAppend(h + fl + kept, limit, e);
  }

  lemma FramesAfterArrive(s: Sys, k: Session, m: string, v: Value, e: MQ.Entry, evicted: seq<MQ.Entry>, f: Option<Frame>, x: Session)
    ensures var t := AfterArrive(s, k, m, v, e, evicted, f);
            FramesOf(t, x) == FramesOf(s, x) + (if f.Some? && f.value.entry.session == x then {f.value} else {})
  {
  }

  /** A message for a busy session waits. */
  lemma ArriveBusy(s: Sys, k: Session, m: string, f: Option<Frame>, v: Value, e: MQ.Entry)
    requires Bookkeeping(s, k, f)
    requires e == MQ.Entry(s.v.counter + 1, k, m, 0) && v.counter == e.id
    requires var q := Pending(s, k); MQ.Pending(v.queue, k) == if |q| >= 50 then q[1..] + [e] else q + [e]
    ensures var q := Pending(s, k);
            Bookkeeping(AfterArrive(s, k, m, v, e, if |q| >= 50 then [q[0]] else [], None), k, f)
  {
    hide Book, MQ.Pending;
    var q, p := Pending(s, k), MQ.Pending(v.queue, k);
    var gone := if |q| >= 50 then [q[0]] else [];
    BookArrive(Of(s.admitted, k), Of(s.handled, k), InFlight(f), q, Of(s.evicted, k), s.v.counter, e, p, Of(s.evicted, k) + gone);
    PlainArrive(q, e, p, k);
    LogsAfterArrive(s, k, m, v, e, gone, None);
    hide Of, Append, AfterArrive;
  }

  /** Messages of the router all have the same priority. */
  lemma PlainArrive(q: seq<MQ.Entry>, e: MQ.Entry, p: seq<MQ.Entry>, k: Session)
    requires p == if |q| >= 50 then q[1..] + [e] else q + [e]
    requires e.priority == 0 && e.session == k && forall i :: 0 <= i < |q| ==> q[i].priority == 0 && q[i].session == k
    ensures forall i :: 0 <= i < |p| ==> p[i].priority == 0 && p[i].session == k
  {
  }

  lemma LogsAfterArrive(s: Sys, k: Session, m: string, v: Value, e: MQ.Entry, evicted: seq<MQ.Entry>, f: Option<Frame>)
    ensures var t := AfterArrive(s, k, m, v, e, evicted, f);
            && t.v == v && Of(t.admitted, k) == Of(s.admitted, k) + [e] && Of(t.handled, k) == Of(s.handled, k)
            && Of(t.evicted, k) == Of(s.evicted, k) + evicted
  {
  }

  /** A message for an idle session starts at once. */
  lemma ArriveIdle(s: Sys, k: Session, m: string, v: Value, f: Frame)
    requires Bookkeeping(s, k, None) && Pending(s, k) == []
    requires f.entry == MQ.Entry(s.v.counter + 1, k, m, 0) && v.counter == f.entry.id
    requires MQ.Pending(v.queue, k) == []
    ensures Bookkeeping(AfterArrive(s, k, m, v, f.entry, [], Some(f)), k, Some(f))
  {
    var e := f.entry;
    assert [] + [e] == [e] && [e][1..] == [];
    BookArrive(Of(s.admitted, k), Of(s.handled, k), [], [], Of(s.evicted, k), s.v.counter, e, [e], Of(s.evicted, k) + []);
    BookStart(Of(s.admitted, k) + [e], Of(s.handled, k), [e], Of(s.evicted, k) + [], e.id);
  }

  /** The oldest pending message becomes the one in flight. */
  lemma BookStart(a: seq<MQ.Entry>, h: seq<MQ.Entry>, q: seq<MQ.Entry>, x: seq<MQ.Entry>, limit: nat)
    requires Book(a, h, [], q, x, limit) && |q| > 0
    ensures Book(a, h, [q[0]], q[1..], x, limit)
  {
    assert h + [] + q == h + [q[0]] + q[1..];
    assert q == [q[0]] + q[1..];
  }

  /** The effect of `route` on the queue, the lane and the controllers, session by session. */
  ghost predicate RouteEffect(v: Value, k: Session, m: string, busy: bool, w: Value, f: Option<Frame>) {
    && w.counter == v.counter + 1 && w.controllers == v.controllers && w.lane.generation == v.lane.generation
    && w.queue.processing == v.queue.processing + {k}
    && (forall x :: x != k ==>
          && MQ.Pending(w.queue, x) == MQ.Pending(v.queue, x)
          && Lane.Active(w.lane, x) == Lane.Active(v.lane, x)
          && Lane.Queue(w.lane, x) == Lane.Queue(v.lane, x))
    && var e := MQ.Entry(v.counter + 1, k, m, 0);
       var q := MQ.Pending(v.queue, k);
       if busy then
         && w.lane == v.lane && f.None?
         && MQ.Pending(w.queue, k) == if |q| >= 50 then q[1..] + [e] else q + [e]
       else
         && f == Some(Frame(e, HasLane(Lane.Handle(e.id, k, 0))))
         && MQ.Pending(w.queue, k) == []
         && Lane.Active(w.lane, k) == 1 && Lane.Queue(w.lane, k) == []
  }

  lemma RouteHasEffect(s: Sys, k: Session, m: string, now: int, f: Option<Frame>)
    requires s.v.lane.generation == 0 && SessionInv(s, k, f) && !D.Check(s.v.dedupe, m)
    ensures var (w, r) := DoRoute(s.v, k, m, now);
            && r.Admitted? && RouteEffect(s.v, k, m, f.Some?, w, r.started)
            && r.entry == MQ.Entry(s.v.counter + 1, k, m, 0)
            && Some1(r.evicted) == (if |Pending(s, k)| >= 50 then [Pending(s, k)[0]] else [])
            && w.dedupe == D.DoExecute(DEDUPE_CONFIG, s.v.dedupe, m, now).0
  {
    hide Book, DoProcessNext, MQ.DoEnqueue, D.DoExecute;
    var e := MQ.Entry(s.v.counter + 1, k, m, 0);
    var w := Enqueued(s.v, k, m, now);
    RouteUnfolds(s.v, k, m, now);
    EnqueueAt(s.v, e, k);
    forall x | x != k ensures MQ.Pending(w.queue, x) == MQ.Pending(s.v.queue, x) {
      EnqueueAt(s.v, e, x);
    }
    if f.None? {
      assert MQ.Pending(w.queue, k) == [e];
      ProcessNextStarts(w, k);
      forall x ensures var y := DoProcessNext(w, k).0;
                       && MQ.Pending(y.queue, x) == (if x == k then [] else MQ.Pending(s.v.queue, x))
                       && Lane.Active(y.lane, x) == (if x == k then 1 else Lane.Active(s.v.lane, x))
                       && Lane.Queue(y.lane, x) == Lane.Queue(s.v.lane, x) {
        ProcessNextAt(w, k, x);
      }
    }
  }

  lemma ArriveAgreement(s: Sys, k: Session, m: string, w: Value, f: Option<Frame>, g: Option<Frame>, e: MQ.Entry, evicted: seq<MQ.Entry>)
    requires Agreement(s, k, g) && RouteEffect(s.v, k, m, g.Some?, w, f)
    ensures Agreement(AfterArrive(s, k, m, w, e, evicted, f), k, if g.Some? then g else f)
  {
    FramesAfterArrive(s, k, m, w, e, evicted, f, k);
  }

  lemma ArriveElsewhere(s: Sys, k: Session, m: string, w: Value, f: Option<Frame>, busy: bool, e: MQ.Entry, evicted: seq<MQ.Entry>, x: Session)
    requires x != k && RouteEffect(s.v, k, m, busy, w, f)
    ensures SameFor(s, AfterArrive(s, k, m, w, e, evicted, f), x)
  {
    FramesAfterArrive(s, k, m, w, e, evicted, f, x);
  }

  lemma ArriveSession(s: Sys, k: Session, m: string, w: Value, f: Option<Frame>, g: Option<Frame>, x: Session)
    requires SessionInv(s, k, g) && SessionOk(s, x) && RouteEffect(s.v, k, m, g.Some?, w, f)
    ensures var q := Pending(s, k);
            SessionOk(AfterArrive(s, k, m, w, MQ.Entry(s.v.counter + 1, k, m, 0), if |q| >= 50 then [q[0]] else [], f), x)
  {
    hide Book;
    var q := Pending(s, k);
    var e := MQ.Entry(s.v.counter + 1, k, m, 0);
    var evicted := if |q| >= 50 then [q[0]] else [];
    var t := AfterArrive(s, k, m, w, e, evicted, f);
    if x != k {
      var h :| SessionInv(s, x, h);
      ArriveElsewhere(s, k, m, w, f, g.Some?, e, evicted, x);
      SameForKeeps(s, t, x, h);
    } else {
      ArriveAgreement(s, k, m, w, f, g, e, evicted);
      if g.Some? {
        ArriveBusy(s, k, m, g, w, e);
        assert SessionInv(t, k, g);
      } else {
        ArriveIdle(s, k, m, w, f.value);
        assert SessionInv(t, k, f);
      }
    }
  }

  lemma ArriveKeepsInv(s: Sys, k: Session, m: string, now: int)
    requires Inv(s)
    ensures Inv(StepArrive(s, k, m, now))
  {
    if !D.Check(s.v.dedupe, m) {
      var (w, r) := DoRoute(s.v, k, m, now);
      assert SessionOk(s, k);
      var g :| SessionInv(s, k, g);
      RouteHasEffect(s, k, m, now, g);
      D.ExecuteKeepsNewest(DEDUPE_CONFIG, s.v.dedupe, m, now, s.ids);
      hide SessionInv;
      forall x ensures SessionOk(AfterArrive(s, k, m, w, r.entry, Some1(r.evicted), r.started), x) {
        assert SessionOk(s, x);
        ArriveSession(s, k, m, w, r.started, g, x);
      }
    }
  }

  lemma FrameIsTheOne(s: Sys, f: Frame)
    requires Inv(s) && f in s.frames
    ensures SessionInv(s, f.entry.session, Some(f))
  {
    var k := f.entry.session;
    assert SessionOk(s, k);
    var g :| SessionInv(s, k, g);
    assert f in FramesOf(s, k);
  }

  lemma ResumeAt(s: Sys, f: Frame, x: Session, h: Option<Frame>)
    requires f in s.frames && f.phase.HasLane?
    requires SessionInv(s, f.entry.session, Some(f)) && SessionInv(s, x, h)
    ensures SessionOk(StepResume(s, f), x)
  {
    hide Book;
    var t := StepResume(s, f);
    var g := Frame(f.entry, Running(f.phase.handle));
    if x == f.entry.session {
      assert FramesOf(t, x) == {g};
      assert InFlight(Some(g)) == InFlight(Some(f)) && Pending(t, x) == Pending(s, x);
      assert SessionInv(t, x, Some(g));
    } else {
      assert FramesOf(t, x) == FramesOf(s, x);
      SameForKeeps(s, t, x, h);
    }
  }

  lemma ResumeKeepsInv(s: Sys, f: Frame)
    requires Inv(s) && f in s.frames && f.phase.HasLane?
    ensures Inv(StepResume(s, f))
  {
    FrameIsTheOne(s, f);
    forall x ensures SessionOk(StepResume(s, f), x) {
      assert SessionOk(s, x);
      var h :| SessionInv(s, x, h);
      ResumeAt(s, f, x, h);
    }
  }

  /** The effect of the `finally` block: the slot is freed and, if messages wait, taken again at once. */
  ghost predicate CompleteEffect(v: Value, k: Session, w: Value, next: Option<Frame>) {
    var q := MQ.Pending(v.queue, k);
    && w.counter == v.counter && w.dedupe == v.dedupe && w.lane.generation == v.lane.generation
    && w.controllers == v.controllers - {k}
    && w.queue.processing == (if |q| > 0 then v.queue.processing + {k} else v.queue.processing - {k})
    && MQ.Pending(w.queue, k) == (if |q| > 0 then q[1..] else [])
    && Lane.Active(w.lane, k) == (if |q| > 0 then 1 else 0) && Lane.Queue(w.lane, k) == []
    && next == (if |q| > 0 then Some(Frame(q[0], HasLane(Lane.Handle(q[0].id, k, v.lane.generation)))) else None)
    && (forall x :: x != k ==>
          && MQ.Pending(w.queue, x) == MQ.Pending(v.queue, x)
          && Lane.Active(w.lane, x) == Lane.Active(v.lane, x)
          && Lane.Queue(w.lane, x) == Lane.Queue(v.lane, x))
  }

  lemma CompleteHasEffect(v: Value, f: Frame)
    requires f.phase.Running? && v.lane.generation == 0 && f.phase.handle == Lane.Handle(f.entry.id, f.entry.session, 0)
    requires Lane.Active(v.lane, f.entry.session) == 1 && Lane.Queue(v.lane, f.entry.session) == []
    ensures var (w, next, granted) := DoComplete(v, f);
            granted == None && CompleteEffect(v, f.entry.session, w, next)
  {
    var k := f.entry.session;
    var q := MQ.Pending(v.queue, k);
    var lane := Lane.DoRelease(v.lane, f.phase.handle).0;
    assert lane == v.lane.(active := v.lane.active - {k});
    var w := v.(controllers := v.controllers - {k}, lane := lane, queue := MQ.DoMarkDone(v.queue, k).0);
    if |q| > 0 {
      ProcessNextStarts(w, k);
      ProcessNextAt(w, k, k);
      forall x | x != k ensures var y := DoProcessNext(w, k).0;
                                && MQ.Pending(y.queue, x) == MQ.Pending(v.queue, x)
                                && Lane.Active(y.lane, x) == Lane.Active(v.lane, x)
                                && Lane.Queue(y.lane, x) == Lane.Queue(v.lane, x) {
        ProcessNextAt(w, k, x);
      }
    }
  }

  function AfterComplete(s: Sys, f: Frame, w: Value, next: Option<Frame>): Sys {
    s.(v := w, frames := Started(s.frames - {f}, next), handled := Append(s.handled, f.entry.session, [f.entry]))
  }

  lemma CompleteAgreement(s: Sys, f: Frame, w: Value, next: Option<Frame>)
    requires Agreement(s, f.entry.session, Some(f)) && CompleteEffect(s.v, f.entry.session, w, next)
    requires s.v.lane.generation == 0
    requires forall i :: 0 <= i < |Pending(s, f.entry.session)| ==> Pending(s, f.entry.session)[i].session == f.entry.session
    ensures Agreement(AfterComplete(s, f, w, next), f.entry.session, next)
  {
    var k := f.entry.session;
    assert next.Some? ==> next.value.entry == Pending(s, k)[0];
    assert FramesOf(AfterComplete(s, f, w, next), k)
        == (FramesOf(s, k) - {f}) + (if next.Some? then {next.value} else {});
  }

  /** The message in flight becomes a handled one, and the oldest pending one follows it. */
  lemma BookNext(a: seq<MQ.Entry>, h: seq<MQ.Entry>, e: MQ.Entry, q: seq<MQ.Entry>, x: seq<MQ.Entry>, limit: nat,
                 fl: seq<MQ.Entry>, p: seq<MQ.Entry>)
    requires Book(a, h, [e], q, x, limit)
    requires if q == [] then fl == [] && p == [] else fl == [q[0]] && p == q[1..]
    ensures Book(a, h + [e], fl, p, x, limit)
  {
    assert h + [e] + q == (h + [e]) + fl + p;
    if q != [] {
      assert q == [q[0]] + q[1..];
    }
  }

  lemma CompleteBookkeeping(s: Sys, f: Frame, w: Value, next: Option<Frame>)
    requires Bookkeeping(s, f.entry.session, Some(f)) && w.counter == s.v.counter
    requires var q, p := Pending(s, f.entry.session), MQ.Pending(w.queue, f.entry.session);
             if q == [] then InFlight(next) == [] && p == [] else InFlight(next) == [q[0]] && p == q[1..]
    ensures Bookkeeping(AfterComplete(s, f, w, next), f.entry.session, next)
  {
    hide Book;
    var k := f.entry.session;
    BookNext(Of(s.admitted, k), Of(s.handled, k), f.entry, Pending(s, k), Of(s.evicted, k), s.v.counter,
             InFlight(next), MQ.Pending(w.queue, k));
  }

  lemma CompleteElsewhere(s: Sys, f: Frame, w: Value, next: Option<Frame>, x: Session)
    requires x != f.entry.session && CompleteEffect(s.v, f.entry.session, w, next)
    requires next.Some? ==> next.value.entry.session == f.entry.session
    ensures SameFor(s, AfterComplete(s, f, w, next), x)
  {
    assert FramesOf(AfterComplete(s, f, w, next), x) == FramesOf(s, x);
  }

  lemma CompleteSession(s: Sys, f: Frame, w: Value, next: Option<Frame>, x: Session)
    requires SessionInv(s, f.entry.session, Some(f)) && SessionOk(s, x) && s.v.lane.generation == 0
    requires CompleteEffect(s.v, f.entry.session, w, next)
    ensures SessionOk(AfterComplete(s, f, w, next), x)
  {
    hide Book;
    var t := AfterComplete(s, f, w, next);
    if x != f.entry.session {
      var h :| SessionInv(s, x, h);
      CompleteElsewhere(s, f, w, next, x);
      SameForKeeps(s, t, x, h);
    } else {
      CompleteAgreement(s, f, w, next);
      CompleteBookkeeping(s, f, w, next);
      assert SessionInv(t, x, next);
    }
  }

  lemma CompleteIs(s: Sys, f: Frame)
    requires Inv(s) && f in s.frames && f.phase.Running?
    ensures var (w, next, granted) := DoComplete(s.v, f);
            granted == None && CompleteEffect(s.v, f.entry.session, w, next) && StepComplete(s, f) == AfterComplete(s, f, w, next)
  {
    FrameIsTheOne(s, f);
    CompleteHasEffect(s.v, f);
  }

  lemma CompleteKeepsInv(s: Sys, f: Frame)
    requires Inv(s) && f in s.frames && f.phase.Running?
    ensures Inv(StepComplete(s, f))
  {
    FrameIsTheOne(s, f);
    CompleteIs(s, f);
    var (w, next, _) := DoComplete(s.v, f);
    forall x ensures SessionOk(AfterComplete(s, f, w, next), x) {
      assert SessionOk(s, x);
      CompleteSession(s, f, w, next, x);
    }
  }

  lemma StepKeepsInv(s: Sys, e: Event)
    requires Inv(s) && Enabled(s, e)
    ensures Inv(Step(s, e))
  {
    hide SessionOk, DoRoute, DoComplete, SharedInv;
    match e
    case Arrive(k, m, now) => ArriveKeepsInv(s, k, m, now);
    case Resume(f) => ResumeKeepsInv(s, f);
    case Complete(f) => CompleteKeepsInv(s, f);
  }

  // ----- Every run -----------------------------------------------------------------------

  lemma {:induction false} RunKeepsInv(s: Sys, es: seq<Event>)
    requires Inv(s) && Feasible(s, es)
    ensures Inv(Run(s, es))
    decreases |es|
  {
    if es != [] {
      StepKeepsInv(s, es[0]);
      RunKeepsInv(Step(s, es[0]), es[1..]);
    }
  }

  lemma {:induction false} ReachableInv(es: seq<Event>)
    requires Feasible(Init, es)
    ensures Inv(Run(Init, es))
  {
    forall k ensures SessionOk(Init, k) {
      assert SessionInv(Init, k, None);
    }
    RunKeepsInv(Init, es);
  }

  /**
   * At most one `processNext` call per session is suspended or inside `onProcess`, it has
   * its lane slot, and a session with no such call has no message waiting.
   */
  lemma {:induction false} OneAtATime(es: seq<Event>, k: Session)
    requires Feasible(Init, es)
    ensures var s := Run(Init, es);
            && |FramesOf(s, k)| <= 1
            && (forall f :: f in FramesOf(s, k) ==> !f.phase.WaitingLane?)
            && (FramesOf(s, k) != {} <==> k in s.v.queue.processing)
            && (k !in s.v.queue.processing ==> Pending(s, k) == [])
  {
    ReachableInv(es);
    assert SessionOk(Run(Init, es), k);
  }

  /** In flight: the messages of the session whose call is suspended or running. */
  function FlightOf(s: Sys, k: Session): set<MQ.Entry> { set f | f in FramesOf(s, k) :: f.entry }

  lemma FlightIs(s: Sys, k: Session, f: Option<Frame>)
    requires FramesOf(s, k) == (if f.Some? then {f.value} else {})
    ensures FlightOf(s, k) == (if f.Some? then {f.value.entry} else {})
    ensures multiset(FlightOf(s, k)) == multiset(InFlight(f))
  {
    if f.Some? {
      assert FlightOf(s, k) == {f.value.entry};
    }
  }

  lemma OrderParts(h: seq<MQ.Entry>, fl: seq<MQ.Entry>, q: seq<MQ.Entry>)
    requires InOrder(h + fl + q)
    ensures InOrder(h) && InOrder(q)
    ensures forall i, j :: 0 <= i < |h| && 0 <= j < |fl| ==> h[i].id < fl[j].id
    ensures forall i, j :: 0 <= i < |fl| && 0 <= j < |q| ==> fl[i].id < q[j].id
  {
    var all := h + fl + q;
    assert forall i :: 0 <= i < |h| ==> all[i] == h[i];
    assert forall i :: 0 <= i < |fl| ==> all[|h| + i] == fl[i];
    assert forall i :: 0 <= i < |q| ==> all[|h| + |fl| + i] == q[i];
  }

  /** Messages of a session are handled, and wait, in the order in which they arrived. */
  lemma {:induction false} ArrivalOrder(es: seq<Event>, k: Session)
    requires Feasible(Init, es)
    ensures var s := Run(Init, es);
            && InOrder(Of(s.handled, k)) && InOrder(Pending(s, k))
            && (forall e, i :: e in FlightOf(s, k) && 0 <= i < |Of(s.handled, k)| ==> Of(s.handled, k)[i].id < e.id)
            && (forall e, i :: e in FlightOf(s, k) && 0 <= i < |Pending(s, k)| ==> e.id < Pending(s, k)[i].id)
  {
    ReachableInv(es);
    var s := Run(Init, es);
    assert SessionOk(s, k);
    var f :| SessionInv(s, k, f);
    hide Run, Feasible, Inv, SessionInv;
    OrderNow(s, k, f);
  }

  lemma OrderNow(s: Sys, k: Session, f: Option<Frame>)
    requires SessionInv(s, k, f)
    ensures InOrder(Of(s.handled, k)) && InOrder(Pending(s, k))
    ensures forall e, i :: e in FlightOf(s, k) && 0 <= i < |Of(s.handled, k)| ==> Of(s.handled, k)[i].id < e.id
    ensures forall e, i :: e in FlightOf(s, k) && 0 <= i < |Pending(s, k)| ==> e.id < Pending(s, k)[i].id
  {
    FlightIs(s, k, f);
    AscendingMeans(History(s, k, f), s.v.counter);
    hide Of, Pending, FlightOf, Ascending, InOrder;
    OrderParts(Of(s.handled, k), InFlight(f), Pending(s, k));
    assert f.Some? ==> InFlight(f)[0] == f.value.entry;
  }

  ghost predicate AdmittedInv(s: Sys) { forall k :: Ascending(Of(s.admitted, k), s.v.counter) }

  lemma ArriveCounts(v: Value, k: Session, m: string, now: int)
    ensures match DoRoute(v, k, m, now)
            case (w, Duplicate) => true
            case (w, Admitted(e, _, _)) => e.id == v.counter + 1 == w.counter
  {
  }

  lemma AdmittedStep(s: Sys, e: Event)
    requires AdmittedInv(s) && Enabled(s, e)
    ensures AdmittedInv(Step(s, e))
  {
    var t := Step(s, e);
    hide Ascending, MQ.DoEnqueue, D.DoExecute;
    if e.Arrive? {
      ArriveCounts(s.v, e.session, e.messageId, e.now);
      forall k ensures Ascending(Of(t.admitted, k), t.v.counter) {
        var (_, r) := DoRoute(s.v, e.session, e.messageId, e.now);
        AscendingWeaken(Of(s.admitted, k), s.v.counter, t.v.counter);
        if r.Admitted? && k == e.session {
          AscendingAppend(Of(s.admitted, k), s.v.counter, r.entry);
        }
      }
    }
  }

  lemma {:induction false} AdmittedRun(s: Sys, es: seq<Event>)
    requires AdmittedInv(s) && Feasible(s, es)
    ensures AdmittedInv(Run(s, es))
    decreases |es|
  {
    if es != [] {
      AdmittedStep(s, es[0]);
      AdmittedRun(Step(s, es[0]), es[1..]);
    }
  }

  /**
   * Every admitted message, and no two of them share an id, is handled, in flight, pending or
   * evicted, and only one of these.
   */
  lemma {:induction false} Conservation(es: seq<Event>, k: Session)
    requires Feasible(Init, es)
    ensures InOrder(Of(Run(Init, es).admitted, k))
    ensures var s := Run(Init, es);
            multiset(Of(s.admitted, k))
            == multiset(Of(s.handled, k)) + multiset(FlightOf(s, k)) + multiset(Pending(s, k)) + multiset(Of(s.evicted, k))
  {
    ReachableInv(es);
    var s := Run(Init, es);
    assert SessionOk(s, k);
    var f :| SessionInv(s, k, f);
    FlightIs(s, k, f);
    AdmittedRun(Init, es);
    AscendingMeans(Of(s.admitted, k), s.v.counter);
  }

  /**
   * `processNext` may call `acquire` outside its `try`: wherever the router calls it, the
   * session holds no slot and nobody waits, so the slot is granted at once.
   */
  lemma {:induction false} AcquireNeverWaits(es: seq<Event>, k: Session, m: string, now: int)
    requires Feasible(Init, es)
    ensures var s := Run(Init, es);
            && (match DoRoute(s.v, k, m, now).1
                case Duplicate => true
                case Admitted(e, _, f) =>
                  if k in s.v.queue.processing then f.None?
                  else f == Some(Frame(e, HasLane(Lane.Handle(e.id, k, 0)))))
            && (forall f :: f in s.frames && f.phase.Running? ==>
                  var (w, next, granted) := DoComplete(s.v, f);
                  && granted == None
                  && next == if Pending(s, f.entry.session) == [] then None
                             else var e := Pending(s, f.entry.session)[0];
                                  Some(Frame(e, HasLane(Lane.Handle(e.id, f.entry.session, 0)))))
  {
    ReachableInv(es);
    var s := Run(Init, es);
    assert SessionOk(s, k);
    var g :| SessionInv(s, k, g);
    if !D.Check(s.v.dedupe, m) {
      RouteHasEffect(s, k, m, now, g);
    }
    forall f | f in s.frames && f.phase.Running?
      ensures var (w, next, granted) := DoComplete(s.v, f);
              granted == None && CompleteEffect(s.v, f.entry.session, w, next) {
      CompleteIs(s, f);
    }
  }

  /** The message was admitted; the oldest waiting one of a busy session is evicted if there are 50. */
  ghost predicate Logged(s: Sys, t: Sys, k: Session, m: string) {
    var q, e := Pending(s, k), MQ.Entry(s.v.counter + 1, k, m, 0);
    && t.ids == s.ids + [m] && t.v.counter == e.id && Of(t.admitted, k) == Of(s.admitted, k) + [e]
    && Of(t.evicted, k) == Of(s.evicted, k) + if FramesOf(s, k) != {} && |q| >= 50 then [q[0]] else []
  }

  /** An idle session starts to handle it, and in a busy one it waits behind the others. */
  ghost predicate Placed(s: Sys, t: Sys, k: Session, m: string) {
    var q, e := Pending(s, k), MQ.Entry(s.v.counter + 1, k, m, 0);
    if FramesOf(s, k) == {} then FramesOf(t, k) == {Frame(e, HasLane(Lane.Handle(e.id, k, 0)))} && Pending(t, k) == []
    else FramesOf(t, k) == FramesOf(s, k) && Pending(t, k) == (if |q| < 50 then q else q[1..]) + [e]
  }

  /** No other session notices. */
  ghost predicate OnlyIn(s: Sys, t: Sys, k: Session) {
    forall x :: x != k ==> FramesOf(t, x) == FramesOf(s, x) && Pending(t, x) == Pending(s, x)
  }

  lemma ArriveOnlyIn(s: Sys, k: Session, m: string, w: Value, f: Option<Frame>, busy: bool, e: MQ.Entry, evicted: seq<MQ.Entry>)
    requires RouteEffect(s.v, k, m, busy, w, f)
    ensures OnlyIn(s, AfterArrive(s, k, m, w, e, evicted, f), k)
  {
    hide RouteEffect, FramesOf, Pending;
    var t := AfterArrive(s, k, m, w, e, evicted, f);
    forall x | x != k ensures FramesOf(t, x) == FramesOf(s, x) && Pending(t, x) == Pending(s, x) {
      ArriveElsewhere(s, k, m, w, f, busy, e, evicted, x);
    }
  }

  lemma ArrivalPlaces(s: Sys, k: Session, m: string, w: Value, f: Option<Frame>, g: Option<Frame>, evicted: seq<MQ.Entry>)
    requires Agreement(s, k, g) && RouteEffect(s.v, k, m, g.Some?, w, f)
    ensures Placed(s, AfterArrive(s, k, m, w, MQ.Entry(s.v.counter + 1, k, m, 0), evicted, f), k, m)
  {
    FramesAfterArrive(s, k, m, w, MQ.Entry(s.v.counter + 1, k, m, 0), evicted, f, k);
  }

  lemma ArrivalLogs(s: Sys, k: Session, m: string, w: Value, f: Option<Frame>, g: Option<Frame>)
    requires Agreement(s, k, g) && w.counter == s.v.counter + 1
    ensures var q := Pending(s, k);
            Logged(s, AfterArrive(s, k, m, w, MQ.Entry(s.v.counter + 1, k, m, 0), if |q| >= 50 then [q[0]] else [], f), k, m)
  {
  }

  /** The message is new, and is dealt with in its own session. */
  ghost predicate Arrived(s: Sys, t: Sys, k: Session, m: string) {
    Logged(s, t, k, m) && Placed(s, t, k, m) && OnlyIn(s, t, k)
  }

  lemma ArrivalHere(s: Sys, k: Session, m: string, w: Value, f: Option<Frame>, g: Option<Frame>)
    requires Agreement(s, k, g) && RouteEffect(s.v, k, m, g.Some?, w, f)
    ensures var q, e := Pending(s, k), MQ.Entry(s.v.counter + 1, k, m, 0);
            Arrived(s, AfterArrive(s, k, m, w, e, if |q| >= 50 then [q[0]] else [], f), k, m)
  {
    var q, e := Pending(s, k), MQ.Entry(s.v.counter + 1, k, m, 0);
    var evicted := if |q| >= 50 then [q[0]] else [];
    assert w.counter == s.v.counter + 1;
    hide Agreement, RouteEffect, Logged, Placed, OnlyIn, AfterArrive, FramesOf;
    ArrivalLogs(s, k, m, w, f, g);
    ArrivalPlaces(s, k, m, w, f, g, evicted);
    ArriveOnlyIn(s, k, m, w, f, g.Some?, e, evicted);
  }

  lemma AdmittedIs(s: Sys, k: Session, m: string, now: int)
    ensures var (w, r) := DoRoute(s.v, k, m, now);
            r.Admitted? ==> StepArrive(s, k, m, now) == AfterArrive(s, k, m, w, r.entry, Some1(r.evicted), r.started)
  {
    hide DoRoute, AfterArrive;
  }

  lemma ArrivalStep(s: Sys, k: Session, m: string, now: int, g: Option<Frame>)
    requires s.v.lane.generation == 0 && SessionInv(s, k, g) && !D.Check(s.v.dedupe, m)
    ensures Arrived(s, StepArrive(s, k, m, now), k, m)
  {
    assert Agreement(s, k, g);
    var (w, r) := DoRoute(s.v, k, m, now);
    hide DoRoute, Arrived, SessionInv, RouteEffect, AfterArrive, Agreement, StepArrive;
    RouteHasEffect(s, k, m, now, g);
    AdmittedIs(s, k, m, now);
    ArrivalHere(s, k, m, w, r.started, g);
  }

  /** What a message does that arrives in any run: nothing if it is a duplicate. */
  lemma {:induction false} ArrivalIs(es: seq<Event>, k: Session, m: string, now: int)
    requires Feasible(Init, es)
    ensures var s := Run(Init, es);
            var t := Step(s, Arrive(k, m, now));
            if m in D.Last(1000, s.ids) then t == s else Arrived(s, t, k, m)
  {
    ReachableInv(es);
    var s := Run(Init, es);
    assert SessionOk(s, k);
    var g :| SessionInv(s, k, g);
    hide Run, Feasible, SessionOk, Arrived, SessionInv;
    if !D.Check(s.v.dedupe, m) {
      hide StepArrive;
      ArrivalStep(s, k, m, now, g);
    }
  }

  /** The message is handled, and the oldest waiting one takes its place. */
  ghost predicate Completed(s: Sys, t: Sys, f: Frame) {
    var k := f.entry.session;
    var q := Pending(s, k);
    && Of(t.handled, k) == Of(s.handled, k) + [f.entry]
    && FramesOf(t, k) == (if q == [] then {} else {Frame(q[0], HasLane(Lane.Handle(q[0].id, k, 0)))})
    && Pending(t, k) == (if q == [] then [] else q[1..])
    && OnlyIn(s, t, k)
  }

  lemma CompletionHere(s: Sys, f: Frame, w: Value, next: Option<Frame>)
    requires SessionInv(s, f.entry.session, Some(f)) && CompleteEffect(s.v, f.entry.session, w, next) && s.v.lane.generation == 0
    ensures Completed(s, AfterComplete(s, f, w, next), f)
  {
    CompleteAgreement(s, f, w, next);
    CompleteOnlyIn(s, f, w, next);
    hide OnlyIn, Book;
  }

  lemma CompleteOnlyIn(s: Sys, f: Frame, w: Value, next: Option<Frame>)
    requires SessionInv(s, f.entry.session, Some(f)) && CompleteEffect(s.v, f.entry.session, w, next)
    ensures OnlyIn(s, AfterComplete(s, f, w, next), f.entry.session)
  {
    var t := AfterComplete(s, f, w, next);
    assert next.Some? ==> next.value.entry.session == f.entry.session;
    hide CompleteEffect, SessionInv, AfterComplete, FramesOf, Pending;
    forall x | x != f.entry.session ensures FramesOf(t, x) == FramesOf(s, x) && Pending(t, x) == Pending(s, x) {
      CompleteElsewhere(s, f, w, next, x);
    }
  }

  /** What the end of a callback does, in any run. */
  lemma {:induction false} CompletionIs(es: seq<Event>, f: Frame)
    requires Feasible(Init, es) && Enabled(Run(Init, es), Complete(f))
    ensures Completed(Run(Init, es), Step(Run(Init, es), Complete(f)), f)
  {
    ReachableInv(es);
    var s := Run(Init, es);
    FrameIsTheOne(s, f);
    CompleteIs(s, f);
    hide Run, Feasible, DoComplete, Completed, CompleteEffect, SessionInv, SessionOk;
    var (w, next, _) := DoComplete(s.v, f);
    CompletionHere(s, f, w, next);
  }

  /** A session can be aborted exactly while its callback runs, and then what is aborted is the call for that message. */
  lemma {:induction false} AbortableIffRunning(es: seq<Event>, k: Session)
    requires Feasible(Init, es)
    ensures var s := Run(Init, es);
            && (k in s.v.controllers <==> exists f :: f in FramesOf(s, k) && f.phase.Running?)
            && forall f :: f in FramesOf(s, k) && f.phase.Running? ==> GetOr(s.v.controllers, k, 0) == f.entry.id
  {
    ReachableInv(es);
    var s := Run(Init, es);
    assert SessionOk(s, k);
    var g :| SessionInv(s, k, g);
    assert g.Some? ==> g.value in FramesOf(s, k);
  }

  /** A message is dropped as a duplicate exactly when its id is among the last 1000 admitted. */
  lemma {:induction false} DuplicateWindow(es: seq<Event>, k: Session, m: string, now: int)
    requires Feasible(Init, es)
    ensures var s := Run(Init, es);
            DoRoute(s.v, k, m, now).1.Duplicate? <==> m in D.Last(1000, s.ids)
  {
    ReachableInv(es);
  }

  // ----- Draining --------------------------------------------------------------------------

  ghost predicate OnlyWorks(es: seq<Event>, k: Session) {
    forall e :: e in es ==> (e.Resume? || e.Complete?) && e.frame.entry.session == k
  }

  /** Steps left for a session: two for each message, one once its callback runs. */
  function Work(s: Sys, k: Session, f: Option<Frame>): nat {
    2 * |Pending(s, k)| + (if f.None? then 0 else if f.value.phase.HasLane? then 2 else 1)
  }

  function History(s: Sys, k: Session, f: Option<Frame>): seq<MQ.Entry> {
    Of(s.handled, k) + InFlight(f) + Pending(s, k)
  }

  lemma DrainResume(s: Sys, k: Session, f: Frame) returns (g: Option<Frame>)
    requires Inv(s) && SessionInv(s, k, Some(f)) && f.phase.HasLane?
    ensures f in s.frames && f.entry.session == k
    ensures var t := Step(s, Resume(f));
            Inv(t) && SessionInv(t, k, g) && Work(t, k, g) < Work(s, k, Some(f)) && History(t, k, g) == History(s, k, Some(f))
  {
    assert f in FramesOf(s, k);
    ResumeKeepsInv(s, f);
    g := Some(Frame(f.entry, Running(f.phase.handle)));
    FrameIsTheOne(StepResume(s, f), g.value);
  }

  lemma CompleteHistory(s: Sys, f: Frame, w: Value, next: Option<Frame>)
    requires CompleteEffect(s.v, f.entry.session, w, next)
    ensures History(AfterComplete(s, f, w, next), f.entry.session, next) == History(s, f.entry.session, Some(f))
  {
    var k := f.entry.session;
    var t := AfterComplete(s, f, w, next);
    assert InFlight(next) + Pending(t, k) == Pending(s, k);
    assert Of(t.handled, k) + InFlight(next) + Pending(t, k) == Of(s.handled, k) + [f.entry] + (InFlight(next) + Pending(t, k));
  }

  lemma DrainComplete(s: Sys, k: Session, f: Frame) returns (next: Option<Frame>)
    requires Inv(s) && SessionInv(s, k, Some(f)) && f.phase.Running?
    ensures f in s.frames && f.entry.session == k
    ensures var t := Step(s, Complete(f));
            Inv(t) && SessionInv(t, k, next) && Work(t, k, next) < Work(s, k, Some(f)) && History(t, k, next) == History(s, k, Some(f))
  {
    assert f in FramesOf(s, k);
    CompleteKeepsInv(s, f);
    CompleteIs(s, f);
    var (w, n, _) := DoComplete(s.v, f);
    next := n;
    hide Inv, SessionInv, DoComplete, History, Work, CompleteEffect;
    DrainEffect(s, k, f, w, next);
  }

  lemma DrainEffect(s: Sys, k: Session, f: Frame, w: Value, next: Option<Frame>)
    requires Inv(s) && SessionInv(s, k, Some(f)) && f.phase.Running? && f.entry.session == k && CompleteEffect(s.v, k, w, next)
    ensures var t := AfterComplete(s, f, w, next);
            SessionInv(t, k, next) && Work(t, k, next) < Work(s, k, Some(f)) && History(t, k, next) == History(s, k, Some(f))
  {
    CompleteAgreement(s, f, w, next);
    CompleteBookkeeping(s, f, w, next);
    CompleteHistory(s, f, w, next);
    hide Inv, Agreement, Bookkeeping, History;
  }

  lemma FeasibleCons(s: Sys, e: Event, rest: seq<Event>)
    requires Enabled(s, e) && Feasible(Step(s, e), rest)
    ensures Feasible(s, [e] + rest) && Run(s, [e] + rest) == Run(Step(s, e), rest)
  {
    assert ([e] + rest)[1..] == rest;
  }

  lemma DrainedAlready(s: Sys, k: Session)
    requires SessionInv(s, k, None)
    ensures FramesOf(s, k) == {} && Pending(s, k) == [] && Of(s.handled, k) == History(s, k, None)
  {
    assert Of(s.handled, k) + [] + [] == Of(s.handled, k);
  }

  /**
   * Nothing is stranded: once no message arrives any more and the callbacks of a session
   * settle, the session empties, handling what was in flight and pending in that order.
   */
  lemma {:induction false} Drains(s: Sys, k: Session, f: Option<Frame>) returns (es: seq<Event>)
    requires Inv(s) && SessionInv(s, k, f)
    ensures OnlyWorks(es, k) && Feasible(s, es)
    ensures var t := Run(s, es); FramesOf(t, k) == {} && Pending(t, k) == [] && Of(t.handled, k) == History(s, k, f)
    decreases Work(s, k, f)
  {
    if f.None? {
      es := [];
      DrainedAlready(s, k);
    } else {
      var e, g;
      if f.value.phase.HasLane? {
        e := Resume(f.value);
        g := DrainResume(s, k, f.value);
      } else {
        e := Complete(f.value);
        g := DrainComplete(s, k, f.value);
      }
      var rest := Drains(Step(s, e), k, g);
      FeasibleCons(s, e, rest);
      es := [e] + rest;
    }
  }

  /** No callback of the session is left to settle. */
  ghost predicate Settled(s: Sys, k: Session) {
    forall e: Event :: (e.Resume? || e.Complete?) && e.frame.entry.session == k ==> !Enabled(s, e)
  }

  /** Each settlement of the session's callbacks is a step towards that end. */
  lemma {:induction false} WorkGoesDown(s: Sys, k: Session, f: Option<Frame>, es: seq<Event>) returns (g: Option<Frame>)
    requires Inv(s) && SessionInv(s, k, f) && Feasible(s, es) && OnlyWorks(es, k)
    ensures var t := Run(s, es);
            SessionInv(t, k, g) && History(t, k, g) == History(s, k, f) && |es| + Work(t, k, g) <= Work(s, k, f)
    decreases |es|
  {
    hide Inv, SessionInv, Work, History, Step;
    g := f;
    if es != [] {
      var e := es[0];
      assert e in es && forall x :: x in es[1..] ==> x in es;
      TheFrame(s, k, f, e);
      var h;
      if e.Resume? {
        h := DrainResume(s, k, e.frame);
      } else {
        h := DrainComplete(s, k, e.frame);
      }
      g := WorkGoesDown(Step(s, e), k, h, es[1..]);
    }
  }

  lemma TheFrame(s: Sys, k: Session, f: Option<Frame>, e: Event)
    requires SessionInv(s, k, f) && Enabled(s, e) && (e.Resume? || e.Complete?) && e.frame.entry.session == k
    ensures f == Some(e.frame)
  {
    assert e.frame in FramesOf(s, k);
  }

  /**
   * In whatever way the callbacks of a session settle, once no message arrives any more: it takes
   * at most two steps for each message, and when none is left to settle, all that was in flight
   * or pending has been handled, in that order.
   */
  lemma {:induction false} AlwaysDrains(s: Sys, k: Session, f: Option<Frame>, es: seq<Event>)
    requires Inv(s) && SessionInv(s, k, f) && Feasible(s, es) && OnlyWorks(es, k)
    ensures |es| <= Work(s, k, f)
    ensures var t := Run(s, es);
            Settled(t, k) ==> FramesOf(t, k) == {} && Pending(t, k) == [] && Of(t.handled, k) == History(s, k, f)
  {
    var t := Run(s, es);
    var g := WorkGoesDown(s, k, f, es);
    if g.Some? {
      FrameCanSettle(t, k, g.value);
    } else {
      DrainedAlready(t, k);
    }
  }

  lemma FrameCanSettle(s: Sys, k: Session, f: Frame)
    requires SessionInv(s, k, Some(f))
    ensures !Settled(s, k)
  {
    assert f in FramesOf(s, k);
    assert Enabled(s, if f.phase.HasLane? then Resume(f) else Complete(f));
  }
}
