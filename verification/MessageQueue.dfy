/**
 * packages/server/src/process/message-queue.ts, in mode 'queue'.
 *
 * Per-session queues ordered by priority, and the set of sessions being processed.
 */
module MessageQueue {
  import opened Prelude

  type Session = string

  /** `id` is the router's entry counter, so ids grow in arrival order. */
  datatype Entry = Entry(id: nat, session: Session, messageId: string, priority: int)

  datatype DropPolicy = DropOld | DropNew

  datatype Config = Config(maxSize: nat, dropPolicy: DropPolicy)

  datatype Value = Value(queues: map<Session, seq<Entry>>, processing: set<Session>)

  const Empty := Value(map[], {})

  function Pending(v: Value, k: Session): seq<Entry> { GetOr(v.queues, k, []) }

  /** First position holding a lower priority, or the end. */
  function InsertIndex(q: seq<Entry>, priority: int): (i: nat)
    ensures i <= |q|
    ensures i < |q| ==> q[i].priority < priority
    ensures forall j :: 0 <= j < i ==> q[j].priority >= priority
  {
    if q == [] || q[0].priority < priority then 0 else 1 + InsertIndex(q[1..], priority)
  }

  function Insert(q: seq<Entry>, e: Entry): seq<Entry> {
    var i := InsertIndex(q, e.priority);
    q[..i] + [e] + q[i..]
  }

  /** What `enqueue` evicts from a full queue. */
  function Evicted(c: Config, v: Value, k: Session): Option<Entry> {
    var q := Pending(v, k);
    if |q| >= c.maxSize && c.dropPolicy == DropOld && |q| > 0 then Some(q[0]) else None
  }

  function DoEnqueue(c: Config, v: Value, e: Entry): (Value, bool) {
    var q := Pending(v, e.session);
    if |q| >= c.maxSize && c.dropPolicy == DropNew then
      (v.(queues := v.queues[e.session := q]), false)
    else
      var kept := if |q| >= c.maxSize && |q| > 0 then q[1..] else q;
      (v.(queues := v.queues[e.session := Insert(kept, e)]), e.session !in v.processing)
  }

  function DoDequeue(v: Value, k: Session): (Value, Option<Entry>) {
    var q := Pending(v, k);
    if q == [] then (v, None) else (v.(queues := v.queues[k := q[1..]]), Some(q[0]))
  }

  function DoMarkProcessing(v: Value, k: Session): Value { v.(processing := v.processing + {k}) }

  function DoMarkDone(v: Value, k: Session): (Value, bool) {
    (v.(processing := v.processing - {k}), |Pending(v, k)| > 0)
  }

  class MessageQueue {
    const config: Config
    var queues: map<Session, seq<Entry>>
    var processing: set<Session>

    function Contents(): Value
      reads this
    {
      Value(queues, processing)
    }

    constructor (config: Config)
      ensures this.config == config && Contents() == Empty
    {
      this.config := config;
      queues, processing := map[], {};
    }

    method Enqueue(entry: Entry) returns (ready: bool)
      modifies this
      ensures (Contents(), ready) == DoEnqueue(config, old(Contents()), entry)
    {
      var key := entry.session;
      if key !in queues {
        queues := queues[key := []];
      }
      var queue := queues[key];
      if |queue| >= config.maxSize {
        if config.dropPolicy == DropNew {
          assert queues == old(queues)[key := queue];
          return false;
        }
        if |queue| > 0 {
          queue := queue[1..];
        }
      }
      var insertIdx := FindInsertIndex(queue, entry.priority);
      ghost var inserted := Insert(queue, entry);
      if insertIdx == |queue| {
        queue := queue + [entry];
      } else {
        queue := queue[..insertIdx] + [entry] + queue[insertIdx..];
      }
      assert queue == inserted;
      queues := queues[key := queue];
      assert queues == old(queues)[key := queue];
      ready := key !in processing;
    }

    /** `queue.findIndex(e => e.priority < priority)`, with the length for "not found". */
    method FindInsertIndex(queue: seq<Entry>, priority: int) returns (i: nat)
      ensures i == InsertIndex(queue, priority)
    {
      i := 0;
      while i < |queue| && queue[i].priority >= priority
        invariant i <= |queue|
        invariant InsertIndex(queue, priority) == i + InsertIndex(queue[i..], priority)
      {
        assert queue[i..][1..] == queue[i + 1..];
        i := i + 1;
      }
    }

    method Dequeue(key: Session) returns (e: Option<Entry>)
      modifies this
      ensures (Contents(), e) == DoDequeue(old(Contents()), key)
    {
      if key !in queues || |queues[key]| == 0 {
        return None;
      }
      e := Some(queues[key][0]);
      queues := queues[key := queues[key][1..]];
    }

    method MarkProcessing(key: Session)
      modifies this`processing
      ensures Contents() == DoMarkProcessing(old(Contents()), key)
    {
      processing := processing + {key};
    }

    method MarkDone(key: Session) returns (hasMore: bool)
      modifies this`processing
      ensures (Contents(), hasMore) == DoMarkDone(old(Contents()), key)
    {
      processing := processing - {key};
      hasMore := |GetOr(queues, key, [])| > 0;
    }
  }

  /** Higher priority first, arrival order within a priority. */
  ghost predicate Ordered(q: seq<Entry>) {
    forall i, j :: 0 <= i < j < |q| ==>
      q[i].priority > q[j].priority || (q[i].priority == q[j].priority && q[i].id < q[j].id)
  }

  lemma InsertKeepsOrder(q: seq<Entry>, e: Entry)
    requires Ordered(q)
    requires forall i :: 0 <= i < |q| ==> q[i].id < e.id
    ensures Ordered(Insert(q, e)) && |Insert(q, e)| == |q| + 1
  {
  }

  lemma InsertConserves(q: seq<Entry>, e: Entry)
    ensures multiset(Insert(q, e)) == multiset(q) + multiset{e}
  {
    var i := InsertIndex(q, e.priority);
    assert q == q[..i] + q[i..];
  }

  /** The size a queue can reach: policy 'old' makes room by evicting, so there is always room for one. */
  function Capacity(c: Config): nat { if c.dropPolicy == DropOld && c.maxSize == 0 then 1 else c.maxSize }

  /** Under either policy, enqueueing the newest entry keeps the queue bounded and ordered by priority, then by arrival. */
  lemma EnqueueKeepsOrder(c: Config, v: Value, e: Entry)
    requires var q := Pending(v, e.session);
             Ordered(q) && |q| <= Capacity(c) && forall i :: 0 <= i < |q| ==> q[i].id < e.id
    ensures var q' := Pending(DoEnqueue(c, v, e).0, e.session); Ordered(q') && |q'| <= Capacity(c)
  {
    var q := Pending(v, e.session);
    if !(|q| >= c.maxSize && c.dropPolicy == DropNew) {
      var kept := if |q| >= c.maxSize && |q| > 0 then q[1..] else q;
      InsertKeepsOrder(kept, e);
      assert Pending(DoEnqueue(c, v, e).0, e.session) == Insert(kept, e);
    }
  }

  /** The entry that a full queue turns away under policy 'new'. */
  predicate Refused(c: Config, v: Value, k: Session) { |Pending(v, k)| >= c.maxSize && c.dropPolicy == DropNew }

  /**
   * Nothing is lost but the evicted head or the refused entry. A head is evicted exactly from
   * a full queue that has one under policy 'old'.
   */
  lemma EnqueueConserves(c: Config, v: Value, e: Entry)
    ensures var q, q' := Pending(v, e.session), Pending(DoEnqueue(c, v, e).0, e.session);
            var x := Evicted(c, v, e.session);
            && multiset(q') + (if x.Some? then multiset{x.value} else multiset{})
               == multiset(q) + (if Refused(c, v, e.session) then multiset{} else multiset{e})
            && (x.Some? <==> c.dropPolicy == DropOld && |q| >= c.maxSize && q != [])
            && (Refused(c, v, e.session) ==> q' == q)
  {
    EnqueueMakes(c, v, e);
    var q := Pending(v, e.session);
    if !Refused(c, v, e.session) {
      hide DoEnqueue, Pending, Insert;
      ReplaceConserves(q, Evicted(c, v, e.session).Some?, e);
    }
  }

  /** The queue without its head, if the head goes. */
  function Kept(q: seq<Entry>, dropHead: bool): seq<Entry> { if dropHead && q != [] then q[1..] else q }

  lemma EnqueueMakes(c: Config, v: Value, e: Entry)
    ensures var q := Pending(v, e.session);
            Pending(DoEnqueue(c, v, e).0, e.session) ==
            if Refused(c, v, e.session) then q else Insert(Kept(q, Evicted(c, v, e.session).Some?), e)
  {
  }

  lemma ReplaceConserves(q: seq<Entry>, dropHead: bool, e: Entry)
    requires dropHead ==> q != []
    ensures multiset(Insert(Kept(q, dropHead), e)) + (if dropHead then multiset{q[0]} else multiset{}) == multiset(q) + multiset{e}
  {
    hide Insert;
    InsertConserves(Kept(q, dropHead), e);
    if dropHead {
      assert q == [q[0]] + Kept(q, dropHead);
    }
  }

  /** With equal priorities the queue is first in, first out. */
  lemma EqualPrioritiesAppend(q: seq<Entry>, e: Entry)
    requires forall x :: x in q ==> x.priority == e.priority
    ensures Insert(q, e) == q + [e]
  {
    var i := InsertIndex(q, e.priority);
    assert forall j :: 0 <= j < |q| ==> q[j].priority == e.priority;
  }

  /** Entry `i` is the one that has waited longest. */
  ghost predicate IsOldest(q: seq<Entry>, i: nat) { i < |q| && forall j :: 0 <= j < |q| && j != i ==> q[i].id < q[j].id }

  /**
   * Policy 'old' evicts the entry that has waited longest exactly when no other waiting
   * entry has a higher priority than that one.
   */
  lemma EvictsOldestIff(c: Config, v: Value, k: Session, i: nat)
    requires c.dropPolicy == DropOld && |Pending(v, k)| >= c.maxSize
    requires Ordered(Pending(v, k)) && IsOldest(Pending(v, k), i)
    ensures var q := Pending(v, k);
            Evicted(c, v, k) == Some(q[i]) <==> forall j :: 0 <= j < |q| ==> q[j].priority <= q[i].priority
  {
    var q := Pending(v, k);
    if i > 0 {
      assert q[0] != q[i];
      assert q[0].priority > q[i].priority;
    }
  }

  /** It fails, for example, for a low priority followed by a high one: the newest entry goes. */
  lemma DropOldMayEvictNewest(k: Session, m: string)
    ensures var low, high := Entry(1, k, m, 0), Entry(2, k, m, 5);
            var c := Config(2, DropOld);
            var v := DoEnqueue(c, DoEnqueue(c, Empty, low).0, high).0;
            && Pending(v, k) == [high, low] && Ordered(Pending(v, k)) && IsOldest(Pending(v, k), 1)
            && Evicted(c, v, k) == Some(high)
  {
    var low, high := Entry(1, k, m, 0), Entry(2, k, m, 5);
    assert Insert([], low) == [low];
    assert Insert([low], high) == [high, low];
  }
}
