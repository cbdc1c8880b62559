/**
 * packages/server/src/auto-reply/execution-adapter.ts, execute
 *
 * The life of a session: each request continues the stored history and replaces it.
 */
module Session {
  import opened Prelude
  import opened Conversation
  import R = AgentRunner
  import T = ToolExecutor

  datatype Config = Config(historyLimit: int, handlers: map<string, T.Handler>, maxTurns: int)

  /**
   * A request. The model may be changed several times by the fallback, each time with the
   * same messages; `attempts` is what each of them met. Loading and saving may fail.
   */
  datatype Request = Request(body: string, attempts: seq<R.Env>, loadFails: bool, saveFails: bool)

  function Prior(c: Config, stored: seq<Message>, r: Request): seq<Message> {
    if r.loadFails then [] else Sliced(stored, c.historyLimit)
  }

  function Initial(c: Config, stored: seq<Message>, r: Request): seq<Message> {
    Prior(c, stored, r) + [Message(User, Text(r.body))]
  }

  /** All that is sent for the first `n` attempts. */
  function SentFor(c: Config, initial: seq<Message>, attempts: seq<R.Env>, n: nat): seq<R.Sent>
    requires n <= |attempts|
  {
    if n == 0 then []
    else SentFor(c, initial, attempts, n - 1) + R.Execution(attempts[n - 1], c.handlers, c.maxTurns, initial).1
  }

  /** The stored history after the request, and all that was sent for it. */
  function Step(c: Config, stored: seq<Message>, r: Request): (seq<Message>, seq<R.Sent>) {
    var initial := Initial(c, stored, r);
    var sent := SentFor(c, initial, r.attempts, |r.attempts|);
    if r.attempts == [] then (stored, sent)
    else
      var outcome := R.Execution(r.attempts[|r.attempts| - 1], c.handlers, c.maxTurns, initial).0;
      (if outcome.Returned? && !r.saveFails then outcome.messages else stored, sent)
  }

  function Run(c: Config, stored: seq<Message>, rs: seq<Request>): (seq<Message>, seq<R.Sent>)
    decreases |rs|
  {
    if rs == [] then (stored, [])
    else
      var (next, sent) := Step(c, stored, rs[0]);
      var (final, more) := Run(c, next, rs[1..]);
      (final, sent + more)
  }

  lemma {:induction false} SentForPaired(c: Config, initial: seq<Message>, attempts: seq<R.Env>, n: nat)
    requires n <= |attempts| && WellPaired(initial)
    ensures R.AllPaired(SentFor(c, initial, attempts, n))
  {
    if n > 0 {
      SentForPaired(c, initial, attempts, n - 1);
      R.ExecutionKeepsPairs(attempts[n - 1], c.handlers, c.maxTurns, initial);
    }
  }

  function Bound(c: Config): int {
    (if c.historyLimit > 0 then c.historyLimit else 0) + 1 + 2 * (if c.maxTurns > 0 then c.maxTurns else 0)
  }

  lemma StepKeepsPairs(c: Config, stored: seq<Message>, r: Request)
    requires WellPaired(stored) && |stored| <= Bound(c)
    ensures var (next, sent) := Step(c, stored, r);
            WellPaired(next) && |next| <= Bound(c) && R.AllPaired(sent)
  {
    hide WellPaired, R.Execution, Sliced;
    var initial := Initial(c, stored, r);
    SlicePlusUserPaired(stored, c.historyLimit, r.body);
    SlicedLength(stored, c.historyLimit);
    if r.loadFails {
      LonelyUser(r.body);
    }
    SentForPaired(c, initial, r.attempts, |r.attempts|);
    if r.attempts != [] {
      var env := r.attempts[|r.attempts| - 1];
      R.ExecutionKeepsPairs(env, c.handlers, c.maxTurns, initial);
      R.ExecutionEnds(env, c.handlers, c.maxTurns, initial);
    }
  }

  lemma SlicedLength(ms: seq<Message>, limit: int)
    ensures |Sliced(ms, limit)| <= if limit > 0 then limit else 0
  {
    SliceKeepsMost(ms, limit);
    if limit < 0 {
      assert |ms| - limit >= |ms|;
    }
  }

  lemma LonelyUser(body: string)
    ensures WellPaired([] + [Message(User, Text(body))])
  {
    var ms := [] + [Message(User, Text(body))];
    assert PairedAt(ms, 0);
  }

  /**
   * In the whole life of a session, through aborts, failures of the model, changes of the
   * model and failures of the storage: everything that is ever sent to a model is paired, and
   * the stored history is paired and of bounded length.
   */
  lemma {:induction false} EverythingSentIsPaired(c: Config, stored: seq<Message>, rs: seq<Request>)
    requires WellPaired(stored) && |stored| <= Bound(c)
    ensures var (final, sent) := Run(c, stored, rs);
            WellPaired(final) && |final| <= Bound(c) && R.AllPaired(sent)
    decreases |rs|
  {
    if rs != [] {
      StepKeepsPairs(c, stored, rs[0]);
      EverythingSentIsPaired(c, Step(c, stored, rs[0]).0, rs[1..]);
    }
  }

  // ----- From request to request -----------------------------------------------------------------------

  lemma {:induction false} FirstSent(c: Config, initial: seq<Message>, attempts: seq<R.Env>, n: nat)
    requires n <= |attempts|
    ensures var sent := SentFor(c, initial, attempts, n); sent != [] ==> sent[0].messages == initial
  {
    if n > 0 {
      FirstSent(c, initial, attempts, n - 1);
      R.EachTurnSees(attempts[n - 1], c.handlers, c.maxTurns, initial);
    }
  }

  /**
   * What is stored after a request is the conversation that its last attempt returned, which continues what was sent first;
   * if that attempt failed, or nothing can be saved, what was stored stays.
   */
  lemma StoredIff(c: Config, stored: seq<Message>, r: Request)
    requires WellPaired(stored) && r.attempts != []
    ensures var (next, sent) := Step(c, stored, r);
            match R.Execution(r.attempts[|r.attempts| - 1], c.handlers, c.maxTurns, Initial(c, stored, r)).0
            case Returned(_, messages, _) =>
              && next == (if r.saveFails then stored else messages)
              && WellPaired(messages) && (sent != [] ==> sent[0].messages <= messages)
            case Threw(_) => next == stored
  {
    var initial := Initial(c, stored, r);
    hide R.Execution, WellPaired, Sliced;
    FirstSent(c, initial, r.attempts, |r.attempts|);
    SlicePlusUserPaired(stored, c.historyLimit, r.body);
    if r.loadFails {
      LonelyUser(r.body);
    }
    R.ExecutionKeepsPairs(r.attempts[|r.attempts| - 1], c.handlers, c.maxTurns, initial);
  }

  /**
   * A request sends first the last messages that are stored, as many as the limit allows (one fewer if they would begin with
   * an answer), and the user's message at the end.
   */
  lemma SentFirst(c: Config, stored: seq<Message>, r: Request)
    requires WellPaired(stored) && !r.loadFails && Step(c, stored, r).1 != []
    ensures var start := if |stored| > c.historyLimit then |stored| - c.historyLimit else 0;
            var kept := if start >= |stored| then [] else if stored[start].role.Tool? then stored[start + 1..] else stored[start..];
            Step(c, stored, r).1[0].messages == kept + [Message(User, Text(r.body))]
  {
    hide R.Execution, WellPaired, Sliced;
    FirstSent(c, Initial(c, stored, r), r.attempts, |r.attempts|);
    SliceOfPaired(stored, c.historyLimit);
  }
}
