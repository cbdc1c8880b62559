/**
 * packages/agent/src/execution/runner.ts
 *
 * The loop of a request: ask the model, run the tools it calls, ask again. Model, tools and
 * the abort signal are an arbitrary environment, by the number of the turn.
 */
module AgentRunner {
  import opened Prelude
  import opened Conversation
  import T = ToolExecutor

  datatype Reply = Answer(text: string, calls: seq<T.Call>) | ModelFailed

  datatype Env = Env(aborted: nat -> bool, reply: nat -> Reply, tool: nat -> nat -> T.HandlerReply)

  datatype Status = Completed | Aborted | MaxTurns

  datatype Cause = ModelError | StructuredOutputError(tool: string)

  datatype Outcome = Returned(status: Status, messages: seq<Message>, turns: nat) | Threw(cause: Cause)

  /** What a turn sends to the model. */
  datatype Sent = Sent(messages: seq<Message>, forced: Option<string>)

  // ----- Messages -------------------------------------------------------------------------------

  function UseBlocks(calls: seq<T.Call>): seq<Block> {
    seq(|calls|, i requires 0 <= i < |calls| => ToolUse(calls[i].id, calls[i].name, calls[i].input))
  }

  function AssistantMessage(text: string, calls: seq<T.Call>): Message {
    var blocks := (if text != "" then [TextBlock(text)] else []) + UseBlocks(calls);
    Message(Assistant, if |blocks| == 1 && blocks[0].TextBlock? then Text(text) else Blocks(blocks))
  }

  function ResultMessage(results: seq<T.Result>): Message {
    Message(Tool, Blocks(seq(|results|, i requires 0 <= i < |results| =>
      ToolResult(results[i].toolUseId, results[i].content, results[i].isError))))
  }

  lemma {:induction false} UsesOfUses(bs: seq<Block>)
    requires forall b :: b in bs ==> b.ToolUse?
    ensures UsesIn(bs) == bs
  {
    if bs != [] {
      UsesOfUses(bs[1..]);
    }
  }

  /** The calls of the built message are the calls that were streamed. */
  lemma AssistantUses(text: string, calls: seq<T.Call>)
    ensures var m := AssistantMessage(text, calls);
            Uses(m) == UseBlocks(calls) && NoResults(m) && m.role.Assistant?
  {
    var uses, m := UseBlocks(calls), AssistantMessage(text, calls);
    hide UsesIn;
    UsesOfUses(uses);
    if text == "" {
      assert [] + uses == uses;
      assert m.content == Blocks(uses);
    } else if calls == [] {
      assert [TextBlock(text)] + uses == [TextBlock(text)];
      assert m.content == Text(text) && BlocksOf(m) == uses;
    } else {
      var bs := [TextBlock(text)] + uses;
      assert m.content == Blocks(bs);
      TextThenUses(TextBlock(text), uses);
      assert forall i :: 0 <= i < |bs| ==> !bs[i].ToolResult?;
    }
  }

  lemma TextThenUses(b: Block, uses: seq<Block>)
    requires b.TextBlock?
    ensures UsesIn([b] + uses) == UsesIn(uses)
  {
    assert ([b] + uses)[1..] == uses;
  }

  lemma ResultsAnswer(text: string, calls: seq<T.Call>, handlers: map<string, T.Handler>, replies: nat -> T.HandlerReply)
    requires calls != []
    ensures Answers(ResultMessage(T.ExecuteAll(handlers, calls, replies)), Uses(AssistantMessage(text, calls)))
  {
    AssistantUses(text, calls);
    var uses, rs := UseBlocks(calls), T.ExecuteAll(handlers, calls, replies);
    var blocks := ResultMessage(rs).content.blocks;
    forall i | 0 <= i < |uses| ensures blocks[i].ToolResult? && uses[i].ToolUse? && blocks[i].toolUseId == uses[i].id {
      T.OneResultPerCall(handlers, calls, replies, i);
      assert blocks[i] == ToolResult(rs[i].toolUseId, rs[i].content, rs[i].isError);
    }
  }

  // ----- One turn --------------------------------------------------------------------------------

  datatype Scan = Noted(counts: map<string, nat>, force: Option<string>) | SecondViolation(tool: string)

  /** Count the violations among the first `n` results. */
  function ScanResults(calls: seq<T.Call>, results: seq<T.Result>, n: nat, counts: map<string, nat>): Scan
    requires n <= |results| == |calls|
  {
    if n == 0 then Noted(counts, None)
    else
      var s := ScanResults(calls, results, n - 1, counts);
      if s.SecondViolation? || !results[n - 1].violation then s
      else
        var name := calls[n - 1].name;
        if GetOr(s.counts, name, 0) >= 1 then SecondViolation(name)
        else Noted(s.counts[name := GetOr(s.counts, name, 0) + 1], Some(name))
  }

  datatype Turn =
    | Finished(messages: seq<Message>)
    | Continues(messages: seq<Message>, counts: map<string, nat>, force: Option<string>)
    | Fails(cause: Cause)

  function TurnOf(env: Env, handlers: map<string, T.Handler>, turn: nat, ms: seq<Message>, counts: map<string, nat>): Turn {
    match env.reply(turn)
    case ModelFailed => Fails(ModelError)
    case Answer(text, calls) =>
      var asked := ms + [AssistantMessage(text, calls)];
      if calls == [] then Finished(asked)
      else
        var results := T.ExecuteAll(handlers, calls, env.tool(turn));
        match ScanResults(calls, results, |results|, counts)
        case SecondViolation(tool) => Fails(StructuredOutputError(tool))
        case Noted(counts, force) => Continues(asked + [ResultMessage(results)], counts, force)
  }

  function Turns(env: Env, handlers: map<string, T.Handler>, maxTurns: int, ms: seq<Message>, turns: nat,
                 counts: map<string, nat>, force: Option<string>, sent: seq<Sent>): (Outcome, seq<Sent>)
    decreases maxTurns - turns
  {
    if turns >= maxTurns then (Returned(MaxTurns, ms, turns), sent)
    else if env.aborted(turns) then (Returned(Aborted, ms, turns), sent)
    else
      var now := sent + [Sent(ms, force)];
      match TurnOf(env, handlers, turns + 1, ms, counts)
      case Fails(cause) => (Threw(cause), now)
      case Finished(messages) => (Returned(Completed, messages, turns + 1), now)
      case Continues(messages, counts, next) => Turns(env, handlers, maxTurns, messages, turns + 1, counts, next, now)
  }

  function Execution(env: Env, handlers: map<string, T.Handler>, maxTurns: int, ms: seq<Message>): (Outcome, seq<Sent>) {
    Turns(env, handlers, maxTurns, ms, 0, map[], None, [])
  }

  // ----- The loop --------------------------------------------------------------------------------

  class LaneHandle {
    var releases: nat

    constructor ()
      ensures releases == 0
    {
      releases := 0;
    }

    method Release()
      modifies this
      ensures releases == old(releases) + 1
    {
      releases := releases + 1;
    }
  }

  class Runner {
    const handlers: map<string, T.Handler>
    const maxTurns: int

    constructor (handlers: map<string, T.Handler>, maxTurns: int)
      ensures this.handlers == handlers && this.maxTurns == maxTurns
    {
      this.handlers := handlers;
      this.maxTurns := maxTurns;
    }

    /**
     * With the lane acquired. A `return` or a `throw` inside the source's `try` is a jump to the
     * end of the block, where `finally` releases the handle.
     */
    method Execute(env: Env, initial: seq<Message>, handle: LaneHandle) returns (outcome: Outcome, sent: seq<Sent>)
      modifies handle
      ensures (outcome, sent) == Execution(env, handlers, maxTurns, initial)
      ensures handle.releases == old(handle.releases) + 1
    {
      var messages := initial;
      sent := [];
      label Try: {
        var turns := 0;
        var violationCount: map<string, nat> := map[];
        var nextForceToolName: Option<string> := None;
        while turns < maxTurns
          invariant Turns(env, handlers, maxTurns, messages, turns, violationCount, nextForceToolName, sent)
                 == Execution(env, handlers, maxTurns, initial)
          invariant handle.releases == old(handle.releases)
        {
          if env.aborted(turns) {
            outcome := Returned(Aborted, messages, turns);
            break Try;
          }
          turns := turns + 1;
          sent := sent + [Sent(messages, nextForceToolName)];
          var reply := env.reply(turns);
          if reply.ModelFailed? {
            outcome := Threw(ModelError);
            break Try;
          }
          messages := messages + [AssistantMessage(reply.text, reply.calls)];
          if |reply.calls| == 0 {
            outcome := Returned(Completed, messages, turns);
            break Try;
          }
          var results := T.ExecuteAll(handlers, reply.calls, env.tool(turns));
          var scan := NoteViolations(reply.calls, results, violationCount);
          if scan.SecondViolation? {
            outcome := Threw(StructuredOutputError(scan.tool));
            break Try;
          }
          violationCount, nextForceToolName := scan.counts, scan.force;
          messages := messages + [ResultMessage(results)];
        }
        outcome := Returned(MaxTurns, messages, turns);
      }
      handle.Release();
    }

    /** The loop over the results of a turn. */
    method NoteViolations(calls: seq<T.Call>, results: seq<T.Result>, counts: map<string, nat>) returns (scan: Scan)
      requires |results| == |calls|
      ensures scan == ScanResults(calls, results, |results|, counts)
    {
      var violationCount := counts;
      var nextForceToolName: Option<string> := None;
      for i := 0 to |results|
        invariant ScanResults(calls, results, i, counts) == Noted(violationCount, nextForceToolName)
      {
        if results[i].violation {
          var name := calls[i].name;
          var prev := GetOr(violationCount, name, 0);
          if prev >= 1 {
            SecondStays(calls, results, i + 1, |results|, counts);
            return SecondViolation(name);
          }
          violationCount := violationCount[name := prev + 1];
          nextForceToolName := Some(name);
        }
      }
      scan := Noted(violationCount, nextForceToolName);
    }
  }

  lemma {:induction false} SecondStays(calls: seq<T.Call>, results: seq<T.Result>, i: nat, n: nat, counts: map<string, nat>)
    requires i <= n <= |results| == |calls| && ScanResults(calls, results, i, counts).SecondViolation?
    ensures ScanResults(calls, results, n, counts) == ScanResults(calls, results, i, counts)
  {
    if i < n {
      SecondStays(calls, results, i, n - 1, counts);
    }
  }

  // ----- What every run keeps -----------------------------------------------------------------------

  lemma {:induction false} TurnKeepsPairs(env: Env, handlers: map<string, T.Handler>, turn: nat, ms: seq<Message>, counts: map<string, nat>)
    requires WellPaired(ms)
    ensures var t := TurnOf(env, handlers, turn, ms, counts);
            !t.Fails? ==>
              && WellPaired(t.messages) && ms < t.messages
              && |t.messages| == |ms| + (if t.Finished? then 1 else 2)
              && var last := t.messages[|t.messages| - 1];
              if t.Finished? then last.role.Assistant? && Uses(last) == [] else last.role.Tool?
  {
    var t := TurnOf(env, handlers, turn, ms, counts);
    if !t.Fails? {
      var reply := env.reply(turn);
      var a := AssistantMessage(reply.text, reply.calls);
      AssistantUses(reply.text, reply.calls);
      if reply.calls == [] {
        AppendPlain(ms, a);
      } else {
        var r := ResultMessage(T.ExecuteAll(handlers, reply.calls, env.tool(turn)));
        ResultsAnswer(reply.text, reply.calls, handlers, env.tool(turn));
        AppendTurn(ms, a, r);
        assert ms + [a] + [r] == ms + [a, r];
      }
    }
  }

  ghost predicate AllPaired(sent: seq<Sent>) { forall i :: 0 <= i < |sent| ==> WellPaired(sent[i].messages) }

  lemma {:induction false} TurnsKeepPairs(env: Env, handlers: map<string, T.Handler>, maxTurns: int, ms: seq<Message>, turns: nat,
                                         counts: map<string, nat>, force: Option<string>, sent: seq<Sent>)
    requires WellPaired(ms) && AllPaired(sent)
    ensures var (outcome, all) := Turns(env, handlers, maxTurns, ms, turns, counts, force, sent);
            && AllPaired(all)
            && (outcome.Returned? ==> WellPaired(outcome.messages) && ms <= outcome.messages)
    decreases maxTurns - turns
  {
    if turns < maxTurns && !env.aborted(turns) {
      var now := sent + [Sent(ms, force)];
      assert AllPaired(now);
      TurnKeepsPairs(env, handlers, turns + 1, ms, counts);
      var t := TurnOf(env, handlers, turns + 1, ms, counts);
      if t.Continues? {
        TurnsKeepPairs(env, handlers, maxTurns, t.messages, turns + 1, t.counts, t.force, now);
      }
    }
  }

  /**
   * Given a paired conversation, everything a run sends to the model is paired, and so is
   * what it returns, whichever way it ends; nothing of the conversation is lost.
   */
  lemma {:induction false} ExecutionKeepsPairs(env: Env, handlers: map<string, T.Handler>, maxTurns: int, ms: seq<Message>)
    requires WellPaired(ms)
    ensures var (outcome, sent) := Execution(env, handlers, maxTurns, ms);
            && AllPaired(sent)
            && (outcome.Returned? ==> WellPaired(outcome.messages) && ms <= outcome.messages)
  {
    TurnsKeepPairs(env, handlers, maxTurns, ms, 0, map[], None, []);
  }

  /** How a run that was begun with `base` messages may return after `n` turns. */
  ghost predicate Ended(env: Env, maxTurns: int, base: int, outcome: Outcome, n: nat) {
    outcome.Returned? ==>
      && outcome.turns == n
      && |outcome.messages| == base + 2 * n - (if outcome.status.Completed? then 1 else 0)
      && (outcome.status.Completed? ==> n > 0)
      && (outcome.status.Aborted? ==> env.aborted(n))
      && (outcome.status.MaxTurns? ==> n >= maxTurns)
  }

  lemma {:induction false} TurnsEnd(env: Env, handlers: map<string, T.Handler>, maxTurns: int, ms: seq<Message>, turns: nat,
                                   counts: map<string, nat>, force: Option<string>, sent: seq<Sent>)
    requires WellPaired(ms) && |sent| == turns && (turns == 0 || turns <= maxTurns)
    ensures var (outcome, all) := Turns(env, handlers, maxTurns, ms, turns, counts, force, sent);
            (|all| == 0 || |all| <= maxTurns) && Ended(env, maxTurns, |ms| - 2 * turns, outcome, |all|)
    decreases maxTurns - turns
  {
    hide TurnOf, WellPaired;
    if turns < maxTurns && !env.aborted(turns) {
      TurnKeepsPairs(env, handlers, turns + 1, ms, counts);
      var t := TurnOf(env, handlers, turns + 1, ms, counts);
      if t.Continues? {
        TurnsEnd(env, handlers, maxTurns, t.messages, turns + 1, t.counts, t.force, sent + [Sent(ms, force)]);
      }
    }
  }

  /**
   * A run makes at most `maxTurns` turns. It adds two messages for each, and one less when the
   * model ends it with an answer that calls no tool.
   */
  lemma {:induction false} ExecutionEnds(env: Env, handlers: map<string, T.Handler>, maxTurns: int, ms: seq<Message>)
    requires WellPaired(ms)
    ensures var (outcome, sent) := Execution(env, handlers, maxTurns, ms);
            (|sent| == 0 || |sent| <= maxTurns) && Ended(env, maxTurns, |ms|, outcome, |sent|)
  {
    TurnsEnd(env, handlers, maxTurns, ms, 0, map[], None, []);
  }

  // ----- The answer of a run -------------------------------------------------------------------------

  lemma {:induction false} NoTextInUses(bs: seq<Block>)
    requires forall b :: b in bs ==> b.ToolUse?
    ensures TextIn(bs) == []
  {
    if bs != [] {
      assert bs[0] in bs;
      NoTextInUses(bs[1..]);
    }
  }

  /** The text of the built message is the text that was streamed. */
  lemma AssistantText(text: string, calls: seq<T.Call>)
    ensures TextOf(AssistantMessage(text, calls)) == text
  {
    var uses, m := UseBlocks(calls), AssistantMessage(text, calls);
    hide UsesIn;
    NoTextInUses(uses);
    if text == "" {
      assert [] + uses == uses;
      assert m.content == Blocks(uses);
    } else if calls == [] {
      assert [TextBlock(text)] + uses == [TextBlock(text)];
    } else {
      var bs := [TextBlock(text)] + uses;
      assert m.content == Blocks(bs) && bs[1..] == uses;
    }
  }

  lemma TurnAnswer(env: Env, handlers: map<string, T.Handler>, turn: nat, ms: seq<Message>, counts: map<string, nat>)
    ensures var t := TurnOf(env, handlers, turn, ms, counts);
            !t.Fails? ==> env.reply(turn).Answer? && LastAnswer(t.messages) == env.reply(turn).text
  {
    var reply := env.reply(turn);
    if reply.Answer? {
      var asked := ms + [AssistantMessage(reply.text, reply.calls)];
      AssistantText(reply.text, reply.calls);
      hide TextOf, AssistantMessage;
      assert AssistantMessage(reply.text, reply.calls).role.Assistant? by {
        AssistantUses(reply.text, reply.calls);
      }
      assert LastAnswer(asked) == reply.text;
      var results := ResultMessage(T.ExecuteAll(handlers, reply.calls, env.tool(turn)));
      assert (asked + [results])[..|asked|] == asked;
      assert LastAnswer(asked + [results]) == LastAnswer(asked);
    }
  }

  lemma {:induction false} TurnsAnswer(env: Env, handlers: map<string, T.Handler>, maxTurns: int, ms: seq<Message>, turns: nat,
                                      counts: map<string, nat>, force: Option<string>, sent: seq<Sent>)
    ensures var (outcome, all) := Turns(env, handlers, maxTurns, ms, turns, counts, force, sent);
            outcome.Returned? ==>
              && outcome.turns >= turns && AnswerIs(env, outcome, turns, LastAnswer(ms))
              && (outcome.turns == turns <==> turns >= maxTurns || env.aborted(turns))
    decreases maxTurns - turns
  {
    hide TurnOf, LastAnswer;
    if turns < maxTurns && !env.aborted(turns) {
      TurnAnswer(env, handlers, turns + 1, ms, counts);
      var t := TurnOf(env, handlers, turns + 1, ms, counts);
      if t.Continues? {
        TurnsAnswer(env, handlers, maxTurns, t.messages, turns + 1, t.counts, t.force, sent + [Sent(ms, force)]);
      }
    }
  }

  /** What the caller reads: the text of the last turn, or `before` if there was no turn after `turns`. */
  ghost predicate AnswerIs(env: Env, outcome: Outcome, turns: nat, before: string)
    requires outcome.Returned?
  {
    if outcome.turns > turns then env.reply(outcome.turns).Answer? && LastAnswer(outcome.messages) == env.reply(outcome.turns).text
    else LastAnswer(outcome.messages) == before
  }

  /**
   * A run has no turn exactly if none is allowed or it is aborted before the first; then it hands
   * back the conversation it was given, and the answer that is extracted is the last one in there.
   * Otherwise it is the model's text of the last turn, also when that turn called tools.
   */
  lemma {:induction false} AnswerOfRun(env: Env, handlers: map<string, T.Handler>, maxTurns: int, ms: seq<Message>)
    ensures var outcome := Execution(env, handlers, maxTurns, ms).0;
            var noTurn := maxTurns <= 0 || env.aborted(0);
            && (outcome.Returned? ==> (outcome.turns == 0 <==> noTurn))
            && (noTurn ==> outcome.Returned? && outcome.messages == ms)
            && (!noTurn && outcome.Returned? ==>
                  && env.reply(outcome.turns).Answer?
                  && LastAnswer(outcome.messages) == env.reply(outcome.turns).text)
  {
    TurnsAnswer(env, handlers, maxTurns, ms, 0, map[], None, []);
  }

  /** For example: a second question, aborted at once, is answered with the answer to the first. */
  lemma {:induction false} AbortedRepeatsAnswer(env: Env, handlers: map<string, T.Handler>, maxTurns: int)
    requires env.aborted(0)
    ensures var ms := [Message(User, Text("AAPL?")), Message(Assistant, Text("190")), Message(User, Text("MSFT?"))];
            var outcome := Execution(env, handlers, maxTurns, ms).0;
            outcome.Returned? && outcome.turns == 0 && LastAnswer(outcome.messages) == "190"
  {
    var ms := [Message(User, Text("AAPL?")), Message(Assistant, Text("190")), Message(User, Text("MSFT?"))];
    AnswerOfRun(env, handlers, maxTurns, ms);
    assert ms[..2] == [ms[0], ms[1]];
    assert LastAnswer(ms) == LastAnswer(ms[..2]) == TextOf(ms[1]);
  }

  // ----- What every turn sees ---------------------------------------------------------------------------

  /** The message holds the text and the calls of the reply. */
  ghost predicate Says(m: Message, text: string, calls: seq<T.Call>) {
    && m.role.Assistant? && TextOf(m) == text && |Uses(m)| == |calls|
    && forall i :: 0 <= i < |calls| ==> Uses(m)[i] == ToolUse(calls[i].id, calls[i].name, calls[i].input)
  }

  /** The message holds what became of the calls, one by one. */
  ghost predicate Reports(m: Message, handlers: map<string, T.Handler>, calls: seq<T.Call>, replies: nat -> T.HandlerReply) {
    && m.role.Tool? && m.content.Blocks? && |m.content.blocks| == |calls|
    && forall i :: 0 <= i < |calls| ==>
         var r := T.ExecuteAll(handlers, calls, replies)[i];
         m.content.blocks[i] == ToolResult(calls[i].id, r.content, r.isError)
  }

  /** In the turn the model's reply was added to the messages, and then the results if it called tools. */
  ghost predicate Grown(env: Env, handlers: map<string, T.Handler>, turn: nat, before: seq<Message>, after: seq<Message>) {
    match env.reply(turn)
    case ModelFailed => false
    case Answer(text, calls) =>
      && |after| == |before| + (if calls == [] then 1 else 2) && before < after
      && Says(after[|before|], text, calls)
      && (calls != [] ==> Reports(after[|before| + 1], handlers, calls, env.tool(turn)))
  }

  /** Each turn is sent what the turn before it was sent, and what was said in that turn. */
  ghost predicate Continued(env: Env, handlers: map<string, T.Handler>, sent: seq<Sent>) {
    forall k :: 0 < k < |sent| ==> GrownAt(env, handlers, sent, k)
  }

  ghost predicate GrownAt(env: Env, handlers: map<string, T.Handler>, sent: seq<Sent>, k: nat)
    requires 0 < k < |sent|
  {
    Grown(env, handlers, k, sent[k - 1].messages, sent[k].messages)
  }

  lemma ReplySays(text: string, calls: seq<T.Call>)
    ensures Says(AssistantMessage(text, calls), text, calls)
  {
    AssistantUses(text, calls);
    AssistantText(text, calls);
    hide AssistantMessage, TextOf, Uses;
  }

  lemma TurnGrows(env: Env, handlers: map<string, T.Handler>, turn: nat, ms: seq<Message>, counts: map<string, nat>)
    ensures var t := TurnOf(env, handlers, turn, ms, counts);
            !t.Fails? ==> Grown(env, handlers, turn, ms, t.messages)
  {
    hide Says, Reports, AssistantMessage, ResultMessage, T.ExecuteAll, ScanResults;
    var reply := env.reply(turn);
    if reply.Answer? {
      ReplySays(reply.text, reply.calls);
      ResultsReport(handlers, reply.calls, env.tool(turn));
    }
  }

  lemma ResultsReport(handlers: map<string, T.Handler>, calls: seq<T.Call>, replies: nat -> T.HandlerReply)
    ensures Reports(ResultMessage(T.ExecuteAll(handlers, calls, replies)), handlers, calls, replies)
  {
    forall i | 0 <= i < |calls| ensures T.ExecuteAll(handlers, calls, replies)[i].toolUseId == calls[i].id {
      T.OneResultPerCall(handlers, calls, replies, i);
    }
  }

  lemma {:induction false} TurnsGrow(env: Env, handlers: map<string, T.Handler>, maxTurns: int, ms: seq<Message>, turns: nat,
                                    counts: map<string, nat>, force: Option<string>, sent: seq<Sent>)
    requires |sent| == turns && Continued(env, handlers, sent)
    requires turns > 0 ==> Grown(env, handlers, turns, sent[turns - 1].messages, ms)
    ensures var (outcome, all) := Turns(env, handlers, maxTurns, ms, turns, counts, force, sent);
            && sent <= all && (|all| > turns ==> all[turns].messages == ms) && Continued(env, handlers, all)
            && (outcome.Returned? && all == sent ==> outcome.messages == ms)
            && (outcome.Returned? && |all| > 0 ==> Grown(env, handlers, |all|, all[|all| - 1].messages, outcome.messages))
    decreases maxTurns - turns
  {
    hide TurnOf, Grown;
    if turns < maxTurns && !env.aborted(turns) {
      var now := sent + [Sent(ms, force)];
      forall k | 0 < k < |now| ensures GrownAt(env, handlers, now, k) {
        if k < turns {
          assert GrownAt(env, handlers, sent, k);
        }
      }
      TurnGrows(env, handlers, turns + 1, ms, counts);
      var t := TurnOf(env, handlers, turns + 1, ms, counts);
      if t.Continues? {
        TurnsGrow(env, handlers, maxTurns, t.messages, turns + 1, t.counts, t.force, now);
      }
    }
  }

  /**
   * The first turn is sent the conversation, every later one what the turn before it was sent with what was
   * said in that turn; and what is returned is what a further turn would have been sent.
   */
  lemma {:induction false} EachTurnSees(env: Env, handlers: map<string, T.Handler>, maxTurns: int, ms: seq<Message>)
    ensures var (outcome, sent) := Execution(env, handlers, maxTurns, ms);
            && (sent != [] ==> sent[0].messages == ms)
            && Continued(env, handlers, sent)
            && (outcome.Returned? ==>
                  if sent == [] then outcome.messages == ms
                  else Grown(env, handlers, |sent|, sent[|sent| - 1].messages, outcome.messages))
  {
    TurnsGrow(env, handlers, maxTurns, ms, 0, map[], None, []);
  }

  // ----- Structured output ---------------------------------------------------------------------------

  function Count(counts: map<string, nat>, name: string): nat { GetOr(counts, name, 0) }

  /** Nothing is counted twice, counts only grow, and the forced tool was counted in this turn. */
  lemma {:induction false} ScanCounts(calls: seq<T.Call>, results: seq<T.Result>, n: nat, counts: map<string, nat>)
    requires n <= |results| == |calls|
    ensures var s := ScanResults(calls, results, n, counts);
            s.Noted? ==>
              && (forall name :: Count(counts, name) <= Count(s.counts, name))
              && (forall name :: Count(counts, name) <= 1 ==> Count(s.counts, name) <= 1)
              && (s.force.Some? ==> Count(counts, s.force.value) == 0 && Count(s.counts, s.force.value) == 1)
              && forall i :: 0 <= i < n && results[i].violation ==> Count(counts, calls[i].name) == 0 && Count(s.counts, calls[i].name) >= 1
  {
    if n > 0 {
      ScanCounts(calls, results, n - 1, counts);
    }
  }

  /** Result `i` violates its schema, and its tool did so before, in an earlier turn or in this one. */
  ghost predicate Again(calls: seq<T.Call>, results: seq<T.Result>, counts: map<string, nat>, i: nat)
    requires i < |results| == |calls|
  {
    results[i].violation && (Count(counts, calls[i].name) >= 1 || Before(calls, results, i, calls[i].name))
  }

  ghost predicate Before(calls: seq<T.Call>, results: seq<T.Result>, i: nat, name: string)
    requires i <= |results| == |calls|
  {
    exists j :: 0 <= j < i && results[j].violation && calls[j].name == name
  }

  lemma {:induction false} ScanKnows(calls: seq<T.Call>, results: seq<T.Result>, n: nat, counts: map<string, nat>)
    requires n <= |results| == |calls|
    ensures var s := ScanResults(calls, results, n, counts);
            && (s.SecondViolation? <==> exists i :: 0 <= i < n && Again(calls, results, counts, i))
            && (s.Noted? ==> forall name :: Count(s.counts, name) >= 1 <==> Count(counts, name) >= 1 || Before(calls, results, n, name))
  {
    if n > 0 {
      ScanKnows(calls, results, n - 1, counts);
      var s := ScanResults(calls, results, n - 1, counts);
      if s.Noted? {
        assert Again(calls, results, counts, n - 1) <==> results[n - 1].violation && Count(s.counts, calls[n - 1].name) >= 1;
      } else {
        var i :| 0 <= i < n - 1 && Again(calls, results, counts, i);
      }
      forall name ensures Before(calls, results, n, name) <==>
                          Before(calls, results, n - 1, name) || (results[n - 1].violation && calls[n - 1].name == name) {
        if Before(calls, results, n - 1, name) {
          var j :| 0 <= j < n - 1 && results[j].violation && calls[j].name == name;
        }
      }
    }
  }

  /** A turn ends the run for its schema violations exactly if some tool violates its schema again. */
  lemma {:induction false} SecondViolationIff(calls: seq<T.Call>, results: seq<T.Result>, counts: map<string, nat>)
    requires |results| == |calls|
    ensures ScanResults(calls, results, |results|, counts).SecondViolation?
            <==> exists i :: 0 <= i < |results| && Again(calls, results, counts, i)
  {
    ScanKnows(calls, results, |results|, counts);
  }

  /** So two violations of one tool in the same turn end the run at once, before any retry. */
  lemma {:induction false} TwoInOneTurnFail(calls: seq<T.Call>, results: seq<T.Result>, counts: map<string, nat>, i: nat, j: nat)
    requires |results| == |calls| && i < j < |results|
    requires results[i].violation && results[j].violation && calls[i].name == calls[j].name
    ensures ScanResults(calls, results, |results|, counts).SecondViolation?
  {
    SecondViolationIff(calls, results, counts);
    assert Before(calls, results, j, calls[j].name);
    assert Again(calls, results, counts, j);
  }

  /** The tools that were forced so far have been counted, and none was forced twice. */
  ghost predicate ForcedOnce(sent: seq<Sent>) {
    forall i, j :: 0 <= i < j < |sent| && sent[i].forced.Some? ==> sent[i].forced != sent[j].forced
  }

  ghost predicate ForcedCounted(sent: seq<Sent>, counts: map<string, nat>) {
    forall i :: 0 <= i < |sent| && sent[i].forced.Some? ==> Count(counts, sent[i].forced.value) >= 1
  }

  /** The tool to be forced next was counted, and not forced before. */
  ghost predicate ForceIsNew(sent: seq<Sent>, counts: map<string, nat>, force: Option<string>) {
    force.Some? ==> Count(counts, force.value) >= 1 && forall i :: 0 <= i < |sent| ==> sent[i].forced != force
  }

  lemma {:induction false} TurnsForceOnce(env: Env, handlers: map<string, T.Handler>, maxTurns: int, ms: seq<Message>, turns: nat,
                                         counts: map<string, nat>, force: Option<string>, sent: seq<Sent>)
    requires ForcedOnce(sent) && ForcedCounted(sent, counts) && ForceIsNew(sent, counts, force)
    ensures ForcedOnce(Turns(env, handlers, maxTurns, ms, turns, counts, force, sent).1)
    decreases maxTurns - turns
  {
    if turns < maxTurns && !env.aborted(turns) {
      var now := sent + [Sent(ms, force)];
      assert ForcedOnce(now) && ForcedCounted(now, counts);
      var t := TurnOf(env, handlers, turns + 1, ms, counts);
      if t.Continues? {
        TurnCounts(env, handlers, turns + 1, ms, counts);
        hide TurnOf;
        assert ForcedCounted(now, t.counts);
        assert ForceIsNew(now, t.counts, t.force);
        TurnsForceOnce(env, handlers, maxTurns, t.messages, turns + 1, t.counts, t.force, now);
      }
    }
  }

  lemma TurnCounts(env: Env, handlers: map<string, T.Handler>, turn: nat, ms: seq<Message>, counts: map<string, nat>)
    requires TurnOf(env, handlers, turn, ms, counts).Continues?
    ensures var t := TurnOf(env, handlers, turn, ms, counts);
            && (forall name :: Count(counts, name) <= Count(t.counts, name))
            && (t.force.Some? ==> Count(counts, t.force.value) == 0 && Count(t.counts, t.force.value) == 1)
  {
    var calls := env.reply(turn).calls;
    var results := T.ExecuteAll(handlers, calls, env.tool(turn));
    ScanCounts(calls, results, |results|, counts);
  }

  /** In a whole run no tool is forced on the model more than once. */
  lemma {:induction false} EachToolForcedOnce(env: Env, handlers: map<string, T.Handler>, maxTurns: int, ms: seq<Message>)
    ensures ForcedOnce(Execution(env, handlers, maxTurns, ms).1)
  {
    TurnsForceOnce(env, handlers, maxTurns, ms, 0, map[], None, []);
  }

  // ----- Exactly when a run fails for its schema violations --------------------------------------------

  /** The tools of the violating results among the first `n`, in order. */
  function Blamed(calls: seq<T.Call>, results: seq<T.Result>, n: nat): seq<string>
    requires n <= |results| == |calls|
  {
    if n == 0 then []
    else
      var rest := Blamed(calls, results, n - 1);
      if results[n - 1].violation then rest + [calls[n - 1].name] else rest
  }

  /** The tools that violate their schema in a turn. */
  function Violators(env: Env, handlers: map<string, T.Handler>, turn: nat): seq<string> {
    match env.reply(turn)
    case ModelFailed => []
    case Answer(_, calls) => Blamed(calls, T.ExecuteAll(handlers, calls, env.tool(turn)), |calls|)
  }

  /** All violations of the first `n` turns. */
  function History(env: Env, handlers: map<string, T.Handler>, n: nat): seq<string> {
    if n == 0 then [] else History(env, handlers, n - 1) + Violators(env, handlers, n)
  }

  function LastOf(names: seq<string>): Option<string> { if names == [] then None else Some(names[|names| - 1]) }

  ghost predicate Distinct(names: seq<string>) { forall i, j :: 0 <= i < j < |names| ==> names[i] != names[j] }

  /** The first name of the list that occurs for the second time. */
  ghost predicate FirstRepeat(names: seq<string>, name: string) {
    exists i :: 0 <= i < |names| && RepeatAt(names, name, i)
  }

  ghost predicate RepeatAt(names: seq<string>, name: string, i: nat)
    requires i < |names|
  {
    names[i] == name && name in names[..i] && Distinct(names[..i])
  }

  lemma RepeatIsNotDistinct(names: seq<string>, name: string, i: nat)
    requires i < |names| && RepeatAt(names, name, i)
    ensures forall k :: i < k <= |names| ==> !Distinct(names[..k])
  {
    var j :| 0 <= j < i && names[..i][j] == name;
    forall k | i < k <= |names| ensures !Distinct(names[..k]) {
      assert names[..k][j] == names[..k][i];
    }
  }

  lemma RepeatIsUnique(names: seq<string>, a: string, b: string)
    requires FirstRepeat(names, a) && FirstRepeat(names, b)
    ensures a == b && !Distinct(names)
  {
    var i :| 0 <= i < |names| && RepeatAt(names, a, i);
    var j :| 0 <= j < |names| && RepeatAt(names, b, j);
    RepeatIsNotDistinct(names, a, i);
    RepeatIsNotDistinct(names, b, j);
    assert names[..|names|] == names;
  }

  lemma RepeatStays(names: seq<string>, more: seq<string>, name: string)
    requires FirstRepeat(names, name)
    ensures FirstRepeat(names + more, name)
  {
    var i :| 0 <= i < |names| && RepeatAt(names, name, i);
    assert (names + more)[..i] == names[..i];
    assert RepeatAt(names + more, name, i);
  }

  /** The counts are those of a list of names, none of which occurs twice. */
  ghost predicate CountsOf(counts: map<string, nat>, names: seq<string>) {
    Distinct(names) && forall name :: Count(counts, name) == if name in names then 1 else 0
  }

  /** The scan of a turn, in terms of the violations before the turn and in it. */
  lemma {:induction false} ScanIsRepeat(calls: seq<T.Call>, results: seq<T.Result>, n: nat, counts: map<string, nat>, before: seq<string>)
    requires n <= |results| == |calls| && CountsOf(counts, before)
    ensures match ScanResults(calls, results, n, counts)
            case Noted(after, force) => CountsOf(after, before + Blamed(calls, results, n)) && force == LastOf(Blamed(calls, results, n))
            case SecondViolation(name) => FirstRepeat(before + Blamed(calls, results, n), name)
  {
    if n == 0 {
      assert before + [] == before;
    } else {
      ScanIsRepeat(calls, results, n - 1, counts, before);
      var s := ScanResults(calls, results, n - 1, counts);
      var b := before + Blamed(calls, results, n - 1);
      if results[n - 1].violation {
        var name := calls[n - 1].name;
        assert before + Blamed(calls, results, n) == b + [name];
        hide Blamed, ScanResults;
        if s.SecondViolation? {
          RepeatStays(b, [name], s.tool);
        } else {
          CountOne(s.counts, b, name);
        }
      }
    }
  }

  lemma CountOne(counts: map<string, nat>, names: seq<string>, name: string)
    requires CountsOf(counts, names)
    ensures if Count(counts, name) >= 1 then FirstRepeat(names + [name], name)
            else CountsOf(counts[name := Count(counts, name) + 1], names + [name])
  {
    if Count(counts, name) >= 1 {
      assert (names + [name])[..|names|] == names;
      assert RepeatAt(names + [name], name, |names|);
    }
  }

  lemma TurnIsRepeat(env: Env, handlers: map<string, T.Handler>, turn: nat, ms: seq<Message>, counts: map<string, nat>)
    requires turn > 0 && CountsOf(counts, History(env, handlers, turn - 1))
    ensures match TurnOf(env, handlers, turn, ms, counts)
            case Continues(_, after, force) =>
              CountsOf(after, History(env, handlers, turn)) && force == LastOf(Violators(env, handlers, turn))
            case Fails(StructuredOutputError(name)) => FirstRepeat(History(env, handlers, turn), name)
            case _ => Distinct(History(env, handlers, turn))
  {
    hide CountsOf, FirstRepeat;
    var before := History(env, handlers, turn - 1);
    var reply := env.reply(turn);
    if reply.Answer? {
      ScanIsRepeat(reply.calls, T.ExecuteAll(handlers, reply.calls, env.tool(turn)), |reply.calls|, counts, before);
    }
    if reply.ModelFailed? || reply.calls == [] {
      assert Violators(env, handlers, turn) == [] && before + [] == before;
      CountedAreDistinct(counts, before);
    }
  }

  lemma CountedAreDistinct(counts: map<string, nat>, names: seq<string>)
    requires CountsOf(counts, names)
    ensures Distinct(names)
  {
  }

  /** What is forced in each turn is the last tool that violated its schema in the turn before. */
  ghost predicate ForcedFrom(env: Env, handlers: map<string, T.Handler>, sent: seq<Sent>) {
    forall k :: 0 <= k < |sent| ==> sent[k].forced == ForcedAfter(env, handlers, k)
  }

  function ForcedAfter(env: Env, handlers: map<string, T.Handler>, turn: nat): Option<string> {
    if turn == 0 then None else LastOf(Violators(env, handlers, turn))
  }

  /** How a run of `n` turns ends, in terms of its violations. */
  ghost predicate EndsBy(env: Env, handlers: map<string, T.Handler>, n: nat, outcome: Outcome) {
    match outcome
    case Threw(StructuredOutputError(name)) => FirstRepeat(History(env, handlers, n), name)
    case _ => Distinct(History(env, handlers, n))
  }

  lemma {:induction false} TurnsEndBy(env: Env, handlers: map<string, T.Handler>, maxTurns: int, ms: seq<Message>, turns: nat,
                                     counts: map<string, nat>, force: Option<string>, sent: seq<Sent>)
    requires |sent| == turns && CountsOf(counts, History(env, handlers, turns))
    requires ForcedFrom(env, handlers, sent) && force == ForcedAfter(env, handlers, turns)
    ensures var (outcome, all) := Turns(env, handlers, maxTurns, ms, turns, counts, force, sent);
            ForcedFrom(env, handlers, all) && EndsBy(env, handlers, |all|, outcome)
    decreases maxTurns - turns
  {
    hide TurnOf, CountsOf, FirstRepeat, Distinct, History, Violators;
    if turns < maxTurns && !env.aborted(turns) {
      var now := sent + [Sent(ms, force)];
      assert ForcedFrom(env, handlers, now);
      TurnIsRepeat(env, handlers, turns + 1, ms, counts);
      var t := TurnOf(env, handlers, turns + 1, ms, counts);
      if t.Continues? {
        TurnsEndBy(env, handlers, maxTurns, t.messages, turns + 1, t.counts, t.force, now);
      }
    } else {
      CountedAreDistinct(counts, History(env, handlers, turns));
    }
  }

  /**
   * A run fails with a structured output error of a tool exactly if that tool is the first
   * of the run to violate its schema for the second time.
   */
  lemma {:induction false} FailsIffRepeat(env: Env, handlers: map<string, T.Handler>, maxTurns: int, ms: seq<Message>, name: string)
    ensures var (outcome, sent) := Execution(env, handlers, maxTurns, ms);
            && ForcedFrom(env, handlers, sent)
            && (outcome == Threw(StructuredOutputError(name)) <==> FirstRepeat(History(env, handlers, |sent|), name))
  {
    assert CountsOf(map[], History(env, handlers, 0));
    TurnsEndBy(env, handlers, maxTurns, ms, 0, map[], None, []);
    var (outcome, sent) := Execution(env, handlers, maxTurns, ms);
    var h := History(env, handlers, |sent|);
    hide Turns, History;
    if FirstRepeat(h, name) {
      RepeatIsUnique(h, name, name);
      assert outcome.Threw? && outcome.cause.StructuredOutputError?;
      RepeatIsUnique(h, name, outcome.cause.tool);
    }
  }

  ghost predicate NeverForced(sent: seq<Sent>, name: string) { forall k :: 0 <= k < |sent| ==> sent[k].forced != Some(name) }

  /** Every earlier turn in which the tool violated its schema ended with a violation of another tool. */
  ghost predicate NeverLast(env: Env, handlers: map<string, T.Handler>, n: nat, name: string) {
    forall k :: 1 <= k < n ==> LastOf(Violators(env, handlers, k)) != Some(name)
  }

  /**
   * Exactly when a run fails for a tool that was never forced on the model, so without the
   * retry: the tool is the first to violate its schema a second time, and in no earlier turn
   * was it the last to do so. Two violations in one turn are one such case, another tool that
   * violates its schema later in the same turn is the other.
   */
  lemma {:induction false} FailsUnforcedIff(env: Env, handlers: map<string, T.Handler>, maxTurns: int, ms: seq<Message>, name: string)
    ensures var (outcome, sent) := Execution(env, handlers, maxTurns, ms);
            outcome == Threw(StructuredOutputError(name)) && NeverForced(sent, name)
            <==> FirstRepeat(History(env, handlers, |sent|), name) && NeverLast(env, handlers, |sent|, name)
  {
    FailsIffRepeat(env, handlers, maxTurns, ms, name);
    ForcedIffLast(env, handlers, Execution(env, handlers, maxTurns, ms).1, name);
  }

  lemma ForcedIffLast(env: Env, handlers: map<string, T.Handler>, sent: seq<Sent>, name: string)
    requires ForcedFrom(env, handlers, sent)
    ensures NeverForced(sent, name) <==> NeverLast(env, handlers, |sent|, name)
  {
    hide Violators;
    if NeverForced(sent, name) {
      forall k | 1 <= k < |sent| ensures LastOf(Violators(env, handlers, k)) != Some(name) {
        assert sent[k].forced == ForcedAfter(env, handlers, k);
      }
    }
    if NeverLast(env, handlers, |sent|, name) {
      forall k | 0 <= k < |sent| ensures sent[k].forced != Some(name) {
        assert sent[k].forced == ForcedAfter(env, handlers, k);
      }
    }
  }

  /** The tool's schema is enforced and rejects the empty text, as every schema of JSON documents does. */
  predicate RejectsEmpty(handlers: map<string, T.Handler>, name: string) {
    T.Enforced(handlers, name) && !handlers[name].schema.value("")
  }

  /**
   * For example: in the first turn "a" and then "b" violate their schemas, so "b" is forced;
   * when "a" does so again in the second turn, the run fails without "a" having been forced.
   */
  lemma {:induction false} OtherToolFails(handlers: map<string, T.Handler>, ms: seq<Message>)
    requires RejectsEmpty(handlers, "a") && RejectsEmpty(handlers, "b")
    ensures var a, b := T.Call("1", "a", ""), T.Call("2", "b", "");
            var env := Env(_ => false, turn => Answer("", if turn == 1 then [a, b] else [a]), _ => _ => T.Gives("", ""));
            var (outcome, sent) := Execution(env, handlers, 10, ms);
            outcome == Threw(StructuredOutputError("a")) && |sent| == 2 && sent[1].forced == Some("b") && NeverForced(sent, "a")
  {
    var a, b := T.Call("1", "a", ""), T.Call("2", "b", "");
    var env := Env(_ => false, turn => Answer("", if turn == 1 then [a, b] else [a]), _ => _ => T.Gives("", ""));
    var rs := T.ExecuteAll(handlers, [a, b], env.tool(1));
    assert rs[0] == T.ExecuteSingle(handlers, a, T.Gives("", "")) && rs[1] == T.ExecuteSingle(handlers, b, T.Gives("", ""));
    var c1 := map["a" := 1];
    assert ScanResults([a, b], rs, 1, map[]) == Noted(c1, Some("a"));
    var c2 := c1["b" := 1];
    assert ScanResults([a, b], rs, 2, map[]) == Noted(c2, Some("b"));
    var t1 := TurnOf(env, handlers, 1, ms, map[]);
    assert t1.Continues? && t1.counts == c2 && t1.force == Some("b");
    var rs2 := T.ExecuteAll(handlers, [a], env.tool(2));
    assert rs2[0] == T.ExecuteSingle(handlers, a, T.Gives("", ""));
    assert ScanResults([a], rs2, 1, c2) == SecondViolation("a");
    assert TurnOf(env, handlers, 2, t1.messages, c2) == Fails(StructuredOutputError("a"));
    var sent1 := [] + [Sent(ms, None)];
    hide TurnOf, ScanResults;
    assert Execution(env, handlers, 10, ms) == Turns(env, handlers, 10, t1.messages, 1, c2, Some("b"), sent1);
  }
}
