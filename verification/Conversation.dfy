/**
 * packages/server/src/auto-reply/execution-adapter.ts, the functions about stored history
 *
 * Conversations, and the pairing of tool calls with their results that the model's API
 * insists on.
 */
module Conversation {
  import opened Prelude

  datatype Role = System | User | Assistant | Tool

  datatype Block =
    | TextBlock(text: string)
    | Image(url: string)
    | ToolUse(id: string, name: string, input: string)
    | ToolResult(toolUseId: string, content: string, isError: bool)

  datatype Content = Text(text: string) | Blocks(blocks: seq<Block>)

  datatype Message = Message(role: Role, content: Content)

  function BlocksOf(m: Message): seq<Block> { if m.content.Blocks? then m.content.blocks else [] }

  function UsesIn(bs: seq<Block>): seq<Block> {
    if bs == [] then [] else (if bs[0].ToolUse? then [bs[0]] else []) + UsesIn(bs[1..])
  }

  /** The tool calls of an assistant message. */
  function Uses(m: Message): (us: seq<Block>) {
    if m.role.Assistant? then UsesIn(BlocksOf(m)) else []
  }

  lemma {:induction false} UsesAreUses(bs: seq<Block>)
    ensures forall u :: u in UsesIn(bs) ==> u.ToolUse?
  {
    if bs != [] {
      UsesAreUses(bs[1..]);
    }
  }

  /** The message answers these calls, one result for each, in order. */
  ghost predicate Answers(m: Message, uses: seq<Block>) {
    && m.role.Tool? && m.content.Blocks? && |m.content.blocks| == |uses| > 0
    && forall i :: 0 <= i < |uses| ==>
         m.content.blocks[i].ToolResult? && uses[i].ToolUse? && m.content.blocks[i].toolUseId == uses[i].id
  }

  ghost predicate NoResults(m: Message) { forall b :: b in BlocksOf(m) ==> !b.ToolResult? }

  /**
   * Every tool message directly follows the assistant message whose calls it answers, and
   * every call is answered.
   */
  ghost predicate WellPaired(ms: seq<Message>) {
    forall i :: 0 <= i < |ms| ==> PairedAt(ms, i)
  }

  ghost predicate PairedAt(ms: seq<Message>, i: nat)
    requires i < |ms|
  {
    if ms[i].role.Tool? then i > 0 && Answers(ms[i], Uses(ms[i - 1]))
    else NoResults(ms[i]) && (Uses(ms[i]) != [] ==> i + 1 < |ms| && ms[i + 1].role.Tool?)
  }

  // ----- Cutting the history -------------------------------------------------------------------

  predicate IsOrphan(m: Message) {
    m.role.Tool? || (BlocksOf(m) != [] && forall b :: b in BlocksOf(m) ==> b.ToolResult?)
  }

  /** `sliceHistoryRespectingToolPairs` */
  method SliceHistory(messages: seq<Message>, limit: int) returns (r: seq<Message>)
    ensures r == Sliced(messages, limit)
  {
    var start := if |messages| > limit then |messages| - limit else 0;
    while start < |messages| && IsOrphan(messages[start])
      invariant SkipOrphans(messages, start) == Sliced(messages, limit)
    {
      start := start + 1;
    }
    r := if start <= |messages| then messages[start..] else [];
  }

  function SkipOrphans(ms: seq<Message>, start: nat): seq<Message>
    decreases |ms| - start
  {
    if start >= |ms| then []
    else if IsOrphan(ms[start]) then SkipOrphans(ms, start + 1)
    else ms[start..]
  }

  function Sliced(ms: seq<Message>, limit: int): seq<Message> {
    SkipOrphans(ms, if |ms| > limit then |ms| - limit else 0)
  }

  /** What is kept is an end of the history that begins with no orphan; no longer end within the limit does. */
  lemma {:induction false} SkipKeepsMost(ms: seq<Message>, start: nat)
    ensures var r := SkipOrphans(ms, start);
            && |r| <= |ms| && r == ms[|ms| - |r|..] && (r == [] || !IsOrphan(r[0]))
            && (start < |ms| ==> |r| <= |ms| - start)
            && forall k :: start <= k < |ms| - |r| ==> IsOrphan(ms[k])
    decreases |ms| - start
  {
    if start < |ms| && IsOrphan(ms[start]) {
      SkipKeepsMost(ms, start + 1);
    }
  }

  lemma {:induction false} SliceKeepsMost(ms: seq<Message>, limit: int)
    ensures var r := Sliced(ms, limit);
            && |r| <= |ms| && r == ms[|ms| - |r|..] && (r == [] || !IsOrphan(r[0]))
            && (limit >= 0 ==> |r| <= limit)
            && forall k :: 0 <= k < |ms| - |r| && |ms| - limit <= k ==> IsOrphan(ms[k])
  {
    SkipKeepsMost(ms, if |ms| > limit then |ms| - limit else 0);
  }

  /** An end of a paired history that does not begin with an answer is paired. */
  lemma {:induction false} SuffixPaired(ms: seq<Message>, k: nat)
    requires WellPaired(ms) && k <= |ms| && (k < |ms| ==> !ms[k].role.Tool?)
    ensures WellPaired(ms[k..])
  {
    var r := ms[k..];
    forall i | 0 <= i < |r| ensures PairedAt(r, i) {
      assert PairedAt(ms, k + i);
    }
  }

  ghost predicate IsPlain(m: Message) { !m.role.Tool? && NoResults(m) && Uses(m) == [] }

  lemma {:induction false} AppendPlain(ms: seq<Message>, m: Message)
    requires WellPaired(ms) && IsPlain(m)
    ensures WellPaired(ms + [m])
  {
    var r := ms + [m];
    forall i | 0 <= i < |r| ensures PairedAt(r, i) {
      if i < |ms| {
        assert PairedAt(ms, i);
      }
    }
  }

  lemma {:induction false} AppendTurn(ms: seq<Message>, a: Message, t: Message)
    requires WellPaired(ms) && a.role.Assistant? && NoResults(a) && Answers(t, Uses(a))
    ensures WellPaired(ms + [a, t])
  {
    var r := ms + [a, t];
    forall i | 0 <= i < |r| ensures PairedAt(r, i) {
      if i < |ms| {
        assert PairedAt(ms, i);
      }
    }
  }

  lemma SliceStartsPaired(ms: seq<Message>, limit: int)
    ensures var r := Sliced(ms, limit);
            |r| <= |ms| && r == ms[|ms| - |r|..] && (|ms| - |r| < |ms| ==> !ms[|ms| - |r|].role.Tool?)
  {
    SliceKeepsMost(ms, limit);
  }

  /** The cut of a paired history, with a new message of the user, is paired. */
  lemma {:induction false} SlicePlusUserPaired(ms: seq<Message>, limit: int, body: string)
    requires WellPaired(ms)
    ensures WellPaired(Sliced(ms, limit)) && WellPaired(Sliced(ms, limit) + [Message(User, Text(body))])
  {
    hide WellPaired, Sliced;
    var user := Message(User, Text(body));
    SliceStartsPaired(ms, limit);
    SuffixPaired(ms, |ms| - |Sliced(ms, limit)|);
    assert BlocksOf(user) == [];
    AppendPlain(Sliced(ms, limit), user);
  }

  /** In a paired history the orphans are the answers, and no two of them are neighbours. */
  lemma OrphansAreAnswers(ms: seq<Message>, i: nat)
    requires WellPaired(ms) && i < |ms|
    ensures IsOrphan(ms[i]) <==> ms[i].role.Tool?
    ensures i > 0 && ms[i].role.Tool? ==> !ms[i - 1].role.Tool?
  {
    assert PairedAt(ms, i);
    var bs := BlocksOf(ms[i]);
    if bs != [] {
      assert bs[0] in bs;
    }
  }

  /** Of a paired history the last messages are kept, as many as allowed; if they begin with an answer, one fewer. */
  lemma {:induction false} SliceOfPaired(ms: seq<Message>, limit: int)
    requires WellPaired(ms)
    ensures var start := if |ms| > limit then |ms| - limit else 0;
            Sliced(ms, limit) == if start >= |ms| then [] else if ms[start].role.Tool? then ms[start + 1..] else ms[start..]
  {
    hide IsOrphan, WellPaired;
    var start := if |ms| > limit then |ms| - limit else 0;
    if start < |ms| {
      OrphansAreAnswers(ms, start);
      if start + 1 < |ms| {
        OrphansAreAnswers(ms, start + 1);
      }
      if ms[start].role.Tool? {
        assert SkipOrphans(ms, start + 1) == ms[start + 1..];
      }
    }
  }

  /** A cut that ignores the pairs would not be: the plain end of this history starts with an answer. */
  lemma PlainCutBreaksPairs()
    ensures var ms := [Message(User, Text("")), Message(Assistant, Blocks([ToolUse("a", "t", "")])),
                       Message(Tool, Blocks([ToolResult("a", "", false)]))];
            WellPaired(ms) && !WellPaired(ms[|ms| - 1..]) && Sliced(ms, 1) == []
  {
    var use, answer := Message(Assistant, Blocks([ToolUse("a", "t", "")])), Message(Tool, Blocks([ToolResult("a", "", false)]));
    var ms := [Message(User, Text("")), use, answer];
    assert UsesIn([]) == [];
    assert Uses(use) == UsesIn([ToolUse("a", "t", "")]) == [ToolUse("a", "t", "")];
    assert Answers(answer, Uses(use));
    assert PairedAt(ms, 0) && PairedAt(ms, 1) && PairedAt(ms, 2);
    assert !PairedAt(ms[2..], 0);
    assert SkipOrphans(ms, 2) == SkipOrphans(ms, 3) == [];
  }

  // ----- The answer ---------------------------------------------------------------------------------

  function TextIn(bs: seq<Block>): string {
    if bs == [] then [] else (if bs[0].TextBlock? then bs[0].text else []) + TextIn(bs[1..])
  }

  function TextOf(m: Message): string {
    match m.content
    case Text(text) => text
    case Blocks(blocks) => TextIn(blocks)
  }

  /** `extractAssistantText`: the text of the last message of the assistant. */
  function LastAnswer(ms: seq<Message>): string {
    if ms == [] then []
    else if ms[|ms| - 1].role.Assistant? then TextOf(ms[|ms| - 1])
    else LastAnswer(ms[..|ms| - 1])
  }

  method ExtractAssistantText(messages: seq<Message>) returns (text: string)
    ensures text == LastAnswer(messages)
  {
    var i := |messages|;
    assert messages[..i] == messages;
    while i > 0
      invariant 0 <= i <= |messages| && LastAnswer(messages[..i]) == LastAnswer(messages)
    {
      assert messages[..i][..i - 1] == messages[..i - 1];
      var msg := messages[i - 1];
      if msg.role.Assistant? {
        return TextOf(msg);
      }
      i := i - 1;
    }
    text := [];
  }

  lemma {:induction false} TextConcat(a: seq<Block>, b: seq<Block>)
    ensures TextIn(a + b) == TextIn(a) + TextIn(b)
  {
    if a == [] {
      assert a + b == b;
    } else {
      assert (a + b)[1..] == a[1..] + b;
      TextConcat(a[1..], b);
    }
  }

  /** The text of a list of blocks is that of its text blocks, in order. */
  lemma {:induction false} TextOfTextBlocks(before: seq<Block>, b: Block, after: seq<Block>)
    ensures TextIn([]) == ""
    ensures TextIn(before + [b] + after) == TextIn(before) + (if b.TextBlock? then b.text else "") + TextIn(after)
  {
    TextConcat(before + [b], after);
    TextConcat(before, [b]);
  }

  /** The answer is that of the last message of the assistant, whichever other messages follow, and empty if there is none. */
  lemma {:induction false} AnswerIsLast(ms: seq<Message>, n: nat)
    requires n <= |ms| && (forall k :: n <= k < |ms| ==> !ms[k].role.Assistant?) && (n > 0 ==> ms[n - 1].role.Assistant?)
    ensures LastAnswer(ms) == if n == 0 then ""
                              else match ms[n - 1].content { case Text(text) => text case Blocks(blocks) => TextIn(blocks) }
  {
    if n < |ms| {
      AnswerIsLast(ms[..|ms| - 1], n);
    }
  }

  // ----- The audit records -----------------------------------------------------------------------

  datatype Record = Record(name: string, input: string, output: string, isError: Option<bool>)

  function FirstTool(ms: seq<Message>): Option<Message> {
    if ms == [] then None else if ms[0].role.Tool? then Some(ms[0]) else FirstTool(ms[1..])
  }

  function ResultFor(bs: seq<Block>, id: string): Option<Block> {
    if bs == [] then None
    else if bs[0].ToolResult? && bs[0].toolUseId == id then Some(bs[0])
    else ResultFor(bs[1..], id)
  }

  lemma {:induction false} ResultForIsResult(bs: seq<Block>, id: string)
    ensures ResultFor(bs, id).Some? ==> ResultFor(bs, id).value.ToolResult?
  {
    if bs != [] {
      ResultForIsResult(bs[1..], id);
    }
  }

  function RecordOf(use: Block, answer: Option<Message>): Record
    requires use.ToolUse?
  {
    var found := if answer.Some? then ResultFor(BlocksOf(answer.value), use.id) else None;
    if found.Some? && found.value.ToolResult? then Record(use.name, use.input, found.value.content, Some(found.value.isError))
    else Record(use.name, use.input, "", None)
  }

  function RecordsOfBlocks(bs: seq<Block>, answer: Option<Message>): seq<Record> {
    if bs == [] then []
    else
      var init, last := RecordsOfBlocks(bs[..|bs| - 1], answer), bs[|bs| - 1];
      if last.ToolUse? then init + [RecordOf(last, answer)] else init
  }

  /** The records of the first `n` messages. */
  function RecordsOf(ms: seq<Message>, n: nat): seq<Record>
    requires n <= |ms|
  {
    if n == 0 then []
    else
      RecordsOf(ms, n - 1)
      + (if ms[n - 1].role.Assistant? then RecordsOfBlocks(BlocksOf(ms[n - 1]), FirstTool(ms[n..])) else [])
  }

  method CollectToolCalls(messages: seq<Message>) returns (records: seq<Record>)
    ensures records == RecordsOf(messages, |messages|)
  {
    records := [];
    for i := 0 to |messages|
      invariant records == RecordsOf(messages, i)
    {
      var msg := messages[i];
      if !msg.role.Assistant? || msg.content.Text? {
        continue;
      }
      var blocks := msg.content.blocks;
      ghost var before := records;
      for j := 0 to |blocks|
        invariant records == before + RecordsOfBlocks(blocks[..j], FirstTool(messages[i + 1..]))
      {
        assert blocks[..j + 1][..j] == blocks[..j];
        if blocks[j].ToolUse? {
          records := records + [RecordOf(blocks[j], FirstTool(messages[i + 1..]))];
        }
      }
      assert blocks[..|blocks|] == blocks;
    }
  }

  /** The calls of a message next to the answers, one by one. */
  function Zip(uses: seq<Block>, results: seq<Block>): seq<Record>
    requires |uses| == |results|
    requires forall i :: 0 <= i < |uses| ==> uses[i].ToolUse? && results[i].ToolResult?
  {
    if uses == [] then []
    else
      var n := |uses| - 1;
      Zip(uses[..n], results[..n]) + [Record(uses[n].name, uses[n].input, results[n].content, Some(results[n].isError))]
  }

  ghost predicate DistinctIds(uses: seq<Block>) {
    forall i, j :: 0 <= i < j < |uses| && uses[i].ToolUse? && uses[j].ToolUse? ==> uses[i].id != uses[j].id
  }

  lemma {:induction false} UsesSnoc(bs: seq<Block>, b: Block)
    ensures UsesIn(bs + [b]) == UsesIn(bs) + (if b.ToolUse? then [b] else [])
  {
    if bs != [] {
      assert (bs + [b])[1..] == bs[1..] + [b];
      UsesSnoc(bs[1..], b);
    }
  }

  lemma {:induction false} ResultAt(bs: seq<Block>, i: nat)
    requires i < |bs| && (forall k :: 0 <= k < |bs| ==> bs[k].ToolResult?)
    requires forall k :: 0 <= k < i ==> bs[k].toolUseId != bs[i].toolUseId
    ensures ResultFor(bs, bs[i].toolUseId) == Some(bs[i])
  {
    if i > 0 {
      ResultAt(bs[1..], i - 1);
    }
  }

  lemma {:induction false} RecordsAreZip(bs: seq<Block>, answer: Message, all: seq<Block>)
    requires Answers(answer, all) && DistinctIds(all) && UsesIn(bs) <= all
    ensures forall i :: 0 <= i < |UsesIn(bs)| ==> UsesIn(bs)[i].ToolUse? && answer.content.blocks[i].ToolResult?
    ensures RecordsOfBlocks(bs, Some(answer)) == Zip(UsesIn(bs), answer.content.blocks[..|UsesIn(bs)|])
  {
    var results := answer.content.blocks;
    if bs != [] {
      var init, last := bs[..|bs| - 1], bs[|bs| - 1];
      assert bs == init + [last];
      UsesSnoc(init, last);
      var us := UsesIn(bs);
      RecordsAreZip(init, answer, all);
      if last.ToolUse? {
        var n := |us| - 1;
        assert us[..n] == UsesIn(init) && results[..|us|][..n] == results[..n];
        assert us[n] == all[n] && results[n].toolUseId == all[n].id;
        forall k | 0 <= k < n ensures results[k].toolUseId != results[n].toolUseId {
          assert results[k].toolUseId == all[k].id && all[k].ToolUse?;
        }
        ResultAt(results, n);
      } else {
        assert us == UsesIn(init);
      }
    }
  }

  /**
   * In a paired history the records of a message's calls hold the outputs of exactly those
   * calls, provided that the model did not use an id twice in the message.
   */
  lemma {:induction false} RecordsMatchResults(ms: seq<Message>, i: nat)
    requires WellPaired(ms) && i < |ms| && Uses(ms[i]) != [] && DistinctIds(Uses(ms[i]))
    ensures i + 1 < |ms| && Answers(ms[i + 1], Uses(ms[i]))
    ensures RecordsOf(ms, i + 1) == RecordsOf(ms, i) + Zip(Uses(ms[i]), ms[i + 1].content.blocks)
  {
    assert PairedAt(ms, i) && PairedAt(ms, i + 1);
    assert FirstTool(ms[i + 1..]) == Some(ms[i + 1]);
    var us, bs := Uses(ms[i]), BlocksOf(ms[i]);
    RecordsAreZip(bs, ms[i + 1], us);
    assert ms[i + 1].content.blocks[..|us|] == ms[i + 1].content.blocks;
  }

  /** Messages without calls add no record. */
  lemma NoCallsNoRecords(ms: seq<Message>, i: nat)
    requires i < |ms| && Uses(ms[i]) == []
    ensures RecordsOf(ms, i + 1) == RecordsOf(ms, i)
  {
    if ms[i].role.Assistant? {
      NoUsesNoRecords(BlocksOf(ms[i]), FirstTool(ms[i + 1..]));
    }
  }

  lemma {:induction false} NoUsesNoRecords(bs: seq<Block>, answer: Option<Message>)
    requires UsesIn(bs) == []
    ensures RecordsOfBlocks(bs, answer) == []
  {
    if bs != [] {
      assert bs == bs[..|bs| - 1] + [bs[|bs| - 1]];
      UsesSnoc(bs[..|bs| - 1], bs[|bs| - 1]);
      NoUsesNoRecords(bs[..|bs| - 1], answer);
    }
  }
}
