/** packages/agent/src/execution/tool-executor.ts */
module ToolExecutor {
  import opened Prelude

  const MAX_RESULT_CHARS := 10_000
  const MARK := "\n... [truncated]"

  datatype Call = Call(id: string, name: string, input: string)

  /** `schema` accepts the texts that parse and validate. */
  datatype Handler = Handler(schema: Option<string -> bool>, enforceStructuredOutput: bool)

  /** What the handler's own code does; `issue` is the validator's message if the text is rejected. */
  datatype HandlerReply = Gives(text: string, issue: string) | Raises(message: string)

  datatype Result = Result(toolUseId: string, content: string, isError: bool, violation: bool)

  function Truncated(text: string): string {
    if |text| > MAX_RESULT_CHARS then text[..MAX_RESULT_CHARS] + MARK else text
  }

  function ExecuteSingle(handlers: map<string, Handler>, call: Call, reply: HandlerReply): Result {
    if call.name !in handlers then Result(call.id, "Unknown tool: " + call.name, true, false)
    else if reply.Raises? then Result(call.id, "Tool execution error: " + reply.message, true, false)
    else
      var h, text := handlers[call.name], Truncated(reply.text);
      if h.schema.Some? && h.enforceStructuredOutput && !h.schema.value(text) then
        Result(call.id, "Tool '" + call.name + "' output schema violation: " + reply.issue, true, true)
      else Result(call.id, text, false, false)
  }

  function ExecuteAll(handlers: map<string, Handler>, calls: seq<Call>, replies: nat -> HandlerReply): seq<Result> {
    seq(|calls|, i requires 0 <= i < |calls| => ExecuteSingle(handlers, calls[i], replies(i)))
  }

  predicate Enforced(handlers: map<string, Handler>, name: string) {
    name in handlers && handlers[name].schema.Some? && handlers[name].enforceStructuredOutput
  }

  /**
   * Every call gets one result, in its place. It is a violation exactly if the tool's schema is enforced and rejects the
   * text that is kept, and an error exactly if it is a violation, the tool is unknown or its code failed. What is not an
   * error is the output, whole if it is short and otherwise its beginning with the mark.
   */
  lemma OneResultPerCall(handlers: map<string, Handler>, calls: seq<Call>, replies: nat -> HandlerReply, i: nat)
    requires i < |calls|
    ensures var rs, call, reply := ExecuteAll(handlers, calls, replies), calls[i], replies(i);
            var known := call.name in handlers;
            && |rs| == |calls| && rs[i].toolUseId == call.id
            && (rs[i].isError <==> !known || reply.Raises? || rs[i].violation)
            && (!known ==> rs[i].content == "Unknown tool: " + call.name)
            && (known && reply.Raises? ==> rs[i].content == "Tool execution error: " + reply.message)
            && (!known || reply.Raises? ==> !rs[i].violation)
            && (known && reply.Gives? ==> Kept(handlers[call.name], reply, rs[i]))
  {
    assert ExecuteAll(handlers, calls, replies)[i] == ExecuteSingle(handlers, calls[i], replies(i));
  }

  ghost predicate Kept(h: Handler, reply: HandlerReply, r: Result)
    requires reply.Gives?
  {
    var kept := if |reply.text| <= 10_000 then reply.text else reply.text[..10_000] + "\n... [truncated]";
    && (r.violation <==> h.enforceStructuredOutput && h.schema.Some? && !h.schema.value(kept))
    && (!r.violation ==> r.content == kept)
    && (r.violation ==> exists head: string :: r.content == head + reply.issue)
  }

  /**
   * No text with the mark at its end is accepted. Such a text is no JSON document, and the schema is
   * asked about a missing value instead; so this is so for the schemas that insist on a value.
   */
  ghost predicate RejectsMark(schema: string -> bool) { forall head: string :: !schema(head + MARK) }

  /** The verdict on an output is that on the uncut text, and every output that had to be cut is rejected. */
  lemma VerdictIff(handlers: map<string, Handler>, call: Call, text: string, issue: string)
    requires Enforced(handlers, call.name) && RejectsMark(handlers[call.name].schema.value)
    ensures ExecuteSingle(handlers, call, Gives(text, issue)).violation
            <==> |text| > MAX_RESULT_CHARS || !handlers[call.name].schema.value(text)
  {
    if |text| > MAX_RESULT_CHARS {
      assert Truncated(text) == text[..MAX_RESULT_CHARS] + MARK;
    }
  }

  /** The schema sees the text after it was cut: an output that it accepts is reported as a violation exactly if it is long. */
  lemma LongOutputIsViolation(handlers: map<string, Handler>, call: Call, text: string, issue: string)
    requires Enforced(handlers, call.name) && RejectsMark(handlers[call.name].schema.value)
    requires handlers[call.name].schema.value(text)
    ensures ExecuteSingle(handlers, call, Gives(text, issue)).violation <==> |text| > MAX_RESULT_CHARS
  {
    VerdictIff(handlers, call, text, issue);
  }

  /** Accepts the JSON document of a whole number: digits, without a leading zero. */
  predicate IsWholeNumber(text: string) {
    text != "" && (text[0] != '0' || |text| == 1) && forall i :: 0 <= i < |text| ==> '0' <= text[i] <= '9'
  }

  /** A number of 10,001 digits: the tool's schema accepts it, and the call is reported as a violation. */
  lemma LongNumberIsRejected(call: Call, issue: string)
    ensures var handlers := map[call.name := Handler(Some(IsWholeNumber), true)];
            var text := seq(MAX_RESULT_CHARS + 1, _ => '1');
            IsWholeNumber(text) && ExecuteSingle(handlers, call, Gives(text, issue)).violation
  {
    var handlers := map[call.name := Handler(Some(IsWholeNumber), true)];
    var text := seq(MAX_RESULT_CHARS + 1, _ => '1');
    forall head: string ensures !IsWholeNumber(head + MARK) {
      assert (head + MARK)[|head|] == MARK[0] == '\n';
    }
    LongOutputIsViolation(handlers, call, text, issue);
  }
}
