/** The items of a conversation, as far as the transformations below look at them. */
module Conversation {
  datatype ContentPart = Text(text: string) | Image(url: string)

  datatype SyntheticReason =
    | Human
    | CompactionMeta
    | SystemReminder
    | ProjectInstructions
    | AgentMessage
    | OtherReason(tag: string)

  datatype ToolCall = ToolCall(id: string, name: string, arguments: string)

  datatype Item =
    | System(text: string)
    | User(content: seq<ContentPart>, reason: SyntheticReason)
    | Assistant(text: string, calls: seq<ToolCall>)
    | ToolResult(callId: string, text: string, images: seq<ContentPart>)
    | BackendToolCall(payload: string)
    | Reasoning(payload: string)
  {
    /** An assistant item that declares at least one tool call. */
    predicate DeclaresCalls() { Assistant? && calls != [] }
  }

  function CallIds(calls: seq<ToolCall>): set<string> {
    set c | c in calls :: c.id
  }

  predicate AllResults(s: seq<Item>) {
    forall i | 0 <= i < |s| :: s[i].ToolResult?
  }

  /** How many tool results stand at the head of the history. */
  function ResultRun(s: seq<Item>): (n: nat)
    ensures n <= |s|
    ensures AllResults(s[..n])
    ensures n < |s| ==> !s[n].ToolResult?
  {
    if s == [] || !s[0].ToolResult? then 0
    else
      assert s[..1 + ResultRun(s[1..])] == [s[0]] + s[1..][..ResultRun(s[1..])];
      1 + ResultRun(s[1..])
  }

  lemma {:induction false} ResultRunIs(run: seq<Item>, rest: seq<Item>)
    requires AllResults(run)
    requires rest == [] || !rest[0].ToolResult?
    ensures ResultRun(run + rest) == |run|
    ensures (run + rest)[..|run|] == run && (run + rest)[|run|..] == rest
  {
    if run != [] {
      assert (run + rest)[1..] == run[1..] + rest;
      ResultRunIs(run[1..], rest);
    }
  }
}
