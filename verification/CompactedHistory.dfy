/**
 Rebuilding a history around its compaction anchors: the latest agent message, the last real user query and the
 working tail behind them. Each compaction reads the anchors back out of what the last one wrote.
 */
module CompactedHistory {
  import opened Options
  import opened Text
  import opened Conversation
  import opened Pairing
  import ToolRepair
  import opened UserQuery

  const AUTO_CONTINUE_SENTINEL := "__auto_continue__"
  /** Stands for the prompt that the runtime itself sends after an automatic compaction. */
  const AUTO_CONTINUE_PROMPT := "Continue from where it left off."
  const OMITTED_RESULT := "Tool call omitted..."

  // ---------------------------------------------------------------- what a user item says

  function TextParts(parts: seq<ContentPart>): seq<string> {
    if parts == [] then []
    else (if parts[0].Text? then [parts[0].text] else []) + TextParts(parts[1..])
  }

  function JoinLines(lines: seq<string>): string {
    if lines == [] then ""
    else if |lines| == 1 then lines[0]
    else lines[0] + "\n" + JoinLines(lines[1..])
  }

  function UserText(parts: seq<ContentPart>): string {
    JoinLines(TextParts(parts))
  }

  predicate HasImage(parts: seq<ContentPart>) {
    exists k | 0 <= k < |parts| :: parts[k].Image?
  }

  predicate IsSyntheticQuery(text: string) {
    text == "" || text == AUTO_CONTINUE_SENTINEL || text == AUTO_CONTINUE_PROMPT
  }

  predicate IsAgentMessage(x: Item) {
    x.User? && x.reason.AgentMessage?
  }

  /** A turn a human typed; a prompt of images alone is one, too. */
  predicate IsRealUserTurn(x: Item) {
    x.User? && x.reason.Human? &&
    (HasImage(x.content) || !IsSyntheticQuery(ExtractUserQuery(UserText(x.content))))
  }

  datatype Mark = RealTurn | AgentTurn | AnyAnchor

  predicate Bears(x: Item, mark: Mark) {
    match mark
    case RealTurn => IsRealUserTurn(x)
    case AgentTurn => IsAgentMessage(x)
    case AnyAnchor => IsRealUserTurn(x) || IsAgentMessage(x)
  }

  /** The last item that bears the mark. */
  function LastWith(s: seq<Item>, mark: Mark): (r: Option<nat>)
    ensures r.Some? ==> r.value < |s| && Bears(s[r.value], mark)
  {
    if s == [] then None
    else if Bears(s[|s| - 1], mark) then Some(|s| - 1)
    else LastWith(s[..|s| - 1], mark)
  }

  // ---------------------------------------------------------------- extraction

  datatype Position = Only | BeforeHuman | AfterHuman

  datatype Anchor = Anchor(item: Item, position: Position)

  function LatestAgentMessage(s: seq<Item>): Option<Anchor> {
    match LastWith(s, AgentTurn)
    case None => None
    case Some(a) =>
      match LastWith(s, RealTurn)
      case None => Some(Anchor(s[a], Only))
      case Some(h) => Some(Anchor(s[a], if a < h then BeforeHuman else AfterHuman))
  }

  /** What an item leaves in the working tail; tool output is replaced by a placeholder. */
  function KeptItem(x: Item): seq<Item> {
    match x
    case User(_, AgentMessage) => [x]
    case Assistant(_, _) => [x]
    case ToolResult(id, _, _) => [ToolResult(id, OMITTED_RESULT, [])]
    case _ => []
  }

  function KeptTail(s: seq<Item>): seq<Item> {
    if s == [] then [] else KeptItem(s[0]) + KeptTail(s[1..])
  }

  function RecentMessages(s: seq<Item>): seq<Item> {
    match LastWith(s, AnyAnchor)
    case None => KeptTail(s)
    case Some(i) => KeptTail(s[if IsAgentMessage(s[i]) then i else i + 1..])
  }

  function LastRealQuery(s: seq<Item>): Option<string> {
    match LastWith(s, RealTurn)
    case None => None
    case Some(h) => Some(ExtractUserQuery(UserText(s[h].content)))
  }

  // ---------------------------------------------------------------- one compaction

  /** What the caller brings to one compaction. */
  datatype Inputs = Inputs(
    system: string, prefix: string, agentsReminder: Option<string>, cwdGeneration: nat,
    destinationInstructions: Option<string>, goal: Option<string>, summary: string, reminder: Option<string>)

  datatype Context = Context(
    cwdGeneration: nat, destinationInstructions: Option<string>, anchor: Option<Anchor>, recent: seq<Item>,
    lastQuery: Option<string>)

  predicate HasGoal(goal: Option<string>) {
    goal.Some? && Trim(goal.value) != ""
  }

  function BuildContext(s: seq<Item>, inputs: Inputs): Context {
    Context(
      inputs.cwdGeneration, inputs.destinationInstructions, LatestAgentMessage(s), RecentMessages(s),
      if HasGoal(inputs.goal) then inputs.goal else LastRealQuery(s))
  }

  /** The view that drops the working tail but keeps the agent message. */
  function ForCompaction(c: Context): Context {
    c.(recent := [], anchor := if c.anchor.Some? then c.anchor else LatestAgentMessage(c.recent))
  }

  function Meta(text: string): Item { User([Text(text)], CompactionMeta) }

  function WrappedTurn(q: string): Item { User([Text(WrapUserQuery(q))], Human) }

  function Opening(inputs: Inputs, cwdGeneration: nat, destinationInstructions: Option<string>): seq<Item> {
    var instructions := if cwdGeneration == 0 then inputs.agentsReminder else destinationInstructions;
    [System(inputs.system), Meta(inputs.prefix)] +
    match instructions
    case None => []
    case Some(text) => [User([Text(text)], ProjectInstructions)]
  }

  function Closing(inputs: Inputs): seq<Item> {
    [Meta(inputs.summary)] +
    match inputs.reminder
    case None => []
    case Some(text) => [User([Text(text)], SystemReminder)]
  }

  predicate HoldsAgentMessage(s: seq<Item>) {
    exists k | 0 <= k < |s| :: IsAgentMessage(s[k])
  }

  function AnchorToWrite(c: Context): Option<Anchor> {
    if HoldsAgentMessage(c.recent) then None else c.anchor
  }

  function AnchorIf(anchor: Option<Anchor>, before: bool): seq<Item> {
    if anchor.Some? && anchor.value.position.BeforeHuman? == before then [anchor.value.item] else []
  }

  function QueryTurn(q: Option<string>): seq<Item> {
    match q
    case None => []
    case Some(text) => [WrappedTurn(text)]
  }

  function BuildCompacted(inputs: Inputs, c: Context): seq<Item> {
    var anchor := AnchorToWrite(c);
    Opening(inputs, c.cwdGeneration, c.destinationInstructions) + AnchorIf(anchor, true) + QueryTurn(c.lastQuery) +
    AnchorIf(anchor, false) + c.recent + Closing(inputs)
  }

  /** One compaction, with or without the working tail. */
  datatype Round = Round(inputs: Inputs, keepTail: bool)

  function Compact(r: Round, s: seq<Item>): seq<Item> {
    var c := BuildContext(s, r.inputs);
    BuildCompacted(r.inputs, if r.keepTail then c else ForCompaction(c))
  }

  method BuildCompactedHistory(inputs: Inputs, c: Context) returns (compacted: seq<Item>)
    ensures compacted == BuildCompacted(inputs, c)
  {
    hide Bears, LastWith, KeptTail, HoldsAgentMessage, AnchorToWrite, WrapUserQuery, IsAgentMessage, Opening, Meta,
         WrappedTurn;
    compacted := WriteOpening(inputs, c);
    ghost var head := Opening(inputs, c.cwdGeneration, c.destinationInstructions);
    var anchor := AnchorToWrite(c);
    if anchor.Some? && anchor.value.position.BeforeHuman? {
      compacted := compacted + [anchor.value.item];
    }
    assert compacted == head + AnchorIf(anchor, true);
    if c.lastQuery.Some? {
      compacted := compacted + [WrappedTurn(c.lastQuery.value)];
    }
    head := head + AnchorIf(anchor, true) + QueryTurn(c.lastQuery);
    assert compacted == head;
    if anchor.Some? && !anchor.value.position.BeforeHuman? {
      compacted := compacted + [anchor.value.item];
    }
    head := head + AnchorIf(anchor, false);
    assert compacted == head;
    for k := 0 to |c.recent|
      invariant compacted == head + c.recent[..k]
    {
      compacted := compacted + [c.recent[k]];
    }
    assert c.recent[..|c.recent|] == c.recent;
    head := compacted;
    compacted := compacted + [Meta(inputs.summary)];
    if inputs.reminder.Some? {
      compacted := compacted + [User([Text(inputs.reminder.value)], SystemReminder)];
    }
    assert compacted == head + Closing(inputs);
  }

  method WriteOpening(inputs: Inputs, c: Context) returns (compacted: seq<Item>)
    ensures compacted == Opening(inputs, c.cwdGeneration, c.destinationInstructions)
  {
    compacted := [System(inputs.system), Meta(inputs.prefix)];
    var instructions := if c.cwdGeneration == 0 then inputs.agentsReminder else c.destinationInstructions;
    if instructions.Some? {
      compacted := compacted + [User([Text(instructions.value)], ProjectInstructions)];
    }
  }

  // ---------------------------------------------------------------- what a compaction depends on

  /** The anchors of a history: the agent message, whether a human turn follows it, the query, the tail behind both. */
  datatype Skeleton = Skeleton(agent: Option<Item>, before: bool, query: Option<string>, tail: seq<Item>)

  function AfterAnchors(s: seq<Item>): (i: nat)
    ensures i <= |s|
  {
    match LastWith(s, AnyAnchor)
    case None => 0
    case Some(k) => k + 1
  }

  function SkeletonOf(s: seq<Item>, goal: Option<string>): Skeleton {
    var a, h := LastWith(s, AgentTurn), LastWith(s, RealTurn);
    Skeleton(
      if a.Some? then Some(s[a.value]) else None,
      a.Some? && h.Some? && a.value < h.value,
      if HasGoal(goal) then goal else LastRealQuery(s),
      KeptTail(s[AfterAnchors(s)..]))
  }

  function AgentIf(sk: Skeleton, before: bool): seq<Item> {
    if sk.agent.Some? && sk.before == before then [sk.agent.value] else []
  }

  function OpeningOf(inputs: Inputs): seq<Item> {
    Opening(inputs, inputs.cwdGeneration, inputs.destinationInstructions)
  }

  function Written(inputs: Inputs, sk: Skeleton): seq<Item> {
    OpeningOf(inputs) + AgentIf(sk, true) + QueryTurn(sk.query) + AgentIf(sk, false) + sk.tail + Closing(inputs)
  }

  function Viewed(r: Round, sk: Skeleton): Skeleton {
    if r.keepTail then sk else sk.(tail := [])
  }

  lemma LastWithStep(s: seq<Item>, mark: Mark)
    ensures LastWith([], mark) == None
    ensures s != [] ==>
              LastWith(s, mark) == if Bears(s[|s| - 1], mark) then Some(|s| - 1) else LastWith(s[..|s| - 1], mark)
  {
  }

  ghost predicate NoneBears(s: seq<Item>, mark: Mark) {
    forall k | 0 <= k < |s| :: !Bears(s[k], mark)
  }

  lemma {:induction false} LastWithNone(s: seq<Item>, mark: Mark)
    ensures LastWith(s, mark) == None <==> NoneBears(s, mark)
  {
    hide Bears, LastWith;
    LastWithStep(s, mark);
    if s != [] {
      LastWithNone(s[..|s| - 1], mark);
      if NoneBears(s[..|s| - 1], mark) {
        assert forall k | 0 <= k < |s| - 1 :: s[k] == s[..|s| - 1][k];
      } else {
        var k :| 0 <= k < |s| - 1 && Bears(s[..|s| - 1][k], mark);
        assert Bears(s[k], mark);
      }
    }
  }

  lemma {:induction false} LastWithConcat(a: seq<Item>, b: seq<Item>, mark: Mark)
    ensures LastWith(a + b, mark) ==
            match LastWith(b, mark)
            case None => LastWith(a, mark)
            case Some(i) => Some(|a| + i)
  {
    hide Bears, LastWith;
    LastWithStep(b, mark);
    if b == [] {
      assert a + b == a;
    } else {
      LastWithStep(a + b, mark);
      assert (a + b)[..|a + b| - 1] == a + b[..|b| - 1];
      LastWithConcat(a, b[..|b| - 1], mark);
    }
  }

  lemma LastWithSingle(x: Item, mark: Mark)
    ensures LastWith([x], mark) == if Bears(x, mark) then Some(0) else None
  {
    hide Bears, LastWith;
    LastWithStep([x], mark);
    assert [x][..0] == [];
    LastWithStep([], mark);
  }

  /** The last anchor of any kind is the later one of the two. */
  lemma {:induction false} LastAnchorIsLater(s: seq<Item>)
    ensures var a, h, any := LastWith(s, AgentTurn), LastWith(s, RealTurn), LastWith(s, AnyAnchor);
            && (any.None? <==> a.None? && h.None?)
            && (any.Some? ==>
                  (IsAgentMessage(s[any.value]) <==> a == any) && (!IsAgentMessage(s[any.value]) <==> h == any))
            && (any.Some? && a.Some? ==> a.value <= any.value)
            && (any.Some? && h.Some? ==> h.value <= any.value)
  {
    hide LastWith, IsRealUserTurn;
    LastWithStep(s, AgentTurn);
    LastWithStep(s, RealTurn);
    LastWithStep(s, AnyAnchor);
    if s != [] {
      LastAnchorIsLater(s[..|s| - 1]);
      HumanIsNotAgent(s[|s| - 1]);
    }
  }

  lemma HumanIsNotAgent(x: Item)
    ensures !(IsRealUserTurn(x) && IsAgentMessage(x))
  {
  }

  lemma {:induction false} KeptConcat(a: seq<Item>, b: seq<Item>)
    ensures KeptTail(a + b) == KeptTail(a) + KeptTail(b)
  {
    if a == [] {
      assert a + b == b;
    } else {
      assert (a + b)[1..] == a[1..] + b;
      KeptConcat(a[1..], b);
    }
  }

  /** What the tail consists of: assistant turns and placeholders. */
  predicate IsTailItem(x: Item) {
    x.Assistant? || (x.ToolResult? && x.text == OMITTED_RESULT && x.images == [])
  }

  predicate IsTail(s: seq<Item>) {
    forall k | 0 <= k < |s| :: IsTailItem(s[k])
  }

  lemma {:induction false} TailIsKept(s: seq<Item>)
    requires IsTail(s)
    ensures KeptTail(s) == s
  {
    if s != [] {
      TailIsKept(s[1..]);
      assert s == [s[0]] + s[1..];
    }
  }

  lemma {:induction false} KeptIsTail(s: seq<Item>)
    requires NoneBears(s, AgentTurn)
    ensures IsTail(KeptTail(s))
  {
    hide IsRealUserTurn;
    if s != [] {
      assert NoneBears(s[1..], AgentTurn) by {
        assert forall k | 0 <= k < |s[1..]| :: s[1..][k] == s[k + 1];
      }
      KeptIsTail(s[1..]);
      assert !Bears(s[0], AgentTurn);
    }
  }

  lemma TailBearsNothing(s: seq<Item>, mark: Mark)
    requires IsTail(s)
    ensures NoneBears(s, mark)
  {
  }

  lemma NothingBehindLast(s: seq<Item>)
    ensures NoneBears(s[AfterAnchors(s)..], AnyAnchor) && NoneBears(s[AfterAnchors(s)..], AgentTurn)
  {
    hide Bears, LastWith;
    var i := AfterAnchors(s);
    assert s == s[..i] + s[i..];
    LastWithConcat(s[..i], s[i..], AnyAnchor);
    LastWithNone(s[i..], AnyAnchor);
    AnyCoversAgents(s[i..]);
  }

  lemma AnyCoversAgents(s: seq<Item>)
    ensures NoneBears(s, AnyAnchor) ==> NoneBears(s, AgentTurn)
  {
    hide IsRealUserTurn, IsAgentMessage;
    if NoneBears(s, AnyAnchor) {
      forall k | 0 <= k < |s| ensures !Bears(s[k], AgentTurn) {
        assert !Bears(s[k], AnyAnchor);
      }
    }
  }

  lemma RecentBehindAnchor(s: seq<Item>)
    ensures RecentMessages(s) ==
            (match LastWith(s, AnyAnchor)
             case None => []
             case Some(k) => if IsAgentMessage(s[k]) then [s[k]] else []) + KeptTail(s[AfterAnchors(s)..])
  {
    hide Bears, LastWith, KeptTail, IsAgentMessage;
    match LastWith(s, AnyAnchor)
    case None =>
      assert s[0..] == s;
    case Some(k) =>
      if IsAgentMessage(s[k]) {
        assert s[k..] == [s[k]] + s[k + 1..];
        KeptConcat([s[k]], s[k + 1..]);
        AgentIsKept(s[k]);
      }
  }

  /** The recent messages are the tail, led by the agent message when that is the last anchor. */
  lemma RecentIsTail(s: seq<Item>, goal: Option<string>)
    ensures var sk := SkeletonOf(s, goal);
            && IsTail(sk.tail)
            && RecentMessages(s) == AgentIf(sk, false) + sk.tail
  {
    hide Bears, LastWith, KeptTail, IsRealUserTurn, IsAgentMessage, IsTail, LastRealQuery, RecentMessages,
         AfterAnchors, HasGoal;
    NothingBehindLast(s);
    KeptIsTail(s[AfterAnchors(s)..]);
    LastAnchorIsLater(s);
    RecentBehindAnchor(s);
  }

  lemma AgentIsKept(x: Item)
    requires IsAgentMessage(x)
    ensures KeptTail([x]) == [x]
  {
  }

  lemma AgentHeldInFront(agent: seq<Item>, tail: seq<Item>)
    requires IsTail(tail)
    requires forall k | 0 <= k < |agent| :: IsAgentMessage(agent[k])
    ensures HoldsAgentMessage(agent + tail) <==> agent != []
  {
    if agent != [] {
      assert IsAgentMessage((agent + tail)[0]);
    } else {
      assert agent + tail == tail;
    }
  }

  /** What a compaction writes is fixed by its inputs and the skeleton of what it read. */
  lemma CompactIsWritten(r: Round, s: seq<Item>)
    ensures Compact(r, s) == Written(r.inputs, Viewed(r, SkeletonOf(s, r.inputs.goal)))
  {
    hide Bears, LastWith, KeptTail, IsRealUserTurn, IsTail, LastRealQuery, HoldsAgentMessage, RecentMessages, Closing,
         Meta, QueryTurn;
    if r.keepTail {
      WrittenWithTail(r.inputs, s);
    } else {
      WrittenWithoutTail(r.inputs, s);
    }
  }

  lemma AnchorOfSkeleton(s: seq<Item>, goal: Option<string>)
    ensures var sk := SkeletonOf(s, goal);
            match LatestAgentMessage(s)
            case None => sk.agent.None?
            case Some(anchor) =>
              IsAgentMessage(anchor.item) && sk.agent == Some(anchor.item) && sk.before == anchor.position.BeforeHuman?
  {
    hide LastWith, KeptTail, LastRealQuery, IsRealUserTurn;
  }

  lemma NothingRecent(c: Context)
    requires c.recent == []
    ensures !HoldsAgentMessage(c.recent)
  {
  }

  lemma WrittenWithTail(inputs: Inputs, s: seq<Item>)
    ensures BuildCompacted(inputs, BuildContext(s, inputs)) == Written(inputs, SkeletonOf(s, inputs.goal))
  {
    hide Bears, LastWith, KeptTail, IsRealUserTurn, IsTail, LastRealQuery, HoldsAgentMessage, RecentMessages, Closing,
         Meta, QueryTurn, AfterAnchors, LatestAgentMessage, IsAgentMessage, HasGoal;
    var c, sk := BuildContext(s, inputs), SkeletonOf(s, inputs.goal);
    RecentIsTail(s, inputs.goal);
    AnchorOfSkeleton(s, inputs.goal);
    AgentHeldInFront(AgentIf(sk, false), sk.tail);
    assert Opening(inputs, c.cwdGeneration, c.destinationInstructions) == OpeningOf(inputs);
    assert AnchorIf(AnchorToWrite(c), true) == AgentIf(sk, true);
    assert AnchorIf(AnchorToWrite(c), false) == [];
    var head := OpeningOf(inputs) + AgentIf(sk, true) + QueryTurn(sk.query);
    assert head + [] + (AgentIf(sk, false) + sk.tail) == head + AgentIf(sk, false) + sk.tail;
  }

  lemma WrittenWithoutTail(inputs: Inputs, s: seq<Item>)
    ensures BuildCompacted(inputs, ForCompaction(BuildContext(s, inputs))) ==
            Written(inputs, SkeletonOf(s, inputs.goal).(tail := []))
  {
    hide Bears, LastWith, KeptTail, IsRealUserTurn, IsTail, LastRealQuery, HoldsAgentMessage, RecentMessages, Closing,
         Meta, QueryTurn, AfterAnchors, LatestAgentMessage, IsAgentMessage, HasGoal;
    var c, sk := BuildContext(s, inputs), SkeletonOf(s, inputs.goal);
    RecentIsTail(s, inputs.goal);
    AnchorOfSkeleton(s, inputs.goal);
    if c.anchor.None? {
      assert c.recent == sk.tail;
      NoAgentInTail(sk.tail);
    }
    var v := ForCompaction(c);
    NothingRecent(v);
    assert v.anchor == c.anchor;
    assert Opening(inputs, v.cwdGeneration, v.destinationInstructions) == OpeningOf(inputs);
  }

  lemma NoAgentInTail(tail: seq<Item>)
    requires IsTail(tail)
    ensures LatestAgentMessage(tail) == None
  {
    hide Bears, LastWith;
    TailBearsNothing(tail, AgentTurn);
    LastWithNone(tail, AgentTurn);
  }

  // ---------------------------------------------------------------- reading the anchors back

  ghost predicate IsSkeleton(sk: Skeleton) {
    && (sk.agent.Some? ==> IsAgentMessage(sk.agent.value))
    && (sk.before ==> sk.agent.Some? && sk.query.Some?)
    && IsTail(sk.tail)
  }

  /** The wrapped query is still a human turn. */
  predicate IsRealQuery(q: string) {
    !IsSyntheticQuery(ExtractUserQuery(WrapUserQuery(q)))
  }

  /** The skeleton of what a compaction wrote. */
  function Next(sk: Skeleton, goal: Option<string>): Skeleton {
    var human := sk.query.Some? && IsRealQuery(sk.query.value);
    Skeleton(
      sk.agent, sk.before && human,
      if HasGoal(goal) then goal
      else if human then Some(ExtractUserQuery(WrapUserQuery(sk.query.value)))
      else None,
      sk.tail)
  }

  lemma WrappedTurnIs(q: string)
    ensures UserText(WrappedTurn(q).content) == WrapUserQuery(q)
    ensures IsRealUserTurn(WrappedTurn(q)) <==> IsRealQuery(q)
    ensures !IsAgentMessage(WrappedTurn(q))
    ensures KeptItem(WrappedTurn(q)) == []
  {
    hide IsSyntheticQuery, ExtractUserQuery, WrapUserQuery;
    var parts := WrappedTurn(q).content;
    assert parts[1..] == [];
    assert TextParts(parts) == [WrapUserQuery(q)];
  }

  predicate IsPlainPrelude(s: seq<Item>) {
    forall k | 0 <= k < |s| :: s[k].System? || s[k].User?
  }

  lemma OpeningBearsNothing(inputs: Inputs, mark: Mark)
    ensures NoneBears(OpeningOf(inputs), mark) && IsPlainPrelude(OpeningOf(inputs))
  {
    hide IsSyntheticQuery, ExtractUserQuery;
  }

  lemma ClosingBearsNothing(inputs: Inputs, mark: Mark)
    ensures NoneBears(Closing(inputs), mark) && IsPlainPrelude(Closing(inputs))
  {
    hide IsSyntheticQuery, ExtractUserQuery;
  }

  lemma {:induction false} PreludeIsNotKept(s: seq<Item>)
    requires IsPlainPrelude(s) && NoneBears(s, AgentTurn)
    ensures KeptTail(s) == []
  {
    hide IsRealUserTurn;
    if s != [] {
      assert NoneBears(s[1..], AgentTurn) by {
        assert forall k | 0 <= k < |s[1..]| :: s[1..][k] == s[k + 1];
      }
      assert !Bears(s[0], AgentTurn);
      PreludeIsNotKept(s[1..]);
    }
  }

  function Prelude(inputs: Inputs, sk: Skeleton): seq<Item> {
    OpeningOf(inputs) + AgentIf(sk, true) + QueryTurn(sk.query) + AgentIf(sk, false)
  }

  lemma PreludeIsPlain(inputs: Inputs, sk: Skeleton)
    requires IsSkeleton(sk)
    ensures IsPlainPrelude(Prelude(inputs, sk))
  {
    hide IsRealUserTurn, IsTail;
    OpeningBearsNothing(inputs, AgentTurn);
  }

  lemma FootBearsNothing(inputs: Inputs, sk: Skeleton, mark: Mark)
    requires IsSkeleton(sk)
    ensures LastWith(sk.tail + Closing(inputs), mark) == None
  {
    hide Bears, LastWith, Closing;
    TailBearsNothing(sk.tail, mark);
    ClosingBearsNothing(inputs, mark);
    LastWithNone(sk.tail, mark);
    LastWithNone(Closing(inputs), mark);
    LastWithConcat(sk.tail, Closing(inputs), mark);
  }

  lemma WrittenIs(inputs: Inputs, sk: Skeleton)
    ensures Written(inputs, sk) == Prelude(inputs, sk) + (sk.tail + Closing(inputs))
  {
    hide OpeningOf, Closing, AgentIf, QueryTurn;
  }

  /** Where the marks stand in what was written. */
  lemma MarksOfPrelude(inputs: Inputs, sk: Skeleton, mark: Mark)
    ensures var n, q := |OpeningOf(inputs)|, |QueryTurn(sk.query)|;
            LastWith(Prelude(inputs, sk), mark) ==
            if sk.agent.Some? && !sk.before && Bears(sk.agent.value, mark) then Some(n + q)
            else if sk.query.Some? && Bears(WrappedTurn(sk.query.value), mark) then Some(n + |AgentIf(sk, true)|)
            else if sk.agent.Some? && sk.before && Bears(sk.agent.value, mark) then Some(n)
            else None
  {
    hide Bears, LastWith, OpeningOf, WrappedTurn;
    var a, b, c, d := OpeningOf(inputs), AgentIf(sk, true), QueryTurn(sk.query), AgentIf(sk, false);
    LastWithConcat(a + b + c, d, mark);
    LastWithConcat(a + b, c, mark);
    LastWithConcat(a, b, mark);
    OpeningBearsNothing(inputs, mark);
    LastWithNone(a, mark);
    LastWithStep([], mark);
    if sk.agent.Some? {
      LastWithSingle(sk.agent.value, mark);
    }
    if sk.query.Some? {
      LastWithSingle(WrappedTurn(sk.query.value), mark);
    }
  }

  lemma MarksOfWritten(inputs: Inputs, sk: Skeleton, mark: Mark)
    requires IsSkeleton(sk)
    ensures LastWith(Written(inputs, sk), mark) == LastWith(Prelude(inputs, sk), mark)
  {
    hide *;
    WrittenIs(inputs, sk);
    LastWithConcat(Prelude(inputs, sk), sk.tail + Closing(inputs), mark);
    FootBearsNothing(inputs, sk, mark);
  }

  lemma MarkOf(x: Item)
    ensures Bears(x, RealTurn) <==> IsRealUserTurn(x)
    ensures Bears(x, AgentTurn) <==> IsAgentMessage(x)
  {
  }

  lemma AfterAnchorsOfWritten(inputs: Inputs, sk: Skeleton)
    requires IsSkeleton(sk)
    ensures AfterAnchors(Written(inputs, sk)) <= |Prelude(inputs, sk)|
  {
    hide Bears, Written, Prelude, LastWith;
    MarksOfWritten(inputs, sk, AnyAnchor);
    LastWithWithin(Prelude(inputs, sk), AnyAnchor);
  }

  lemma LastWithWithin(s: seq<Item>, mark: Mark)
    ensures match LastWith(s, mark) case None => true case Some(i) => i < |s|
  {
    hide Bears;
  }

  lemma TailOfWritten(inputs: Inputs, sk: Skeleton)
    requires IsSkeleton(sk)
    ensures KeptTail(Written(inputs, sk)[AfterAnchors(Written(inputs, sk))..]) == sk.tail
  {
    hide *;
    var s, p, foot := Written(inputs, sk), Prelude(inputs, sk), sk.tail + Closing(inputs);
    var i := AfterAnchors(s);
    WrittenIs(inputs, sk);
    AfterAnchorsOfWritten(inputs, sk);
    assert s[i..] == p[i..] + foot;
    PreludeIsPlain(inputs, sk);
    NothingBehindLast(s);
    PlainPart(p, i);
    NoneBearsPart(p[i..], foot, AgentTurn);
    PreludeIsNotKept(p[i..]);
    ClosingBearsNothing(inputs, AgentTurn);
    PreludeIsNotKept(Closing(inputs));
    SkeletonTail(sk);
    TailIsKept(sk.tail);
    KeptConcat(p[i..], foot);
    KeptConcat(sk.tail, Closing(inputs));
    assert [] + (sk.tail + []) == sk.tail;
  }

  lemma SkeletonTail(sk: Skeleton)
    requires IsSkeleton(sk)
    ensures IsTail(sk.tail)
  {
    hide IsTail;
  }

  lemma PlainPart(s: seq<Item>, i: nat)
    requires IsPlainPrelude(s) && i <= |s|
    ensures IsPlainPrelude(s[i..])
  {
  }

  lemma NoneBearsPart(a: seq<Item>, b: seq<Item>, mark: Mark)
    requires NoneBears(a + b, mark)
    ensures NoneBears(a, mark)
  {
    hide Bears;
    assert forall k | 0 <= k < |a| :: a[k] == (a + b)[k];
  }

  lemma AgentOfPrelude(inputs: Inputs, sk: Skeleton)
    requires sk.agent.Some?
    ensures var i := |OpeningOf(inputs)| + if sk.before then 0 else |QueryTurn(sk.query)|;
            i < |Written(inputs, sk)| && Written(inputs, sk)[i] == sk.agent.value
  {
    hide OpeningOf, Closing, QueryTurn;
  }

  lemma QueryOfPrelude(inputs: Inputs, sk: Skeleton)
    requires sk.query.Some?
    ensures var i := |OpeningOf(inputs)| + |AgentIf(sk, true)|;
            i < |Written(inputs, sk)| && Written(inputs, sk)[i] == WrappedTurn(sk.query.value)
  {
    hide OpeningOf, Closing, WrappedTurn;
  }

  /** The next compaction finds the anchors where this one put them. */
  lemma AnchorsReadBack(inputs: Inputs, sk: Skeleton, goal: Option<string>)
    requires IsSkeleton(sk)
    ensures SkeletonOf(Written(inputs, sk), goal) == Next(sk, goal)
  {
    hide Bears, LastWith, Written, Prelude, OpeningOf, KeptTail, IsRealUserTurn, IsAgentMessage, IsTail, HasGoal,
         WrappedTurn, ExtractUserQuery, WrapUserQuery, IsRealQuery, UserText, AfterAnchors;
    MarksOfWritten(inputs, sk, AgentTurn);
    MarksOfWritten(inputs, sk, RealTurn);
    MarksOfPrelude(inputs, sk, AgentTurn);
    MarksOfPrelude(inputs, sk, RealTurn);
    TailOfWritten(inputs, sk);
    if sk.agent.Some? {
      AgentOfPrelude(inputs, sk);
      MarkOf(sk.agent.value);
      HumanIsNotAgent(sk.agent.value);
    }
    if sk.query.Some? {
      QueryOfPrelude(inputs, sk);
      MarkOf(WrappedTurn(sk.query.value));
      WrappedTurnIs(sk.query.value);
    }
  }

  // ---------------------------------------------------------------- any number of compactions

  lemma AlwaysSkeleton(s: seq<Item>, goal: Option<string>)
    ensures IsSkeleton(SkeletonOf(s, goal))
  {
    hide Bears, LastWith, KeptTail, IsRealUserTurn, IsTail, ExtractUserQuery, UserText, AfterAnchors;
    RecentIsTail(s, goal);
    AnchorOfSkeleton(s, goal);
  }

  lemma NextIsSkeleton(sk: Skeleton, goal: Option<string>)
    requires IsSkeleton(sk)
    ensures IsSkeleton(Next(sk, goal))
  {
    hide IsTail, IsRealQuery, ExtractUserQuery, WrapUserQuery, IsAgentMessage;
  }

  lemma ViewedIsSkeleton(r: Round, sk: Skeleton)
    requires IsSkeleton(sk)
    ensures IsSkeleton(Viewed(r, sk))
  {
    hide IsTailItem, IsAgentMessage;
  }

  /** One compaction moves the skeleton on by one step. */
  lemma SkeletonOfCompact(r: Round, s: seq<Item>, goal: Option<string>)
    ensures SkeletonOf(Compact(r, s), goal) == Next(Viewed(r, SkeletonOf(s, r.inputs.goal)), goal)
  {
    hide *;
    var sk := SkeletonOf(s, r.inputs.goal);
    CompactIsWritten(r, s);
    AlwaysSkeleton(s, r.inputs.goal);
    ViewedIsSkeleton(r, sk);
    AnchorsReadBack(r.inputs, Viewed(r, sk), goal);
  }

  /** The query can be read back from its wrapped form, and is not taken for a runtime prompt. */
  ghost predicate IsStableQuery(q: string) {
    IsPlainQuery(q) && !IsSyntheticQuery(q)
  }

  /**
   A history whose anchors the next compaction keeps. An objective set by the caller is written again in any case;
   it only has to be seen as a human turn where the agent message must stay in front of it.
   */
  ghost predicate IsSettled(sk: Skeleton, goal: Option<string>) {
    match sk.query
    case None => true
    case Some(q) => if HasGoal(goal) then sk.before ==> IsRealQuery(q) else IsStableQuery(q)
  }

  lemma StableExactly(q: string)
    ensures IsStableQuery(q) <==> IsRealQuery(q) && ExtractUserQuery(WrapUserQuery(q)) == q
  {
    hide IsPlainQuery, ExtractUserQuery, WrapUserQuery, IsSyntheticQuery;
    WrapRoundTrip(q);
  }

  lemma WrapIsInjective(p: string, q: string)
    requires WrappedTurn(p) == WrappedTurn(q)
    ensures p == q
  {
    var a, b := WrapUserQuery(p), WrapUserQuery(q);
    assert [Text(a)][0] == WrappedTurn(p).content[0] == WrappedTurn(q).content[0] == Text(b);
    assert p == a[|WRAP_HEAD|..|a| - |WRAP_FOOT|] && q == b[|WRAP_HEAD|..|b| - |WRAP_FOOT|];
  }

  lemma WrittenDetermines(inputs: Inputs, v: Skeleton, w: Skeleton)
    requires IsSkeleton(v) && IsSkeleton(w) && v.agent == w.agent && v.tail == w.tail
    requires Written(inputs, v) == Written(inputs, w)
    ensures v == w
  {
    hide IsTail, OpeningOf, Closing, WrappedTurn, IsAgentMessage;
    assert |QueryTurn(v.query)| == |QueryTurn(w.query)|;
    if v.agent.Some? {
      AgentOfPrelude(inputs, v);
      AgentOfPrelude(inputs, w);
    }
    if v.query.Some? {
      QueryOfPrelude(inputs, v);
      QueryOfPrelude(inputs, w);
      WrappedTurnIs(v.query.value);
      WrappedTurnIs(w.query.value);
      assert v.before == w.before;
      WrapIsInjective(v.query.value, w.query.value);
    }
  }

  lemma NextIsSameExactly(sk: Skeleton, goal: Option<string>)
    requires IsSkeleton(sk) && (HasGoal(goal) ==> sk.query == goal)
    ensures Next(sk, goal) == sk <==> IsSettled(sk, goal)
  {
    hide IsTail, IsStableQuery, IsRealQuery, ExtractUserQuery, WrapUserQuery, HasGoal;
    if sk.query.Some? {
      StableExactly(sk.query.value);
    }
  }

  lemma ViewedFacts(r: Round, sk: Skeleton, goal: Option<string>)
    ensures Viewed(r, sk).query == sk.query && Viewed(r, sk).before == sk.before && Viewed(r, sk).agent == sk.agent
    ensures Viewed(r, Next(Viewed(r, sk), goal)) == Next(Viewed(r, sk), goal)
    ensures Next(Viewed(r, sk), goal).tail == Viewed(r, sk).tail && Next(Viewed(r, sk), goal).agent == sk.agent
    ensures IsSettled(Viewed(r, sk), goal) <==> IsSettled(sk, goal)
  {
    hide IsStableQuery, IsRealQuery, ExtractUserQuery, WrapUserQuery, HasGoal;
  }

  lemma QueryIsGoal(s: seq<Item>, goal: Option<string>)
    ensures HasGoal(goal) ==> SkeletonOf(s, goal).query == goal
  {
    hide *;
    SkeletonQuery(s, goal);
  }

  lemma SkeletonQuery(s: seq<Item>, goal: Option<string>)
    ensures SkeletonOf(s, goal).query == if HasGoal(goal) then goal else LastRealQuery(s)
  {
    hide LastWith, KeptTail, LastRealQuery, HasGoal;
  }

  /** Compacting a compacted history with the same inputs changes nothing, exactly when its anchors can be read back. */
  lemma CompactionIsIdempotentExactly(r: Round, s: seq<Item>)
    ensures Compact(r, Compact(r, s)) == Compact(r, s) <==> IsSettled(SkeletonOf(s, r.inputs.goal), r.inputs.goal)
  {
    hide *;
    var goal := r.inputs.goal;
    var sk := SkeletonOf(s, goal);
    var v := Viewed(r, sk);
    CompactIsWritten(r, s);
    CompactIsWritten(r, Compact(r, s));
    SkeletonOfCompact(r, s, goal);
    AlwaysSkeleton(s, goal);
    ViewedIsSkeleton(r, sk);
    NextIsSkeleton(v, goal);
    ViewedFacts(r, sk, goal);
    QueryIsGoal(s, goal);
    NextIsSameExactly(v, goal);
    if Written(r.inputs, Next(v, goal)) == Written(r.inputs, v) {
      WrittenDetermines(r.inputs, Next(v, goal), v);
    }
  }

  function CompactAll(rounds: seq<Round>, s: seq<Item>): seq<Item>
    decreases |rounds|
  {
    if rounds == [] then s else CompactAll(rounds[1..], Compact(rounds[0], s))
  }

  predicate NoGoals(rounds: seq<Round>) {
    forall k | 0 <= k < |rounds| :: !HasGoal(rounds[k].inputs.goal)
  }

  predicate AllKeepTail(rounds: seq<Round>) {
    forall k | 0 <= k < |rounds| :: rounds[k].keepTail
  }

  /** A blank objective is none. */
  lemma BlankGoal(s: seq<Item>, goal: Option<string>)
    requires !HasGoal(goal)
    ensures SkeletonOf(s, goal) == SkeletonOf(s, None)
    ensures Next(SkeletonOf(s, None), goal) == Next(SkeletonOf(s, None), None)
  {
    hide LastWith, KeptTail, LastRealQuery, IsRealQuery, ExtractUserQuery, WrapUserQuery, Trim;
  }

  lemma NoGoalsLeft(rounds: seq<Round>)
    requires rounds != []
    ensures NoGoals(rounds) ==> NoGoals(rounds[1..]) && !HasGoal(rounds[0].inputs.goal)
    ensures AllKeepTail(rounds) <==> rounds[0].keepTail && AllKeepTail(rounds[1..])
  {
    hide HasGoal;
    if rounds[0].keepTail && AllKeepTail(rounds[1..]) {
      forall k | 0 <= k < |rounds| ensures rounds[k].keepTail {
        assert k > 0 ==> rounds[k] == rounds[1..][k - 1];
      }
    }
  }

  lemma NoGoalNone()
    ensures !HasGoal(None)
  {
  }

  /**
   After any compactions with any inputs, the agent message, its side and a stable query are the first history's own.
   */
  lemma {:induction false} AnchorsSurvive(rounds: seq<Round>, s: seq<Item>)
    requires NoGoals(rounds) && IsSettled(SkeletonOf(s, None), None)
    ensures SkeletonOf(CompactAll(rounds, s), None) ==
            if AllKeepTail(rounds) then SkeletonOf(s, None) else SkeletonOf(s, None).(tail := [])
    decreases |rounds|
  {
    hide HasGoal, SkeletonOf, Compact, NoGoals, AllKeepTail, IsSettled, Next;
    if rounds == [] {
      NothingKept();
    } else {
      var r := rounds[0];
      var sk := SkeletonOf(s, None);
      NoGoalNone();
      NoGoalsLeft(rounds);
      BlankGoal(s, r.inputs.goal);
      SkeletonOfCompact(r, s, None);
      AlwaysSkeleton(s, None);
      ViewedIsSkeleton(r, sk);
      ViewedFacts(r, sk, None);
      NextIsSameExactly(Viewed(r, sk), None);
      AnchorsSurvive(rounds[1..], Compact(r, s));
    }
  }

  lemma NothingKept()
    ensures AllKeepTail([])
  {
  }

  /** How many compactions can still change the query. */
  function QueryRank(sk: Skeleton): nat {
    match sk.query
    case None => 0
    case Some(q) => |q| + 1
  }

  lemma UnsettledShrinks(sk: Skeleton)
    ensures IsSettled(sk, None) ==> QueryRank(Next(sk, None)) == QueryRank(sk) && IsSettled(Next(sk, None), None)
    ensures !IsSettled(sk, None) ==> QueryRank(Next(sk, None)) < QueryRank(sk)
  {
    hide IsStableQuery, IsRealQuery, IsPlainQuery, ExtractUserQuery, WrapUserQuery, Trim;
    if sk.query.Some? {
      StableExactly(sk.query.value);
      WrapRoundTrip(sk.query.value);
    }
  }

  lemma RankViewed(r: Round, sk: Skeleton)
    ensures QueryRank(Viewed(r, sk)) == QueryRank(sk)
  {
  }

  /** A query that cannot be read back gets shorter with each compaction or is dropped; the history settles. */
  lemma {:induction false} CompactionSettles(rounds: seq<Round>, s: seq<Item>)
    requires NoGoals(rounds) && |rounds| >= QueryRank(SkeletonOf(s, None))
    ensures IsSettled(SkeletonOf(CompactAll(rounds, s), None), None)
    decreases |rounds|
  {
    hide HasGoal, SkeletonOf, Compact, NoGoals, Next, Viewed, IsStableQuery;
    var sk := SkeletonOf(s, None);
    if IsSettled(sk, None) {
      hide IsSettled;
      AnchorsSurvive(rounds, s);
      SettledWithoutTail(sk);
    } else {
      var r := rounds[0];
      NoGoalsLeft(rounds);
      BlankGoal(s, r.inputs.goal);
      SkeletonOfCompact(r, s, None);
      UnsettledShrinks(Viewed(r, sk));
      RankViewed(r, sk);
      ViewedFacts(r, sk, None);
      CompactionSettles(rounds[1..], Compact(r, s));
    }
  }

  lemma SettledWithoutTail(sk: Skeleton)
    ensures IsSettled(sk.(tail := []), None) <==> IsSettled(sk, None)
  {
    hide IsStableQuery, IsRealQuery, HasGoal;
  }

  // ---------------------------------------------------------------- the agent message

  function Latest(agent: Option<Item>): seq<Item> {
    if agent.Some? then [agent.value] else []
  }

  function AgentMessages(s: seq<Item>): seq<Item> {
    if s == [] then [] else (if IsAgentMessage(s[0]) then [s[0]] else []) + AgentMessages(s[1..])
  }

  lemma {:induction false} AgentMessagesConcat(a: seq<Item>, b: seq<Item>)
    ensures AgentMessages(a + b) == AgentMessages(a) + AgentMessages(b)
  {
    hide IsAgentMessage;
    if a == [] {
      assert a + b == b;
    } else {
      assert (a + b)[1..] == a[1..] + b;
      AgentMessagesConcat(a[1..], b);
      var first := if IsAgentMessage(a[0]) then [a[0]] else [];
      assert first + (AgentMessages(a[1..]) + AgentMessages(b)) == (first + AgentMessages(a[1..])) + AgentMessages(b);
    }
  }

  lemma {:induction false} NoAgentMessages(s: seq<Item>)
    requires NoneBears(s, AgentTurn)
    ensures AgentMessages(s) == []
  {
    hide IsRealUserTurn;
    if s != [] {
      assert forall k | 0 <= k < |s[1..]| :: s[1..][k] == s[k + 1];
      assert !Bears(s[0], AgentTurn);
      NoAgentMessages(s[1..]);
    }
  }

  lemma AgentMessagesOfWritten(inputs: Inputs, sk: Skeleton)
    requires IsSkeleton(sk)
    ensures AgentMessages(Written(inputs, sk)) == Latest(sk.agent)
  {
    hide AgentMessages, OpeningOf, Closing, Bears, IsTail, IsRealUserTurn, QueryTurn, AgentIf, NoneBears,
         IsAgentMessage;
    var a, b, c, d := OpeningOf(inputs), AgentIf(sk, true), QueryTurn(sk.query), AgentIf(sk, false);
    AgentMessagesConcat(a + b + c + d + sk.tail, Closing(inputs));
    AgentMessagesConcat(a + b + c + d, sk.tail);
    AgentMessagesConcat(a + b + c, d);
    AgentMessagesConcat(a + b, c);
    AgentMessagesConcat(a, b);
    OpeningBearsNothing(inputs, AgentTurn);
    ClosingBearsNothing(inputs, AgentTurn);
    TailBearsNothing(sk.tail, AgentTurn);
    NoAgentMessages(a);
    NoAgentMessages(Closing(inputs));
    NoAgentMessages(sk.tail);
    QueryIsNoAgentMessage(sk.query);
    AgentIfMessages(sk);
  }

  lemma QueryIsNoAgentMessage(q: Option<string>)
    ensures AgentMessages(QueryTurn(q)) == []
  {
    hide WrappedTurn;
    if q.Some? {
      WrappedTurnIs(q.value);
      OneMessage(WrappedTurn(q.value));
    }
  }

  lemma AgentIfMessages(sk: Skeleton)
    requires sk.agent.Some? ==> IsAgentMessage(sk.agent.value)
    ensures AgentMessages(AgentIf(sk, true)) + AgentMessages(AgentIf(sk, false)) ==
            Latest(sk.agent)
  {
    hide IsAgentMessage;
    if sk.agent.Some? {
      OneMessage(sk.agent.value);
    }
  }

  lemma OneMessage(x: Item)
    ensures AgentMessages([x]) == if IsAgentMessage(x) then [x] else []
  {
    assert [x][1..] == [];
  }

  /**
   Whatever the inputs and objectives, any number of compactions carries exactly one agent message: the latest,
   unchanged.
   */
  lemma {:induction false} LatestAgentMessageIsCarriedOnce(rounds: seq<Round>, s: seq<Item>)
    requires rounds != []
    ensures AgentMessages(CompactAll(rounds, s)) ==
            if LatestAgentMessage(s).None? then [] else [LatestAgentMessage(s).value.item]
    decreases |rounds|
  {
    hide SkeletonOf, Compact, Next, Viewed, AgentMessages, LatestAgentMessage, Written, IsSkeleton;
    var r := rounds[0];
    var sk := SkeletonOf(s, r.inputs.goal);
    AnchorOfSkeleton(s, r.inputs.goal);
    if |rounds| == 1 {
      CompactIsWritten(r, s);
      AlwaysSkeleton(s, r.inputs.goal);
      ViewedIsSkeleton(r, sk);
      ViewedFacts(r, sk, None);
      AgentMessagesOfWritten(r.inputs, Viewed(r, sk));
    } else {
      var goal := rounds[1].inputs.goal;
      SkeletonOfCompact(r, s, goal);
      ViewedFacts(r, sk, goal);
      AnchorOfSkeleton(Compact(r, s), goal);
      LatestAgentMessageIsCarriedOnce(rounds[1..], Compact(r, s));
    }
  }

  // ---------------------------------------------------------------- what stands where

  /**
   A compaction begins with the system text and the prefix, and the instructions of its directory generation behind them
   if there are any; it ends with the summary, and the reminder behind that if there is one.
   */
  lemma CompactionWritesItsSummary(r: Round, s: seq<Item>)
    ensures var (out, given) := (Compact(r, s), r.inputs);
            && |out| >= 3
            && out[0] == System(given.system) && out[1] == User([Text(given.prefix)], CompactionMeta)
            && (match if given.cwdGeneration == 0 then given.agentsReminder else given.destinationInstructions
                case Some(text) => out[2] == User([Text(text)], ProjectInstructions)
                case None => !(out[2].User? && out[2].reason.ProjectInstructions?))
            && (match given.reminder
                case Some(text) =>
                  && |out| >= 4 && out[|out| - 1] == User([Text(text)], SystemReminder)
                  && out[|out| - 2] == User([Text(given.summary)], CompactionMeta)
                case None => out[|out| - 1] == User([Text(given.summary)], CompactionMeta))
  {
    hide *;
    var sk := SkeletonOf(s, r.inputs.goal);
    CompactIsWritten(r, s);
    AlwaysSkeleton(s, r.inputs.goal);
    ViewedIsSkeleton(r, sk);
    WrittenBegins(r.inputs, Viewed(r, sk));
    WrittenEnds(r.inputs, Viewed(r, sk));
  }

  lemma WrittenBegins(given: Inputs, sk: Skeleton)
    requires IsSkeleton(sk)
    ensures var out := Written(given, sk);
            && |out| >= 3
            && out[0] == System(given.system) && out[1] == User([Text(given.prefix)], CompactionMeta)
            && (match if given.cwdGeneration == 0 then given.agentsReminder else given.destinationInstructions
                case Some(text) => out[2] == User([Text(text)], ProjectInstructions)
                case None => !(out[2].User? && out[2].reason.ProjectInstructions?))
  {
    hide WrapUserQuery, IsRealUserTurn, Closing, AgentIf, QueryTurn, IsTail;
    var head := OpeningOf(given);
    var more := AgentIf(sk, true) + QueryTurn(sk.query) + AgentIf(sk, false) + sk.tail + Closing(given);
    assert Written(given, sk) == head + more;
    FurtherItems(given, sk);
    assert |head| == 2 ==> (head + more)[2] == more[0];
  }

  lemma FurtherItems(given: Inputs, sk: Skeleton)
    requires IsSkeleton(sk)
    ensures var more := AgentIf(sk, true) + QueryTurn(sk.query) + AgentIf(sk, false) + sk.tail + Closing(given);
            more != [] && !(more[0].User? && more[0].reason.ProjectInstructions?)
  {
    hide WrapUserQuery, IsRealUserTurn;
    var middle := AgentIf(sk, true) + QueryTurn(sk.query) + AgentIf(sk, false);
    if middle == [] && sk.tail != [] {
      assert IsTailItem(sk.tail[0]);
    }
  }

  lemma WrittenEnds(given: Inputs, sk: Skeleton)
    ensures var out := Written(given, sk);
            match given.reminder
            case Some(text) =>
              && |out| >= 4 && out[|out| - 1] == User([Text(text)], SystemReminder)
              && out[|out| - 2] == User([Text(given.summary)], CompactionMeta)
            case None => |out| >= 3 && out[|out| - 1] == User([Text(given.summary)], CompactionMeta)
  {
    hide AgentIf, QueryTurn, IsTail;
    var (out, foot) := (Written(given, sk), Closing(given));
    assert out[|out| - |foot|..] == foot;
  }

  /** The turns of humans. */
  function HumanTurns(s: seq<Item>): seq<Item> {
    if s == [] then [] else (if s[0].User? && s[0].reason.Human? then [s[0]] else []) + HumanTurns(s[1..])
  }

  lemma {:induction false} HumanTurnsConcat(a: seq<Item>, b: seq<Item>)
    ensures HumanTurns(a + b) == HumanTurns(a) + HumanTurns(b)
  {
    if a == [] {
      assert a + b == b;
    } else {
      assert (a + b)[1..] == a[1..] + b;
      HumanTurnsConcat(a[1..], b);
    }
  }

  lemma {:induction false} NoHumanTurns(s: seq<Item>)
    requires forall k | 0 <= k < |s| :: !(s[k].User? && s[k].reason.Human?)
    ensures HumanTurns(s) == []
  {
    if s != [] {
      NoHumanTurns(s[1..]);
    }
  }

  lemma OneHumanTurn(x: Item)
    ensures HumanTurns([x]) == if x.User? && x.reason.Human? then [x] else []
  {
    assert [x][1..] == [];
  }

  lemma HumanTurnsOfWritten(given: Inputs, sk: Skeleton)
    requires IsSkeleton(sk)
    ensures HumanTurns(Written(given, sk)) ==
            match sk.query
            case None => []
            case Some(q) => [User([Text(WrapUserQuery(q))], Human)]
  {
    hide HumanTurns, WrapUserQuery, IsRealUserTurn;
    var (a, b, c, d) := (OpeningOf(given), AgentIf(sk, true), QueryTurn(sk.query), AgentIf(sk, false));
    HumanTurnsConcat(a + b + c + d + sk.tail, Closing(given));
    HumanTurnsConcat(a + b + c + d, sk.tail);
    HumanTurnsConcat(a + b + c, d);
    HumanTurnsConcat(a + b, c);
    HumanTurnsConcat(a, b);
    NoHumanTurns(a);
    NoHumanTurns(b);
    NoHumanTurns(d);
    assert forall k | 0 <= k < |sk.tail| :: IsTailItem(sk.tail[k]);
    NoHumanTurns(sk.tail);
    NoHumanTurns(Closing(given));
    if sk.query.None? {
      NoHumanTurns([]);
    } else {
      OneHumanTurn(WrappedTurn(sk.query.value));
    }
  }

  lemma {:induction false} LastWithIs(s: seq<Item>, mark: Mark, h: nat)
    requires h < |s| && Bears(s[h], mark) && forall k | h < k < |s| :: !Bears(s[k], mark)
    ensures LastWith(s, mark) == Some(h)
    decreases |s|
  {
    hide Bears;
    if h < |s| - 1 {
      LastWithIs(s[..|s| - 1], mark, h);
    }
  }

  /** Exactly one human turn comes out: the objective, or else what the last real human turn asked for. */
  lemma CompactionCarriesTheTask(r: Round, s: seq<Item>, h: nat)
    requires h < |s| && IsRealUserTurn(s[h]) && forall k | h < k < |s| :: !IsRealUserTurn(s[k])
    ensures var goal := r.inputs.goal;
            var q :=
              if goal.Some? && Trim(goal.value) != "" then goal.value else ExtractUserQuery(UserText(s[h].content));
            HumanTurns(Compact(r, s)) == [User([Text(WrapUserQuery(q))], Human)]
  {
    hide LastWith, HumanTurns, Compact, Written, SkeletonOf, Viewed, IsSkeleton, Trim, ExtractUserQuery, WrapUserQuery,
         IsRealUserTurn, UserText;
    var sk := SkeletonOf(s, r.inputs.goal);
    LastWithIs(s, RealTurn, h);
    CompactIsWritten(r, s);
    AlwaysSkeleton(s, r.inputs.goal);
    ViewedIsSkeleton(r, sk);
    ViewedFacts(r, sk, None);
    SkeletonQuery(s, r.inputs.goal);
    ViewedQuery(r, sk);
    HumanTurnsOfWritten(r.inputs, Viewed(r, sk));
  }

  lemma ViewedQuery(r: Round, sk: Skeleton)
    ensures Viewed(r, sk).query == sk.query && Viewed(r, sk).tail == if r.keepTail then sk.tail else []
  {
  }

  predicate HasText(parts: seq<ContentPart>) {
    exists k | 0 <= k < |parts| :: parts[k].Text?
  }

  /** A content reads as its texts, one below the other, in order and all of them. */
  lemma {:induction false} TextsAreJoined(a: seq<ContentPart>, b: seq<ContentPart>)
    ensures UserText(a + b) ==
            if HasText(a) && HasText(b) then UserText(a) + "\n" + UserText(b)
            else if HasText(a) then UserText(a) else UserText(b)
    ensures forall t :: UserText([Text(t)]) == t && UserText([Image(t)]) == ""
  {
    TextPartsConcat(a, b);
    TextPartsEmpty(a);
    TextPartsEmpty(b);
    LinesConcat(TextParts(a), TextParts(b));
    assert TextParts(a) + [] == TextParts(a) && [] + TextParts(b) == TextParts(b);
    forall t ensures UserText([Text(t)]) == t && UserText([Image(t)]) == "" {
      OnePartReads(t);
    }
  }

  lemma OnePartReads(t: string)
    ensures UserText([Text(t)]) == t && UserText([Image(t)]) == ""
  {
    var (text, image) := ([Text(t)], [Image(t)]);
    assert text[1..] == [] && image[1..] == [];
    assert TextParts(text) == [t] + [] == [t] && TextParts(image) == [] + [] == [];
  }

  lemma {:induction false} TextPartsConcat(a: seq<ContentPart>, b: seq<ContentPart>)
    ensures TextParts(a + b) == TextParts(a) + TextParts(b)
  {
    if a == [] {
      assert a + b == b;
    } else {
      assert (a + b)[1..] == a[1..] + b;
      TextPartsConcat(a[1..], b);
    }
  }

  lemma {:induction false} TextPartsEmpty(parts: seq<ContentPart>)
    ensures TextParts(parts) == [] <==> !HasText(parts)
  {
    if parts != [] {
      TextPartsEmpty(parts[1..]);
      assert parts == [parts[0]] + parts[1..];
    }
  }

  lemma {:induction false} LinesConcat(a: seq<string>, b: seq<string>)
    ensures a != [] && b != [] ==> JoinLines(a + b) == JoinLines(a) + "\n" + JoinLines(b)
  {
    if a != [] && b != [] {
      assert (a + b)[1..] == a[1..] + b;
      if |a| == 1 {
        assert a[1..] == [];
        assert [] + b == b;
      } else {
        LinesConcat(a[1..], b);
      }
    }
  }

  /** A human turn with a plain query is real unless the query is one that the runtime itself sends, or nothing. */
  lemma PlainQueryIsReal(q: string)
    requires ExtractUserQuery(WrapUserQuery(q)) == q
    ensures IsRealUserTurn(User([Text(WrapUserQuery(q))], Human)) <==>
              q != "" && q != AUTO_CONTINUE_SENTINEL && q != AUTO_CONTINUE_PROMPT
  {
    hide ExtractUserQuery, WrapUserQuery;
    WrappedTurnIs(q);
  }

  /** What is left of working items: assistant turns as they are, and results without their output. */
  function WorkOf(s: seq<Item>): seq<Item> {
    if s == [] then []
    else
      (if s[0].Assistant? then [s[0]]
       else if s[0].ToolResult? then [ToolResult(s[0].callId, OMITTED_RESULT, [])]
       else []) + WorkOf(s[1..])
  }

  lemma {:induction false} KeptIsWork(s: seq<Item>)
    requires NoneBears(s, AgentTurn)
    ensures KeptTail(s) == WorkOf(s)
  {
    hide IsRealUserTurn;
    if s != [] {
      assert forall k | 0 <= k < |s[1..]| :: s[1..][k] == s[k + 1];
      assert !Bears(s[0], AgentTurn);
      KeptIsWork(s[1..]);
    }
  }

  /**
   Where the tail is kept, all work behind the last human turn and the last agent message stands right in front of the
   closing items, in order; where it is not, nothing of it is left.
   */
  lemma CompactionCarriesTheWork(r: Round, s: seq<Item>, i: nat)
    requires i <= |s| && (i > 0 ==> IsRealUserTurn(s[i - 1]) || IsAgentMessage(s[i - 1]))
    requires forall k | i <= k < |s| :: !IsRealUserTurn(s[k]) && !IsAgentMessage(s[k])
    ensures var (out, work) := (Compact(r, s), WorkOf(s[i..]));
            var end := |out| - if r.inputs.reminder.Some? then 2 else 1;
            if r.keepTail then 0 <= end - |work| && out[end - |work|..end] == work
            else forall k | 0 <= k < |out| :: !out[k].Assistant? && !out[k].ToolResult?
  {
    hide *;
    var sk := SkeletonOf(s, r.inputs.goal);
    LastAnchorIs(s, i);
    TailIsWork(s, r.inputs.goal, i);
    CompactIsWritten(r, s);
    AlwaysSkeleton(s, r.inputs.goal);
    ViewedIsSkeleton(r, sk);
    ViewedQuery(r, sk);
    WorkOfWritten(r.inputs, Viewed(r, sk));
  }

  lemma LastAnchorIs(s: seq<Item>, i: nat)
    requires i <= |s| && (i > 0 ==> IsRealUserTurn(s[i - 1]) || IsAgentMessage(s[i - 1]))
    requires forall k | i <= k < |s| :: !IsRealUserTurn(s[k]) && !IsAgentMessage(s[k])
    ensures AfterAnchors(s) == i
  {
    hide LastWith, IsRealUserTurn, IsAgentMessage;
    if i > 0 {
      LastWithIs(s, AnyAnchor, i - 1);
    } else {
      LastWithNone(s, AnyAnchor);
    }
  }

  lemma TailIsWork(s: seq<Item>, goal: Option<string>, i: nat)
    requires AfterAnchors(s) == i
    ensures SkeletonOf(s, goal).tail == WorkOf(s[i..])
  {
    hide LastWith, KeptTail, WorkOf, Bears, NoneBears, LastRealQuery, HasGoal, AfterAnchors;
    NothingBehindLast(s);
    KeptIsWork(s[i..]);
  }

  lemma WorkOfWritten(given: Inputs, sk: Skeleton)
    requires IsSkeleton(sk)
    ensures var (out, foot) := (Written(given, sk), if given.reminder.Some? then 2 else 1);
            && |out| >= |sk.tail| + foot && out[|out| - foot - |sk.tail|..|out| - foot] == sk.tail
            && (sk.tail == [] ==> forall k | 0 <= k < |out| :: !out[k].Assistant? && !out[k].ToolResult?)
  {
    hide OpeningOf, Closing, AgentIf, QueryTurn, IsTail, IsRealUserTurn;
    WrittenIs(given, sk);
    PreludeIsPlain(given, sk);
    ClosingBearsNothing(given, AgentTurn);
    var (head, foot) := (Prelude(given, sk), Closing(given));
    assert |foot| == if given.reminder.Some? then 2 else 1 by { ClosingCount(given); }
    assert Written(given, sk) == (head + sk.tail) + foot;
  }

  lemma ClosingCount(given: Inputs)
    ensures |Closing(given)| == if given.reminder.Some? then 2 else 1
  {
  }

  // ---------------------------------------------------------------- a query that is lost

  lemma NothingReadsAsNothing()
    ensures ExtractUserQuery("") == "" && IsSyntheticQuery("")
  {
    hide StripTags;
    StripAllShortens("", SYSTEM_TAGS);
  }

  lemma ImageSaysNothing(url: string)
    ensures UserText([Image(url)]) == ""
  {
    assert [Image(url)][1..] == [];
    assert TextParts([Image(url)]) == [];
  }

  lemma EmptyQueryIsNotReal()
    ensures !IsRealQuery("")
  {
    hide ExtractUserQuery, WrapUserQuery, IsPlainQuery, IsSyntheticQuery;
    WrapRoundTrip("");
    NothingReadsAsNothing();
  }

  lemma ImageTurnIsReal(x: Item)
    requires x.User? && x.reason.Human? && HasImage(x.content)
    ensures Bears(x, RealTurn)
  {
    hide ExtractUserQuery, IsSyntheticQuery;
  }

  /** A prompt of images alone anchors the first compaction with an empty query, and the second one finds none. */
  lemma ImageOnlyQueryIsLost(r: Round, url: string)
    requires !HasGoal(r.inputs.goal)
    ensures var s := [User([Image(url)], Human)];
            && LastRealQuery(s) == Some("")
            && LastRealQuery(Compact(r, s)) == None
            && Compact(r, Compact(r, s)) != Compact(r, s)
  {
    hide LastWith, Bears, ExtractUserQuery, WrapUserQuery, Trim, Compact, SkeletonOf, IsRealQuery, IsPlainQuery;
    var x := User([Image(url)], Human);
    var s := [x];
    assert x.content[0].Image?;
    ImageTurnIsReal(x);
    LastWithSingle(x, RealTurn);
    ImageSaysNothing(url);
    NothingReadsAsNothing();
    SkeletonQuery(s, None);
    SkeletonQuery(Compact(r, s), None);
    NoGoalNone();
    BlankGoal(s, r.inputs.goal);
    SkeletonOfCompact(r, s, None);
    EmptyQueryIsNotReal();
    CompactionIsIdempotentExactly(r, s);
    StableExactly("");
  }

  // ---------------------------------------------------------------- calls keep their results

  lemma {:induction false} KeptRun(run: seq<Item>, id: string)
    requires AllResults(run)
    ensures AllResults(KeptTail(run)) && |KeptTail(run)| == |run|
    ensures ToolRepair.CountId(KeptTail(run), id) == ToolRepair.CountId(run, id)
    ensures forall k | 0 <= k < |run| :: KeptTail(run)[k].callId == run[k].callId
  {
    if run != [] {
      KeptRun(run[1..], id);
      assert KeptTail(run)[1..] == KeptTail(run[1..]);
    }
  }

  lemma KeptAnswers(calls: seq<ToolCall>, run: seq<Item>)
    requires AllResults(run) && ToolRepair.AnswersExactlyOnce(calls, run)
    ensures ToolRepair.AnswersExactlyOnce(calls, KeptTail(run))
  {
    hide KeptTail, ToolRepair.CountId;
    KeptRun(run, "");
    forall id | id in CallIds(calls) ensures ToolRepair.CountId(KeptTail(run), id) == 1 {
      KeptRun(run, id);
    }
  }

  /** Dropping everything but turns, results and agent messages leaves each call its one answer. */
  lemma {:induction false} KeptIsPaired(s: seq<Item>)
    requires ToolRepair.Paired(s)
    ensures ToolRepair.Paired(KeptTail(s))
    decreases |s|
  {
    hide ToolRepair.Paired, ToolRepair.AnswersExactlyOnce, KeptTail;
    PairedHead(s);
    if s == [] {
      NothingIsKept();
    } else if s[0].DeclaresCalls() {
      var run, rest := ToolRepair.SplitBlock(s);
      PairedBlockAndRest(s[0], run, rest);
      KeptIsPaired(rest);
      PairedHead(KeptTail(rest));
      KeptAnswers(s[0].calls, run);
      KeptRun(run, "");
      KeptConcat([s[0]] + run, rest);
      KeptConcat([s[0]], run);
      TurnIsKept(s[0]);
      PairedBlockAndRest(s[0], KeptTail(run), KeptTail(rest));
    } else {
      assert s == [s[0]] + s[1..];
      PairedPlain(s[0], s[1..]);
      KeptIsPaired(s[1..]);
      KeptConcat([s[0]], s[1..]);
      PlainIsKeptOrNot(s[0]);
      if KeptTail([s[0]]) == [] {
        assert [] + KeptTail(s[1..]) == KeptTail(s[1..]);
      } else {
        PairedPlain(s[0], KeptTail(s[1..]));
      }
    }
  }

  lemma NothingIsKept()
    ensures KeptTail([]) == []
  {
  }

  lemma TurnIsKept(x: Item)
    requires x.Assistant?
    ensures KeptTail([x]) == [x]
  {
  }

  lemma PlainIsKeptOrNot(x: Item)
    requires !x.ToolResult?
    ensures KeptTail([x]) == [] || KeptTail([x]) == [x]
  {
    assert [x][1..] == [];
  }

  lemma BehindAnchorsIsPaired(s: seq<Item>)
    requires ToolRepair.Paired(s)
    ensures ToolRepair.Paired(s[AfterAnchors(s)..])
  {
    hide ToolRepair.Paired, LastWith, IsRealUserTurn;
    match LastWith(s, AnyAnchor)
    case None =>
      assert s[0..] == s;
    case Some(k) =>
      AnchorIsUser(s[k]);
      PairedSuffix(s, k);
      assert s[k..] == [s[k]] + s[k + 1..];
      PairedPlain(s[k], s[k + 1..]);
  }

  lemma AnchorIsUser(x: Item)
    requires Bears(x, AnyAnchor)
    ensures x.User?
  {
    hide IsSyntheticQuery, ExtractUserQuery;
  }

  lemma {:induction false} PreludeIsPaired(s: seq<Item>)
    requires IsPlainPrelude(s)
    ensures ToolRepair.Paired(s)
  {
    hide ToolRepair.Paired;
    if s == [] {
      NothingIsPaired();
    } else {
      PlainPart(s, 1);
      PreludeIsPaired(s[1..]);
      PairedPlain(s[0], s[1..]);
      assert s == [s[0]] + s[1..];
    }
  }

  lemma NothingIsPaired()
    ensures ToolRepair.Paired([])
  {
  }

  lemma TailOfSkeletonIsPaired(s: seq<Item>, goal: Option<string>)
    requires ToolRepair.Paired(s)
    ensures ToolRepair.Paired(SkeletonOf(s, goal).tail)
  {
    hide ToolRepair.Paired, KeptTail, LastWith, AfterAnchors, LastRealQuery, HasGoal;
    BehindAnchorsIsPaired(s);
    KeptIsPaired(s[AfterAnchors(s)..]);
  }

  /**
   Where every call had its one answer behind it, the compacted history still pairs each kept call with its answer.
   */
  lemma CompactionKeepsPairing(r: Round, s: seq<Item>)
    requires ToolRepair.Paired(s)
    ensures ToolRepair.Paired(Compact(r, s))
  {
    hide *;
    var sk := SkeletonOf(s, r.inputs.goal);
    var v := Viewed(r, sk);
    CompactIsWritten(r, s);
    AlwaysSkeleton(s, r.inputs.goal);
    ViewedIsSkeleton(r, sk);
    TailOfSkeletonIsPaired(s, r.inputs.goal);
    NothingIsPaired();
    ViewedTail(r, sk);
    WrittenIs(r.inputs, v);
    PreludeIsPlain(r.inputs, v);
    PreludeIsPaired(Prelude(r.inputs, v));
    ClosingBearsNothing(r.inputs, AgentTurn);
    PreludeIsPaired(Closing(r.inputs));
    PairedConcat(v.tail, Closing(r.inputs));
    PairedConcat(Prelude(r.inputs, v), v.tail + Closing(r.inputs));
  }

  lemma ViewedTail(r: Round, sk: Skeleton)
    ensures Viewed(r, sk).tail == if r.keepTail then sk.tail else []
  {
  }
}
