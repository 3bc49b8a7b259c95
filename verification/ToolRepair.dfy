/**
 Repair of tool-call pairing in a history: removing duplicate results,
 stripping displaced ones, answering calls that were left open; and the weaker
 pass that only strips results without an earlier call.
 */
module ToolRepair {
  import opened Conversation

  // ---------------------------------------------------------------- duplicate results

  predicate HasId(run: seq<Item>, id: string) {
    run != [] && ((run[0].ToolResult? && run[0].callId == id) || HasId(run[1..], id))
  }

  /** Of each run of results with one id, the last one. */
  function KeepLast(run: seq<Item>): (kept: seq<Item>)
    requires AllResults(run)
    ensures AllResults(kept)
  {
    if run == [] then []
    else if HasId(run[1..], run[0].callId) then KeepLast(run[1..])
    else [run[0]] + KeepLast(run[1..])
  }

  function Dedup(s: seq<Item>): seq<Item> {
    if s == [] then []
    else if s[0].DeclaresCalls() then
      var n := ResultRun(s[1..]);
      [s[0]] + KeepLast(s[1..][..n]) + Dedup(s[1..][n..])
    else [s[0]] + Dedup(s[1..])
  }

  // ---------------------------------------------------------------- displaced results

  /** The ids a result may answer once an item has gone by. */
  function RunIdsAfter(x: Item, ids: set<string>): set<string> {
    match x
    case Assistant(_, calls) => CallIds(calls)
    case ToolResult(_, _, _) => ids
    case _ => {}
  }

  /** Keeps a result only while the run behind its declaring assistant lasts. */
  function Strip(s: seq<Item>, runIds: set<string>): seq<Item> {
    if s == [] then []
    else
      (if s[0].ToolResult? && s[0].callId !in runIds then [] else [s[0]]) +
      Strip(s[1..], RunIdsAfter(s[0], runIds))
  }

  function StrippedIds(s: seq<Item>, runIds: set<string>): seq<string> {
    if s == [] then []
    else
      (if s[0].ToolResult? && s[0].callId !in runIds then [s[0].callId] else []) +
      StrippedIds(s[1..], RunIdsAfter(s[0], runIds))
  }

  // ---------------------------------------------------------------- unanswered calls

  function SyntheticResult(c: ToolCall): Item {
    ToolResult(
      c.id,
      "Tool execution was halted by the harness (history_repair); the tool `" + c.name + "` was not executed.",
      [])
  }

  function Synthetic(calls: seq<ToolCall>, run: seq<Item>): (out: seq<Item>)
    ensures AllResults(out)
  {
    if calls == [] then []
    else (if HasId(run, calls[0].id) then [] else [SyntheticResult(calls[0])]) + Synthetic(calls[1..], run)
  }

  function Backfill(s: seq<Item>): seq<Item> {
    if s == [] then []
    else if s[0].DeclaresCalls() then
      var n := ResultRun(s[1..]);
      var run := s[1..][..n];
      [s[0]] + run + Synthetic(s[0].calls, run) + Backfill(s[1..][n..])
    else [s[0]] + Backfill(s[1..])
  }

  function Repair(s: seq<Item>): seq<Item> {
    Backfill(Strip(Dedup(s), {}))
  }

  datatype Report = Report(duplicatesRemoved: nat, strippedIds: seq<string>, syntheticInserted: nat)
  {
    predicate Changed() { duplicatesRemoved > 0 || strippedIds != [] || syntheticInserted > 0 }
  }

  lemma {:induction false} DedupNeverGrows(s: seq<Item>)
    ensures |Dedup(s)| <= |s|
    decreases |s|
  {
    if s != [] {
      if s[0].DeclaresCalls() {
        var n := ResultRun(s[1..]);
        KeepLastNeverGrows(s[1..][..n]);
        DedupNeverGrows(s[1..][n..]);
      } else {
        DedupNeverGrows(s[1..]);
      }
    }
  }

  lemma {:induction false} KeepLastNeverGrows(run: seq<Item>)
    requires AllResults(run)
    ensures |KeepLast(run)| <= |run|
    ensures |KeepLast(run)| == |run| ==> KeepLast(run) == run
  {
    if run != [] {
      KeepLastNeverGrows(run[1..]);
    }
  }

  lemma {:induction false} BackfillNeverShrinks(s: seq<Item>)
    ensures |Backfill(s)| >= |s|
    ensures |Backfill(s)| == |s| ==> Backfill(s) == s
    decreases |s|
  {
    hide *;
    if s == [] {
      BackfillNothing();
    } else if s[0].DeclaresCalls() {
      var run, rest := SplitBlock(s);
      BackfillNeverShrinks(rest);
      BackfillBlock(s[0], run, rest);
      assert Synthetic(s[0].calls, run) == [] ==> [s[0]] + run + [] + rest == s;
    } else {
      assert s[0..] == s && s == [s[0]] + s[1..];
      BackfillNeverShrinks(s[1..]);
      BackfillSingle(s, 0);
    }
  }

  function ReportOf(s: seq<Item>): Report {
    var deduped := Dedup(s);
    var stripped := Strip(deduped, {});
    DedupNeverGrows(s);
    BackfillNeverShrinks(stripped);
    Report(|s| - |deduped|, StrippedIds(deduped, {}), |Backfill(stripped)| - |stripped|)
  }

  // ---------------------------------------------------------------- the provider's rule

  function CountId(run: seq<Item>, id: string): nat {
    if run == [] then 0
    else (if run[0].ToolResult? && run[0].callId == id then 1 else 0) + CountId(run[1..], id)
  }

  /** Every declared call is answered by exactly one result of the run, and the run holds nothing else. */
  predicate AnswersExactlyOnce(calls: seq<ToolCall>, run: seq<Item>) {
    && AllDeclared(run, CallIds(calls))
    && (forall id | id in CallIds(calls) :: CountId(run, id) == 1)
  }

  /** Each result stands in the run right behind the assistant that declares it, one for each call. */
  predicate Paired(s: seq<Item>) {
    if s == [] then true
    else if s[0].ToolResult? then false
    else if s[0].DeclaresCalls() then
      var n := ResultRun(s[1..]);
      AnswersExactlyOnce(s[0].calls, s[1..][..n]) && Paired(s[1..][n..])
    else Paired(s[1..])
  }

  function CountCalls(calls: seq<ToolCall>, id: string): nat {
    if calls == [] then 0 else (if calls[0].id == id then 1 else 0) + CountCalls(calls[1..], id)
  }

  /** Some assistant declares one id twice and the run behind it does not answer that id. */
  predicate HasUnansweredTwins(s: seq<Item>) {
    if s == [] then false
    else if s[0].DeclaresCalls() then
      var n := ResultRun(s[1..]);
      var run := s[1..][..n];
      || (exists id | id in CallIds(s[0].calls) :: CountCalls(s[0].calls, id) >= 2 && !HasId(run, id))
      || HasUnansweredTwins(s[1..][n..])
    else HasUnansweredTwins(s[1..])
  }

  // ---------------------------------------------------------------- counting results

  lemma {:induction false} CountConcat(a: seq<Item>, b: seq<Item>, id: string)
    ensures CountId(a + b, id) == CountId(a, id) + CountId(b, id)
  {
    if a == [] {
      assert a + b == b;
    } else {
      assert (a + b)[1..] == a[1..] + b;
      CountConcat(a[1..], b, id);
    }
  }

  lemma {:induction false} CountIsPositive(run: seq<Item>, id: string)
    ensures CountId(run, id) > 0 <==> HasId(run, id)
  {
    if run != [] {
      CountIsPositive(run[1..], id);
    }
  }

  lemma {:induction false} KeepLastCounts(run: seq<Item>, id: string)
    requires AllResults(run)
    ensures CountId(KeepLast(run), id) == if HasId(run, id) then 1 else 0
  {
    if run != [] {
      KeepLastCounts(run[1..], id);
    }
  }

  ghost predicate Distinct(run: seq<Item>) {
    forall id :: CountId(run, id) <= 1
  }

  lemma {:induction false} KeepLastOfDistinct(run: seq<Item>)
    requires AllResults(run)
    ensures KeepLast(run) == run <==> Distinct(run)
  {
    if KeepLast(run) == run {
      forall id ensures CountId(run, id) <= 1 { KeepLastCounts(run, id); }
    } else {
      CountIsPositive(run[1..], run[0].callId);
      if Distinct(run) {
        assert CountId(run, run[0].callId) <= 1;
        forall id ensures CountId(run[1..], id) <= 1 { assert CountId(run, id) <= 1; }
        KeepLastOfDistinct(run[1..]);
      }
    }
  }

  predicate AllDeclared(run: seq<Item>, ids: set<string>) {
    forall i | 0 <= i < |run| :: run[i].ToolResult? && run[i].callId in ids
  }

  lemma {:induction false} StripRunCounts(run: seq<Item>, ids: set<string>, id: string)
    requires AllResults(run)
    ensures CountId(Strip(run, ids), id) == if id in ids then CountId(run, id) else 0
    ensures AllDeclared(Strip(run, ids), ids)
  {
    if run != [] {
      StripRunCounts(run[1..], ids, id);
      CountConcat(if run[0].callId in ids then [run[0]] else [], Strip(run[1..], ids), id);
    }
  }

  lemma {:induction false} SyntheticCounts(calls: seq<ToolCall>, run: seq<Item>, id: string)
    ensures CountId(Synthetic(calls, run), id) == if HasId(run, id) then 0 else CountCalls(calls, id)
  {
    if calls != [] {
      SyntheticCounts(calls[1..], run, id);
      var head := if HasId(run, calls[0].id) then [] else [SyntheticResult(calls[0])];
      CountConcat(head, Synthetic(calls[1..], run), id);
    }
  }

  lemma {:induction false} SyntheticIsDeclared(calls: seq<ToolCall>, run: seq<Item>, ids: set<string>)
    requires forall i | 0 <= i < |calls| :: calls[i].id in ids
    ensures AllDeclared(Synthetic(calls, run), ids)
  {
    hide HasId;
    if calls != [] {
      SyntheticIsDeclared(calls[1..], run, ids);
      var x := SyntheticResult(calls[0]);
      assert x.ToolResult? && x.callId == calls[0].id;
      hide SyntheticResult;
    }
  }

  lemma {:induction false} SyntheticIsEmpty(calls: seq<ToolCall>, run: seq<Item>)
    ensures Synthetic(calls, run) == [] <==> forall id | id in CallIds(calls) :: HasId(run, id)
  {
    if calls != [] {
      SyntheticIsEmpty(calls[1..], run);
      assert CallIds(calls) == {calls[0].id} + CallIds(calls[1..]);
    }
  }

  lemma {:induction false} CountCallsIsPositive(calls: seq<ToolCall>, id: string)
    ensures CountCalls(calls, id) > 0 <==> id in CallIds(calls)
  {
    if calls != [] {
      CountCallsIsPositive(calls[1..], id);
      assert CallIds(calls) == {calls[0].id} + CallIds(calls[1..]);
    }
  }

  // ---------------------------------------------------------------- one assistant and its run

  ghost predicate IsBlock(a: Item, run: seq<Item>, rest: seq<Item>) {
    && a.DeclaresCalls()
    && AllResults(run)
    && (rest == [] || !rest[0].ToolResult?)
  }

  lemma SplitBlock(s: seq<Item>) returns (run: seq<Item>, rest: seq<Item>)
    requires s != [] && s[0].DeclaresCalls()
    ensures s == [s[0]] + run + rest && IsBlock(s[0], run, rest) && s[0].Assistant?
    ensures AllResults(run)
  {
    var n := ResultRun(s[1..]);
    run, rest := s[1..][..n], s[1..][n..];
  }

  lemma HeadOfBlock(a: Item, run: seq<Item>, rest: seq<Item>)
    requires IsBlock(a, run, rest)
    ensures ([a] + run + rest)[0] == a && ([a] + run + rest)[1..] == run + rest
    ensures ResultRun(run + rest) == |run| && (run + rest)[..|run|] == run && (run + rest)[|run|..] == rest
  {
    ResultRunIs(run, rest);
    assert ([a] + run + rest)[1..] == run + rest;
  }

  lemma {:induction false} StripRun(run: seq<Item>, rest: seq<Item>, ids: set<string>)
    requires AllResults(run) && (rest == [] || !rest[0].ToolResult?)
    ensures Strip(run + rest, ids) == Strip(run, ids) + Strip(rest, {})
    ensures StrippedIds(run + rest, ids) == StrippedIds(run, ids) + StrippedIds(rest, {})
  {
    if run == [] {
      assert run + rest == rest;
    } else {
      assert (run + rest)[1..] == run[1..] + rest;
      StripRun(run[1..], rest, ids);
      var kept := if run[0].callId in ids then [run[0]] else [];
      assert kept + (Strip(run[1..], ids) + Strip(rest, {})) == (kept + Strip(run[1..], ids)) + Strip(rest, {});
      var gone := if run[0].callId in ids then [] else [run[0].callId];
      assert gone + (StrippedIds(run[1..], ids) + StrippedIds(rest, {})) ==
             (gone + StrippedIds(run[1..], ids)) + StrippedIds(rest, {});
    }
  }

  lemma DedupBlock(a: Item, run: seq<Item>, rest: seq<Item>)
    requires IsBlock(a, run, rest)
    ensures Dedup([a] + run + rest) == [a] + KeepLast(run) + Dedup(rest)
    ensures IsBlock(a, KeepLast(run), Dedup(rest))
  {
    HeadOfBlock(a, run, rest);
  }

  lemma StripHead(a: Item, more: seq<Item>)
    requires a.DeclaresCalls()
    ensures Strip([a] + more, {}) == [a] + Strip(more, CallIds(a.calls))
    ensures StrippedIds([a] + more, {}) == StrippedIds(more, CallIds(a.calls))
  {
    hide CallIds;
    var s := [a] + more;
    assert s[0] == a && s[1..] == more;
    assert StrippedIds(s, {}) == [] + StrippedIds(more, CallIds(a.calls));
  }

  lemma StripKeepsFront(rest: seq<Item>)
    requires rest == [] || !rest[0].ToolResult?
    ensures var kept := Strip(rest, {}); kept == [] || !kept[0].ToolResult?
  {
  }

  lemma StripBlock(a: Item, run: seq<Item>, rest: seq<Item>)
    requires IsBlock(a, run, rest)
    ensures Strip([a] + run + rest, {}) == [a] + Strip(run, CallIds(a.calls)) + Strip(rest, {})
    ensures StrippedIds([a] + run + rest, {}) == StrippedIds(run, CallIds(a.calls)) + StrippedIds(rest, {})
    ensures IsBlock(a, Strip(run, CallIds(a.calls)), Strip(rest, {}))
  {
    hide Strip, StrippedIds, CallIds;
    var ids := CallIds(a.calls);
    assert [a] + run + rest == [a] + (run + rest);
    StripHead(a, run + rest);
    StripRun(run, rest, ids);
    assert [a] + (Strip(run, ids) + Strip(rest, {})) == [a] + Strip(run, ids) + Strip(rest, {});
    StripRunCounts(run, ids, "");
    StripKeepsFront(rest);
  }

  lemma BackfillBlock(a: Item, run: seq<Item>, rest: seq<Item>)
    requires IsBlock(a, run, rest)
    ensures Backfill([a] + run + rest) == [a] + run + Synthetic(a.calls, run) + Backfill(rest)
    ensures IsBlock(a, run + Synthetic(a.calls, run), Backfill(rest))
  {
    hide Synthetic;
    HeadOfBlock(a, run, rest);
  }

  /** What repair leaves of one assistant's run: the last real answer of each call, then the synthetic ones. */
  function RepairedRun(calls: seq<ToolCall>, run: seq<Item>): seq<Item>
    requires AllResults(run)
  {
    var kept := Strip(KeepLast(run), CallIds(calls));
    kept + Synthetic(calls, kept)
  }

  lemma RepairBlock(a: Item, run: seq<Item>, rest: seq<Item>)
    requires IsBlock(a, run, rest)
    ensures Repair([a] + run + rest) == [a] + RepairedRun(a.calls, run) + Repair(rest)
    ensures IsBlock(a, RepairedRun(a.calls, run), Repair(rest))
  {
    hide Dedup, Strip, Backfill, KeepLast, Synthetic;
    DedupBlock(a, run, rest);
    StripBlock(a, KeepLast(run), Dedup(rest));
    BackfillBlock(a, Strip(KeepLast(run), CallIds(a.calls)), Strip(Dedup(rest), {}));
  }

  lemma RepairSingle(s: seq<Item>)
    requires s != [] && !s[0].DeclaresCalls()
    ensures Repair(s) == if s[0].ToolResult? then Repair(s[1..]) else [s[0]] + Repair(s[1..])
  {
    assert Dedup(s) == [s[0]] + Dedup(s[1..]);
    assert ([s[0]] + Dedup(s[1..]))[1..] == Dedup(s[1..]);
    var t := Strip(Dedup(s[1..]), {});
    if s[0].ToolResult? {
      assert [] + t == t;
    } else {
      assert CallIds([]) == {};
      assert Strip(Dedup(s), {}) == [s[0]] + t;
      assert ([s[0]] + t)[0] == s[0] && ([s[0]] + t)[1..] == t;
    }
  }

  lemma RepairedRunCounts(calls: seq<ToolCall>, run: seq<Item>, id: string)
    requires AllResults(run)
    ensures CountId(RepairedRun(calls, run), id) ==
            if id !in CallIds(calls) then 0 else if HasId(run, id) then 1 else CountCalls(calls, id)
  {
    var ids := CallIds(calls);
    var kept := Strip(KeepLast(run), ids);
    StripRunCounts(KeepLast(run), ids, id);
    KeepLastCounts(run, id);
    CountIsPositive(kept, id);
    SyntheticCounts(calls, kept, id);
    CountCallsIsPositive(calls, id);
    CountConcat(kept, Synthetic(calls, kept), id);
  }

  lemma RepairedRunAnswers(calls: seq<ToolCall>, run: seq<Item>)
    requires AllResults(run)
    ensures AnswersExactlyOnce(calls, RepairedRun(calls, run))
            <==> !exists id | id in CallIds(calls) :: CountCalls(calls, id) >= 2 && !HasId(run, id)
  {
    hide KeepLast, Strip, Synthetic, CountId, HasId, CountCalls;
    var kept := Strip(KeepLast(run), CallIds(calls));
    StripRunCounts(KeepLast(run), CallIds(calls), "");
    SyntheticIsDeclared(calls, kept, CallIds(calls));
    forall id | id in CallIds(calls)
      ensures CountId(RepairedRun(calls, run), id) == 1 <==> CountCalls(calls, id) < 2 || HasId(run, id)
    {
      RepairedRunCounts(calls, run, id);
      CountCallsIsPositive(calls, id);
    }
  }

  // ---------------------------------------------------------------- main results

  /**
   A repaired history meets the provider's pairing rule exactly when no
   assistant declares an id twice without an answer behind it.
   */
  lemma {:induction false} RepairedIsPaired(s: seq<Item>)
    ensures Paired(Repair(s)) <==> !HasUnansweredTwins(s)
    decreases |s|
  {
    if s != [] {
      if s[0].DeclaresCalls() {
        var run, rest := SplitBlock(s);
        RepairBlock(s[0], run, rest);
        HeadOfBlock(s[0], run, rest);
        HeadOfBlock(s[0], RepairedRun(s[0].calls, run), Repair(rest));
        RepairedRunAnswers(s[0].calls, run);
        RepairedIsPaired(rest);
      } else {
        RepairSingle(s);
        RepairedIsPaired(s[1..]);
      }
    }
  }

  lemma {:induction false} NothingStripped(s: seq<Item>, ids: set<string>)
    ensures StrippedIds(s, ids) == [] ==> Strip(s, ids) == s
  {
    if s != [] {
      NothingStripped(s[1..], RunIdsAfter(s[0], ids));
    }
  }

  lemma {:induction false} StrippedRunIsEmpty(run: seq<Item>, ids: set<string>)
    requires AllResults(run)
    ensures StrippedIds(run, ids) == [] <==> AllDeclared(run, ids)
  {
    if run != [] {
      StrippedRunIsEmpty(run[1..], ids);
    }
  }

  lemma {:induction false} DedupOfSameLength(s: seq<Item>)
    ensures |Dedup(s)| == |s| ==> Dedup(s) == s
    decreases |s|
  {
    if s != [] {
      if s[0].DeclaresCalls() {
        var run, rest := SplitBlock(s);
        DedupBlock(s[0], run, rest);
        KeepLastNeverGrows(run);
        DedupNeverGrows(rest);
        DedupOfSameLength(rest);
      } else {
        DedupOfSameLength(s[1..]);
      }
    }
  }

  lemma RunUnchanged(calls: seq<ToolCall>, run: seq<Item>)
    requires AllResults(run)
    ensures AnswersExactlyOnce(calls, run) <==>
            KeepLast(run) == run && StrippedIds(run, CallIds(calls)) == [] && Synthetic(calls, run) == []
  {
    hide KeepLast, Strip, Synthetic, CountId, HasId, CountCalls;
    KeepLastOfDistinct(run);
    StrippedRunIsEmpty(run, CallIds(calls));
    SyntheticIsEmpty(calls, run);
    forall id ensures CountId(run, id) > 0 <==> HasId(run, id) { CountIsPositive(run, id); }
    if AnswersExactlyOnce(calls, run) {
      forall id ensures CountId(run, id) <= 1 {
        if id !in CallIds(calls) {
          DeclaredIdsOnly(run, CallIds(calls), id);
        }
      }
    }
  }

  lemma {:induction false} DeclaredIdsOnly(run: seq<Item>, ids: set<string>, id: string)
    requires AllDeclared(run, ids) && id !in ids
    ensures CountId(run, id) == 0
  {
    if run != [] {
      DeclaredIdsOnly(run[1..], ids, id);
    }
  }

  ghost predicate Unchanged(s: seq<Item>) {
    |Dedup(s)| == |s| && StrippedIds(s, {}) == [] && |Backfill(s)| == |s|
  }

  lemma {:induction false} UnchangedIffPaired(s: seq<Item>)
    ensures Unchanged(s) <==> Paired(s)
    decreases |s|
  {
    if s != [] {
      if s[0].DeclaresCalls() {
        var run, rest := SplitBlock(s);
        HeadOfBlock(s[0], run, rest);
        DedupBlock(s[0], run, rest);
        StripBlock(s[0], run, rest);
        BackfillBlock(s[0], run, rest);
        KeepLastNeverGrows(run);
        DedupNeverGrows(rest);
        BackfillNeverShrinks(rest);
        RunUnchanged(s[0].calls, run);
        UnchangedIffPaired(rest);
      } else {
        assert CallIds([]) == {};
        DedupNeverGrows(s[1..]);
        BackfillNeverShrinks(s[1..]);
        UnchangedIffPaired(s[1..]);
      }
    }
  }

  /** The report says "unchanged" exactly for the histories that already meet the pairing rule. */
  lemma ReportsChangeIffUnpaired(s: seq<Item>)
    ensures ReportOf(s).Changed() <==> !Paired(s)
    ensures Paired(s) ==> Repair(s) == s
  {
    DedupNeverGrows(s);
    DedupOfSameLength(s);
    NothingStripped(s, {});
    BackfillNeverShrinks(s);
    BackfillNeverShrinks(Strip(Dedup(s), {}));
    UnchangedIffPaired(s);
  }

  // ---------------------------------------------------------------- what the report counts, and which answers are left

  function IdsOf(run: seq<Item>): set<string> {
    set x | x in run && x.ToolResult? :: x.callId
  }

  /** How many calls no result of the run answers. */
  function OpenCalls(calls: seq<ToolCall>, run: seq<Item>): nat {
    if calls == [] then 0 else (if calls[0].id in IdsOf(run) then 0 else 1) + OpenCalls(calls[1..], run)
  }

  /** The results behind assistants with calls that are more than one for each id. */
  function Repeats(s: seq<Item>): int {
    if s == [] then 0
    else if s[0].DeclaresCalls() then
      var n := ResultRun(s[1..]);
      n - |IdsOf(s[1..][..n])| + Repeats(s[1..][n..])
    else Repeats(s[1..])
  }

  /** The calls that the run behind their assistant does not answer. */
  function Dangling(s: seq<Item>): nat {
    if s == [] then 0
    else if s[0].DeclaresCalls() then
      var n := ResultRun(s[1..]);
      OpenCalls(s[0].calls, s[1..][..n]) + Dangling(s[1..][n..])
    else Dangling(s[1..])
  }

  lemma IdsCons(x: Item, more: seq<Item>)
    ensures IdsOf([x] + more) == (if x.ToolResult? then {x.callId} else {}) + IdsOf(more)
  {
  }

  lemma NoIds()
    ensures IdsOf([]) == {}
  {
  }

  lemma {:induction false} AnsweredMeans(run: seq<Item>, id: string)
    ensures HasId(run, id) <==> id in IdsOf(run)
  {
    hide IdsOf;
    NoIds();
    if run != [] {
      AnsweredMeans(run[1..], id);
      assert run == [run[0]] + run[1..];
      IdsCons(run[0], run[1..]);
    }
  }

  lemma {:induction false} KeptIsOneForEachId(run: seq<Item>)
    requires AllResults(run)
    ensures |KeepLast(run)| == |IdsOf(run)| && IdsOf(KeepLast(run)) == IdsOf(run)
  {
    hide IdsOf, HasId;
    NoIds();
    if run != [] {
      var (first, later) := (run[0], run[1..]);
      KeptIsOneForEachId(later);
      AnsweredMeans(later, first.callId);
      assert run == [first] + later;
      IdsCons(first, later);
      IdsCons(first, KeepLast(later));
      if first.callId in IdsOf(later) {
        assert {first.callId} + IdsOf(later) == IdsOf(later);
      }
    }
  }

  lemma {:induction false} StrippedRunAnswers(run: seq<Item>, ids: set<string>)
    requires AllResults(run)
    ensures IdsOf(Strip(run, ids)) == IdsOf(run) * ids
  {
    hide IdsOf;
    NoIds();
    if run != [] {
      var (first, later) := (run[0], run[1..]);
      StrippedRunAnswers(later, ids);
      assert run == [first] + later;
      IdsCons(first, later);
      IdsCons(first, Strip(later, ids));
      assert [] + Strip(later, ids) == Strip(later, ids);
    }
  }

  lemma {:induction false} SyntheticIsOpen(calls: seq<ToolCall>, run: seq<Item>, kept: seq<Item>)
    requires forall c | c in calls :: c.id in IdsOf(run) <==> c.id in IdsOf(kept)
    ensures |Synthetic(calls, kept)| == OpenCalls(calls, run)
  {
    hide SyntheticResult, IdsOf, HasId;
    if calls != [] {
      AnsweredMeans(kept, calls[0].id);
      SyntheticIsOpen(calls[1..], run, kept);
    }
  }

  lemma KeptAnswersTheSame(calls: seq<ToolCall>, run: seq<Item>)
    requires AllResults(run)
    ensures |Synthetic(calls, Strip(KeepLast(run), CallIds(calls)))| == OpenCalls(calls, run)
  {
    KeptIsOneForEachId(run);
    StrippedRunAnswers(KeepLast(run), CallIds(calls));
    SyntheticIsOpen(calls, run, Strip(KeepLast(run), CallIds(calls)));
  }

  lemma {:induction false} RepeatsAreDeduped(s: seq<Item>)
    ensures |s| - |Dedup(s)| == Repeats(s)
    decreases |s|
  {
    hide *;
    if s == [] {
      NothingCounts();
    } else if s[0].DeclaresCalls() {
      var run, rest := SplitBlock(s);
      HeadOfBlock(s[0], run, rest);
      DedupBlock(s[0], run, rest);
      KeptIsOneForEachId(run);
      RepeatsAreDeduped(rest);
      CountsOfBlock(s, run, rest);
    } else {
      RepeatsAreDeduped(s[1..]);
      CountsOfSingle(s);
    }
  }

  lemma NothingCounts()
    ensures Repeats([]) == 0 && Dangling([]) == 0 && Dedup([]) == Repair([]) == Strip([], {}) == Backfill([]) == []
  {
  }

  lemma CountsOfBlock(s: seq<Item>, run: seq<Item>, rest: seq<Item>)
    requires s != [] && IsBlock(s[0], run, rest) && s == [s[0]] + run + rest
    ensures Repeats(s) == |run| - |IdsOf(run)| + Repeats(rest)
    ensures s[0].Assistant? && Dangling(s) == OpenCalls(s[0].calls, run) + Dangling(rest)
  {
    hide IdsOf, OpenCalls, ResultRun;
    HeadOfBlock(s[0], run, rest);
  }

  lemma CountsOfSingle(s: seq<Item>)
    requires s != [] && !s[0].DeclaresCalls()
    ensures Repeats(s) == Repeats(s[1..]) && Dangling(s) == Dangling(s[1..]) && |Dedup(s)| == 1 + |Dedup(s[1..])|
  {
    hide IdsOf, OpenCalls;
  }

  lemma {:induction false} DanglingIsBackfilled(s: seq<Item>)
    ensures var stripped := Strip(Dedup(s), {}); |Backfill(stripped)| - |stripped| == Dangling(s)
    decreases |s|
  {
    hide *;
    if s == [] {
      NothingCounts();
    } else if s[0].DeclaresCalls() {
      var run, rest := SplitBlock(s);
      HeadOfBlock(s[0], run, rest);
      DedupBlock(s[0], run, rest);
      StripBlock(s[0], KeepLast(run), Dedup(rest));
      BackfillBlock(s[0], Strip(KeepLast(run), CallIds(s[0].calls)), Strip(Dedup(rest), {}));
      KeptAnswersTheSame(s[0].calls, run);
      DanglingIsBackfilled(rest);
      CountsOfBlock(s, run, rest);
    } else {
      DanglingIsBackfilled(s[1..]);
      CountsOfSingle(s);
      StrippedSingle(s);
    }
  }

  lemma StrippedSingle(s: seq<Item>)
    requires s != [] && !s[0].DeclaresCalls()
    ensures var (all, later) := (Strip(Dedup(s), {}), Strip(Dedup(s[1..]), {}));
            if s[0].ToolResult? then all == later
            else |all| == 1 + |later| && |Backfill(all)| == 1 + |Backfill(later)|
  {
    hide ResultRun;
    var t := Strip(Dedup(s[1..]), {});
    assert Dedup(s) == [s[0]] + Dedup(s[1..]);
    assert ([s[0]] + Dedup(s[1..]))[1..] == Dedup(s[1..]);
    if s[0].ToolResult? {
      assert [] + t == t;
    } else {
      assert CallIds([]) == {};
      assert Strip(Dedup(s), {}) == [s[0]] + t;
      assert ([s[0]] + t)[0] == s[0] && ([s[0]] + t)[1..] == t;
    }
  }

  /**
   The counts of the report: the duplicates are the results beyond one for each id of their run, the synthetic ones
   answer the calls that their run did not.
   */
  lemma ReportCounts(s: seq<Item>)
    ensures ReportOf(s).duplicatesRemoved == Repeats(s)
    ensures ReportOf(s).syntheticInserted == Dangling(s)
    ensures |Repair(s)| == |s| - Repeats(s) - |ReportOf(s).strippedIds| + Dangling(s)
  {
    hide Dedup, Strip, Backfill, Repeats, Dangling, StrippedIds;
    RepeatsAreDeduped(s);
    DanglingIsBackfilled(s);
    StrippedCount(Dedup(s), {});
  }

  lemma {:induction false} StrippedCount(s: seq<Item>, ids: set<string>)
    ensures |Strip(s, ids)| + |StrippedIds(s, ids)| == |s|
  {
    hide RunIdsAfter;
    if s != [] {
      StrippedCount(s[1..], RunIdsAfter(s[0], ids));
    }
  }

  /** The result is the last one of its id in the run, and the id is one of the given. */
  ghost predicate IsLastAnswer(run: seq<Item>, ids: set<string>, x: Item) {
    exists j | 0 <= j < |run| ::
      run[j] == x && x.ToolResult? && x.callId in ids && x.callId !in IdsOf(run[j + 1..])
  }

  lemma {:induction false} LastAnswersAreKept(run: seq<Item>, ids: set<string>, x: Item)
    requires AllResults(run)
    ensures x in Strip(KeepLast(run), ids) <==> IsLastAnswer(run, ids, x)
  {
    if run != [] {
      var (first, later) := (run[0], run[1..]);
      LastAnswersAreKept(later, ids, x);
      AnsweredMeans(later, first.callId);
      StripsOne(first, KeepLast(later), ids, x);
      assert first.callId !in IdsOf(later) && first == x ==> run[0] == x && run[0 + 1..] == later;
      if j :| 0 <= j < |later| && later[j] == x && x.callId !in IdsOf(later[j + 1..]) {
        assert run[j + 1] == x && run[(j + 1) + 1..] == later[j + 1..];
      }
      if j :| 0 < j < |run| && run[j] == x && x.callId !in IdsOf(run[j + 1..]) {
        assert later[j - 1] == x && later[(j - 1) + 1..] == run[j + 1..];
      }
    }
  }

  lemma StripsOne(x: Item, more: seq<Item>, ids: set<string>, y: Item)
    requires x.ToolResult?
    ensures y in Strip([x] + more, ids) <==> (y == x && x.callId in ids) || y in Strip(more, ids)
  {
    assert ([x] + more)[1..] == more;
  }

  lemma {:induction false} OpenCallsAreAnswered(calls: seq<ToolCall>, kept: seq<Item>, x: Item)
    ensures x in Synthetic(calls, kept) <==>
            exists c | c in calls :: c.id !in IdsOf(kept) && x == SyntheticResult(c)
  {
    hide SyntheticResult, IdsOf, HasId;
    if calls != [] {
      AnsweredMeans(kept, calls[0].id);
      OpenCallsAreAnswered(calls[1..], kept, x);
      assert calls == [calls[0]] + calls[1..];
    }
  }

  /**
   What a repaired run holds: of each declared id the last real answer, unchanged, and for each call without any a
   result that says that its tool was not executed.
   */
  lemma RepairedRunHoldsLastAnswers(calls: seq<ToolCall>, run: seq<Item>, x: Item)
    requires AllResults(run)
    ensures x in RepairedRun(calls, run) <==>
            || IsLastAnswer(run, CallIds(calls), x)
            || exists c | c in calls ::
                 && c.id !in IdsOf(run)
                 && x == ToolResult(
                      c.id,
                      "Tool execution was halted by the harness (history_repair); the tool `" + c.name +
                      "` was not executed.",
                      [])
  {
    hide KeepLast, Strip, Synthetic, IsLastAnswer, IdsOf;
    var kept := Strip(KeepLast(run), CallIds(calls));
    LastAnswersAreKept(run, CallIds(calls), x);
    OpenCallsAreAnswered(calls, kept, x);
    KeptIsOneForEachId(run);
    StrippedRunAnswers(KeepLast(run), CallIds(calls));
    assert forall c | c in calls :: c.id in IdsOf(kept) <==> c.id in IdsOf(run);
  }

  /** A second repair reports no change exactly when the first history had no unanswered twins. */
  lemma SecondRepairIsQuiet(s: seq<Item>)
    ensures !ReportOf(Repair(s)).Changed() <==> !HasUnansweredTwins(s)
    ensures !HasUnansweredTwins(s) ==> Repair(Repair(s)) == Repair(s)
  {
    RepairedIsPaired(s);
    ReportsChangeIffUnpaired(Repair(s));
  }

  /** The unanswered-twin family is inhabited: a second repair then still changes the history. */
  lemma TwinCallsAreRepairedTwice(c: ToolCall)
    ensures HasUnansweredTwins([Assistant("", [c, c])])
    ensures Repair([Assistant("", [c, c])]) == [Assistant("", [c, c]), SyntheticResult(c), SyntheticResult(c)]
    ensures ReportOf(Repair([Assistant("", [c, c])])).Changed()
  {
    var a := Assistant("", [c, c]);
    var calls := [c, c];
    assert calls[1..] == [c] && [c][1..] == [];
    assert CountCalls([c], c.id) == 1 && CountCalls(calls, c.id) == 2;
    assert c.id in CallIds(calls);
    assert HasUnansweredTwins([a]);
    assert [a] == [a] + [] + [];
    RepairBlock(a, [], []);
    assert Synthetic([c], []) == [SyntheticResult(c)] + [];
    assert Synthetic(calls, []) == [SyntheticResult(c)] + Synthetic([c], []);
    assert RepairedRun(calls, []) == [SyntheticResult(c), SyntheticResult(c)];
    SecondRepairIsQuiet([a]);
  }

  // ---------------------------------------------------------------- what repair leaves alone

  function NonResults(s: seq<Item>): seq<Item> {
    if s == [] then []
    else (if s[0].ToolResult? then [] else [s[0]]) + NonResults(s[1..])
  }

  lemma {:induction false} NonResultsConcat(a: seq<Item>, b: seq<Item>)
    ensures NonResults(a + b) == NonResults(a) + NonResults(b)
  {
    if a == [] {
      assert a + b == b;
    } else {
      assert (a + b)[1..] == a[1..] + b;
      NonResultsConcat(a[1..], b);
    }
  }

  lemma {:induction false} NonResultsOfRun(run: seq<Item>)
    requires AllResults(run)
    ensures NonResults(run) == []
  {
    if run != [] {
      NonResultsOfRun(run[1..]);
    }
  }

  lemma NonResultsOfBlock(a: Item, run: seq<Item>, rest: seq<Item>)
    requires IsBlock(a, run, rest)
    ensures NonResults([a] + run + rest) == [a] + NonResults(rest)
  {
    NonResultsConcat([a] + run, rest);
    NonResultsConcat([a], run);
    NonResultsOfRun(run);
    assert NonResults([a]) == [a] + NonResults([]);
  }

  /** Repair only ever moves tool results: everything else stays, in order. */
  lemma {:induction false} RepairKeepsNonResults(s: seq<Item>)
    ensures NonResults(Repair(s)) == NonResults(s)
    decreases |s|
  {
    if s != [] {
      if s[0].DeclaresCalls() {
        var run, rest := SplitBlock(s);
        RepairBlock(s[0], run, rest);
        NonResultsOfBlock(s[0], run, rest);
        NonResultsOfBlock(s[0], RepairedRun(s[0].calls, run), Repair(rest));
        RepairKeepsNonResults(rest);
      } else {
        RepairSingle(s);
        RepairKeepsNonResults(s[1..]);
        if !s[0].ToolResult? {
          NonResultsConcat([s[0]], Repair(s[1..]));
          NonResultsConcat([s[0]], s[1..]);
          assert s == [s[0]] + s[1..];
        }
      }
    }
  }

  // ---------------------------------------------------------------- stripping by position

  /** The result at i stands in the contiguous run behind an assistant that declares its id. */
  ghost predicate InOwnersRun(s: seq<Item>, i: nat)
    requires i < |s| && s[i].ToolResult?
  {
    exists a | 0 <= a < i && s[a].Assistant? ::
      s[i].callId in CallIds(s[a].calls) && forall k | a < k < i :: s[k].ToolResult?
  }

  /** The first n items without the results that stand outside their owner's run. */
  ghost function KeepInRun(s: seq<Item>, n: nat): seq<Item>
    requires n <= |s|
  {
    if n == 0 then []
    else KeepInRun(s, n - 1) + if s[n - 1].ToolResult? && !InOwnersRun(s, n - 1) then [] else [s[n - 1]]
  }

  /** The ids a result at position n may answer. */
  function RunIds(s: seq<Item>, n: nat): set<string>
    requires n <= |s|
  {
    if n == 0 then {} else RunIdsAfter(s[n - 1], RunIds(s, n - 1))
  }

  lemma {:induction false} RunIdsAreTheOwners(s: seq<Item>, n: nat, id: string)
    requires n <= |s|
    ensures id in RunIds(s, n) <==>
            exists a | 0 <= a < n && s[a].Assistant? ::
              id in CallIds(s[a].calls) && forall k | a < k < n :: s[k].ToolResult?
  {
    if n > 0 {
      RunIdsAreTheOwners(s, n - 1, id);
    }
  }

  lemma {:induction false} StripFrom(s: seq<Item>, n: nat)
    requires n <= |s|
    ensures KeepInRun(s, n) + Strip(s[n..], RunIds(s, n)) == Strip(s, {})
  {
    hide *;
    if n == 0 {
      StripFromStart(s);
    } else {
      StripFrom(s, n - 1);
      StripSingle(s, n - 1, RunIds(s, n - 1));
      KeepInRunStep(s, n);
      var kept := if s[n - 1].ToolResult? && s[n - 1].callId !in RunIds(s, n - 1) then [] else [s[n - 1]];
      var front, rest := KeepInRun(s, n - 1), Strip(s[n..], RunIds(s, n));
      assert front + (kept + rest) == (front + kept) + rest;
    }
  }

  lemma StripFromStart(s: seq<Item>)
    ensures KeepInRun(s, 0) + Strip(s[0..], RunIds(s, 0)) == Strip(s, {})
  {
    assert s[0..] == s;
    assert [] + Strip(s, {}) == Strip(s, {});
  }

  lemma KeepInRunStep(s: seq<Item>, n: nat)
    requires 0 < n <= |s|
    ensures KeepInRun(s, n) ==
            KeepInRun(s, n - 1) +
            if s[n - 1].ToolResult? && s[n - 1].callId !in RunIds(s, n - 1) then [] else [s[n - 1]]
    ensures RunIds(s, n) == RunIdsAfter(s[n - 1], RunIds(s, n - 1))
  {
    if s[n - 1].ToolResult? {
      RunIdsAreTheOwners(s, n - 1, s[n - 1].callId);
    }
  }

  /** Stripping removes exactly the results outside their owner's run. */
  lemma StripKeepsExactlyTheRuns(s: seq<Item>)
    ensures Strip(s, {}) == KeepInRun(s, |s|)
  {
    StripFrom(s, |s|);
  }

  /** The ids of the results outside their owner's run, in order. */
  ghost function DisplacedIds(s: seq<Item>, n: nat): seq<string>
    requires n <= |s|
  {
    if n == 0 then []
    else DisplacedIds(s, n - 1) + if s[n - 1].ToolResult? && !InOwnersRun(s, n - 1) then [s[n - 1].callId] else []
  }

  lemma {:induction false} StrippedIdsFrom(s: seq<Item>, n: nat)
    requires n <= |s|
    ensures DisplacedIds(s, n) + StrippedIds(s[n..], RunIds(s, n)) == StrippedIds(s, {})
  {
    hide *;
    if n == 0 {
      StrippedIdsFromStart(s);
    } else {
      StrippedIdsFrom(s, n - 1);
      StripSingle(s, n - 1, RunIds(s, n - 1));
      DisplacedIdsStep(s, n);
      var id := if s[n - 1].ToolResult? && s[n - 1].callId !in RunIds(s, n - 1) then [s[n - 1].callId] else [];
      var (front, rest) := (DisplacedIds(s, n - 1), StrippedIds(s[n..], RunIds(s, n)));
      assert front + (id + rest) == (front + id) + rest;
    }
  }

  lemma StrippedIdsFromStart(s: seq<Item>)
    ensures DisplacedIds(s, 0) + StrippedIds(s[0..], RunIds(s, 0)) == StrippedIds(s, {})
  {
    assert s[0..] == s;
    assert [] + StrippedIds(s, {}) == StrippedIds(s, {});
  }

  lemma DisplacedIdsStep(s: seq<Item>, n: nat)
    requires 0 < n <= |s|
    ensures RunIds(s, n) == RunIdsAfter(s[n - 1], RunIds(s, n - 1))
    ensures DisplacedIds(s, n) ==
            DisplacedIds(s, n - 1) +
            if s[n - 1].ToolResult? && s[n - 1].callId !in RunIds(s, n - 1) then [s[n - 1].callId] else []
  {
    if s[n - 1].ToolResult? {
      RunIdsAreTheOwners(s, n - 1, s[n - 1].callId);
    }
  }

  /** What stripping reports are the ids of exactly those results. */
  lemma StrippedIdsAreTheDisplaced(s: seq<Item>)
    ensures StrippedIds(s, {}) == DisplacedIds(s, |s|)
  {
    StrippedIdsFrom(s, |s|);
    assert s[|s|..] == [];
    assert DisplacedIds(s, |s|) + [] == DisplacedIds(s, |s|);
  }

  lemma {:induction false} StripIsIdempotent(s: seq<Item>, ids: set<string>)
    ensures Strip(Strip(s, ids), ids) == Strip(s, ids) && StrippedIds(Strip(s, ids), ids) == []
  {
    if s != [] {
      var rest := Strip(s[1..], RunIdsAfter(s[0], ids));
      StripIsIdempotent(s[1..], RunIdsAfter(s[0], ids));
      assert [] + rest == rest && ([s[0]] + rest)[1..] == rest;
    }
  }

  // ---------------------------------------------------------------- sanitizing

  function DeclaredBy(x: Item): set<string> {
    if x.Assistant? then CallIds(x.calls) else {}
  }

  function Sanitize(s: seq<Item>, seen: set<string>): seq<Item> {
    if s == [] then []
    else
      var rest := Sanitize(s[1..], seen + DeclaredBy(s[0]));
      if s[0].ToolResult? && s[0].callId !in seen then rest else [s[0]] + rest
  }

  /** The ids of results with no earlier call. */
  function InvalidIds(s: seq<Item>, seen: set<string>): seq<string> {
    if s == [] then []
    else
      (if s[0].ToolResult? && s[0].callId !in seen then [s[0].callId] else []) +
      InvalidIds(s[1..], seen + DeclaredBy(s[0]))
  }

  lemma {:induction false} SanitizedIsValid(s: seq<Item>, seen: set<string>)
    ensures InvalidIds(Sanitize(s, seen), seen) == []
    ensures InvalidIds(s, seen) == [] ==> Sanitize(s, seen) == s
  {
    if s != [] {
      SanitizedIsValid(s[1..], seen + DeclaredBy(s[0]));
      var rest := Sanitize(s[1..], seen + DeclaredBy(s[0]));
      assert ([s[0]] + rest)[1..] == rest;
      assert s[0].ToolResult? ==> seen + DeclaredBy(s[0]) == seen;
    }
  }

  /** Stripping sees through sanitizing: whatever sanitizing removes, stripping removes too. */
  lemma {:induction false} StrippingSubsumesSanitizing(s: seq<Item>, ids: set<string>, seen: set<string>)
    requires ids <= seen
    ensures Strip(Sanitize(s, seen), ids) == Strip(s, ids)
  {
    if s != [] {
      var more := seen + DeclaredBy(s[0]);
      var rest := Sanitize(s[1..], more);
      assert ([s[0]] + rest)[1..] == rest;
      StrippingSubsumesSanitizing(s[1..], RunIdsAfter(s[0], ids), more);
      assert [] + Strip(s[1..], ids) == Strip(s[1..], ids);
    }
  }

  lemma {:induction false} StrippedIsValid(s: seq<Item>, ids: set<string>, seen: set<string>)
    requires ids <= seen
    ensures InvalidIds(Strip(s, ids), seen) == []
  {
    if s != [] {
      var more := seen + DeclaredBy(s[0]);
      var rest := Strip(s[1..], RunIdsAfter(s[0], ids));
      StrippedIsValid(s[1..], RunIdsAfter(s[0], ids), more);
      assert s[0].ToolResult? ==> more == seen;
      assert [] + rest == rest && ([s[0]] + rest)[1..] == rest;
    }
  }

  /** Some assistant in front of the result at i declares its id. */
  ghost predicate HasEarlierCall(s: seq<Item>, i: nat)
    requires i < |s| && s[i].ToolResult?
  {
    exists a | 0 <= a < i && s[a].Assistant? :: s[i].callId in CallIds(s[a].calls)
  }

  /** The first n items without the results that have no earlier call. */
  ghost function KeepAnswers(s: seq<Item>, n: nat): seq<Item>
    requires n <= |s|
  {
    if n == 0 then []
    else KeepAnswers(s, n - 1) + if s[n - 1].ToolResult? && !HasEarlierCall(s, n - 1) then [] else [s[n - 1]]
  }

  /** The ids of those results, in order. */
  ghost function StrayIds(s: seq<Item>, n: nat): seq<string>
    requires n <= |s|
  {
    if n == 0 then []
    else StrayIds(s, n - 1) + if s[n - 1].ToolResult? && !HasEarlierCall(s, n - 1) then [s[n - 1].callId] else []
  }

  function Seen(s: seq<Item>, n: nat): set<string>
    requires n <= |s|
  {
    if n == 0 then {} else Seen(s, n - 1) + DeclaredBy(s[n - 1])
  }

  lemma {:induction false} SeenIsDeclared(s: seq<Item>, n: nat, id: string)
    requires n <= |s|
    ensures id in Seen(s, n) <==> exists a | 0 <= a < n && s[a].Assistant? :: id in CallIds(s[a].calls)
  {
    if n > 0 {
      SeenIsDeclared(s, n - 1, id);
    }
  }

  lemma {:induction false} SanitizeFrom(s: seq<Item>, n: nat)
    requires n <= |s|
    ensures KeepAnswers(s, n) + Sanitize(s[n..], Seen(s, n)) == Sanitize(s, {})
    ensures StrayIds(s, n) + InvalidIds(s[n..], Seen(s, n)) == InvalidIds(s, {})
  {
    hide *;
    if n == 0 {
      SanitizeFromStart(s);
    } else {
      SanitizeFrom(s, n - 1);
      var seen := Seen(s, n - 1);
      SanitizeSingle(s, n - 1, seen);
      KeepAnswersStep(s, n);
      var lost := s[n - 1].ToolResult? && s[n - 1].callId !in seen;
      var (kept, id) := if lost then ([], [s[n - 1].callId]) else ([s[n - 1]], []);
      var (front, rest) := (KeepAnswers(s, n - 1), Sanitize(s[n..], Seen(s, n)));
      assert front + (kept + rest) == (front + kept) + rest;
      var (stray, more) := (StrayIds(s, n - 1), InvalidIds(s[n..], Seen(s, n)));
      assert stray + (id + more) == (stray + id) + more;
    }
  }

  lemma SanitizeFromStart(s: seq<Item>)
    ensures KeepAnswers(s, 0) + Sanitize(s[0..], Seen(s, 0)) == Sanitize(s, {})
    ensures StrayIds(s, 0) + InvalidIds(s[0..], Seen(s, 0)) == InvalidIds(s, {})
  {
    assert s[0..] == s;
    assert [] + Sanitize(s, {}) == Sanitize(s, {}) && [] + InvalidIds(s, {}) == InvalidIds(s, {});
  }

  lemma KeepAnswersStep(s: seq<Item>, n: nat)
    requires 0 < n <= |s|
    ensures var lost := s[n - 1].ToolResult? && s[n - 1].callId !in Seen(s, n - 1);
            && KeepAnswers(s, n) == KeepAnswers(s, n - 1) + (if lost then [] else [s[n - 1]])
            && StrayIds(s, n) == StrayIds(s, n - 1) + if lost then [s[n - 1].callId] else []
    ensures Seen(s, n) == Seen(s, n - 1) + DeclaredBy(s[n - 1])
  {
    if s[n - 1].ToolResult? {
      SeenIsDeclared(s, n - 1, s[n - 1].callId);
    }
  }

  /** Sanitizing removes exactly the results without an earlier call, and reports their ids in order. */
  lemma SanitizeKeepsExactlyTheAnswers(s: seq<Item>)
    ensures Sanitize(s, {}) == KeepAnswers(s, |s|) && InvalidIds(s, {}) == StrayIds(s, |s|)
  {
    SanitizeFrom(s, |s|);
    SanitizeNothing(s, Seen(s, |s|));
    assert KeepAnswers(s, |s|) + [] == KeepAnswers(s, |s|) && StrayIds(s, |s|) + [] == StrayIds(s, |s|);
  }

  /** One item at a time, as the two loops below see it. */
  lemma SanitizeSingle(s: seq<Item>, i: nat, seen: set<string>)
    requires i < |s|
    ensures var lost := s[i].ToolResult? && s[i].callId !in seen;
            && Sanitize(s[i..], seen) == (if lost then [] else [s[i]]) + Sanitize(s[i + 1..], seen + DeclaredBy(s[i]))
            && InvalidIds(s[i..], seen) ==
               (if lost then [s[i].callId] else []) + InvalidIds(s[i + 1..], seen + DeclaredBy(s[i]))
    ensures !s[i].Assistant? ==> seen + DeclaredBy(s[i]) == seen
    ensures s[i].Assistant? ==> DeclaredBy(s[i]) == CallIds(s[i].calls)
  {
    assert s[i..][1..] == s[i + 1..];
    var rest := Sanitize(s[i + 1..], seen + DeclaredBy(s[i]));
    assert [] + rest == rest;
  }

  lemma SanitizeNothing(s: seq<Item>, seen: set<string>)
    ensures Sanitize(s[|s|..], seen) == [] && InvalidIds(s[|s|..], seen) == []
  {
  }

  method ValidateCompactedHistory(items: seq<Item>) returns (invalid: seq<string>)
    ensures invalid == InvalidIds(items, {})
  {
    hide Sanitize, InvalidIds, DeclaredBy;
    var seen: set<string> := {};
    invalid := [];
    assert items[0..] == items;
    for i := 0 to |items|
      invariant invalid + InvalidIds(items[i..], seen) == InvalidIds(items, {})
    {
      SanitizeSingle(items, i, seen);
      match items[i]
      case Assistant(_, calls) => seen := seen + CallIds(calls);
      case ToolResult(id, _, _) =>
        if id !in seen { invalid := invalid + [id]; }
      case _ =>
    }
    SanitizeNothing(items, seen);
  }

  method SanitizeCompactedHistory(items: seq<Item>) returns (sanitized: seq<Item>, stripped: seq<string>)
    ensures sanitized == Sanitize(items, {}) && stripped == InvalidIds(items, {})
    ensures InvalidIds(sanitized, {}) == []
  {
    hide Sanitize, InvalidIds, DeclaredBy;
    var seen: set<string> := {};
    sanitized, stripped := [], [];
    assert items[0..] == items;
    for i := 0 to |items|
      invariant sanitized + Sanitize(items[i..], seen) == Sanitize(items, {})
      invariant stripped + InvalidIds(items[i..], seen) == InvalidIds(items, {})
    {
      SanitizeSingle(items, i, seen);
      match items[i]
      case Assistant(_, calls) => seen, sanitized := seen + CallIds(calls), sanitized + [items[i]];
      case ToolResult(id, _, _) =>
        if id in seen {
          sanitized := sanitized + [items[i]];
        } else {
          stripped := stripped + [id];
        }
      case _ => sanitized := sanitized + [items[i]];
    }
    SanitizeNothing(items, seen);
    SanitizedIsValid(items, {});
  }

  // ---------------------------------------------------------------- the passes, in place

  /** The synthetic results to splice in at one position. */
  datatype Insertion = Insertion(at: nat, results: seq<Item>)

  predicate InsertionsWithin(ins: seq<Insertion>, n: nat) {
    && (forall i | 0 <= i < |ins| :: ins[i].at <= n)
    && (forall i, j | 0 <= i < j < |ins| :: ins[i].at <= ins[j].at)
  }

  /** All insertions, the last one first so that earlier positions stay valid. */
  function InsertAll(s: seq<Item>, ins: seq<Insertion>): seq<Item>
    requires InsertionsWithin(ins, |s|)
    decreases |ins|
  {
    if ins == [] then s
    else
      var last := ins[|ins| - 1];
      InsertAll(s[..last.at] + last.results + s[last.at..], ins[..|ins| - 1])
  }

  lemma {:induction false} InsertAllInFront(a: seq<Item>, b: seq<Item>, ins: seq<Insertion>)
    requires InsertionsWithin(ins, |a|)
    ensures InsertAll(a + b, ins) == InsertAll(a, ins) + b
    decreases |ins|
  {
    if ins == [] {
    } else {
      var last := ins[|ins| - 1];
      assert (a + b)[..last.at] == a[..last.at] && (a + b)[last.at..] == a[last.at..] + b;
      var a' := a[..last.at] + last.results + a[last.at..];
      assert (a + b)[..last.at] + last.results + (a + b)[last.at..] == a' + b;
      InsertAllInFront(a', b, ins[..|ins| - 1]);
    }
  }

  lemma InsertOneMore(a: seq<Item>, block: seq<Item>, results: seq<Item>, ins: seq<Insertion>)
    requires InsertionsWithin(ins, |a|)
    ensures InsertionsWithin(ins + [Insertion(|a + block|, results)], |a + block|)
    ensures InsertAll(a + block, ins + [Insertion(|a + block|, results)]) == InsertAll(a, ins) + block + results
  {
    var more := ins + [Insertion(|a + block|, results)];
    assert more[..|more| - 1] == ins;
    assert (a + block)[..|a + block|] + results + (a + block)[|a + block|..] == a + (block + results);
    InsertAllInFront(a, block + results, ins);
  }

  /** The id of the result at k comes again later in the run. */
  ghost predicate Superseded(run: seq<Item>, k: nat)
  {
    k < |run| && run[k].ToolResult? && HasId(run[k + 1..], run[k].callId)
  }

  lemma {:induction false} HasIdSnoc(run: seq<Item>, x: Item, id: string)
    ensures HasId(run + [x], id) <==> HasId(run, id) || (x.ToolResult? && x.callId == id)
  {
    if run == [] {
      assert [] + [x] == [x];
    } else {
      assert (run + [x])[1..] == run[1..] + [x];
      HasIdSnoc(run[1..], x, id);
    }
  }

  lemma {:induction false} HasIdMeans(run: seq<Item>, id: string)
    ensures HasId(run, id) <==> exists i | 0 <= i < |run| :: run[i].ToolResult? && run[i].callId == id
  {
    if run != [] {
      HasIdMeans(run[1..], id);
      if i :| 0 <= i < |run| && run[i].ToolResult? && run[i].callId == id {
        if i > 0 { assert run[1..][i - 1] == run[i]; }
      }
    }
  }

  lemma SupersededMeans(run: seq<Item>, k: nat)
    requires AllResults(run) && k < |run|
    ensures Superseded(run, k) <==> exists i | k < i < |run| :: run[i].callId == run[k].callId
  {
    HasIdMeans(run[k + 1..], run[k].callId);
    if i :| k < i < |run| && run[i].callId == run[k].callId {
      assert run[k + 1..][i - k - 1] == run[i];
    }
  }

  lemma KeepLastAgain(a: Item, run: seq<Item>, rest: seq<Item>)
    requires IsBlock(a, run, rest)
    ensures Dedup([a] + KeepLast(run) + rest) == Dedup([a] + run + rest)
  {
    DedupBlock(a, run, rest);
    DedupBlock(a, KeepLast(run), rest);
    forall id ensures CountId(KeepLast(run), id) <= 1 { KeepLastCounts(run, id); }
    KeepLastOfDistinct(KeepLast(run));
  }

  lemma KeepLastStep(run: seq<Item>, k: nat)
    requires AllResults(run) && k < |run|
    ensures AllResults(run[k..]) && AllResults(run[k + 1..])
    ensures KeepLast(run[k..]) == (if Superseded(run, k) then [] else [run[k]]) + KeepLast(run[k + 1..])
    ensures run[..k + 1] == run[..k] + [run[k]]
  {
    assert run[k..] == [run[k]] + run[k + 1..] && run[k..][1..] == run[k + 1..];
    assert [] + KeepLast(run[k + 1..]) == KeepLast(run[k + 1..]);
  }

  lemma KeepLastNil(run: seq<Item>)
    ensures run[|run|..] == [] && run[..|run|] == run && AllResults(run[|run|..]) && KeepLast(run[|run|..]) == []
  {
  }

  lemma KeepLastOn(front: seq<Item>, run: seq<Item>, k: nat, back: seq<Item>)
    requires AllResults(run) && k < |run|
    ensures AllResults(run[k..]) && AllResults(run[k + 1..])
    ensures front + run[..k + 1] == (front + run[..k]) + [run[k]]
    ensures var later := KeepLast(run[k + 1..]) + back;
            KeepLast(run[k..]) + back == if Superseded(run, k) then later else [run[k]] + later
  {
    hide *;
    KeepLastStep(run, k);
    var kept := KeepLast(run[k + 1..]);
    assert front + (run[..k] + [run[k]]) == (front + run[..k]) + [run[k]];
    assert ([run[k]] + kept) + back == [run[k]] + (kept + back) && [] + kept == kept;
  }

  /** An element taken from the front part to the back part, or taken out. */
  lemma StepBack<T>(s: seq<T>, i: nat, p: seq<T>, x: T, q: seq<T>)
    requires i < |s| && s[..i + 1] == p + [x] && s[i + 1..] == q
    ensures s[..i] == p && s[i..] == [x] + q
    ensures var cut := s[..i] + s[i + 1..]; cut[..i] == p && cut[i..] == q
  {
    assert s[..i] == s[..i + 1][..i];
    assert s[i] == s[..i + 1][i] == x;
  }

  function From(positions: set<nat>, k: nat): set<nat> {
    set d | d in positions && d >= k
  }

  lemma FromStep(positions: set<nat>, k: nat)
    ensures |From(positions, k)| == |From(positions, k + 1)| + if k in positions then 1 else 0
  {
    assert From(positions, k) == From(positions, k + 1) + if k in positions then {k} else {};
  }

  lemma FromZero(positions: set<nat>)
    ensures From(positions, 0) == positions
  {
  }

  lemma NoneFromTheEnd(run: seq<Item>, doomed: set<nat>)
    requires forall k: nat :: k in doomed <==> Superseded(run, k)
    ensures |From(doomed, |run|)| == 0
  {
    assert From(doomed, |run|) == {};
  }

  class History {
    var items: seq<Item>

    constructor (items: seq<Item>)
      ensures this.items == items
    {
      this.items := items;
    }

    /** The end of the run of results that starts at the given position. */
    method RunEnd(start: nat) returns (end: nat)
      requires start <= |items|
      ensures end == start + ResultRun(items[start..])
    {
      end := start;
      while end < |items| && items[end].ToolResult?
        invariant start <= end <= |items|
        invariant ResultRun(items[start..]) == end - start + ResultRun(items[end..])
      {
        assert items[end..][1..] == items[end + 1..];
        end := end + 1;
      }
    }

    /** The positions in a run whose id comes again later in it. */
    static method FindSuperseded(run: seq<Item>) returns (doomed: set<nat>)
      requires AllResults(run)
      ensures forall k: nat :: k in doomed <==> Superseded(run, k)
    {
      var seen: map<string, nat> := map[];
      doomed := {};
      for idx := 0 to |run|
        invariant forall id | id in seen :: seen[id] < idx && run[seen[id]].callId == id
        invariant forall k | 0 <= k < idx :: run[k].callId in seen && k <= seen[run[k].callId]
        invariant forall k: nat :: k in doomed <==> k < idx && k < seen[run[k].callId]
      {
        var id := run[idx].callId;
        if id in seen {
          doomed := doomed + {seen[id]};
        }
        seen := seen[id := idx];
      }
      forall k: nat ensures k in doomed <==> Superseded(run, k) {
        if k < |run| {
          SupersededMeans(run, k);
          if k in doomed { assert run[seen[run[k].callId]].callId == run[k].callId; }
        }
      }
    }

    /** Removes the superseded results of the run at start, from the highest position down. */
    method RemoveSuperseded(start: nat, ghost run: seq<Item>, n: nat, doomed: set<nat>)
      requires start + n <= |items| && items[start..start + n] == run && AllResults(run)
      requires forall k: nat :: k in doomed <==> Superseded(run, k)
      modifies this
      ensures items == old(items)[..start] + KeepLast(run) + old(items)[start + n..]
      ensures |items| == |old(items)| - |doomed|
    {
      hide *;
      ghost var front, back := items[..start], items[start + n..];
      var k := n;
      KeepLastNil(run);
      NoneFromTheEnd(run, doomed);
      assert items == front + run + back;
      while k > 0
        invariant 0 <= k <= n == |run| && AllResults(run[k..]) && start + k <= |items|
        invariant items[..start + k] == front + run[..k] && items[start + k..] == KeepLast(run[k..]) + back
        invariant |items| == |front| + n + |back| - |From(doomed, k)|
      {
        k := k - 1;
        KeepLastOn(front, run, k, back);
        FromStep(doomed, k);
        StepBack(items, start + k, front + run[..k], run[k], KeepLast(run[k + 1..]) + back);
        if k in doomed {
          items := items[..start + k] + items[start + k + 1..];
        }
      }
      assert From(doomed, 0) == doomed by { FromZero(doomed); }
      assert run[..0] == [] && run[0..] == run;
    }

    /** One visit of an assistant that declares calls: drops the superseded results behind it, if any. */
    method DedupRun(i: nat) returns (removed: nat, end: nat)
      requires i < |items| && items[i].DeclaresCalls()
      modifies this
      ensures |items| == |old(items)| - removed && i < |items| && items[..i] == old(items)[..i]
      ensures Dedup(items[i..]) == Dedup(old(items)[i..])
      ensures removed == 0 ==>
                i < end <= |items| && items == old(items) && Dedup(items[i..]) == items[i..end] + Dedup(items[end..])
    {
      hide *;
      end := RunEnd(i + 1);
      ghost var a, before, rest := items[i], items, items[end..];
      RunBehind(before, i, end);
      var run := items[i + 1..end];
      var doomed := FindSuperseded(run);
      RemoveSuperseded(i + 1, run, |run|, doomed);
      AfterTheRun(before, i, end, KeepLast(run));
      assert items[i..] == [a] + KeepLast(run) + rest;
      KeepLastAgain(a, run, rest);
      if doomed == {} {
        NothingSuperseded(run, doomed);
        DedupBlock(a, run, rest);
        assert before[i..end] == [a] + run;
      }
      removed := |doomed|;
    }

    method DedupDuplicateToolResults() returns (removed: nat)
      modifies this
      ensures items == Dedup(old(items)) && removed == |old(items)| - |items|
    {
      hide *;
      removed := 0;
      var i := 0;
      assert items[..0] + Dedup(items[0..]) == Dedup(items) by { assert items[0..] == items; }
      while i < |items|
        invariant i <= |items|
        invariant items[..i] + Dedup(items[i..]) == Dedup(old(items))
        invariant removed + |items| == |old(items)|
        decreases |items| - i
      {
        if items[i].DeclaresCalls() {
          var dropped, end := DedupRun(i);
          removed := removed + dropped;
          if dropped > 0 { continue; }
          assert items[..end] == items[..i] + items[i..end];
          i := end;
        } else {
          DedupSingle(items, i);
          assert items[..i + 1] == items[..i] + [items[i]];
          i := i + 1;
        }
      }
      assert items[..i] == items && items[i..] == [];
      DedupNothing();
    }

    method StripDisplacedToolResults() returns (stripped: seq<string>)
      modifies this
      ensures items == Strip(old(items), {}) && stripped == StrippedIds(old(items), {})
    {
      hide Strip, StrippedIds;
      var runIds: set<string> := {};
      var kept: seq<Item> := [];
      stripped := [];
      assert items[0..] == items;
      for i := 0 to |items|
        invariant items == old(items)
        invariant kept + Strip(items[i..], runIds) == Strip(items, {})
        invariant stripped + StrippedIds(items[i..], runIds) == StrippedIds(items, {})
      {
        StripSingle(items, i, runIds);
        match items[i]
        case Assistant(_, calls) => runIds, kept := CallIds(calls), kept + [items[i]];
        case ToolResult(id, _, _) =>
          if id in runIds {
            kept := kept + [items[i]];
          } else {
            stripped := stripped + [id];
          }
        case _ => runIds, kept := {}, kept + [items[i]];
      }
      StripNothing(items, runIds);
      items := kept;
    }

    static method AnsweredIds(run: seq<Item>) returns (answered: set<string>)
      requires AllResults(run)
      ensures forall id :: id in answered <==> HasId(run, id)
    {
      answered := {};
      for k := 0 to |run|
        invariant forall id :: id in answered <==> exists i | 0 <= i < k :: run[i].callId == id
      {
        answered := answered + {run[k].callId};
      }
      forall id ensures id in answered <==> HasId(run, id) { HasIdMeans(run, id); }
    }

    /** The unanswered calls of one assistant, as synthetic results in call order. */
    static method SyntheticResults(calls: seq<ToolCall>, run: seq<Item>) returns (out: seq<Item>)
      requires AllResults(run)
      ensures out == Synthetic(calls, run)
    {
      hide Synthetic, HasId, SyntheticResult;
      var answered := AnsweredIds(run);
      out := [];
      assert calls[0..] == calls;
      for k := 0 to |calls|
        invariant out + Synthetic(calls[k..], run) == Synthetic(calls, run)
      {
        SyntheticSingle(calls, k, run);
        if calls[k].id !in answered {
          out := out + [SyntheticResult(calls[k])];
        }
      }
      SyntheticNothing(calls, run);
    }

    /** Phase one: where results are missing, and which. */
    method FindDangling() returns (repairs: seq<Insertion>, total: nat)
      ensures InsertionsWithin(repairs, |items|)
      ensures InsertAll(items, repairs) == Backfill(items)
      ensures total == |Backfill(items)| - |items|
    {
      hide Backfill, InsertAll, InsertionsWithin, ResultRun, Synthetic, AllResults;
      repairs, total := [], 0;
      var i := 0;
      InsertNothing(items);
      while i < |items|
        invariant i <= |items| && InsertionsWithin(repairs, i)
        invariant BackfilledUpTo(items, i, repairs, total)
      {
        if items[i].DeclaresCalls() {
          var j := RunEnd(i + 1);
          RunIsResults(items, i, j);
          var synthetic := SyntheticResults(items[i].calls, items[i + 1..j]);
          BackfillBlockStep(items, i, j, repairs, total, synthetic);
          if synthetic != [] {
            repairs := repairs + [Insertion(j, synthetic)];
            total := total + |synthetic|;
          }
          i := j;
        } else {
          BackfillSingleStep(items, i, repairs, total);
          i := i + 1;
        }
      }
      BackfillNothing();
      assert items[..i] == items && items[i..] == [];
    }

    method RepairDanglingToolCalls() returns (total: nat)
      modifies this
      ensures items == Backfill(old(items)) && total == |items| - |old(items)|
    {
      var repairs;
      repairs, total := FindDangling();
      var k := |repairs|;
      assert repairs[..k] == repairs;
      while k > 0
        invariant 0 <= k <= |repairs| && InsertionsWithin(repairs[..k], |items|)
        invariant InsertAll(items, repairs[..k]) == Backfill(old(items))
      {
        k := k - 1;
        assert repairs[..k + 1][..k] == repairs[..k];
        var at, results := repairs[k].at, repairs[k].results;
        items := items[..at] + results + items[at..];
      }
    }

    /** Dedup, strip, then backfill. */
    method RepairHistory() returns (report: Report)
      modifies this
      ensures items == Repair(old(items)) && report == ReportOf(old(items))
    {
      hide Dedup, Strip, StrippedIds, Backfill;
      var duplicatesRemoved := DedupDuplicateToolResults();
      var strippedIds := StripDisplacedToolResults();
      var syntheticInserted := RepairDanglingToolCalls();
      report := Report(duplicatesRemoved, strippedIds, syntheticInserted);
    }
  }

  lemma StripSingle(s: seq<Item>, i: nat, ids: set<string>)
    requires i < |s|
    ensures var lost := s[i].ToolResult? && s[i].callId !in ids;
            && Strip(s[i..], ids) == (if lost then [] else [s[i]]) + Strip(s[i + 1..], RunIdsAfter(s[i], ids))
            && StrippedIds(s[i..], ids) ==
               (if lost then [s[i].callId] else []) + StrippedIds(s[i + 1..], RunIdsAfter(s[i], ids))
  {
    assert s[i..][1..] == s[i + 1..];
  }

  lemma StripNothing(s: seq<Item>, ids: set<string>)
    ensures Strip(s[|s|..], ids) == [] && StrippedIds(s[|s|..], ids) == []
  {
  }

  lemma SyntheticSingle(calls: seq<ToolCall>, k: nat, run: seq<Item>)
    requires k < |calls|
    ensures Synthetic(calls[k..], run) ==
            (if HasId(run, calls[k].id) then [] else [SyntheticResult(calls[k])]) + Synthetic(calls[k + 1..], run)
  {
    assert calls[k..][1..] == calls[k + 1..];
  }

  lemma SyntheticNothing(calls: seq<ToolCall>, run: seq<Item>)
    ensures Synthetic(calls[|calls|..], run) == []
  {
  }

  /** The insertions found so far backfill the first i items. */
  ghost predicate BackfilledUpTo(s: seq<Item>, i: nat, repairs: seq<Insertion>, total: nat)
    requires i <= |s| && InsertionsWithin(repairs, i)
  {
    && InsertAll(s[..i], repairs) + Backfill(s[i..]) == Backfill(s)
    && |InsertAll(s[..i], repairs)| == i + total
  }

  lemma InsertNothing(s: seq<Item>)
    ensures InsertionsWithin([], 0) && BackfilledUpTo(s, 0, [], 0)
  {
    assert s[0..] == s;
  }

  lemma RunIsResults(s: seq<Item>, i: nat, j: nat)
    requires i < |s| && s[i].DeclaresCalls() && j == i + 1 + ResultRun(s[i + 1..])
    ensures AllResults(s[i + 1..j])
  {
    RunBehind(s, i, j);
  }

  lemma BackfillBlockStep(s: seq<Item>, i: nat, j: nat, repairs: seq<Insertion>, total: nat, synthetic: seq<Item>)
    requires i < |s| && s[i].DeclaresCalls() && j == i + 1 + ResultRun(s[i + 1..])
    requires InsertionsWithin(repairs, i) && BackfilledUpTo(s, i, repairs, total)
    requires AllResults(s[i + 1..j]) && synthetic == Synthetic(s[i].calls, s[i + 1..j])
    ensures var more := if synthetic == [] then repairs else repairs + [Insertion(j, synthetic)];
            InsertionsWithin(more, j) && BackfilledUpTo(s, j, more, total + |synthetic|)
  {
    hide *;
    RunBehind(s, i, j);
    BackfillBlock(s[i], s[i + 1..j], s[j..]);
    UpTo(s, i, repairs, total);
    var block := [s[i]] + s[i + 1..j];
    var done, rest := InsertAll(s[..i], repairs), Backfill(s[j..]);
    assert s[..j] == s[..i] + block;
    if synthetic == [] {
      InsertAllInFront(s[..i], block, repairs);
      WithinMore(repairs, i, j);
      assert done + (block + synthetic + rest) == (done + block) + rest;
      UpTo(s, j, repairs, total);
    } else {
      InsertOneMore(s[..i], block, synthetic, repairs);
      assert done + (block + synthetic + rest) == (done + block + synthetic) + rest;
      UpTo(s, j, repairs + [Insertion(j, synthetic)], total + |synthetic|);
    }
  }

  lemma BackfillSingleStep(s: seq<Item>, i: nat, repairs: seq<Insertion>, total: nat)
    requires i < |s| && !s[i].DeclaresCalls()
    requires InsertionsWithin(repairs, i) && BackfilledUpTo(s, i, repairs, total)
    ensures InsertionsWithin(repairs, i + 1) && BackfilledUpTo(s, i + 1, repairs, total)
  {
    hide *;
    BackfillSingle(s, i);
    WithinMore(repairs, i, i + 1);
    UpTo(s, i, repairs, total);
    UpTo(s, i + 1, repairs, total);
    assert s[..i + 1] == s[..i] + [s[i]];
    InsertAllInFront(s[..i], [s[i]], repairs);
    var done, rest := InsertAll(s[..i], repairs), Backfill(s[i + 1..]);
    assert done + ([s[i]] + rest) == (done + [s[i]]) + rest;
  }

  lemma BackfillSingle(s: seq<Item>, i: nat)
    requires i < |s| && !s[i].DeclaresCalls()
    ensures Backfill(s[i..]) == [s[i]] + Backfill(s[i + 1..])
  {
    assert s[i..][1..] == s[i + 1..];
  }

  lemma WithinMore(ins: seq<Insertion>, n: nat, more: nat)
    requires InsertionsWithin(ins, n) && n <= more
    ensures InsertionsWithin(ins, more)
  {
  }

  lemma UpTo(s: seq<Item>, i: nat, repairs: seq<Insertion>, total: nat)
    requires i <= |s| && InsertionsWithin(repairs, i)
    ensures BackfilledUpTo(s, i, repairs, total) <==>
            && InsertAll(s[..i], repairs) + Backfill(s[i..]) == Backfill(s)
            && |InsertAll(s[..i], repairs)| == i + total
  {
  }

  lemma BackfillNothing()
    ensures Backfill([]) == []
  {
  }

  lemma DedupNothing()
    ensures Dedup([]) == []
  {
  }

  lemma DedupSingle(s: seq<Item>, i: nat)
    requires i < |s| && !s[i].DeclaresCalls()
    ensures Dedup(s[i..]) == [s[i]] + Dedup(s[i + 1..])
  {
    assert s[i..][1..] == s[i + 1..];
  }

  /** Replacing the run behind position i leaves everything before it and after it in place. */
  lemma AfterTheRun(s: seq<Item>, i: nat, end: nat, kept: seq<Item>)
    requires i < end <= |s|
    ensures (s[..i + 1] + kept + s[end..])[..i] == s[..i]
    ensures (s[..i + 1] + kept + s[end..])[i..] == [s[i]] + kept + s[end..]
    ensures kept == s[i + 1..end] ==> s[..i + 1] + kept + s[end..] == s
  {
  }

  lemma RunBehind(s: seq<Item>, i: nat, end: nat)
    requires i < |s| && s[i].DeclaresCalls() && end == i + 1 + ResultRun(s[i + 1..])
    ensures s[i..] == [s[i]] + s[i + 1..end] + s[end..]
    ensures IsBlock(s[i], s[i + 1..end], s[end..]) && AllResults(s[i + 1..end])
  {
    var n := ResultRun(s[i + 1..]);
    assert s[i + 1..end] == s[i + 1..][..n] && s[end..] == s[i + 1..][n..];
  }

  lemma NothingSuperseded(run: seq<Item>, doomed: set<nat>)
    requires AllResults(run) && doomed == {}
    requires forall k: nat :: k in doomed <==> Superseded(run, k)
    ensures KeepLast(run) == run
  {
    forall i, j | 0 <= i < j < |run| ensures run[i].callId != run[j].callId {
      SupersededMeans(run, i);
    }
    AllDifferent(run);
  }

  lemma {:induction false} AllDifferent(run: seq<Item>)
    requires AllResults(run)
    requires forall i, j | 0 <= i < j < |run| :: run[i].callId != run[j].callId
    ensures KeepLast(run) == run
  {
    if run != [] {
      HasIdMeans(run[1..], run[0].callId);
      AllDifferent(run[1..]);
    }
  }
}
