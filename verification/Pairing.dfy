/** Histories whose tool results stand with their calls, cut and joined. */
module Pairing {
  import opened Conversation
  import opened ToolRepair

  /** Every result stands in the run behind the assistant that declares it. */
  predicate InRuns(s: seq<Item>, ids: set<string>) {
    StrippedIds(s, ids) == []
  }

  lemma InRunsStep(s: seq<Item>, ids: set<string>)
    requires s != []
    ensures InRuns(s, ids) <==>
            (s[0].ToolResult? ==> s[0].callId in ids) && InRuns(s[1..], RunIdsAfter(s[0], ids))
  {
    hide RunIdsAfter;
  }

  lemma {:induction false} InRunsSuffix(s: seq<Item>, ids: set<string>, k: nat)
    requires InRuns(s, ids) && k < |s| && !s[k].ToolResult?
    ensures InRuns(s[k..], {})
    decreases k
  {
    hide InRuns;
    InRunsStep(s, ids);
    if k == 0 {
      assert s[0..] == s;
      InRunsStep(s, {});
      assert RunIdsAfter(s[0], ids) == RunIdsAfter(s[0], {});
    } else {
      assert s[1..][k - 1..] == s[k..];
      InRunsSuffix(s[1..], RunIdsAfter(s[0], ids), k - 1);
    }
  }

  lemma NothingInRuns(ids: set<string>)
    ensures InRuns([], ids)
  {
  }

  lemma ResultInRun(s: seq<Item>, k: nat)
    requires k < ResultRun(s)
    ensures s[k].ToolResult?
  {
    assert s[..ResultRun(s)][k] == s[k];
  }

  lemma {:induction false} PairedSuffix(s: seq<Item>, k: nat)
    requires Paired(s) && k < |s| && !s[k].ToolResult?
    ensures Paired(s[k..])
    decreases |s|
  {
    hide AnswersExactlyOnce;
    if k == 0 {
      assert s[0..] == s;
    } else if s[0].DeclaresCalls() {
      var n := ResultRun(s[1..]);
      var rest := s[1..][n..];
      if k <= n {
        ResultInRun(s[1..], k - 1);
      }
      assert rest[k - 1 - n..] == s[k..];
      PairedSuffix(rest, k - 1 - n);
    } else {
      assert s[1..][k - 1..] == s[k..];
      PairedSuffix(s[1..], k - 1);
    }
  }

  lemma PairedBlock(a: Item, run: seq<Item>)
    requires a.DeclaresCalls() && AllResults(run)
    ensures Paired([a] + run) <==> AnswersExactlyOnce(a.calls, run)
  {
    hide AnswersExactlyOnce, ResultRun;
    assert run + [] == run && ([a] + run)[1..] == run;
    ResultRunIs(run, []);
    assert run[..|run|] == run && run[|run|..] == [];
  }

  lemma PairedIsInRuns(s: seq<Item>)
    requires Paired(s)
    ensures InRuns(s, {})
  {
    hide Paired;
    UnchangedIffPaired(s);
  }

  lemma PairedPlain(x: Item, rest: seq<Item>)
    requires !x.ToolResult? && !x.DeclaresCalls()
    ensures Paired([x] + rest) <==> Paired(rest)
  {
    hide AnswersExactlyOnce;
    assert ([x] + rest)[1..] == rest;
  }

  lemma PairedBlockAndRest(a: Item, run: seq<Item>, rest: seq<Item>)
    requires IsBlock(a, run, rest)
    ensures Paired([a] + run + rest) <==> AnswersExactlyOnce(a.calls, run) && Paired(rest)
  {
    hide AnswersExactlyOnce, ResultRun;
    HeadOfBlock(a, run, rest);
  }

  lemma PairedHead(s: seq<Item>)
    requires Paired(s)
    ensures s == [] || !s[0].ToolResult?
  {
  }

  /** One paired history behind another is paired. */
  lemma {:induction false} PairedConcat(a: seq<Item>, b: seq<Item>)
    requires Paired(a) && Paired(b)
    ensures Paired(a + b)
    decreases |a|
  {
    hide Paired, AnswersExactlyOnce;
    PairedHead(a);
    PairedHead(b);
    if a == [] {
      assert a + b == b;
    } else if a[0].DeclaresCalls() {
      var run, rest := SplitBlock(a);
      PairedBlockAndRest(a[0], run, rest);
      PairedConcat(rest, b);
      PairedHead(rest + b);
      PairedBlockAndRest(a[0], run, rest + b);
      assert a + b == [a[0]] + run + (rest + b);
    } else {
      assert a == [a[0]] + a[1..];
      PairedPlain(a[0], a[1..]);
      PairedConcat(a[1..], b);
      PairedPlain(a[0], a[1..] + b);
      assert a + b == [a[0]] + (a[1..] + b);
    }
  }
}
