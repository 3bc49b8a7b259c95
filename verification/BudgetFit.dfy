/**
 Fitting a conversation to a token budget: the system head and the longest affordable suffix, never starting inside a
 run of tool results; when nothing fits, the last turn alone, truncated in place.
 */
module BudgetFit {
  import opened Arithmetic
  import opened Options
  import opened Text
  import opened Conversation
  import opened Pairing
  import ToolRepair

  /** The token estimate of one item, taken as given. */
  type Estimate = Item -> nat

  function Total(cost: Estimate, s: seq<Item>): nat {
    if s == [] then 0 else cost(s[0]) + Total(cost, s[1..])
  }

  // ---------------------------------------------------------------- truncating one item

  const MARKER_RESERVE: nat := 64
  const MARKER_HEAD := "\n[... truncated "
  const MARKER_TAIL := " bytes to fit the compaction window ...]"

  /** How many leading characters fit in the bytes. */
  function LongestPrefix(s: string, bytes: nat): (k: nat)
    ensures k <= |s|
  {
    if s == "" || Utf8Length(s[0]) > bytes then 0 else 1 + LongestPrefix(s[1..], bytes - Utf8Length(s[0]))
  }

  function Marker(dropped: nat): string {
    MARKER_HEAD + Decimal(dropped) + MARKER_TAIL
  }

  function TruncateText(s: string, maxBytes: nat): string {
    if Utf8Bytes(s) <= maxBytes then s
    else
      var kept := s[..LongestPrefix(s, Minus(maxBytes, MARKER_RESERVE))];
      kept + Marker(Minus(Utf8Bytes(s), Utf8Bytes(kept)))
  }

  function TruncateParts(parts: seq<ContentPart>, maxBytes: nat): seq<ContentPart> {
    if parts == [] then []
    else
      [if parts[0].Text? then Text(TruncateText(parts[0].text, maxBytes)) else parts[0]] +
      TruncateParts(parts[1..], maxBytes)
  }

  const BYTES_PER_TOKEN: nat := 4

  /** Only text is shortened: ids, calls, images and reasons stay. */
  function TruncateItem(x: Item, tokens: nat): Item {
    var maxBytes := tokens * BYTES_PER_TOKEN;
    match x
    case ToolResult(id, text, images) => ToolResult(id, TruncateText(text, maxBytes), images)
    case Assistant(text, calls) => Assistant(TruncateText(text, maxBytes), calls)
    case User(content, reason) => User(TruncateParts(content, maxBytes), reason)
    case _ => x
  }

  function TruncateAll(s: seq<Item>, tokens: nat): seq<Item> {
    if s == [] then [] else [TruncateItem(s[0], tokens)] + TruncateAll(s[1..], tokens)
  }

  /** The prefix fits, and one more character would not. */
  lemma {:induction false} PrefixIsLongest(s: string, bytes: nat)
    ensures Utf8Bytes(s[..LongestPrefix(s, bytes)]) <= bytes
    ensures forall k | LongestPrefix(s, bytes) < k <= |s| :: Utf8Bytes(s[..k]) > bytes
  {
    if s != "" {
      var first := Utf8Length(s[0]);
      forall k | 0 < k <= |s| ensures Utf8Bytes(s[..k]) == first + Utf8Bytes(s[1..][..k - 1]) {
        assert s[..k][1..] == s[1..][..k - 1];
      }
      if first <= bytes {
        PrefixIsLongest(s[1..], bytes - first);
      }
      assert s[..0] == "";
    }
  }

  lemma MarkerBytes(dropped: nat)
    ensures Utf8Bytes(Marker(dropped)) == 56 + |Decimal(dropped)|
  {
    hide Decimal, Utf8Bytes;
    var m := Marker(dropped);
    AsciiText(MARKER_HEAD, MARKER_TAIL);
    assert IsAscii(m);
    AsciiBytes(m);
  }

  lemma AsciiText(head: string, tail: string)
    requires head == MARKER_HEAD && tail == MARKER_TAIL
    ensures IsAscii(head) && IsAscii(tail) && |head| == 16 && |tail| == 40
  {
  }

  /**
   A text over the limit keeps its longest prefix within the limit less the reserve; the marker counts the rest.
   The whole stays within the limit exactly if the marker fits beside that prefix. The reserve sees to that for limits
   from it on and counts of up to eight digits; no text does so within a limit that is shorter than every marker.
   */
  lemma TruncatedText(s: string, maxBytes: nat)
    requires Utf8Bytes(s) > maxBytes
    ensures exists k | 0 <= k <= |s| ::
              && TruncateText(s, maxBytes) == s[..k] + Marker(Utf8Bytes(s[k..]))
              && Utf8Bytes(s[..k]) <= Minus(maxBytes, MARKER_RESERVE)
              && (forall j | k < j <= |s| :: Utf8Bytes(s[..j]) > Minus(maxBytes, MARKER_RESERVE))
    ensures maxBytes >= MARKER_RESERVE && Utf8Bytes(s) < Pow10(8) ==> Utf8Bytes(TruncateText(s, maxBytes)) <= maxBytes
    ensures maxBytes < MARKER_RESERVE ==>
              (Utf8Bytes(TruncateText(s, maxBytes)) <= maxBytes <==> 56 + |Decimal(Utf8Bytes(s))| <= maxBytes)
    ensures var k := LongestPrefix(s, Minus(maxBytes, MARKER_RESERVE));
            && TruncateText(s, maxBytes) == s[..k] + Marker(Utf8Bytes(s[k..]))
            && (Utf8Bytes(TruncateText(s, maxBytes)) <= maxBytes <==>
                  Utf8Bytes(s[..k]) + 56 + |Decimal(Utf8Bytes(s[k..]))| <= maxBytes)
    ensures maxBytes <= 56 ==> Utf8Bytes(TruncateText(s, maxBytes)) > maxBytes
  {
    hide Utf8Bytes, LongestPrefix, Marker, Decimal, Pow10;
    var keep := Minus(maxBytes, MARKER_RESERVE);
    var k := LongestPrefix(s, keep);
    PrefixIsLongest(s, keep);
    assert s == s[..k] + s[k..];
    Utf8Concat(s[..k], s[k..]);
    var dropped := Utf8Bytes(s[k..]);
    MarkerBytes(dropped);
    Utf8Concat(s[..k], Marker(dropped));
    DecimalLength(dropped, 8);
    if keep == 0 {
      OnlyNothingIsFree(s[..k]);
    }
  }

  lemma OnlyNothingIsFree(s: string)
    requires Utf8Bytes(s) == 0
    ensures s == ""
  {
  }

  // ---------------------------------------------------------------- fitting

  /** Walking back from item n, as long as each item still fits in what remains. */
  function AffordableFrom(cost: Estimate, body: seq<Item>, n: nat, remaining: nat): (start: nat)
    requires n <= |body|
    ensures start <= n
  {
    if n == 0 || cost(body[n - 1]) > remaining then n
    else AffordableFrom(cost, body, n - 1, remaining - cost(body[n - 1]))
  }

  function SkipResults(body: seq<Item>, start: nat): (k: nat)
    requires start <= |body|
    ensures start <= k <= |body|
  {
    start + ResultRun(body[start..])
  }

  /** How many items stand before the trailing run of tool results. */
  function BeforeTrailingRun(body: seq<Item>): (k: nat)
    ensures k <= |body|
  {
    if body == [] || !body[|body| - 1].ToolResult? then |body| else BeforeTrailingRun(body[..|body| - 1])
  }

  /** The last turn: the trailing results behind the assistant that called for them, or the last item. */
  function RecoverTail(cost: Estimate, body: seq<Item>, budget: nat): seq<Item> {
    var k := BeforeTrailingRun(body);
    var results := body[k..];
    if results == [] then
      if body == [] then [] else [TruncateItem(body[|body| - 1], budget)]
    else
      var owner := if k > 0 && body[k - 1].DeclaresCalls() then [body[k - 1]] else [];
      var perResult := Max(Minus(budget, Total(cost, owner)) / |results|, 1);
      owner + TruncateAll(results, perResult)
  }

  function HeadOf(s: seq<Item>): seq<Item> {
    if s != [] && s[0].System? then [s[0]] else []
  }

  function BodyOf(s: seq<Item>): seq<Item> {
    if s != [] && s[0].System? then s[1..] else s
  }

  function BudgetOf(cost: Estimate, s: seq<Item>, maxTokens: nat): nat {
    Minus(maxTokens, Total(cost, HeadOf(s)))
  }

  function StartOf(cost: Estimate, s: seq<Item>, maxTokens: nat): (k: nat)
    ensures k <= |BodyOf(s)|
  {
    var body := BodyOf(s);
    SkipResults(body, AffordableFrom(cost, body, |body|, BudgetOf(cost, s, maxTokens)))
  }

  function Fit(cost: Estimate, s: seq<Item>, maxTokens: nat): seq<Item> {
    if Total(cost, s) <= maxTokens then s
    else
      var (body, start) := (BodyOf(s), StartOf(cost, s, maxTokens));
      HeadOf(s) + if start < |body| then body[start..] else RecoverTail(cost, body, BudgetOf(cost, s, maxTokens))
  }

  // ---------------------------------------------------------------- the chosen suffix

  lemma {:induction false} TotalConcat(cost: Estimate, a: seq<Item>, b: seq<Item>)
    ensures Total(cost, a + b) == Total(cost, a) + Total(cost, b)
  {
    if a == [] {
      assert a + b == b;
    } else {
      assert (a + b)[1..] == a[1..] + b;
      TotalConcat(cost, a[1..], b);
    }
  }

  lemma TotalSnoc(cost: Estimate, body: seq<Item>, k: nat, n: nat)
    requires k < n <= |body|
    ensures Total(cost, body[k..n]) == Total(cost, body[k..n - 1]) + cost(body[n - 1])
  {
    hide Total;
    assert body[k..n] == body[k..n - 1] + [body[n - 1]];
    TotalConcat(cost, body[k..n - 1], [body[n - 1]]);
    TotalSingle(cost, body[n - 1]);
  }

  lemma TotalSingle(cost: Estimate, x: Item)
    ensures Total(cost, [x]) == cost(x)
  {
    assert [x][1..] == [];
  }

  /** The walk finds exactly the affordable stretches that end at n. */
  lemma {:induction false} AffordableExactly(cost: Estimate, body: seq<Item>, n: nat, remaining: nat, k: nat)
    requires k <= n <= |body|
    ensures Total(cost, body[k..n]) <= remaining <==> AffordableFrom(cost, body, n, remaining) <= k
    decreases n
  {
    if k == n {
      assert body[k..n] == [];
    } else {
      TotalSnoc(cost, body, k, n);
      if cost(body[n - 1]) <= remaining {
        AffordableExactly(cost, body, n - 1, remaining - cost(body[n - 1]), k);
      }
    }
  }

  /** The suffix starts at item k: it fits, and it does not start with a tool result. */
  predicate IsCandidate(cost: Estimate, body: seq<Item>, budget: nat, k: nat) {
    k < |body| && Total(cost, body[k..]) <= budget && !body[k].ToolResult?
  }

  lemma ResultsAreSkipped(body: seq<Item>, start: nat)
    requires start <= |body|
    ensures var k := SkipResults(body, start);
            && (k < |body| ==> !body[k].ToolResult?)
            && forall i | start <= i < k :: body[i].ToolResult?
  {
    var rest := body[start..];
    var n := ResultRun(rest);
    assert forall i | start <= i < start + n :: body[i] == rest[..n][i - start];
    assert n < |rest| ==> rest[n] == body[start + n];
  }

  /**
   The start is the first candidate, so the suffix is the longest one; there is none only if no item is a candidate.
   */
  lemma StartIsFirstCandidate(cost: Estimate, s: seq<Item>, maxTokens: nat)
    ensures var body, budget, start := BodyOf(s), BudgetOf(cost, s, maxTokens), StartOf(cost, s, maxTokens);
            && (start < |body| ==> IsCandidate(cost, body, budget, start))
            && forall k | 0 <= k < start :: !IsCandidate(cost, body, budget, k)
  {
    hide Total, AffordableFrom, SkipResults, BodyOf, BudgetOf;
    var body, budget := BodyOf(s), BudgetOf(cost, s, maxTokens);
    var first, start := AffordableFrom(cost, body, |body|, budget), StartOf(cost, s, maxTokens);
    ResultsAreSkipped(body, first);
    forall k | 0 <= k < |body| ensures Total(cost, body[k..]) <= budget <==> first <= k {
      AffordableExactly(cost, body, |body|, budget, k);
      assert body[k..|body|] == body[k..];
    }
  }

  lemma FitIs(cost: Estimate, s: seq<Item>, maxTokens: nat)
    requires Total(cost, s) > maxTokens
    ensures var body, start := BodyOf(s), StartOf(cost, s, maxTokens);
            Fit(cost, s, maxTokens) ==
            HeadOf(s) + if start < |body| then body[start..] else RecoverTail(cost, body, BudgetOf(cost, s, maxTokens))
  {
    hide Total, AffordableFrom, SkipResults, BodyOf, HeadOf, RecoverTail;
  }

  lemma HeadAndBody(s: seq<Item>)
    ensures s == HeadOf(s) + BodyOf(s)
  {
  }

  /** Some turn fits as a whole. */
  predicate KeepsWholeTurns(cost: Estimate, s: seq<Item>, maxTokens: nat) {
    Total(cost, s) <= maxTokens || StartOf(cost, s, maxTokens) < |BodyOf(s)|
  }

  /**
   When some turn fits, the fitted history costs no more than the budget, or the system head if that alone is over
   it.
   */
  lemma FittedCost(cost: Estimate, s: seq<Item>, maxTokens: nat)
    requires KeepsWholeTurns(cost, s, maxTokens)
    ensures Total(cost, Fit(cost, s, maxTokens)) <= Max(maxTokens, Total(cost, HeadOf(s)))
  {
    hide *;
    KeepsIs(cost, s, maxTokens);
    if Total(cost, s) <= maxTokens {
      FitUnchanged(cost, s, maxTokens);
      MaxCovers(maxTokens, Total(cost, HeadOf(s)));
    } else {
      var body, start := BodyOf(s), StartOf(cost, s, maxTokens);
      FitIs(cost, s, maxTokens);
      StartIsFirstCandidate(cost, s, maxTokens);
      CandidateFits(cost, body, BudgetOf(cost, s, maxTokens), start);
      TotalConcat(cost, HeadOf(s), body[start..]);
      BudgetCovers(cost, s, maxTokens);
    }
  }

  lemma KeepsIs(cost: Estimate, s: seq<Item>, maxTokens: nat)
    ensures KeepsWholeTurns(cost, s, maxTokens) <==>
            Total(cost, s) <= maxTokens || StartOf(cost, s, maxTokens) < |BodyOf(s)|
  {
    hide Total, StartOf, BodyOf;
  }

  lemma FitUnchanged(cost: Estimate, s: seq<Item>, maxTokens: nat)
    requires Total(cost, s) <= maxTokens
    ensures Fit(cost, s, maxTokens) == s
  {
    hide Total;
  }

  lemma MaxCovers(a: nat, b: nat)
    ensures Max(a, b) >= a && Max(a, b) >= b
  {
  }

  lemma CandidateFits(cost: Estimate, body: seq<Item>, budget: nat, k: nat)
    requires k < |body| && IsCandidate(cost, body, budget, k)
    ensures Total(cost, body[k..]) <= budget && !body[k].ToolResult?
  {
    hide Total;
  }

  lemma BudgetCovers(cost: Estimate, s: seq<Item>, maxTokens: nat)
    ensures Total(cost, HeadOf(s)) + BudgetOf(cost, s, maxTokens) == Max(maxTokens, Total(cost, HeadOf(s)))
  {
    hide Total, HeadOf;
  }

  /** Every suffix that fits and does not start with a tool result is part of what is kept. */
  lemma FitKeepsLongestSuffix(cost: Estimate, s: seq<Item>, maxTokens: nat, k: nat)
    requires Total(cost, s) > maxTokens && IsCandidate(cost, BodyOf(s), BudgetOf(cost, s, maxTokens), k)
    ensures var head, body, fitted := HeadOf(s), BodyOf(s), Fit(cost, s, maxTokens);
            var start := |head| + |body| - |fitted|;
            && 0 <= start <= k && fitted == head + body[start..]
            && IsCandidate(cost, body, BudgetOf(cost, s, maxTokens), start)
  {
    hide Total, StartOf, BodyOf, HeadOf, BudgetOf, RecoverTail, Fit;
    StartIsFirstCandidate(cost, s, maxTokens);
    FitIs(cost, s, maxTokens);
  }

  lemma StartIsZero(cost: Estimate, s: seq<Item>, maxTokens: nat)
    requires IsCandidate(cost, BodyOf(s), BudgetOf(cost, s, maxTokens), 0)
    ensures StartOf(cost, s, maxTokens) == 0
  {
    hide Total, StartOf, BodyOf, BudgetOf;
    StartIsFirstCandidate(cost, s, maxTokens);
  }

  lemma HeadOfFitted(s: seq<Item>, rest: seq<Item>)
    requires HeadOf(s) != []
    ensures HeadOf(HeadOf(s) + rest) == HeadOf(s) && BodyOf(HeadOf(s) + rest) == rest
  {
  }

  lemma NoHead(cost: Estimate, s: seq<Item>)
    requires HeadOf(s) == []
    ensures Total(cost, HeadOf(s)) == 0
  {
  }

  /** Fitting a fitted history again changes nothing. */
  lemma FitIsIdempotent(cost: Estimate, s: seq<Item>, maxTokens: nat)
    requires KeepsWholeTurns(cost, s, maxTokens)
    ensures Fit(cost, Fit(cost, s, maxTokens), maxTokens) == Fit(cost, s, maxTokens)
  {
    hide Total, StartOf, BodyOf, HeadOf, BudgetOf, RecoverTail, Fit, IsCandidate, KeepsWholeTurns, Max;
    var f := Fit(cost, s, maxTokens);
    KeepsIs(cost, s, maxTokens);
    if Total(cost, f) <= maxTokens {
      FitUnchanged(cost, f, maxTokens);
    } else if Total(cost, s) <= maxTokens {
      FitUnchanged(cost, s, maxTokens);
    } else {
      FittedCost(cost, s, maxTokens);
      MaxIs(maxTokens, Total(cost, HeadOf(s)));
      if HeadOf(s) == [] {
        NoHead(cost, s);
      } else {
        var start := StartOf(cost, s, maxTokens);
        var rest := BodyOf(s)[start..];
        FitIs(cost, s, maxTokens);
        StartIsFirstCandidate(cost, s, maxTokens);
        HeadOfFitted(s, rest);
        SameBudget(cost, s, f, maxTokens);
        CandidateFits(cost, BodyOf(s), BudgetOf(cost, s, maxTokens), start);
        AssembleCandidate(cost, rest, BudgetOf(cost, s, maxTokens));
        StartIsZero(cost, f, maxTokens);
        FitIs(cost, f, maxTokens);
        assert rest[0..] == rest;
      }
    }
  }

  lemma MaxIs(a: nat, b: nat)
    ensures Max(a, b) == if a >= b then a else b
  {
  }

  lemma SameBudget(cost: Estimate, s: seq<Item>, f: seq<Item>, maxTokens: nat)
    requires HeadOf(s) == HeadOf(f)
    ensures BudgetOf(cost, s, maxTokens) == BudgetOf(cost, f, maxTokens)
  {
    hide Total, HeadOf;
  }

  lemma AssembleCandidate(cost: Estimate, rest: seq<Item>, budget: nat)
    requires rest != [] && Total(cost, rest) <= budget && !rest[0].ToolResult?
    ensures IsCandidate(cost, rest, budget, 0)
  {
    hide Total;
    assert rest[0..] == rest;
  }

  // ---------------------------------------------------------------- the last turn is kept

  /** The text as it is if it fits, else its longest prefix below the reserve with a count of what was dropped. */
  ghost predicate IsShortened(text: string, short: string, maxBytes: nat) {
    if Utf8Bytes(text) <= maxBytes then short == text
    else
      exists k | 0 <= k <= |text| ::
        && short == text[..k] + "\n[... truncated " + Decimal(Utf8Bytes(text[k..])) +
                    " bytes to fit the compaction window ...]"
        && Utf8Bytes(text[..k]) <= Minus(maxBytes, 64)
        && forall j | k < j <= |text| :: Utf8Bytes(text[..j]) > Minus(maxBytes, 64)
  }

  /** The same item with each of its texts shortened, and nothing else changed. */
  ghost predicate IsShortenedItem(x: Item, y: Item, maxBytes: nat) {
    match x
    case User(content, reason) =>
      && y.User? && y.reason == reason && |y.content| == |content|
      && forall k | 0 <= k < |content| ::
           if content[k].Text? then y.content[k].Text? && IsShortened(content[k].text, y.content[k].text, maxBytes)
           else y.content[k] == content[k]
    case Assistant(text, calls) => y.Assistant? && y.calls == calls && IsShortened(text, y.text, maxBytes)
    case ToolResult(id, text, images) =>
      y.ToolResult? && y.callId == id && y.images == images && IsShortened(text, y.text, maxBytes)
    case _ => y == x
  }

  lemma TextIsShortened(text: string, maxBytes: nat)
    ensures IsShortened(text, TruncateText(text, maxBytes), maxBytes)
  {
    hide Utf8Bytes, LongestPrefix, Decimal;
    if Utf8Bytes(text) > maxBytes {
      TruncatedText(text, maxBytes);
      PrefixIsLongest(text, Minus(maxBytes, MARKER_RESERVE));
      var k := LongestPrefix(text, Minus(maxBytes, MARKER_RESERVE));
      MarkedText(text[..k], Utf8Bytes(text[k..]));
    }
  }

  lemma MarkedText(kept: string, dropped: nat)
    ensures kept + Marker(dropped) ==
            kept + "\n[... truncated " + Decimal(dropped) + " bytes to fit the compaction window ...]"
  {
    hide Decimal;
  }

  lemma {:induction false} PartsAreShortened(parts: seq<ContentPart>, maxBytes: nat)
    ensures var short := TruncateParts(parts, maxBytes);
            && |short| == |parts|
            && forall k | 0 <= k < |parts| ::
                 if parts[k].Text? then short[k].Text? && IsShortened(parts[k].text, short[k].text, maxBytes)
                 else short[k] == parts[k]
  {
    hide IsShortened, TruncateText;
    if parts != [] {
      PartsAreShortened(parts[1..], maxBytes);
      if parts[0].Text? {
        TextIsShortened(parts[0].text, maxBytes);
      }
      var (short, later) := (TruncateParts(parts, maxBytes), TruncateParts(parts[1..], maxBytes));
      forall k | 0 < k < |parts| ensures short[k] == later[k - 1] && parts[k] == parts[1..][k - 1] {
      }
    }
  }

  lemma ItemIsShortened(x: Item, tokens: nat)
    ensures IsShortenedItem(x, TruncateItem(x, tokens), 4 * tokens)
  {
    hide IsShortened, TruncateText, TruncateParts;
    match x
    case User(content, _) => PartsAreShortened(content, 4 * tokens);
    case Assistant(text, _) => TextIsShortened(text, 4 * tokens);
    case ToolResult(_, text, _) => TextIsShortened(text, 4 * tokens);
    case _ =>
  }

  ghost predicate AreShortened(s: seq<Item>, short: seq<Item>, maxBytes: nat) {
    |short| == |s| && forall k | 0 <= k < |s| :: IsShortenedItem(s[k], short[k], maxBytes)
  }

  lemma {:induction false} AllAreShortened(s: seq<Item>, tokens: nat)
    ensures AreShortened(s, TruncateAll(s, tokens), 4 * tokens)
  {
    hide IsShortenedItem, TruncateItem;
    if s != [] {
      ItemIsShortened(s[0], tokens);
      AllAreShortened(s[1..], tokens);
    }
  }

  lemma OneIsShortened(x: Item, tokens: nat)
    ensures AreShortened([x], [TruncateItem(x, tokens)], 4 * tokens)
  {
    hide IsShortenedItem, TruncateItem;
    ItemIsShortened(x, tokens);
  }

  lemma {:induction false} TrailingRunBegins(body: seq<Item>, k: nat)
    requires k <= |body| && (k > 0 ==> !body[k - 1].ToolResult?)
    requires forall j | k <= j < |body| :: body[j].ToolResult?
    ensures BeforeTrailingRun(body) == k
    decreases |body|
  {
    if k < |body| {
      TrailingRunBegins(body[..|body| - 1], k);
    }
  }

  /**
   The last turn of the body, whose trailing results begin at k. Without results it is the last item, shortened. Results
   share what the assistant in front of them leaves of the budget, at least a token each, and the assistant stays as it
   is if it called for anything.
   */
  ghost predicate IsLastTurn(cost: Estimate, body: seq<Item>, k: nat, budget: nat, unit: seq<Item>)
    requires k <= |body| && body != []
  {
    var owner := if k > 0 && body[k - 1].Assistant? && body[k - 1].calls != [] then [body[k - 1]] else [];
    if k == |body| then AreShortened([body[k - 1]], unit, 4 * budget)
    else
      var share := Max(Minus(budget, if owner == [] then 0 else cost(owner[0])) / (|body| - k), 1);
      owner <= unit && AreShortened(body[k..], unit[|owner|..], 4 * share)
  }

  lemma RecoveredIsLastTurn(cost: Estimate, body: seq<Item>, k: nat, budget: nat)
    requires body != [] && k <= |body| && (k > 0 ==> !body[k - 1].ToolResult?)
    requires forall j | k <= j < |body| :: body[j].ToolResult?
    ensures IsLastTurn(cost, body, k, budget, RecoverTail(cost, body, budget)) && RecoverTail(cost, body, budget) != []
  {
    hide Total, AreShortened, TruncateItem, TruncateAll, BeforeTrailingRun;
    TrailingRunBegins(body, k);
    if k == |body| {
      OneIsShortened(body[k - 1], budget);
    } else {
      var owner := if k > 0 && body[k - 1].DeclaresCalls() then [body[k - 1]] else [];
      OwnerCost(cost, owner);
      var share := Max(Minus(budget, Total(cost, owner)) / |body[k..]|, 1);
      AllAreShortened(body[k..], share);
      NoneIsLost(body[k..], share);
      assert (owner + TruncateAll(body[k..], share))[|owner|..] == TruncateAll(body[k..], share);
    }
  }

  lemma NoneIsLost(s: seq<Item>, tokens: nat)
    ensures |TruncateAll(s, tokens)| == |s|
  {
    hide IsShortenedItem;
    AllAreShortened(s, tokens);
  }

  /** When no turn fits, the last one is kept behind the head, shortened and never dropped. */
  lemma LastTurnIsKept(cost: Estimate, s: seq<Item>, maxTokens: nat, k: nat)
    requires !KeepsWholeTurns(cost, s, maxTokens) && BodyOf(s) != []
    requires var body := BodyOf(s);
             k <= |body| && (k > 0 ==> !body[k - 1].ToolResult?) && forall j | k <= j < |body| :: body[j].ToolResult?
    ensures var (head, out) := (HeadOf(s), Fit(cost, s, maxTokens));
            && head <= out && |out| > |head|
            && IsLastTurn(cost, BodyOf(s), k, Minus(maxTokens, Total(cost, head)), out[|head|..])
  {
    hide Total, StartOf, BodyOf, HeadOf, BudgetOf, Fit, IsLastTurn, RecoverTail, Minus;
    var (head, body) := (HeadOf(s), BodyOf(s));
    KeepsIs(cost, s, maxTokens);
    FitIs(cost, s, maxTokens);
    BudgetIs(cost, s, maxTokens);
    var unit := RecoverTail(cost, body, BudgetOf(cost, s, maxTokens));
    RecoveredIsLastTurn(cost, body, k, BudgetOf(cost, s, maxTokens));
    assert (head + unit)[|head|..] == unit;
  }

  lemma BudgetIs(cost: Estimate, s: seq<Item>, maxTokens: nat)
    ensures BudgetOf(cost, s, maxTokens) == Minus(maxTokens, Total(cost, HeadOf(s)))
  {
    hide Total, HeadOf;
  }

  lemma OwnerCost(cost: Estimate, owner: seq<Item>)
    requires |owner| <= 1
    ensures Total(cost, owner) == if owner == [] then 0 else cost(owner[0])
  {
    if owner != [] {
      assert owner == [owner[0]];
      TotalSingle(cost, owner[0]);
    }
  }

  // ---------------------------------------------------------------- tool results keep their calls

  lemma {:induction false} TruncationKeepsRuns(s: seq<Item>, tokens: nat, ids: set<string>)
    ensures InRuns(TruncateAll(s, tokens), ids) <==> InRuns(s, ids)
  {
    hide InRuns, TruncateText, TruncateParts;
    if s != [] {
      var t := TruncateAll(s, tokens);
      assert t[1..] == TruncateAll(s[1..], tokens);
      InRunsStep(s, ids);
      InRunsStep(t, ids);
      TruncationKeepsRuns(s[1..], tokens, ToolRepair.RunIdsAfter(s[0], ids));
    }
  }

  lemma {:induction false} TrailingRun(body: seq<Item>)
    ensures var k := BeforeTrailingRun(body);
            && AllResults(body[k..])
            && (k > 0 ==> !body[k - 1].ToolResult?)
  {
    if body != [] && body[|body| - 1].ToolResult? {
      var shorter := body[..|body| - 1];
      TrailingRun(shorter);
      assert body[BeforeTrailingRun(body)..] == shorter[BeforeTrailingRun(body)..] + [body[|body| - 1]];
    }
  }

  /** Trailing results that stand in a run have their assistant right in front. */
  lemma TrailingRunHasOwner(body: seq<Item>)
    requires InRuns(body, {}) && BeforeTrailingRun(body) < |body|
    ensures BeforeTrailingRun(body) > 0 && body[BeforeTrailingRun(body) - 1].DeclaresCalls()
    ensures InRuns(body[BeforeTrailingRun(body) - 1..], {})
  {
    hide InRuns, BeforeTrailingRun;
    var k := BeforeTrailingRun(body);
    TrailingRun(body);
    assert body[k] == body[k..][0];
    if k == 0 {
      InRunsStep(body, {});
    } else {
      InRunsSuffix(body, {}, k - 1);
      InRunsStep(body[k - 1..], {});
      assert body[k - 1..][1..] == body[k..];
      InRunsStep(body[k..], ToolRepair.RunIdsAfter(body[k - 1], {}));
    }
  }

  lemma RecoveredKeepsRuns(cost: Estimate, body: seq<Item>, budget: nat)
    requires InRuns(body, {})
    ensures InRuns(RecoverTail(cost, body, budget), {})
  {
    hide InRuns, BeforeTrailingRun, TruncateItem, TruncateAll;
    var k := BeforeTrailingRun(body);
    TrailingRun(body);
    if body[k..] == [] {
      NothingInRuns({});
      if body != [] {
        OneTurnInRuns(body[|body| - 1], budget);
      }
    } else {
      TrailingRunHasOwner(body);
      var owner, results := body[k - 1], body[k..];
      var perResult := Max(Minus(budget, Total(cost, [owner])) / |results|, 1);
      assert body[k - 1..][1..] == results;
      InRunsStep(body[k - 1..], {});
      TruncationKeepsRuns(results, perResult, ToolRepair.RunIdsAfter(owner, {}));
      assert ([owner] + TruncateAll(results, perResult))[1..] == TruncateAll(results, perResult);
      InRunsStep([owner] + TruncateAll(results, perResult), {});
    }
  }

  lemma OneTurnInRuns(x: Item, tokens: nat)
    requires !x.ToolResult?
    ensures InRuns([TruncateItem(x, tokens)], {})
  {
    hide InRuns, TruncateText, TruncateParts;
    var y := TruncateItem(x, tokens);
    assert [y][1..] == [];
    InRunsStep([y], {});
    NothingInRuns(ToolRepair.RunIdsAfter(y, {}));
  }

  lemma {:induction false} TruncationKeepsIds(run: seq<Item>, tokens: nat, id: string)
    requires AllResults(run)
    ensures |TruncateAll(run, tokens)| == |run| && AllResults(TruncateAll(run, tokens))
    ensures ToolRepair.CountId(TruncateAll(run, tokens), id) == ToolRepair.CountId(run, id)
    ensures forall k | 0 <= k < |run| :: TruncateAll(run, tokens)[k].callId == run[k].callId
  {
    hide TruncateText;
    if run != [] {
      TruncationKeepsIds(run[1..], tokens, id);
      assert TruncateAll(run, tokens)[1..] == TruncateAll(run[1..], tokens);
    }
  }

  lemma TruncationKeepsAnswers(calls: seq<ToolCall>, run: seq<Item>, tokens: nat)
    requires AllResults(run) && ToolRepair.AnswersExactlyOnce(calls, run)
    ensures ToolRepair.AnswersExactlyOnce(calls, TruncateAll(run, tokens))
  {
    hide TruncateAll, ToolRepair.CountId;
    TruncationKeepsIds(run, tokens, "");
    forall id | id in CallIds(calls) ensures ToolRepair.CountId(TruncateAll(run, tokens), id) == 1 {
      TruncationKeepsIds(run, tokens, id);
    }
  }

  lemma OneTurnPaired(x: Item, tokens: nat)
    requires !x.ToolResult? && ToolRepair.Paired([x])
    ensures ToolRepair.Paired([TruncateItem(x, tokens)])
  {
    hide TruncateText, TruncateParts;
    var y := TruncateItem(x, tokens);
    assert [y][1..] == [] && [x][1..] == [];
    if x.DeclaresCalls() {
      assert [x] + [] == [x];
      PairedBlock(x, []);
      assert x.calls[0].id in CallIds(x.calls);
    }
  }

  lemma RecoveredKeepsPairs(cost: Estimate, body: seq<Item>, budget: nat)
    requires ToolRepair.Paired(body)
    ensures ToolRepair.Paired(RecoverTail(cost, body, budget))
  {
    hide BeforeTrailingRun, TruncateItem, TruncateAll, InRuns, ToolRepair.Paired, ToolRepair.AnswersExactlyOnce;
    var k := BeforeTrailingRun(body);
    TrailingRun(body);
    PairedIsInRuns(body);
    if body[k..] == [] {
      if body != [] {
        PairedSuffix(body, |body| - 1);
        assert body[|body| - 1..] == [body[|body| - 1]];
        OneTurnPaired(body[|body| - 1], budget);
      }
    } else {
      TrailingRunHasOwner(body);
      var owner, results := body[k - 1], body[k..];
      var perResult := Max(Minus(budget, Total(cost, [owner])) / |results|, 1);
      PairedSuffix(body, k - 1);
      assert body[k - 1..] == [owner] + results;
      PairedBlock(owner, results);
      TruncationKeepsAnswers(owner.calls, results, perResult);
      TruncationKeepsIds(results, perResult, "");
      PairedBlock(owner, TruncateAll(results, perResult));
    }
  }

  lemma HeadIsTransparent(s: seq<Item>, rest: seq<Item>)
    ensures InRuns(HeadOf(s) + rest, {}) <==> InRuns(rest, {})
    ensures ToolRepair.Paired(HeadOf(s) + rest) <==> ToolRepair.Paired(rest)
  {
    hide InRuns;
    if HeadOf(s) == [] {
      assert HeadOf(s) + rest == rest;
    } else {
      assert (HeadOf(s) + rest)[1..] == rest;
      InRunsStep(HeadOf(s) + rest, {});
    }
  }

  /**
   However tight the budget, no result loses its call; if each call had its one answer, each kept call still has it.
   */
  lemma FitKeepsPairing(cost: Estimate, s: seq<Item>, maxTokens: nat)
    ensures InRuns(s, {}) ==> InRuns(Fit(cost, s, maxTokens), {})
    ensures ToolRepair.Paired(s) ==> ToolRepair.Paired(Fit(cost, s, maxTokens))
  {
    hide *;
    if Total(cost, s) <= maxTokens {
      FitUnchanged(cost, s, maxTokens);
    } else {
      var body, budget, start := BodyOf(s), BudgetOf(cost, s, maxTokens), StartOf(cost, s, maxTokens);
      HeadAndBody(s);
      HeadIsTransparent(s, body);
      FitIs(cost, s, maxTokens);
      StartIsFirstCandidate(cost, s, maxTokens);
      if start < |body| {
        CandidateFits(cost, body, budget, start);
        HeadIsTransparent(s, body[start..]);
        if InRuns(s, {}) {
          InRunsSuffix(body, {}, start);
        }
        if ToolRepair.Paired(s) {
          PairedSuffix(body, start);
        }
      } else {
        HeadIsTransparent(s, RecoverTail(cost, body, budget));
        if InRuns(s, {}) {
          RecoveredKeepsRuns(cost, body, budget);
        }
        if ToolRepair.Paired(s) {
          RecoveredKeepsPairs(cost, body, budget);
        }
      }
    }
  }

  // ---------------------------------------------------------------- the loops

  predicate IsCharBoundary(s: string, end: nat) {
    exists k | 0 <= k <= |s| :: Utf8Bytes(s[..k]) == end
  }

  lemma PrefixBytesGrow(s: string, j: nat, k: nat)
    requires j < k <= |s|
    ensures Utf8Bytes(s[..j]) < Utf8Bytes(s[..k])
  {
    hide Utf8Bytes;
    assert s[..k] == s[..j] + s[j..k];
    Utf8Concat(s[..j], s[j..k]);
    if Utf8Bytes(s[j..k]) == 0 {
      OnlyNothingIsFree(s[j..k]);
    }
  }

  /** Backs up from the byte limit to the nearest character boundary. */
  method KeptCharacters(s: string, keep: nat) returns (kept: string)
    ensures kept == s[..LongestPrefix(s, keep)]
  {
    hide Utf8Bytes, LongestPrefix;
    var end := if keep <= Utf8Bytes(s) then keep else Utf8Bytes(s);
    ghost var k := LongestPrefix(s, keep);
    PrefixIsLongest(s, keep);
    WholeTextFits(s, keep);
    while end > 0 && !IsCharBoundary(s, end)
      invariant Utf8Bytes(s[..k]) <= end <= keep
    {
      end := end - 1;
    }
    NothingIsFree(s);
    var i := 0;
    while Utf8Bytes(s[..i]) != end
      invariant i <= k
      decreases k - i
    {
      BoundaryIsPrefix(s, keep, end);
      i := i + 1;
    }
    BoundaryIsPrefix(s, keep, end);
    if i < k {
      PrefixBytesGrow(s, i, k);
    }
    kept := s[..i];
  }

  lemma WholeTextFits(s: string, keep: nat)
    ensures Utf8Bytes(s[..LongestPrefix(s, keep)]) <= Utf8Bytes(s)
  {
    hide Utf8Bytes, LongestPrefix;
    var k := LongestPrefix(s, keep);
    assert s == s[..k] + s[k..];
    Utf8Concat(s[..k], s[k..]);
  }

  lemma NothingIsFree(s: string)
    ensures Utf8Bytes(s[..0]) == 0
  {
  }

  lemma BoundaryIsPrefix(s: string, keep: nat, end: nat)
    requires Utf8Bytes(s[..LongestPrefix(s, keep)]) <= end <= keep
    requires end == 0 || IsCharBoundary(s, end)
    ensures Utf8Bytes(s[..LongestPrefix(s, keep)]) == end
  {
    hide Utf8Bytes, LongestPrefix;
    PrefixIsLongest(s, keep);
    if end > 0 {
      var j :| 0 <= j <= |s| && Utf8Bytes(s[..j]) == end;
      var k := LongestPrefix(s, keep);
      if j < k {
        PrefixBytesGrow(s, j, k);
      }
    }
  }

  method TotalTokens(cost: Estimate, s: seq<Item>) returns (total: nat)
    ensures total == Total(cost, s)
  {
    total := 0;
    assert s[0..] == s;
    for k := 0 to |s|
      invariant total + Total(cost, s[k..]) == Total(cost, s)
    {
      assert s[k..][1..] == s[k + 1..];
      total := total + cost(s[k]);
    }
  }

  method RecoverTruncatedTailUnit(cost: Estimate, body: seq<Item>, budget: nat) returns (unit: seq<Item>)
    ensures unit == RecoverTail(cost, body, budget)
  {
    hide TruncateItem, Total, BeforeTrailingRun;
    var rest, results: seq<Item> := body, [];
    TrailingStep(rest);
    while rest != [] && rest[|rest| - 1].ToolResult?
      invariant rest + results == body && BeforeTrailingRun(rest) == BeforeTrailingRun(body)
      decreases |rest|
    {
      TrailingStep(rest);
      results := [rest[|rest| - 1]] + results;
      rest := rest[..|rest| - 1];
    }
    TrailingStep(rest);
    assert BeforeTrailingRun(body) == |rest| && results == body[|rest|..];
    if results == [] {
      return if rest == [] then [] else [TruncateItem(rest[|rest| - 1], budget)];
    }
    var owner: seq<Item> := [];
    if rest != [] && rest[|rest| - 1].DeclaresCalls() {
      owner := [rest[|rest| - 1]];
    }
    var perResult := Max(Minus(budget, Total(cost, owner)) / |results|, 1);
    unit := owner;
    assert results[0..] == results;
    for k := 0 to |results|
      invariant unit + TruncateAll(results[k..], perResult) == owner + TruncateAll(results, perResult)
    {
      assert results[k..][1..] == results[k + 1..];
      unit := unit + [TruncateItem(results[k], perResult)];
    }
  }

  lemma TrailingStep(body: seq<Item>)
    ensures BeforeTrailingRun(body) ==
            if body == [] || !body[|body| - 1].ToolResult? then |body| else BeforeTrailingRun(body[..|body| - 1])
  {
  }

  method FitConversationToBudget(cost: Estimate, conversation: seq<Item>, maxTokens: nat) returns (fitted: seq<Item>)
    ensures fitted == Fit(cost, conversation, maxTokens)
  {
    hide Total, AffordableFrom, RecoverTail, Fit, SkipResults, HeadOf, BodyOf;
    var total := TotalTokens(cost, conversation);
    if total <= maxTokens {
      FitUnchanged(cost, conversation, maxTokens);
      return conversation;
    }
    var head, body: seq<Item> := [], conversation;
    if body != [] && body[0].System? {
      head, body := [body[0]], body[1..];
    }
    HeadAndBodyAre(conversation);
    var headCost := TotalTokens(cost, head);
    var budget := Minus(maxTokens, headCost);
    var remaining, start := budget, |body|;
    while start > 0
      invariant 0 <= start <= |body|
      invariant AffordableFrom(cost, body, start, remaining) == AffordableFrom(cost, body, |body|, budget)
    {
      AffordableStep(cost, body, start, remaining);
      var itemCost := cost(body[start - 1]);
      if itemCost > remaining {
        break;
      }
      remaining, start := remaining - itemCost, start - 1;
    }
    AffordableStep(cost, body, start, remaining);
    ghost var first := start;
    SkipStep(body, start);
    while start < |body| && body[start].ToolResult?
      invariant start <= |body| && SkipResults(body, start) == SkipResults(body, first)
    {
      SkipStep(body, start);
      start := start + 1;
    }
    SkipStep(body, start);
    FitIs(cost, conversation, maxTokens);
    if start < |body| {
      fitted := head + body[start..];
    } else {
      var unit := RecoverTruncatedTailUnit(cost, body, budget);
      fitted := head + unit;
    }
  }

  lemma HeadAndBodyAre(s: seq<Item>)
    ensures HeadOf(s) == if s != [] && s[0].System? then [s[0]] else []
    ensures BodyOf(s) == if s != [] && s[0].System? then s[1..] else s
  {
  }

  lemma AffordableStep(cost: Estimate, body: seq<Item>, n: nat, remaining: nat)
    requires n <= |body|
    ensures AffordableFrom(cost, body, n, remaining) ==
            if n == 0 || cost(body[n - 1]) > remaining then n
            else AffordableFrom(cost, body, n - 1, remaining - cost(body[n - 1]))
  {
  }

  lemma SkipStep(body: seq<Item>, start: nat)
    requires start <= |body|
    ensures SkipResults(body, start) ==
            if start < |body| && body[start].ToolResult? then SkipResults(body, start + 1) else start
  {
    if start < |body| {
      assert body[start..][1..] == body[start + 1..];
    }
  }
}
