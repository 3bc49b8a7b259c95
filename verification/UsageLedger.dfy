/** The billing ledger: saturating counters in total and by model. */
module UsageLedger {
  import opened Options

  const U64_MAX: nat := 0xFFFF_FFFF_FFFF_FFFF
  const I64_MAX: int := 0x7FFF_FFFF_FFFF_FFFF
  const I64_MIN: int := -0x8000_0000_0000_0000

  type U64 = n: nat | n <= U64_MAX witness 0
  type U32 = n: nat | n <= 0xFFFF_FFFF witness 0
  type I64 = n: int | I64_MIN <= n <= I64_MAX witness 0

  datatype Totals = Totals(
    input: U64, output: U64, cachedRead: U64, cacheCreation: U64, reasoning: U64, modelCalls: U64, apiMillis: U64,
    costTicks: Option<I64>, costMissing: U64)

  const ZERO: Totals := Totals(0, 0, 0, 0, 0, 0, 0, None, 0)

  function SatAdd(a: U64, b: U64): U64 {
    if a + b > U64_MAX then U64_MAX else a + b
  }

  function SatAddSigned(a: I64, b: I64): I64 {
    if a + b > I64_MAX then I64_MAX else if a + b < I64_MIN then I64_MIN else a + b
  }

  function OrZero(a: Option<I64>): I64 {
    if a.Some? then a.value else 0
  }

  function MergeCost(a: Option<I64>, b: Option<I64>): Option<I64> {
    if a.None? && b.None? then None else Some(SatAddSigned(OrZero(a), OrZero(b)))
  }

  function Fold(a: Totals, b: Totals): Totals {
    Totals(
      SatAdd(a.input, b.input), SatAdd(a.output, b.output), SatAdd(a.cachedRead, b.cachedRead),
      SatAdd(a.cacheCreation, b.cacheCreation), SatAdd(a.reasoning, b.reasoning), SatAdd(a.modelCalls, b.modelCalls),
      SatAdd(a.apiMillis, b.apiMillis), MergeCost(a.costTicks, b.costTicks), SatAdd(a.costMissing, b.costMissing))
  }

  datatype TokenUsage = TokenUsage(prompt: U32, completion: U32, cachedPrompt: U32, cacheCreation: U32, reasoning: U32)

  /** Zero and negative ticks count as unreported. */
  function ReportedCost(raw: Option<I64>): Option<I64> {
    if raw.Some? && raw.value > 0 then raw else None
  }

  function FromCall(usage: TokenUsage, apiMillis: Option<U64>, cost: Option<I64>): Totals {
    var reported := ReportedCost(cost);
    Totals(
      usage.prompt, usage.completion, usage.cachedPrompt, usage.cacheCreation, usage.reasoning, 1,
      if apiMillis.Some? then apiMillis.value else 0, reported, if reported.None? then 1 else 0)
  }

  // ---------------------------------------------------------------- folding is a commutative monoid

  predicate NoDebt(t: Totals) {
    t.costTicks.Some? ==> t.costTicks.value >= 0
  }

  lemma CostIsAssociative(a: Option<I64>, b: Option<I64>, c: Option<I64>)
    requires OrZero(a) >= 0 && OrZero(b) >= 0 && OrZero(c) >= 0
    ensures MergeCost(MergeCost(a, b), c) == MergeCost(a, MergeCost(b, c))
  {
  }

  /** Where no cost is negative, amounts can be folded in any grouping and any order. */
  lemma FoldLaws(a: Totals, b: Totals, c: Totals)
    requires NoDebt(a) && NoDebt(b) && NoDebt(c)
    ensures Fold(Fold(a, b), c) == Fold(a, Fold(b, c))
    ensures Fold(a, b) == Fold(b, a) && Fold(ZERO, a) == a
    ensures NoDebt(Fold(a, b)) && NoDebt(ZERO)
  {
    CostIsAssociative(a.costTicks, b.costTicks, c.costTicks);
  }

  /** With a negative cost the grouping shows: the saturated sum forgets what it lost. */
  lemma DebtBreaksGrouping()
    ensures var most, debt := Some(I64_MAX), Some(-1);
            MergeCost(MergeCost(most, most), debt) != MergeCost(most, MergeCost(most, debt))
  {
  }

  // ---------------------------------------------------------------- the ledger

  type Bill = seq<(string, Totals)>

  datatype Ledger = Ledger(totals: Totals, byModel: Bill, mainLoopCalls: U64, incomplete: bool)

  const EMPTY: Ledger := Ledger(ZERO, [], 0, false)

  /** Where the model stands in the bill, or the length if it is not there. */
  function IndexOf(bill: Bill, model: string): (i: nat)
    ensures i <= |bill|
    ensures i < |bill| ==> bill[i].0 == model
    ensures forall k | 0 <= k < i :: bill[k].0 != model
  {
    if bill == [] || bill[0].0 == model then 0 else 1 + IndexOf(bill[1..], model)
  }

  function CountersOf(bill: Bill, model: string): Totals {
    var i := IndexOf(bill, model);
    if i < |bill| then bill[i].1 else ZERO
  }

  /** The model's entry is folded in place, or appended. */
  function FoldInto(bill: Bill, model: string, t: Totals): Bill {
    var i := IndexOf(bill, model);
    if i < |bill| then bill[i := (model, Fold(bill[i].1, t))] else bill + [(model, Fold(ZERO, t))]
  }

  function FoldEntry(l: Ledger, model: string, t: Totals): Ledger {
    l.(totals := Fold(l.totals, t), byModel := FoldInto(l.byModel, model, t))
  }

  function FoldEntries(l: Ledger, entries: Bill): Ledger
    decreases |entries|
  {
    if entries == [] then l else FoldEntries(FoldEntry(l, entries[0].0, entries[0].1), entries[1..])
  }

  datatype Operation =
    | MainLoopCall(model: string, usage: TokenUsage, apiMillis: Option<U64>, cost: Option<I64>)
    | Subagent(bill: Bill, partial: bool)
    | MarkIncomplete

  function Apply(l: Ledger, op: Operation): Ledger {
    match op
    case MainLoopCall(model, usage, apiMillis, cost) =>
      FoldEntry(l.(mainLoopCalls := SatAdd(l.mainLoopCalls, 1)), model, FromCall(usage, apiMillis, cost))
    case Subagent(bill, partial) =>
      var folded := FoldEntries(l, bill);
      if partial then folded.(incomplete := true) else folded
    case MarkIncomplete => l.(incomplete := true)
  }

  function Run(l: Ledger, ops: seq<Operation>): Ledger
    decreases |ops|
  {
    if ops == [] then l else Run(Apply(l, ops[0]), ops[1..])
  }

  // ---------------------------------------------------------------- what the ledger adds up to

  predicate Counts(entry: (string, Totals), who: Option<string>) {
    who.None? || who.value == entry.0
  }

  /** The entries of one model, or all of them, folded together. */
  function FoldWhere(entries: Bill, who: Option<string>): Totals {
    if entries == [] then ZERO
    else if Counts(entries[0], who) then Fold(entries[0].1, FoldWhere(entries[1..], who))
    else FoldWhere(entries[1..], who)
  }

  predicate Debtless(entries: Bill) {
    forall k | 0 <= k < |entries| :: NoDebt(entries[k].1)
  }

  lemma {:induction false} FoldWhereNoDebt(entries: Bill, who: Option<string>)
    requires Debtless(entries)
    ensures NoDebt(FoldWhere(entries, who))
  {
    hide Fold, NoDebt;
    FoldLaws(ZERO, ZERO, ZERO) by { ZeroHasNoDebt(); }
    if entries != [] {
      FoldWhereNoDebt(entries[1..], who);
      FoldLaws(entries[0].1, FoldWhere(entries[1..], who), ZERO) by { ZeroHasNoDebt(); }
    }
  }

  lemma ZeroHasNoDebt()
    ensures NoDebt(ZERO)
  {
  }

  ghost predicate DistinctModels(bill: Bill) {
    forall j, k | 0 <= j < k < |bill| :: bill[j].0 != bill[k].0
  }

  /** The grand total, or one model's counters. */
  function Amount(l: Ledger, who: Option<string>): Totals {
    match who
    case None => l.totals
    case Some(model) => CountersOf(l.byModel, model)
  }

  lemma IndexIs(bill: Bill, model: string, i: nat)
    requires i <= |bill| && (forall k | 0 <= k < i :: bill[k].0 != model)
    requires i < |bill| ==> bill[i].0 == model
    ensures IndexOf(bill, model) == i
  {
    hide IndexOf;
  }

  lemma CountersAfterFold(bill: Bill, model: string, t: Totals, other: string)
    ensures CountersOf(FoldInto(bill, model, t), other) ==
            if model == other then Fold(CountersOf(bill, model), t) else CountersOf(bill, other)
  {
    hide IndexOf, Fold;
    var i := IndexOf(bill, model);
    var after := FoldInto(bill, model, t);
    if model == other {
      IndexIs(after, other, i);
    } else {
      var j := IndexOf(bill, other);
      if j < |bill| {
        IndexIs(after, other, j);
      } else {
        IndexIs(after, other, |after|);
      }
    }
  }

  lemma AmountAfterEntry(l: Ledger, model: string, t: Totals, who: Option<string>)
    ensures Amount(FoldEntry(l, model, t), who) ==
            if Counts((model, t), who) then Fold(Amount(l, who), t) else Amount(l, who)
  {
    hide Fold, CountersOf, FoldInto;
    if who.Some? {
      CountersAfterFold(l.byModel, model, t, who.value);
    }
  }

  // ---------------------------------------------------------------- saturating sums

  datatype Counter = Input | Output | CachedRead | CacheCreation | Reasoning | ModelCalls | ApiMillis | CostMissing

  function Get(t: Totals, c: Counter): U64 {
    match c
    case Input => t.input
    case Output => t.output
    case CachedRead => t.cachedRead
    case CacheCreation => t.cacheCreation
    case Reasoning => t.reasoning
    case ModelCalls => t.modelCalls
    case ApiMillis => t.apiMillis
    case CostMissing => t.costMissing
  }

  function Capped(n: nat): U64 {
    if n > U64_MAX then U64_MAX else n
  }

  function Sum(entries: Bill, who: Option<string>, c: Counter): nat {
    if entries == [] then 0
    else (if Counts(entries[0], who) then Get(entries[0].1, c) else 0) + Sum(entries[1..], who, c)
  }

  lemma GetOfFold(a: Totals, b: Totals, c: Counter)
    ensures Get(Fold(a, b), c) == SatAdd(Get(a, c), Get(b, c)) && Get(ZERO, c) == 0
  {
  }

  /** Each counter is the plain sum, cut off once at the largest 64-bit value. */
  lemma {:induction false} CounterIsSaturatedSum(entries: Bill, who: Option<string>, c: Counter)
    ensures Get(FoldWhere(entries, who), c) == Capped(Sum(entries, who, c))
  {
    hide Fold, Get;
    GetOfFold(ZERO, ZERO, c);
    if entries != [] {
      CounterIsSaturatedSum(entries[1..], who, c);
      GetOfFold(entries[0].1, FoldWhere(entries[1..], who), c);
    }
  }

  // ---------------------------------------------------------------- entries and amounts

  lemma {:induction false} DebtlessAfterEntries(l: Ledger, entries: Bill, who: Option<string>)
    requires NoDebt(Amount(l, who)) && Debtless(entries)
    ensures Amount(FoldEntries(l, entries), who) == Fold(Amount(l, who), FoldWhere(entries, who))
    decreases |entries|
  {
    hide Fold, Amount, FoldEntry, NoDebt;
    var before := Amount(l, who);
    if entries == [] {
      FoldLaws(before, ZERO, ZERO) by { ZeroHasNoDebt(); }
      FoldZeroRight(before);
    } else {
      var (model, t) := entries[0];
      var rest := FoldWhere(entries[1..], who);
      FoldWhereNoDebt(entries[1..], who);
      AmountAfterEntry(l, model, t, who);
      FoldLaws(before, t, rest);
      DebtlessAfterEntries(FoldEntry(l, model, t), entries[1..], who);
    }
  }

  lemma {:induction false} CounterAfterEntries(l: Ledger, entries: Bill, who: Option<string>, c: Counter)
    ensures Get(Amount(FoldEntries(l, entries), who), c) == Capped(Get(Amount(l, who), c) + Sum(entries, who, c))
    decreases |entries|
  {
    hide Fold, Amount, FoldEntry, Get;
    if entries != [] {
      var (model, t) := entries[0];
      AmountAfterEntry(l, model, t, who);
      GetOfFold(Amount(l, who), t, c);
      CounterAfterEntries(FoldEntry(l, model, t), entries[1..], who, c);
    }
  }

  /**
   Entries add their plain sum to every counter of every amount, cut off once, whatever their costs are; without
   negative costs they add all that they fold to, the cost included.
   */
  lemma AmountAfterEntries(l: Ledger, entries: Bill, who: Option<string>)
    ensures forall c :: Get(Amount(FoldEntries(l, entries), who), c) ==
                        Capped(Get(Amount(l, who), c) + Sum(entries, who, c))
    ensures NoDebt(Amount(l, who)) && Debtless(entries) ==>
              Amount(FoldEntries(l, entries), who) == Fold(Amount(l, who), FoldWhere(entries, who))
  {
    hide Fold, Amount, FoldEntries, FoldWhere, NoDebt, Debtless, Get, Sum;
    forall c ensures Get(Amount(FoldEntries(l, entries), who), c) ==
                     Capped(Get(Amount(l, who), c) + Sum(entries, who, c)) {
      CounterAfterEntries(l, entries, who, c);
    }
    if NoDebt(Amount(l, who)) && Debtless(entries) {
      DebtlessAfterEntries(l, entries, who);
    }
  }

  lemma FoldZeroRight(a: Totals)
    ensures Fold(a, ZERO) == a
  {
  }

  // ---------------------------------------------------------------- the totals are the sum over the models

  ghost predicate Consistent(l: Ledger) {
    DistinctModels(l.byModel) && Debtless(l.byModel) && NoDebt(l.totals) && l.totals == FoldWhere(l.byModel, None)
  }

  /** The rows of a ledger name each model once, and every counter of the totals is the capped sum over them. */
  ghost predicate Balanced(l: Ledger) {
    DistinctModels(l.byModel) && forall c :: Get(l.totals, c) == Capped(Sum(l.byModel, None, c))
  }

  lemma {:induction false} SumUpdate(bill: Bill, i: nat, t: Totals, c: Counter)
    requires i < |bill|
    ensures Sum(bill[i := (bill[i].0, t)], None, c) == Sum(bill, None, c) - Get(bill[i].1, c) + Get(t, c)
  {
    hide Get;
    if i == 0 {
      assert bill[0 := (bill[0].0, t)][1..] == bill[1..];
    } else {
      assert bill[i := (bill[i].0, t)][1..] == bill[1..][i - 1 := (bill[i].0, t)];
      SumUpdate(bill[1..], i - 1, t, c);
    }
  }

  lemma {:induction false} SumConcat(a: Bill, b: Bill, who: Option<string>, c: Counter)
    ensures Sum(a + b, who, c) == Sum(a, who, c) + Sum(b, who, c)
  {
    hide Get;
    if a == [] {
      assert a + b == b;
    } else {
      assert (a + b)[1..] == a[1..] + b;
      SumConcat(a[1..], b, who, c);
    }
  }

  lemma SumOfOne(x: (string, Totals), who: Option<string>, c: Counter)
    ensures Sum([x], who, c) == if Counts(x, who) then Get(x.1, c) else 0
  {
    hide Get;
    assert [x][1..] == [];
  }

  lemma {:induction false} EntryOfSum(bill: Bill, i: nat, c: Counter)
    requires i < |bill|
    ensures Get(bill[i].1, c) <= Sum(bill, None, c)
  {
    hide Get;
    if i > 0 {
      EntryOfSum(bill[1..], i - 1, c);
    }
  }

  lemma EntryKeepsBalanced(l: Ledger, model: string, t: Totals)
    requires Balanced(l)
    ensures Balanced(FoldEntry(l, model, t))
  {
    hide Fold, IndexOf, Sum, Get;
    var i := IndexOf(l.byModel, model);
    var after := FoldEntry(l, model, t);
    forall c ensures Get(after.totals, c) == Capped(Sum(after.byModel, None, c)) {
      GetOfFold(l.totals, t, c);
      if i < |l.byModel| {
        GetOfFold(l.byModel[i].1, t, c);
        SumUpdate(l.byModel, i, Fold(l.byModel[i].1, t), c);
        EntryOfSum(l.byModel, i, c);
      } else {
        GetOfFold(ZERO, t, c);
        SumConcat(l.byModel, [(model, Fold(ZERO, t))], None, c);
        SumOfOne((model, Fold(ZERO, t)), None, c);
      }
    }
  }

  lemma {:induction false} EntriesKeepBalanced(l: Ledger, entries: Bill)
    requires Balanced(l)
    ensures Balanced(FoldEntries(l, entries))
    decreases |entries|
  {
    hide Balanced, FoldEntry;
    if entries != [] {
      EntryKeepsBalanced(l, entries[0].0, entries[0].1);
      EntriesKeepBalanced(FoldEntry(l, entries[0].0, entries[0].1), entries[1..]);
    }
  }

  lemma {:induction false} FoldWhereAppend(entries: Bill, x: (string, Totals), who: Option<string>)
    requires Debtless(entries) && NoDebt(x.1)
    ensures FoldWhere(entries + [x], who) ==
            if Counts(x, who) then Fold(FoldWhere(entries, who), x.1) else FoldWhere(entries, who)
  {
    hide Fold, NoDebt;
    ZeroHasNoDebt();
    if entries == [] {
      assert entries + [x] == [x] && [x][1..] == [];
      FoldLaws(x.1, ZERO, ZERO);
      FoldLaws(ZERO, x.1, ZERO);
    } else {
      assert (entries + [x])[1..] == entries[1..] + [x];
      FoldWhereAppend(entries[1..], x, who);
      FoldWhereNoDebt(entries[1..], who);
      FoldLaws(entries[0].1, FoldWhere(entries[1..], who), x.1);
    }
  }

  lemma {:induction false} FoldWhereUpdate(bill: Bill, i: nat, t: Totals)
    requires i < |bill| && Debtless(bill) && NoDebt(t)
    ensures FoldWhere(bill[i := (bill[i].0, Fold(bill[i].1, t))], None) == Fold(FoldWhere(bill, None), t)
  {
    hide Fold, NoDebt;
    var rest := FoldWhere(bill[1..], None);
    FoldWhereNoDebt(bill[1..], None);
    if i == 0 {
      FoldLaws(bill[0].1, t, rest);
      FoldLaws(t, rest, t);
      FoldLaws(bill[0].1, rest, t);
      assert bill[0 := (bill[0].0, Fold(bill[0].1, t))][1..] == bill[1..];
    } else {
      assert bill[i := (bill[i].0, Fold(bill[i].1, t))][1..] == bill[1..][i - 1 := (bill[i].0, Fold(bill[i].1, t))];
      FoldWhereUpdate(bill[1..], i - 1, t);
      FoldLaws(bill[0].1, rest, t);
    }
  }

  lemma EntryKeepsConsistent(l: Ledger, model: string, t: Totals)
    requires Consistent(l) && NoDebt(t)
    ensures Consistent(FoldEntry(l, model, t))
  {
    hide Fold, IndexOf, FoldWhere, NoDebt;
    ZeroHasNoDebt();
    var i := IndexOf(l.byModel, model);
    FoldLaws(l.totals, t, ZERO);
    if i < |l.byModel| {
      FoldWhereUpdate(l.byModel, i, t);
      FoldLaws(l.byModel[i].1, t, ZERO);
    } else {
      FoldLaws(ZERO, t, ZERO);
      FoldLaws(t, ZERO, ZERO);
      FoldWhereAppend(l.byModel, (model, Fold(ZERO, t)), None);
    }
  }

  lemma {:induction false} EntriesKeepConsistent(l: Ledger, entries: Bill)
    requires Consistent(l) && Debtless(entries)
    ensures Consistent(FoldEntries(l, entries))
    decreases |entries|
  {
    hide Consistent, FoldEntry;
    if entries != [] {
      EntryKeepsConsistent(l, entries[0].0, entries[0].1);
      EntriesKeepConsistent(FoldEntry(l, entries[0].0, entries[0].1), entries[1..]);
    }
  }

  lemma {:induction false} NotCounted(bill: Bill, model: string)
    requires forall k | 0 <= k < |bill| :: bill[k].0 != model
    ensures FoldWhere(bill, Some(model)) == ZERO
  {
    hide Fold;
    if bill != [] {
      NotCounted(bill[1..], model);
    }
  }

  /** In a bill that names each model once, a model's counters are its entry. */
  lemma {:induction false} CountersAreTheEntry(bill: Bill, model: string)
    requires DistinctModels(bill)
    ensures FoldWhere(bill, Some(model)) == CountersOf(bill, model)
  {
    hide Fold;
    if bill != [] {
      if bill[0].0 == model {
        NotCounted(bill[1..], model);
        FoldZeroRight(bill[0].1);
      } else {
        CountersAreTheEntry(bill[1..], model);
      }
    }
  }

  lemma EmptyIsConsistent()
    ensures Consistent(EMPTY) && Balanced(EMPTY)
    ensures forall who :: Amount(EMPTY, who) == ZERO
  {
  }

  lemma BalancedSum(l: Ledger, who: Option<string>, c: Counter)
    requires Balanced(l)
    ensures Capped(Sum(l.byModel, who, c)) == Get(Amount(l, who), c)
  {
    hide Sum, Get, FoldWhere;
    if who.Some? {
      CountersAreTheEntry(l.byModel, who.value);
      CounterIsSaturatedSum(l.byModel, who, c);
    }
  }

  lemma ChildCounter(parent: Ledger, calls: Bill, who: Option<string>, c: Counter)
    ensures Get(Amount(FoldEntries(parent, FoldEntries(EMPTY, calls).byModel), who), c) ==
            Get(Amount(FoldEntries(parent, calls), who), c)
  {
    hide Amount, FoldEntries, Get, Sum, Balanced;
    var child := FoldEntries(EMPTY, calls);
    EmptyIsConsistent();
    EntriesKeepBalanced(EMPTY, calls);
    BalancedSum(child, who, c);
    CounterAfterEntries(EMPTY, calls, who, c);
    GetOfFold(ZERO, ZERO, c);
    CounterAfterEntries(parent, calls, who, c);
    CounterAfterEntries(parent, child.byModel, who, c);
  }

  lemma DebtlessChild(parent: Ledger, calls: Bill, who: Option<string>)
    requires Debtless(calls) && NoDebt(Amount(parent, who))
    ensures Amount(FoldEntries(parent, FoldEntries(EMPTY, calls).byModel), who) ==
            Amount(FoldEntries(parent, calls), who)
  {
    hide Fold, FoldWhere, Amount, FoldEntries, NoDebt, Debtless;
    var child := FoldEntries(EMPTY, calls);
    ZeroHasNoDebt();
    EmptyIsConsistent();
    EntriesKeepConsistent(EMPTY, calls);
    DebtlessAfterEntries(EMPTY, calls, who);
    FoldWhereNoDebt(calls, who);
    FoldLaws(FoldWhere(calls, who), ZERO, ZERO);
    DebtlessAfterEntries(parent, calls, who);
    DebtlessAfterEntries(parent, child.byModel, who);
    AmountIsWhere(child, who);
  }

  /**
   Folding a child's bill by model into a ledger counts what recording the child's calls there one by one counts;
   without negative costs the two agree on the cost as well.
   */
  lemma ChildBillEqualsItsCalls(parent: Ledger, calls: Bill, who: Option<string>)
    ensures var (billed, recorded) :=
              (FoldEntries(parent, FoldEntries(EMPTY, calls).byModel), FoldEntries(parent, calls));
            && (forall c :: Get(Amount(billed, who), c) == Get(Amount(recorded, who), c))
            && (Debtless(calls) && NoDebt(Amount(parent, who)) ==> Amount(billed, who) == Amount(recorded, who))
  {
    hide Amount, FoldEntries, NoDebt, Debtless, Get;
    forall c ensures Get(Amount(FoldEntries(parent, FoldEntries(EMPTY, calls).byModel), who), c) ==
                     Get(Amount(FoldEntries(parent, calls), who), c) {
      ChildCounter(parent, calls, who, c);
    }
    if Debtless(calls) && NoDebt(Amount(parent, who)) {
      DebtlessChild(parent, calls, who);
    }
  }

  lemma AmountIsWhere(l: Ledger, who: Option<string>)
    requires Consistent(l)
    ensures FoldWhere(l.byModel, who) == Amount(l, who)
  {
    hide Fold, FoldWhere;
    if who.Some? {
      CountersAreTheEntry(l.byModel, who.value);
    }
  }

  // ---------------------------------------------------------------- the order does not matter

  lemma {:induction false} FoldWhereRemove(entries: Bill, i: nat, who: Option<string>)
    requires i < |entries| && Debtless(entries)
    ensures var rest := FoldWhere(entries[..i] + entries[i + 1..], who);
            FoldWhere(entries, who) == if Counts(entries[i], who) then Fold(entries[i].1, rest) else rest
  {
    hide Fold, NoDebt;
    if i == 0 {
      assert entries[..0] + entries[1..] == entries[1..];
    } else {
      var tail := entries[1..];
      var without := tail[..i - 1] + tail[i..];
      assert entries[..i] + entries[i + 1..] == [entries[0]] + without;
      assert ([entries[0]] + without)[1..] == without;
      assert tail[i - 1] == entries[i] && tail[i..] == entries[i + 1..];
      FoldWhereRemove(tail, i - 1, who);
      FoldWhereNoDebt(without, who);
      var rest := FoldWhere(without, who);
      FoldLaws(entries[0].1, entries[i].1, rest);
      FoldLaws(entries[i].1, entries[0].1, rest);
    }
  }

  lemma RemoveOne(b: Bill, i: nat)
    requires i < |b|
    ensures multiset(b) == multiset(b[..i] + b[i + 1..]) + multiset{b[i]}
  {
    assert b == b[..i] + [b[i]] + b[i + 1..];
  }

  lemma SameWithoutFirst(a: Bill, b: Bill) returns (i: nat)
    requires a != [] && multiset(a) == multiset(b)
    ensures i < |b| && b[i] == a[0] && multiset(a[1..]) == multiset(b[..i] + b[i + 1..])
  {
    assert a[0] in multiset(a);
    i :| 0 <= i < |b| && b[i] == a[0];
    RemoveOne(a, 0);
    RemoveOne(b, i);
    assert a[..0] + a[1..] == a[1..];
    var x := multiset{a[0]};
    assert (multiset(a[1..]) + x) - x == multiset(a[1..]);
    assert (multiset(b[..i] + b[i + 1..]) + x) - x == multiset(b[..i] + b[i + 1..]);
  }

  lemma DebtlessWithout(b: Bill, i: nat)
    requires Debtless(b) && i < |b|
    ensures Debtless(b[i + 1..]) && Debtless(b[..i] + b[i + 1..])
  {
    hide NoDebt;
  }

  lemma {:induction false} SumInAnyOrder(a: Bill, b: Bill, who: Option<string>, c: Counter)
    requires multiset(a) == multiset(b)
    ensures Sum(a, who, c) == Sum(b, who, c)
    decreases |a|
  {
    hide Get;
    if a == [] {
      assert |multiset(b)| == |b| == 0;
    } else {
      var i := SameWithoutFirst(a, b);
      SumInAnyOrder(a[1..], b[..i] + b[i + 1..], who, c);
      assert b == b[..i] + ([b[i]] + b[i + 1..]);
      SumConcat(b[..i], [b[i]] + b[i + 1..], who, c);
      SumConcat([b[i]], b[i + 1..], who, c);
      SumConcat(b[..i], b[i + 1..], who, c);
      SumOfOne(b[i], who, c);
    }
  }

  lemma {:induction false} FoldInAnyOrder(a: Bill, b: Bill, who: Option<string>)
    requires Debtless(a) && Debtless(b) && multiset(a) == multiset(b)
    ensures FoldWhere(a, who) == FoldWhere(b, who)
    decreases |a|
  {
    hide Fold, NoDebt, Debtless;
    if a == [] {
      assert |multiset(b)| == |b| == 0;
    } else {
      var i := SameWithoutFirst(a, b);
      var without := b[..i] + b[i + 1..];
      DebtlessWithout(a, 0);
      DebtlessWithout(b, i);
      FoldWhereRemove(b, i, who);
      FoldInAnyOrder(a[1..], without, who);
    }
  }

  lemma DebtlessInAnyOrder(a: Bill, b: Bill)
    requires Debtless(a) && multiset(a) == multiset(b)
    ensures Debtless(b)
  {
    hide NoDebt;
    forall k | 0 <= k < |b| ensures NoDebt(b[k].1) {
      assert b[k] in multiset(b);
      assert b[k] in a;
    }
  }

  // ---------------------------------------------------------------- whole runs

  function EntriesOf(op: Operation): Bill {
    match op
    case MainLoopCall(model, usage, apiMillis, cost) => [(model, FromCall(usage, apiMillis, cost))]
    case Subagent(bill, _) => bill
    case MarkIncomplete => []
  }

  function AllEntries(ops: seq<Operation>): Bill {
    if ops == [] then [] else EntriesOf(ops[0]) + AllEntries(ops[1..])
  }

  lemma {:induction false} FoldEntriesConcat(l: Ledger, a: Bill, b: Bill)
    ensures FoldEntries(l, a + b) == FoldEntries(FoldEntries(l, a), b)
    decreases |a|
  {
    hide FoldEntry;
    if a == [] {
      assert a + b == b;
    } else {
      assert (a + b)[1..] == a[1..] + b;
      FoldEntriesConcat(FoldEntry(l, a[0].0, a[0].1), a[1..], b);
    }
  }

  lemma {:induction false} FoldEntriesIgnoresFlags(l: Ledger, m: Ledger, entries: Bill)
    requires l.totals == m.totals && l.byModel == m.byModel
    ensures FoldEntries(l, entries).totals == FoldEntries(m, entries).totals
    ensures FoldEntries(l, entries).byModel == FoldEntries(m, entries).byModel
    decreases |entries|
  {
    hide Fold, FoldInto;
    if entries != [] {
      var (model, t) := entries[0];
      FoldEntriesIgnoresFlags(FoldEntry(l, model, t), FoldEntry(m, model, t), entries[1..]);
    }
  }

  lemma {:induction false} RunFoldsAllEntries(l: Ledger, ops: seq<Operation>)
    ensures Run(l, ops).totals == FoldEntries(l, AllEntries(ops)).totals
    ensures Run(l, ops).byModel == FoldEntries(l, AllEntries(ops)).byModel
    decreases |ops|
  {
    hide FoldEntry;
    if ops != [] {
      var op := ops[0];
      var after := Apply(l, op);
      RunFoldsAllEntries(after, ops[1..]);
      FoldEntriesConcat(l, EntriesOf(op), AllEntries(ops[1..]));
      ApplyFoldsEntries(l, op);
      FoldEntriesIgnoresFlags(after, FoldEntries(l, EntriesOf(op)), AllEntries(ops[1..]));
    }
  }

  lemma ApplyFoldsEntries(l: Ledger, op: Operation)
    ensures Apply(l, op).totals == FoldEntries(l, EntriesOf(op)).totals
    ensures Apply(l, op).byModel == FoldEntries(l, EntriesOf(op)).byModel
  {
    hide Fold, FoldInto, FromCall;
    if op.MainLoopCall? {
      assert EntriesOf(op)[1..] == [];
    }
  }

  lemma DebtlessRun(ops: seq<Operation>, who: Option<string>)
    requires Debtless(AllEntries(ops))
    ensures Amount(Run(EMPTY, ops), who) == FoldWhere(AllEntries(ops), who)
    ensures Consistent(Run(EMPTY, ops))
  {
    hide Fold, FoldWhere, FoldEntries, AllEntries, Run, NoDebt, Debtless;
    var entries := AllEntries(ops);
    RunFoldsAllEntries(EMPTY, ops);
    EmptyIsConsistent();
    ZeroHasNoDebt();
    EntriesKeepConsistent(EMPTY, entries);
    DebtlessAfterEntries(EMPTY, entries, who);
    FoldWhereNoDebt(entries, who);
    FoldLaws(FoldWhere(entries, who), ZERO, ZERO);
  }

  lemma CountersOfRun(ops: seq<Operation>, who: Option<string>, c: Counter)
    ensures var l := Run(EMPTY, ops);
            && Get(Amount(l, who), c) == Capped(Sum(AllEntries(ops), who, c))
            && Get(l.totals, c) == Capped(Sum(l.byModel, None, c))
  {
    hide FoldEntries, AllEntries, Run, Get, Sum;
    RunFoldsAllEntries(EMPTY, ops);
    EmptyIsConsistent();
    EntriesKeepBalanced(EMPTY, AllEntries(ops));
    CounterAfterEntries(EMPTY, AllEntries(ops), who, c);
    GetOfFold(ZERO, ZERO, c);
  }

  /**
   After any run every counter, of the totals and of each model, is the plain sum of what was recorded, cut off once,
   and the totals are the sum over the models. Without negative costs the same holds of the cost.
   */
  lemma RunInClosedForm(ops: seq<Operation>, who: Option<string>)
    ensures var l := Run(EMPTY, ops);
            forall c :: && Get(Amount(l, who), c) == Capped(Sum(AllEntries(ops), who, c))
                        && Get(l.totals, c) == Capped(Sum(l.byModel, None, c))
    ensures Debtless(AllEntries(ops)) ==>
              && Amount(Run(EMPTY, ops), who) == FoldWhere(AllEntries(ops), who)
              && Run(EMPTY, ops).totals == FoldWhere(Run(EMPTY, ops).byModel, None)
  {
    hide FoldWhere, AllEntries, Run, Amount, Debtless, Get, Sum;
    forall c ensures && Get(Amount(Run(EMPTY, ops), who), c) == Capped(Sum(AllEntries(ops), who, c))
                     && Get(Run(EMPTY, ops).totals, c) == Capped(Sum(Run(EMPTY, ops).byModel, None, c)) {
      CountersOfRun(ops, who, c);
    }
    if Debtless(AllEntries(ops)) {
      DebtlessRun(ops, who);
    }
  }

  /**
   Two runs that record the same entries in another order, in other portions or for other reasons, count the same
   everywhere; without negative costs they agree on the cost as well.
   */
  lemma OrderDoesNotMatter(a: seq<Operation>, b: seq<Operation>, who: Option<string>)
    requires multiset(AllEntries(a)) == multiset(AllEntries(b))
    ensures forall c :: Get(Amount(Run(EMPTY, a), who), c) == Get(Amount(Run(EMPTY, b), who), c)
    ensures Debtless(AllEntries(a)) ==> Amount(Run(EMPTY, a), who) == Amount(Run(EMPTY, b), who)
  {
    hide Amount, Run, Get, Debtless, AllEntries, FoldWhere, Sum;
    RunInClosedForm(a, who);
    RunInClosedForm(b, who);
    forall c ensures Get(Amount(Run(EMPTY, a), who), c) == Get(Amount(Run(EMPTY, b), who), c) {
      SumInAnyOrder(AllEntries(a), AllEntries(b), who, c);
    }
    if Debtless(AllEntries(a)) {
      DebtlessInAnyOrder(AllEntries(a), AllEntries(b));
      FoldInAnyOrder(AllEntries(a), AllEntries(b), who);
    }
  }

  /** Main-loop calls are among the model calls; a ledger once incomplete stays so. */
  lemma {:induction false} RunKeepsCallCount(l: Ledger, ops: seq<Operation>)
    requires l.mainLoopCalls <= l.totals.modelCalls
    ensures Run(l, ops).mainLoopCalls <= Run(l, ops).totals.modelCalls
    ensures l.incomplete ==> Run(l, ops).incomplete
    decreases |ops|
  {
    hide FoldInto;
    if ops != [] {
      if ops[0].Subagent? {
        FoldingOnlyAdds(l, ops[0].bill);
      }
      RunKeepsCallCount(Apply(l, ops[0]), ops[1..]);
    }
  }

  lemma {:induction false} FoldingOnlyAdds(l: Ledger, entries: Bill)
    ensures var after := FoldEntries(l, entries);
            && after.totals.modelCalls >= l.totals.modelCalls
            && after.mainLoopCalls == l.mainLoopCalls && after.incomplete == l.incomplete
    decreases |entries|
  {
    hide FoldInto;
    if entries != [] {
      FoldingOnlyAdds(FoldEntry(l, entries[0].0, entries[0].1), entries[1..]);
    }
  }

  /** One model call: counted once, with a positive cost or with its cost counted as missing. */
  predicate IsCall(t: Totals) {
    t.modelCalls == 1 &&
    match t.costTicks
    case None => t.costMissing == 1
    case Some(ticks) => ticks > 0 && t.costMissing == 0
  }

  lemma FromCallIsCall(usage: TokenUsage, apiMillis: Option<U64>, cost: Option<I64>)
    ensures IsCall(FromCall(usage, apiMillis, cost))
    ensures FromCall(usage, apiMillis, cost).costTicks == if cost.Some? && cost.value > 0 then cost else None
  {
  }

  /**
   Over any calls the cost is absent exactly if every call was missing it, and the missing ones are among the calls.
   */
  lemma {:induction false} CostIsAbsentExactly(calls: Bill, who: Option<string>)
    requires (forall k | 0 <= k < |calls| :: IsCall(calls[k].1)) && |calls| <= U64_MAX
    ensures var t := FoldWhere(calls, who);
            && t.modelCalls <= |calls| && t.costMissing <= t.modelCalls
            && (t.costTicks.None? <==> t.costMissing == t.modelCalls)
            && (t.costTicks.Some? ==> t.costTicks.value > 0)
  {
    if calls != [] {
      CostIsAbsentExactly(calls[1..], who);
    }
  }

  // ---------------------------------------------------------------- what a call counts for

  /** What one main-loop call brings to a counter. */
  function Brings(op: Operation, c: Counter): U64
    requires op.MainLoopCall?
  {
    match c
    case Input => op.usage.prompt
    case Output => op.usage.completion
    case CachedRead => op.usage.cachedPrompt
    case CacheCreation => op.usage.cacheCreation
    case Reasoning => op.usage.reasoning
    case ModelCalls => 1
    case ApiMillis => if op.apiMillis.Some? then op.apiMillis.value else 0
    case CostMissing => if op.cost.Some? && op.cost.value > 0 then 0 else 1
  }

  predicate AreMainLoopCalls(ops: seq<Operation>) {
    forall k | 0 <= k < |ops| :: ops[k].MainLoopCall?
  }

  function CallSum(ops: seq<Operation>, who: Option<string>, c: Counter): nat
    requires AreMainLoopCalls(ops)
  {
    if ops == [] then 0
    else
      (if who.None? || who.value == ops[0].model then Brings(ops[0], c) else 0) + CallSum(ops[1..], who, c)
  }

  /** The positive costs added up. */
  function CostSum(ops: seq<Operation>, who: Option<string>): nat
    requires AreMainLoopCalls(ops)
  {
    if ops == [] then 0
    else
      var counts := (who.None? || who.value == ops[0].model) && ops[0].cost.Some? && ops[0].cost.value > 0;
      (if counts then ops[0].cost.value else 0) + CostSum(ops[1..], who)
  }

  lemma {:induction false} CallSumIsSum(ops: seq<Operation>, who: Option<string>, c: Counter)
    requires AreMainLoopCalls(ops)
    ensures Sum(AllEntries(ops), who, c) == CallSum(ops, who, c)
  {
    hide Get, FromCall;
    if ops != [] {
      CallSumIsSum(ops[1..], who, c);
      CallBrings(ops[0], c);
      SumConcat(EntriesOf(ops[0]), AllEntries(ops[1..]), who, c);
      SumOfOne(EntriesOf(ops[0])[0], who, c);
    }
  }

  lemma CallBrings(op: Operation, c: Counter)
    requires op.MainLoopCall?
    ensures Get(FromCall(op.usage, op.apiMillis, op.cost), c) == Brings(op, c)
  {
  }

  lemma {:induction false} CostSumIsFolded(ops: seq<Operation>, who: Option<string>)
    requires AreMainLoopCalls(ops)
    ensures var sum := CostSum(ops, who);
            FoldWhere(AllEntries(ops), who).costTicks ==
            if sum == 0 then None else Some(if sum > I64_MAX then I64_MAX else sum)
  {
    if ops != [] {
      var (first, later) := (EntriesOf(ops[0]), AllEntries(ops[1..]));
      CostSumIsFolded(ops[1..], who);
      assert (first + later)[0] == first[0] && (first + later)[1..] == later;
    }
  }

  lemma {:induction false} CallsHaveNoDebts(ops: seq<Operation>)
    requires AreMainLoopCalls(ops)
    ensures Debtless(AllEntries(ops))
  {
    if ops != [] {
      CallsHaveNoDebts(ops[1..]);
    }
  }

  lemma {:induction false} MainLoopCallsAreCounted(l: Ledger, ops: seq<Operation>)
    requires AreMainLoopCalls(ops)
    ensures Run(l, ops).mainLoopCalls == Capped(l.mainLoopCalls + |ops|)
    decreases |ops|
  {
    hide FoldInto, Fold, FromCall;
    if ops != [] {
      MainLoopCallsAreCounted(Apply(l, ops[0]), ops[1..]);
    }
  }

  /**
   After any main-loop calls every counter, in total and of a model, is the sum of the calls' own figures, cut off once;
   the cost is the sum of the positive costs, or absent without any.
   */
  lemma CallsAreCounted(ops: seq<Operation>, who: Option<string>)
    requires AreMainLoopCalls(ops)
    ensures forall c :: Get(Amount(Run(EMPTY, ops), who), c) == Capped(CallSum(ops, who, c))
    ensures var sum := CostSum(ops, who);
            Amount(Run(EMPTY, ops), who).costTicks ==
            if sum == 0 then None else Some(if sum > I64_MAX then I64_MAX else sum)
    ensures Run(EMPTY, ops).mainLoopCalls == Capped(|ops|)
  {
    hide Amount, Run, Get, Sum, CallSum, CostSum, FoldWhere, AllEntries, Debtless;
    RunInClosedForm(ops, who);
    forall c ensures Get(Amount(Run(EMPTY, ops), who), c) == Capped(CallSum(ops, who, c)) {
      CallSumIsSum(ops, who, c);
    }
    CallsHaveNoDebts(ops);
    CostSumIsFolded(ops, who);
    MainLoopCallsAreCounted(EMPTY, ops);
  }

  // ---------------------------------------------------------------- sessions and their subagents

  /** What a session does: calls of its own, subagents that are sessions themselves, and usage that may be lost. */
  datatype Work =
    | Call(model: string, usage: TokenUsage, apiMillis: Option<U64>, cost: Option<I64>)
    | Child(works: seq<Work>, mayHideUsage: bool)
    | LostUsage

  /** What a session records for a piece of work: a child reports its own bill by model. */
  function OperationOf(work: Work): Operation
    decreases work, 0
  {
    match work
    case Call(model, usage, apiMillis, cost) => MainLoopCall(model, usage, apiMillis, cost)
    case Child(inner, mayHideUsage) =>
      var child := Run(EMPTY, OperationsOf(inner));
      Subagent(child.byModel, child.incomplete || mayHideUsage)
    case LostUsage => MarkIncomplete
  }

  function OperationsOf(works: seq<Work>): seq<Operation>
    decreases works, 1
  {
    if works == [] then [] else [OperationOf(works[0])] + OperationsOf(works[1..])
  }

  function SessionLedger(works: seq<Work>): Ledger {
    Run(EMPTY, OperationsOf(works))
  }

  /** The calls of a piece of work, those of all subagents below it included. */
  function CallsOf(work: Work): Bill
    decreases work, 0
  {
    match work
    case Call(model, usage, apiMillis, cost) => [(model, FromCall(usage, apiMillis, cost))]
    case Child(inner, _) => CallsIn(inner)
    case LostUsage => []
  }

  function CallsIn(works: seq<Work>): Bill
    decreases works, 1
  {
    if works == [] then [] else CallsOf(works[0]) + CallsIn(works[1..])
  }

  predicate MayMissUsage(works: seq<Work>) {
    works != [] && (
      || works[0].LostUsage?
      || (works[0].Child? && (works[0].mayHideUsage || MayMissUsage(works[0].works)))
      || MayMissUsage(works[1..]))
  }

  predicate AreCalls(entries: Bill) {
    forall k | 0 <= k < |entries| :: IsCall(entries[k].1)
  }

  lemma CallsHaveNoDebt(entries: Bill)
    requires AreCalls(entries)
    ensures Debtless(entries)
  {
  }

  lemma {:induction false} CallsInAreCalls(works: seq<Work>)
    ensures AreCalls(CallsIn(works))
    decreases works, 1
  {
    hide IsCall, CallsOf;
    if works != [] {
      CallsOfAreCalls(works[0]);
      CallsInAreCalls(works[1..]);
    }
  }

  lemma {:induction false} CallsOfAreCalls(work: Work)
    ensures AreCalls(CallsOf(work))
    decreases work, 0
  {
    hide FromCall, IsCall, CallsIn;
    match work
    case Call(model, usage, apiMillis, cost) => FromCallIsCall(usage, apiMillis, cost);
    case Child(inner, _) => CallsInAreCalls(inner);
    case LostUsage =>
  }

  lemma {:induction false} FoldWhereConcat(a: Bill, b: Bill, who: Option<string>)
    requires Debtless(a) && Debtless(b)
    ensures Debtless(a + b)
    ensures FoldWhere(a + b, who) == Fold(FoldWhere(a, who), FoldWhere(b, who))
  {
    hide Fold, NoDebt;
    ZeroHasNoDebt();
    FoldWhereNoDebt(b, who);
    if a == [] {
      assert a + b == b;
      FoldLaws(FoldWhere(b, who), ZERO, ZERO);
    } else {
      assert (a + b)[1..] == a[1..] + b;
      FoldWhereConcat(a[1..], b, who);
      FoldWhereNoDebt(a[1..], who);
      FoldLaws(a[0].1, FoldWhere(a[1..], who), FoldWhere(b, who));
    }
  }

  lemma {:induction false} RecordedAreCalls(works: seq<Work>, who: Option<string>)
    ensures Debtless(AllEntries(OperationsOf(works)))
    ensures FoldWhere(AllEntries(OperationsOf(works)), who) == FoldWhere(CallsIn(works), who)
    decreases works, 1
  {
    hide Fold, FoldWhere, Debtless, OperationOf, CallsOf, EntriesOf;
    if works == [] {
      assert Debtless([]) by { NothingIsDebtless(); }
    } else {
      var (op, later) := (OperationOf(works[0]), OperationsOf(works[1..]));
      assert OperationsOf(works)[0] == op && OperationsOf(works)[1..] == later;
      RecordedIsCalls(works[0], who);
      RecordedAreCalls(works[1..], who);
      CallsOfAreCalls(works[0]);
      CallsHaveNoDebt(CallsOf(works[0]));
      CallsInAreCalls(works[1..]);
      CallsHaveNoDebt(CallsIn(works[1..]));
      FoldWhereConcat(EntriesOf(op), AllEntries(later), who);
      FoldWhereConcat(CallsOf(works[0]), CallsIn(works[1..]), who);
    }
  }

  lemma NothingIsDebtless()
    ensures Debtless([])
  {
  }

  lemma {:induction false} RecordedIsCalls(work: Work, who: Option<string>)
    ensures Debtless(EntriesOf(OperationOf(work)))
    ensures FoldWhere(EntriesOf(OperationOf(work)), who) == FoldWhere(CallsOf(work), who)
    decreases work, 0
  {
    hide Fold, FoldWhere, NoDebt, Debtless, FromCall, Run, OperationsOf, CallsIn, AllEntries;
    CallsOfAreCalls(work);
    CallsHaveNoDebt(CallsOf(work));
    if work.Child? {
      RecordedAreCalls(work.works, who);
      DebtlessRun(OperationsOf(work.works), who);
      AmountIsWhere(SessionLedger(work.works), who);
    }
  }

  /**
   The bill of a session with subagents at any depth is the bill of all their calls recorded in one ledger: no call is
   lost or counted twice, in the totals or for a model, cost included. The ledger is marked incomplete exactly if
   usage may be missing somewhere below.
   */
  lemma SessionBillIsItsCalls(works: seq<Work>, who: Option<string>)
    ensures Amount(SessionLedger(works), who) == FoldWhere(CallsIn(works), who)
    ensures SessionLedger(works).totals == FoldWhere(SessionLedger(works).byModel, None)
    ensures SessionLedger(works).incomplete <==> MayMissUsage(works)
  {
    hide FoldWhere, Amount, Run, AllEntries, Debtless, CallsIn, MayMissUsage;
    RecordedAreCalls(works, who);
    DebtlessRun(OperationsOf(works), who);
    IncompleteExactly(EMPTY, works);
  }

  lemma {:induction false} IncompleteExactly(l: Ledger, works: seq<Work>)
    ensures Run(l, OperationsOf(works)).incomplete <==> l.incomplete || MayMissUsage(works)
    decreases works
  {
    hide FoldEntries, FoldEntry;
    if works != [] {
      var ops := OperationsOf(works);
      assert ops[0] == OperationOf(works[0]) && ops[1..] == OperationsOf(works[1..]);
      if works[0].Child? {
        IncompleteExactly(EMPTY, works[0].works);
        FoldingOnlyAdds(l, ops[0].bill);
      } else {
        assert Apply(l, ops[0]).incomplete == (l.incomplete || works[0].LostUsage?) by { FoldKeepsFlag(l, ops[0]); }
      }
      IncompleteExactly(Apply(l, ops[0]), works[1..]);
    }
  }

  lemma FoldKeepsFlag(l: Ledger, op: Operation)
    requires !op.Subagent?
    ensures Apply(l, op).incomplete == (l.incomplete || op.MarkIncomplete?)
  {
  }

  /** A session's cost is absent exactly if every call below it was missing one, for a model as in total. */
  lemma SessionCostIsAbsentExactly(works: seq<Work>, who: Option<string>)
    requires |CallsIn(works)| <= U64_MAX
    ensures var t := Amount(SessionLedger(works), who);
            && t.costMissing <= t.modelCalls <= |CallsIn(works)|
            && (t.costTicks.None? <==> t.costMissing == t.modelCalls)
            && (t.costTicks.Some? ==> t.costTicks.value > 0)
  {
    hide FoldWhere, CallsIn, SessionLedger;
    SessionBillIsItsCalls(works, who);
    CallsInAreCalls(works);
    CostIsAbsentExactly(CallsIn(works), who);
  }

  // ---------------------------------------------------------------- the ledger object

  class UsageLedger {
    var totals: Totals
    var byModel: Bill
    var mainLoopModelCalls: U64
    var incomplete: bool

    constructor ()
      ensures Contents() == EMPTY
    {
      totals, byModel, mainLoopModelCalls, incomplete := ZERO, [], 0, false;
    }

    ghost function Contents(): Ledger
      reads this
    {
      Ledger(totals, byModel, mainLoopModelCalls, incomplete)
    }

    method FoldOne(model: string, t: Totals)
      modifies this
      ensures Contents() == FoldEntry(old(Contents()), model, t)
    {
      hide Fold, IndexOf;
      totals := Fold(totals, t);
      var i := IndexOf(byModel, model);
      if i == |byModel| {
        byModel := byModel + [(model, ZERO)];
      }
      byModel := byModel[i := (model, Fold(byModel[i].1, t))];
    }

    method RecordMainLoopCall(model: string, usage: TokenUsage, apiMillis: Option<U64>, cost: Option<I64>)
      modifies this
      ensures Contents() == Apply(old(Contents()), MainLoopCall(model, usage, apiMillis, cost))
    {
      var call := FromCall(usage, apiMillis, cost);
      mainLoopModelCalls := SatAdd(mainLoopModelCalls, 1);
      FoldOne(model, call);
    }

    method RecordSubagent(bill: Bill, partial: bool)
      modifies this
      ensures Contents() == Apply(old(Contents()), Subagent(bill, partial))
    {
      hide FoldEntry;
      assert bill[0..] == bill;
      for k := 0 to |bill|
        invariant FoldEntries(Contents(), bill[k..]) == FoldEntries(old(Contents()), bill)
      {
        assert bill[k..][1..] == bill[k + 1..];
        FoldOne(bill[k].0, bill[k].1);
      }
      if partial {
        incomplete := true;
      }
    }

    method SetIncomplete()
      modifies this
      ensures Contents() == Apply(old(Contents()), MarkIncomplete)
    {
      incomplete := true;
    }
  }
}
