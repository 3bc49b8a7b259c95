/**
 Waiting on the terminal grid. A feeder and resize calls change the grid under the terminal lock and bump a generation
 counter afterwards; waiters mark the generation, check the grid under the lock, and park until the counter moves.
 The steps of all of them interleave freely.
 */
module WaitProtocol {
  /** The grid, as the screen text that conditions look at. */
  type Grid = string

  type Condition = Grid -> bool

  datatype FeederPhase = Receiving | Feeding | Fed | Gone

  /** A resize: after the lock is taken, after the grid has changed, with the sender upgraded, done but still locked. */
  datatype ResizePhase = NoResize | ResizeLocked | Resized | Upgraded | ResizeDone

  datatype WaiterPhase = Starting | Marked | Checking | Parked | Matched | Ended | TimedOut

  datatype Waiter = Waiter(condition: Condition, phase: WaiterPhase, seen: nat, checked: Grid, missedBefore: nat)

  datatype Lock = Free | HeldByFeeder | HeldByResize | HeldByWaiter(index: nat)

  /** `unsignalled` counts the resizes that found no sender left to bump. */
  datatype State = State(
    grid: Grid, generation: nat, lock: Lock, feeder: FeederPhase, resize: ResizePhase, unsignalled: nat,
    waiters: seq<Waiter>)

  datatype Step =
    | FeederLocks
    | FeederFeeds(newGrid: Grid)
    | FeederBumps
    | FeederEnds
    | ResizeLocks
    | ResizeFails
    | ResizeChanges(newGrid: Grid)
    | ResizeUpgrades
    | ResizeBumps
    | ResizeUnlocks
    | WaiterMarks(index: nat)
    | WaiterLocks(index: nat)
    | WaiterChecks(index: nat)
    | WaiterWakes(index: nat)
    | WaiterSeesEnd(index: nat)
    | WaiterTimesOut(index: nat)

  /** A strong reference to the sender is held by the feeder while it runs and by a resize that upgraded. */
  predicate SenderAlive(s: State) {
    !s.feeder.Gone? || s.resize.Upgraded?
  }

  /** The grid has changed and the bump for it is still to come. */
  predicate BumpInFlight(s: State) {
    s.feeder.Fed? || s.resize.Resized? || s.resize.Upgraded?
  }

  predicate InPhase(s: State, i: nat, phase: WaiterPhase) {
    i < |s.waiters| && s.waiters[i].phase == phase
  }

  predicate Enabled(s: State, step: Step) {
    match step
    case FeederLocks => s.feeder.Receiving? && s.lock.Free?
    case FeederFeeds(_) => s.feeder.Feeding?
    case FeederBumps => s.feeder.Fed?
    case FeederEnds => s.feeder.Receiving?
    case ResizeLocks => s.resize.NoResize? && s.lock.Free?
    case ResizeFails => s.resize.ResizeLocked?
    case ResizeChanges(_) => s.resize.ResizeLocked?
    case ResizeUpgrades => s.resize.Resized?
    case ResizeBumps => s.resize.Upgraded?
    case ResizeUnlocks => s.resize.ResizeDone?
    case WaiterMarks(i) => InPhase(s, i, Starting)
    case WaiterLocks(i) => InPhase(s, i, Marked) && s.lock.Free?
    case WaiterChecks(i) => InPhase(s, i, Checking)
    case WaiterWakes(i) => InPhase(s, i, Parked) && s.waiters[i].seen != s.generation
    case WaiterSeesEnd(i) => InPhase(s, i, Parked) && s.waiters[i].seen == s.generation && !SenderAlive(s)
    case WaiterTimesOut(i) => InPhase(s, i, Parked)
  }

  function Moved(s: State, i: nat, phase: WaiterPhase): State
    requires i < |s.waiters|
  {
    s.(waiters := s.waiters[i := s.waiters[i].(phase := phase)])
  }

  function Checked(s: State, i: nat): State
    requires i < |s.waiters|
  {
    var w := s.waiters[i].(checked := s.grid, missedBefore := s.unsignalled);
    s.(lock := Free, waiters := s.waiters[i := w.(phase := if w.condition(s.grid) then Matched else Parked)])
  }

  function Apply(s: State, step: Step): State
    requires Enabled(s, step)
  {
    match step
    case FeederLocks => s.(feeder := Feeding, lock := HeldByFeeder)
    case FeederFeeds(g) => s.(feeder := Fed, grid := g, lock := Free)
    case FeederBumps => s.(feeder := Receiving, generation := s.generation + 1)
    case FeederEnds => s.(feeder := Gone)
    case ResizeLocks => s.(resize := ResizeLocked, lock := HeldByResize)
    case ResizeFails => s.(resize := NoResize, lock := Free)
    case ResizeChanges(g) => s.(resize := Resized, grid := g)
    case ResizeUpgrades =>
      if SenderAlive(s) then s.(resize := Upgraded) else s.(resize := ResizeDone, unsignalled := s.unsignalled + 1)
    case ResizeBumps => s.(resize := ResizeDone, generation := s.generation + 1)
    case ResizeUnlocks => s.(resize := NoResize, lock := Free)
    case WaiterMarks(i) => s.(waiters := s.waiters[i := s.waiters[i].(phase := Marked, seen := s.generation)])
    case WaiterLocks(i) => Moved(s, i, Checking).(lock := HeldByWaiter(i))
    case WaiterChecks(i) => Checked(s, i)
    case WaiterWakes(i) => Moved(s, i, Starting)
    case WaiterSeesEnd(i) => Moved(s, i, Ended)
    case WaiterTimesOut(i) => Moved(s, i, TimedOut)
  }

  predicate Initial(s: State) {
    && s.lock.Free? && s.feeder.Receiving? && s.resize.NoResize? && s.unsignalled == 0
    && forall i | 0 <= i < |s.waiters| ::
         s.waiters[i].phase.Starting? && s.waiters[i].seen <= s.generation && s.waiters[i].missedBefore == 0
  }

  /** The steps can be taken one after the other. */
  predicate CanRun(s: State, steps: seq<Step>)
    decreases |steps|
  {
    steps == [] || (Enabled(s, steps[0]) && CanRun(Apply(s, steps[0]), steps[1..]))
  }

  function Run(s: State, steps: seq<Step>): State
    requires CanRun(s, steps)
    decreases |steps|
  {
    if steps == [] then s else Run(Apply(s, steps[0]), steps[1..])
  }

  // ---------------------------------------------------------------- what every interleaving keeps

  /** The lock is held by exactly the one that is inside its critical section. */
  predicate LockIsRight(s: State) {
    && (s.lock.HeldByFeeder? <==> s.feeder.Feeding?)
    && (s.lock.HeldByResize? <==> !s.resize.NoResize?)
    && (forall i | 0 <= i < |s.waiters| :: s.lock == HeldByWaiter(i) <==> s.waiters[i].phase.Checking?)
    && (s.lock.HeldByWaiter? ==> s.lock.index < |s.waiters|)
  }

  /**
   A waiter is up to date: what it marked is not ahead; while it is parked its condition failed on the grid it checked,
   and with nothing new to see that grid is the current one, or a bump is in flight, or a resize went unsignalled.
   */
  predicate WaiterIsRight(s: State, w: Waiter) {
    && w.seen <= s.generation
    && w.missedBefore <= s.unsignalled
    && (w.phase.Parked? || w.phase.Ended? || w.phase.TimedOut? ==> !w.condition(w.checked))
    && (w.phase.Matched? ==> w.condition(w.checked))
    && (w.phase.Parked? && w.seen == s.generation ==>
          w.checked == s.grid || BumpInFlight(s) || w.missedBefore < s.unsignalled)
  }

  predicate Inv(s: State) {
    && LockIsRight(s)
    && (s.unsignalled > 0 ==> s.feeder.Gone?)
    && forall i | 0 <= i < |s.waiters| :: WaiterIsRight(s, s.waiters[i])
  }

  lemma InitialIsInv(s: State)
    requires Initial(s)
    ensures Inv(s)
  {
  }

  predicate IsWaiterStep(step: Step) {
    step.WaiterMarks? || step.WaiterLocks? || step.WaiterChecks? || step.WaiterWakes? || step.WaiterSeesEnd? ||
    step.WaiterTimesOut?
  }

  lemma StepKeepsLock(s: State, step: Step)
    requires LockIsRight(s) && Enabled(s, step)
    ensures LockIsRight(Apply(s, step))
  {
  }

  /** Feeder and resize: each change of the grid is followed by a bump, or counted as unsignalled. */
  lemma GridStepKeepsWaiter(s: State, step: Step, w: Waiter)
    requires Enabled(s, step) && !IsWaiterStep(step) && WaiterIsRight(s, w)
    ensures WaiterIsRight(Apply(s, step), w)
  {
  }

  lemma WaiterStepKeepsWaiters(s: State, step: Step, i: nat)
    requires Enabled(s, step) && IsWaiterStep(step) && i < |s.waiters| && WaiterIsRight(s, s.waiters[i])
    ensures WaiterIsRight(Apply(s, step), Apply(s, step).waiters[i])
  {
  }

  lemma StepKeepsWaiterCount(s: State, step: Step)
    requires Enabled(s, step)
    ensures |Apply(s, step).waiters| == |s.waiters|
    ensures !IsWaiterStep(step) ==> Apply(s, step).waiters == s.waiters
    ensures (s.unsignalled > 0 ==> s.feeder.Gone?) ==> (Apply(s, step).unsignalled > 0 ==> Apply(s, step).feeder.Gone?)
  {
  }

  lemma StepKeepsInv(s: State, step: Step)
    requires Inv(s) && Enabled(s, step)
    ensures Inv(Apply(s, step))
  {
    hide LockIsRight, WaiterIsRight, Enabled, Apply, IsWaiterStep;
    StepKeepsLock(s, step);
    StepKeepsWaiterCount(s, step);
    var t := Apply(s, step);
    forall i | 0 <= i < |t.waiters| ensures WaiterIsRight(t, t.waiters[i]) {
      if IsWaiterStep(step) {
        WaiterStepKeepsWaiters(s, step, i);
      } else {
        GridStepKeepsWaiter(s, step, s.waiters[i]);
      }
    }
  }

  lemma {:induction false} RunKeepsInv(s: State, steps: seq<Step>)
    requires Inv(s) && CanRun(s, steps)
    ensures Inv(Run(s, steps))
    decreases |steps|
  {
    hide Inv, Apply, Enabled;
    if steps != [] {
      StepKeepsInv(s, steps[0]);
      RunKeepsInv(Apply(s, steps[0]), steps[1..]);
    }
  }

  // ---------------------------------------------------------------- no lost wakeup

  /**
   A parked waiter whose condition now holds can wake, once every change has been bumped: while the feeder runs and
   after it has gone, as long as no resize since its check found the sender gone.
   */
  lemma NoLostWakeup(s: State, steps: seq<Step>, i: nat)
    requires Initial(s) && CanRun(s, steps)
    requires var t := Run(s, steps);
             && InPhase(t, i, Parked) && t.waiters[i].condition(t.grid)
             && !BumpInFlight(t) && t.waiters[i].missedBefore == t.unsignalled
    ensures Enabled(Run(s, steps), WaiterWakes(i))
  {
    hide Run, CanRun, Initial, LockIsRight;
    InitialIsInv(s);
    RunKeepsInv(s, steps);
  }

  /** What a waiter does on its own. */
  function OwnSteps(s: State, i: nat): seq<Step>
    requires i < |s.waiters|
  {
    var check := [WaiterChecks(i)];
    var lock := [WaiterLocks(i)] + check;
    var mark := [WaiterMarks(i)] + lock;
    match s.waiters[i].phase
    case Parked => [WaiterWakes(i)] + mark
    case Starting => mark
    case Marked => lock
    case Checking => check
    case _ => []
  }

  lemma OneStep(s: State, step: Step, rest: seq<Step>)
    requires Enabled(s, step)
    ensures CanRun(s, [step] + rest) <==> CanRun(Apply(s, step), rest)
    ensures CanRun(s, [step] + rest) ==> Run(s, [step] + rest) == Run(Apply(s, step), rest)
  {
    assert ([step] + rest)[1..] == rest;
  }

  lemma NoStep(s: State)
    ensures CanRun(s, []) && Run(s, []) == s
  {
  }

  lemma {:induction false} OwnStepsMatch(s: State, i: nat)
    requires i < |s.waiters| && s.waiters[i].condition(s.grid)
    requires s.waiters[i].phase.Checking? || s.lock.Free?
    requires s.waiters[i].phase.Parked? ==> Enabled(s, WaiterWakes(i))
    requires !s.waiters[i].phase.Ended? && !s.waiters[i].phase.TimedOut?
    ensures CanRun(s, OwnSteps(s, i))
    ensures InPhase(Run(s, OwnSteps(s, i)), i, Matched)
    decreases |OwnSteps(s, i)|
  {
    hide CanRun, Run;
    NoStep(s);
    var steps := OwnSteps(s, i);
    if steps != [] {
      var t := Apply(s, steps[0]);
      assert steps == [steps[0]] + steps[1..];
      assert OwnSteps(t, i) == steps[1..];
      OwnStepsMatch(t, i);
      OneStep(s, steps[0], steps[1..]);
    }
  }

  /** A condition true of a settled grid is found by the waiter's own steps, whatever happened before. */
  lemma SettledConditionIsMatched(s: State, steps: seq<Step>, i: nat)
    requires Initial(s) && CanRun(s, steps)
    requires var t := Run(s, steps);
             && i < |t.waiters| && !t.waiters[i].phase.Ended? && !t.waiters[i].phase.TimedOut?
             && t.waiters[i].condition(t.grid)
             && (t.waiters[i].phase.Parked? ==> !BumpInFlight(t) && t.waiters[i].missedBefore == t.unsignalled)
             && (t.lock.Free? || t.waiters[i].phase.Checking?)
    ensures var t := Run(s, steps);
            CanRun(t, OwnSteps(t, i)) && InPhase(Run(t, OwnSteps(t, i)), i, Matched)
  {
    hide Run, CanRun, Initial, Enabled, Apply, OwnSteps;
    var t := Run(s, steps);
    if t.waiters[i].phase.Parked? {
      NoLostWakeup(s, steps, i);
    }
    OwnStepsMatch(t, i);
  }

  /** What a waiter reports was true of the grid it checked: matched if it held, not matched if it did not. */
  lemma ReportsWhatItChecked(s: State, steps: seq<Step>, i: nat)
    requires Initial(s) && CanRun(s, steps) && i < |Run(s, steps).waiters|
    ensures var w := Run(s, steps).waiters[i];
            && (w.phase.Matched? ==> w.condition(w.checked))
            && (w.phase.Ended? || w.phase.TimedOut? ==> !w.condition(w.checked))
  {
    hide Run, CanRun, Initial, LockIsRight;
    InitialIsInv(s);
    RunKeepsInv(s, steps);
  }

  // ---------------------------------------------------------------- when the verdict at the end is wrong

  /** The grids that resizes put in place after the waiter's last check, oldest first. */
  function ResizesSinceCheck(steps: seq<Step>, i: nat): seq<Grid>
    decreases |steps|
  {
    if steps == [] then [] else
      var (before, last) := (steps[..|steps| - 1], steps[|steps| - 1]);
      if last == WaiterChecks(i) then []
      else if last.ResizeChanges? then ResizesSinceCheck(before, i) + [last.newGrid]
      else ResizesSinceCheck(before, i)
  }

  /** The bump that a parked waiter waits for has not come, and no feed is on its way to one. */
  predicate StillWaiting(s: State, w: Waiter) {
    w.phase.Parked? && w.seen == s.generation && !s.feeder.Fed?
  }

  /** As long as nothing was signalled to a parked waiter, the grid is the one it checked with the resizes on top. */
  predicate HistoryIsRight(s: State, w: Waiter, resizes: seq<Grid>) {
    StillWaiting(s, w) ==>
      && s.grid == (if resizes == [] then w.checked else resizes[|resizes| - 1])
      && |resizes| == s.unsignalled - w.missedBefore + if s.resize.Resized? || s.resize.Upgraded? then 1 else 0
  }

  lemma StepKeepsHistory(s: State, step: Step, i: nat, resizes: seq<Grid>)
    requires LockIsRight(s) && Enabled(s, step) && i < |s.waiters| && s.waiters[i].seen <= s.generation
    requires HistoryIsRight(s, s.waiters[i], resizes)
    ensures |Apply(s, step).waiters| == |s.waiters|
    ensures HistoryIsRight(Apply(s, step), Apply(s, step).waiters[i],
              if step == WaiterChecks(i) then []
              else if step.ResizeChanges? then resizes + [step.newGrid] else resizes)
  {
    if step == WaiterChecks(i) {
      assert s.lock == HeldByWaiter(i);
      assert s.resize.NoResize?;
    }
  }

  lemma {:induction false} RunOneMore(s: State, steps: seq<Step>, last: Step)
    requires CanRun(s, steps + [last])
    ensures CanRun(s, steps) && Enabled(Run(s, steps), last)
    ensures Run(s, steps + [last]) == Apply(Run(s, steps), last)
    decreases |steps|
  {
    hide Enabled, Apply;
    if steps == [] {
      assert steps + [last] == [last] && [last][1..] == [];
    } else {
      assert (steps + [last])[0] == steps[0] && (steps + [last])[1..] == steps[1..] + [last];
      RunOneMore(Apply(s, steps[0]), steps[1..], last);
    }
  }

  lemma {:induction false} RunKeepsHistory(s: State, steps: seq<Step>, i: nat)
    requires Initial(s) && CanRun(s, steps) && i < |s.waiters|
    ensures |Run(s, steps).waiters| == |s.waiters|
    ensures HistoryIsRight(Run(s, steps), Run(s, steps).waiters[i], ResizesSinceCheck(steps, i))
    decreases |steps|
  {
    hide CanRun, Enabled, Apply, LockIsRight, WaiterIsRight, HistoryIsRight;
    if steps == [] {
      assert HistoryIsRight(s, s.waiters[i], []) by { NothingSeenYet(s, i); }
    } else {
      var (before, last) := (steps[..|steps| - 1], steps[|steps| - 1]);
      assert steps == before + [last];
      RunOneMore(s, before, last);
      RunKeepsHistory(s, before, i);
      InitialIsInv(s);
      RunKeepsInv(s, before);
      var t := Run(s, before);
      assert t.waiters[i].seen <= t.generation by { SeenIsNotAhead(t, i); }
      StepKeepsHistory(t, last, i, ResizesSinceCheck(before, i));
    }
  }

  lemma NothingSeenYet(s: State, i: nat)
    requires Initial(s) && i < |s.waiters|
    ensures HistoryIsRight(s, s.waiters[i], [])
  {
  }

  lemma SeenIsNotAhead(s: State, i: nat)
    requires Inv(s) && i < |s.waiters|
    ensures s.waiters[i].seen <= s.generation
  {
    assert WaiterIsRight(s, s.waiters[i]);
  }

  /**
   A waiter that gives up because the session is over is wrong about the grid exactly if resizes came after its last
   check and the last of them meets its condition. Its own counter tells whether there were any.
   */
  lemma EndIsWrongExactly(s: State, steps: seq<Step>, i: nat)
    requires Initial(s) && CanRun(s, steps) && Enabled(Run(s, steps), WaiterSeesEnd(i))
    ensures var (t, resizes) := (Run(s, steps), ResizesSinceCheck(steps, i));
            var w := t.waiters[i];
            && t.grid == (if resizes == [] then w.checked else resizes[|resizes| - 1])
            && (w.condition(t.grid) <==> resizes != [] && w.condition(resizes[|resizes| - 1]))
            && (resizes == [] <==> w.missedBefore == t.unsignalled && !t.resize.Resized?)
  {
    hide Run, CanRun, Initial, LockIsRight, ResizesSinceCheck;
    InitialIsInv(s);
    RunKeepsInv(s, steps);
    RunKeepsWaiterCount(s, steps);
    RunKeepsHistory(s, steps, i);
    assert WaiterIsRight(Run(s, steps), Run(s, steps).waiters[i]);
  }

  lemma {:induction false} RunKeepsWaiterCount(s: State, steps: seq<Step>)
    requires CanRun(s, steps)
    ensures |Run(s, steps).waiters| == |s.waiters|
    decreases |steps|
  {
    hide Enabled, Apply, IsWaiterStep;
    if steps != [] {
      StepKeepsWaiterCount(s, steps[0]);
      RunKeepsWaiterCount(Apply(s, steps[0]), steps[1..]);
    }
  }

  /** A waiter that checked after the last resize, whenever that was, is right about the grid when it sees the end. */
  lemma EndIsFinalUnlessResized(s: State, steps: seq<Step>, i: nat)
    requires Initial(s) && CanRun(s, steps) && Enabled(Run(s, steps), WaiterSeesEnd(i))
    requires var t := Run(s, steps); t.waiters[i].missedBefore == t.unsignalled && !t.resize.Resized?
    ensures var t := Run(s, steps); t.waiters[i].checked == t.grid && !t.waiters[i].condition(t.grid)
  {
    EndIsWrongExactly(s, steps, i);
  }

  function OneWaiter(condition: Condition, grid: Grid): State {
    State(grid, 0, Free, Receiving, NoResize, 0, [Waiter(condition, Starting, 0, grid, 0)])
  }

  /**
   A resize after the feeder has gone bumps nothing, so a waiter can report failure on a grid that meets its
   condition.
   */
  lemma ResizeAfterTheEndIsMissed()
    ensures var s := OneWaiter(g => g == "wide", "narrow");
            var steps := [
              WaiterMarks(0), WaiterLocks(0), WaiterChecks(0), FeederEnds, ResizeLocks, ResizeChanges("wide"),
              ResizeUpgrades, ResizeUnlocks
            ];
            && Initial(s) && CanRun(s, steps)
            && Enabled(Run(s, steps), WaiterSeesEnd(0))
            && Run(s, steps).waiters[0].condition(Run(s, steps).grid)
  {
    hide CanRun, Run;
    var s := OneWaiter(g => g == "wide", "narrow");
    var s1 := Apply(s, WaiterMarks(0));
    var s2 := Apply(s1, WaiterLocks(0));
    var s3 := Apply(s2, WaiterChecks(0));
    var s4 := Apply(s3, FeederEnds);
    var s5 := Apply(s4, ResizeLocks);
    var s6 := Apply(s5, ResizeChanges("wide"));
    var s7 := Apply(s6, ResizeUpgrades);
    var s8 := Apply(s7, ResizeUnlocks);
    var r8: seq<Step> := [];
    var r7 := [ResizeUnlocks] + r8;
    var r6 := [ResizeUpgrades] + r7;
    var r5 := [ResizeChanges("wide")] + r6;
    var r4 := [ResizeLocks] + r5;
    var r3 := [FeederEnds] + r4;
    var r2 := [WaiterChecks(0)] + r3;
    var r1 := [WaiterLocks(0)] + r2;
    NoStep(s8);
    OneStep(s7, ResizeUnlocks, r8);
    OneStep(s6, ResizeUpgrades, r7);
    OneStep(s5, ResizeChanges("wide"), r6);
    OneStep(s4, ResizeLocks, r5);
    OneStep(s3, FeederEnds, r4);
    OneStep(s2, WaiterChecks(0), r3);
    OneStep(s1, WaiterLocks(0), r2);
    OneStep(s, WaiterMarks(0), r1);
    assert [WaiterMarks(0)] + r1 == [
      WaiterMarks(0), WaiterLocks(0), WaiterChecks(0), FeederEnds, ResizeLocks, ResizeChanges("wide"),
      ResizeUpgrades, ResizeUnlocks
    ];
  }
}
