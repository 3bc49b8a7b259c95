/**
 Waiting until the grid has been quiet for a window, before a deadline. Time is counted in milliseconds; the bumps and
 the end of the session are given as instants, and a waiter that is due runs at once.
 */
module StableWait {
  import opened Arithmetic
  import opened Options

  /**
   The bumps in order, when the last sender is dropped, if ever, and the resizes behind that, which change the grid
   without a bump.
   */
  datatype Session = Session(bumps: seq<nat>, gone: Option<nat>, silent: set<nat>)
  {
    ghost predicate Valid() {
      && (forall j, k | 0 <= j < k < |bumps| :: bumps[j] < bumps[k])
      && (gone.Some? ==> forall k | 0 <= k < |bumps| :: bumps[k] <= gone.value)
      && (forall t | t in silent :: gone.Some? && gone.value <= t)
    }

    ghost predicate ResizedSilentlyWithin(from: int, to: int) {
      exists t | t in silent :: from < t <= to
    }

    ghost predicate GridChangesWithin(from: int, to: int) {
      (exists k | 0 <= k < |bumps| :: from < bumps[k] <= to) || ResizedSilentlyWithin(from, to)
    }

    /** Something that restarts the window happens after `from`, up to `to`. */
    ghost predicate ActiveWithin(from: int, to: int) {
      || (exists k | 0 <= k < |bumps| :: from < bumps[k] <= to)
      || (gone.Some? && from < gone.value <= to)
    }

    /** A window can begin at the start of the wait and at each event after it. */
    ghost predicate IsOnset(start: nat, t: nat) {
      t == start || (t > start && (t in bumps || gone == Some(t)))
    }
  }

  datatype Outcome = Outcome(matched: bool, at: nat)

  /** Each onset before now was followed by an event before its window had passed. */
  ghost predicate AllBrokenBefore(s: Session, start: nat, window: nat, now: nat) {
    forall t: nat | s.IsOnset(start, t) && t < now :: s.ActiveWithin(t, t + window)
  }

  /** The window that begins at an onset is quiet, and it ends by the deadline. */
  ghost predicate IsQuietWindow(s: Session, start: nat, window: nat, deadline: nat, t: nat) {
    && s.IsOnset(start, t)
    && t + window <= deadline
    && !s.ActiveWithin(t, t + window - 1)
  }

  /**
   A quiet window is wrong about the grid exactly if a resize without a bump falls into it. Such a window begins at the
   end of the session or, if that was before, at the start of the wait.
   */
  lemma QuietIsWrongExactly(s: Session, start: nat, window: nat, deadline: nat, t: nat)
    requires s.Valid() && IsQuietWindow(s, start, window, deadline, t)
    ensures s.GridChangesWithin(t, t + window - 1) <==> s.ResizedSilentlyWithin(t, t + window - 1)
    ensures s.GridChangesWithin(t, t + window - 1) ==> s.gone.Some? && t == Max(start, s.gone.value)
  {
    if s.ResizedSilentlyWithin(t, t + window - 1) {
      var r :| r in s.silent && t < r <= t + window - 1;
      assert s.gone.value <= t;
    }
  }

  /** The session has ended, a resize changes the grid within the window, and the wait matches all the same. */
  lemma SilentResizeIsMissed()
    ensures var s := Session([], Some(0), {1});
            s.Valid() && IsQuietWindow(s, 0, 2, 5, 0) && s.GridChangesWithin(0, 1)
  {
    var s := Session([], Some(0), {1});
    assert 1 in s.silent && s.IsOnset(0, 0);
  }

  /** The next event breaks the window that began now. */
  lemma NextEventBreaks(s: Session, start: nat, window: nat, now: nat, next: nat)
    requires AllBrokenBefore(s, start, window, now) && start <= now < next <= now + window
    requires s.ActiveWithin(now, next) && !s.ActiveWithin(now, next - 1)
    ensures AllBrokenBefore(s, start, window, next)
  {
    forall t: nat | s.IsOnset(start, t) && t < next ensures s.ActiveWithin(t, t + window) {
      if t > now {
        assert s.ActiveWithin(now, next - 1);
      }
    }
  }

  lemma NoneBrokenAtStart(s: Session, start: nat, window: nat)
    ensures AllBrokenBefore(s, start, window, start)
  {
  }

  lemma OnsetAtStart(s: Session, start: nat)
    ensures s.IsOnset(start, start)
  {
  }

  lemma NoWindowLeft(s: Session, start: nat, window: nat, now: nat, deadline: nat)
    requires AllBrokenBefore(s, start, window, now) && (now == deadline || now + window > deadline)
    ensures forall t: nat | s.IsOnset(start, t) && t + window <= deadline && t < deadline ::
              s.ActiveWithin(t, t + window)
  {
  }

  /** The bumps seen by now are the first i. */
  ghost predicate SeenBy(s: Session, i: nat, now: nat) {
    && i <= |s.bumps|
    && (forall k | 0 <= k < i :: s.bumps[k] <= now)
    && (forall k | i <= k < |s.bumps| :: s.bumps[k] > now)
  }

  method MarkSeen(s: Session, from: nat, now: nat) returns (i: nat)
    requires s.Valid() && from <= |s.bumps| && forall k | 0 <= k < from :: s.bumps[k] <= now
    ensures from <= i && SeenBy(s, i, now)
  {
    i := from;
    while i < |s.bumps| && s.bumps[i] <= now
      invariant from <= i <= |s.bumps| && forall k | 0 <= k < i :: s.bumps[k] <= now
    {
      i := i + 1;
    }
  }

  /** What wakes the receiver next: an unseen bump, else the end of the session if it has not been noticed. */
  function NextChange(s: Session, i: nat, now: nat, senderGone: bool): Option<nat> {
    if senderGone then None
    else if i < |s.bumps| then Some(s.bumps[i])
    else if s.gone.Some? then Some(if s.gone.value >= now then s.gone.value else now)
    else None
  }

  lemma NextChangeIsNext(s: Session, start: nat, i: nat, now: nat, senderGone: bool)
    requires s.Valid() && SeenBy(s, i, now) && start <= now
    requires senderGone ==> s.gone.Some? && s.gone.value <= now
    ensures match NextChange(s, i, now, senderGone)
            case None => forall to: int :: !s.ActiveWithin(now, to)
            case Some(t) =>
              && t >= now
              && (forall to: int | to < t :: !s.ActiveWithin(now, to))
              && (t > now ==> s.ActiveWithin(now, t) && s.IsOnset(start, t))
  {
  }

  /**
   Matches at the end of the first window that is quiet throughout; times out at the deadline, and only if every window
   that would have ended by then was broken. `changeWins` settles ties between an event and the timer.
   */
  method WaitStable(s: Session, start: nat, window: nat, deadline: nat, changeWins: nat -> bool) returns (r: Outcome)
    requires s.Valid() && start <= deadline
    ensures r.matched ==>
              && r.at >= window && IsQuietWindow(s, start, window, deadline, r.at - window)
              && AllBrokenBefore(s, start, window, r.at - window)
              && (s.GridChangesWithin(r.at - window, r.at - 1) <==> s.ResizedSilentlyWithin(r.at - window, r.at - 1))
    ensures !r.matched ==> r.at == deadline
    ensures !r.matched ==>
              forall t: nat | s.IsOnset(start, t) && t + window <= deadline && t < deadline ::
                s.ActiveWithin(t, t + window)
  {
    hide AllBrokenBefore, Session.ActiveWithin, Session.IsOnset;
    OnsetAtStart(s, start);
    var now, senderGone, i := start, false, 0;
    NoneBrokenAtStart(s, start, window);
    while true
      invariant start <= now <= deadline && (now == start || now < deadline)
      invariant i <= |s.bumps| && forall k | 0 <= k < i :: s.bumps[k] <= now
      invariant senderGone ==> i == |s.bumps| && s.gone.Some? && s.gone.value <= now
      invariant s.IsOnset(start, now) && AllBrokenBefore(s, start, window, now)
      decreases |s.bumps| - i + (if i < |s.bumps| && s.bumps[i] <= now then 0 else 1), !senderGone
    {
      i := MarkSeen(s, i, now);
      var windowEnd := now + window;
      var limit := Min(windowEnd, deadline);
      var change := NextChange(s, i, now, senderGone);
      NextChangeIsNext(s, start, i, now, senderGone);
      if change.Some? && (change.value < limit || (change.value == limit && changeWins(limit))) {
        if change.value > now {
          NextEventBreaks(s, start, window, now, change.value);
        }
        if i == |s.bumps| {
          senderGone := true;
        }
        now := change.value;
        if now >= deadline {
          NoWindowLeft(s, start, window, now, deadline);
          return Outcome(false, now);
        }
      } else {
        if windowEnd <= deadline {
          QuietIsWrongExactly(s, start, window, deadline, now);
        } else {
          NoWindowLeft(s, start, window, now, deadline);
        }
        return Outcome(windowEnd <= deadline, limit);
      }
    }
  }
}
