/**
 * The sliding-window restart budget (lifecycle.ts).
 */
module RestartBudget {

  datatype Budget = Budget(maxRestarts: int, windowMs: int)

  /** The timestamps that are at most a window old. */
  function Recent(timestamps: seq<int>, now: int, windowMs: int): (r: seq<int>)
    ensures |r| <= |timestamps|
  {
    if timestamps == [] then []
    else
      var last := timestamps[|timestamps| - 1];
      Recent(timestamps[..|timestamps| - 1], now, windowMs) + if now - last <= windowMs then [last] else []
  }

  function TimestampsOf(table: map<string, seq<int>>, moduleId: string): seq<int> {
    if moduleId in table then table[moduleId] else []
  }

  class RestartBudgetTracker {
    var restartTimestamps: map<string, seq<int>>

    constructor ()
      ensures restartTimestamps == map[]
    {
      restartTimestamps := map[];
    }

    /** Prunes the module's list and says whether another restart fits. */
    method CanRestart(moduleId: string, budget: Budget, now: int) returns (allowed: bool)
      modifies this
      ensures var recent := Recent(TimestampsOf(old(restartTimestamps), moduleId), now, budget.windowMs);
              && restartTimestamps == old(restartTimestamps)[moduleId := recent]
              && allowed == (|recent| < budget.maxRestarts)
    {
      var timestamps := TimestampsOf(restartTimestamps, moduleId);
      var recent := [];
      for i := 0 to |timestamps|
        invariant recent == Recent(timestamps[..i], now, budget.windowMs)
      {
        assert timestamps[..i + 1][..i] == timestamps[..i];
        if now - timestamps[i] <= budget.windowMs {
          recent := recent + [timestamps[i]];
        }
      }
      assert timestamps[..|timestamps|] == timestamps;
      restartTimestamps := restartTimestamps[moduleId := recent];
      return |recent| < budget.maxRestarts;
    }

    method RecordRestart(moduleId: string, now: int)
      modifies this
      ensures restartTimestamps ==
              old(restartTimestamps)[moduleId := TimestampsOf(old(restartTimestamps), moduleId) + [now]]
    {
      restartTimestamps := restartTimestamps[moduleId := TimestampsOf(restartTimestamps, moduleId) + [now]];
    }

    method GetRemainingRestarts(moduleId: string, budget: Budget, now: int) returns (remaining: nat)
      ensures var recent := Recent(TimestampsOf(restartTimestamps, moduleId), now, budget.windowMs);
              && (remaining > 0 <==> |recent| < budget.maxRestarts)
              && (remaining > 0 ==> |recent| + remaining == budget.maxRestarts)
    {
      var recent := Recent(TimestampsOf(restartTimestamps, moduleId), now, budget.windowMs);
      remaining := if budget.maxRestarts > |recent| then budget.maxRestarts - |recent| else 0;
    }

    method Reset(moduleId: string)
      modifies this
      ensures restartTimestamps == old(restartTimestamps) - {moduleId}
    {
      restartTimestamps := restartTimestamps - {moduleId};
    }
  }

  // --- runs of one module under a fixed budget ---

  /** A check and, if the answer is yes and the caller takes it up, the restart recorded right after it. */
  datatype Attempt = Attempt(checkedAt: int, taken: bool, restartedAt: int)

  /** The tracker's list, and every restart ever recorded. */
  datatype Log = Log(kept: seq<int>, all: seq<int>)

  function Allowed(log: Log, attempt: Attempt, budget: Budget): bool {
    |Recent(log.kept, attempt.checkedAt, budget.windowMs)| < budget.maxRestarts
  }

  function Step(log: Log, attempt: Attempt, budget: Budget): Log {
    var kept := Recent(log.kept, attempt.checkedAt, budget.windowMs);
    if Allowed(log, attempt, budget) && attempt.taken then Log(kept + [attempt.restartedAt], log.all + [attempt.restartedAt])
    else Log(kept, log.all)
  }

  function Run(attempts: seq<Attempt>, budget: Budget): Log {
    if attempts == [] then Log([], [])
    else Step(Run(attempts[..|attempts| - 1], budget), attempts[|attempts| - 1], budget)
  }

  /** The clock never goes back, within an attempt or between attempts. */
  ghost predicate ClockAdvances(attempts: seq<Attempt>) {
    && (forall i :: 0 <= i < |attempts| ==> attempts[i].checkedAt <= attempts[i].restartedAt)
    && (forall i, j :: 0 <= i < j < |attempts| ==> attempts[i].restartedAt <= attempts[j].checkedAt)
  }

  /** Restarts inside the closed window that starts at `from`. */
  function InWindow(timestamps: seq<int>, from: int, windowMs: int): nat {
    if timestamps == [] then 0
    else
      var last := timestamps[|timestamps| - 1];
      InWindow(timestamps[..|timestamps| - 1], from, windowMs) + if from <= last <= from + windowMs then 1 else 0
  }

  lemma {:induction false} RecentAppend(timestamps: seq<int>, x: int, now: int, windowMs: int)
    ensures Recent(timestamps + [x], now, windowMs) == Recent(timestamps, now, windowMs) + if now - x <= windowMs then [x] else []
  {
    assert (timestamps + [x])[..|timestamps|] == timestamps;
  }

  /** Pruning at one moment loses nothing that a later moment would look at. */
  lemma {:induction false} RecentTwice(timestamps: seq<int>, early: int, late: int, windowMs: int)
    requires early <= late
    ensures Recent(Recent(timestamps, early, windowMs), late, windowMs) == Recent(timestamps, late, windowMs)
  {
    if timestamps != [] {
      var n := |timestamps| - 1;
      RecentTwice(timestamps[..n], early, late, windowMs);
      if early - timestamps[n] <= windowMs {
        RecentAppend(Recent(timestamps[..n], early, windowMs), timestamps[n], late, windowMs);
      } else {
        assert Recent(timestamps, early, windowMs) == Recent(timestamps[..n], early, windowMs);
      }
    }
  }

  /** From the last event on, the pruned list and the full history look the same. */
  lemma {:induction false} KeptAnswersAsHistory(attempts: seq<Attempt>, budget: Budget, now: int)
    requires ClockAdvances(attempts)
    requires forall i :: 0 <= i < |attempts| ==> attempts[i].restartedAt <= now
    ensures Recent(Run(attempts, budget).kept, now, budget.windowMs) == Recent(Run(attempts, budget).all, now, budget.windowMs)
  {
    if attempts != [] {
      var n := |attempts| - 1;
      var before, attempt, w := Run(attempts[..n], budget), attempts[n], budget.windowMs;
      KeptAnswersAsHistory(attempts[..n], budget, now);
      RecentTwice(before.kept, attempt.checkedAt, now, w);
      RecentAppend(Recent(before.kept, attempt.checkedAt, w), attempt.restartedAt, now, w);
      RecentAppend(before.all, attempt.restartedAt, now, w);
    }
  }

  lemma {:induction false} WindowInsideRecent(timestamps: seq<int>, from: int, now: int, windowMs: int)
    requires now - windowMs <= from
    ensures InWindow(timestamps, from, windowMs) <= |Recent(timestamps, now, windowMs)|
  {
    if timestamps != [] {
      WindowInsideRecent(timestamps[..|timestamps| - 1], from, now, windowMs);
    }
  }

  lemma InWindowAppend(timestamps: seq<int>, x: int, from: int, windowMs: int)
    ensures InWindow(timestamps + [x], from, windowMs) ==
            InWindow(timestamps, from, windowMs) + if from <= x <= from + windowMs then 1 else 0
  {
    assert (timestamps + [x])[..|timestamps|] == timestamps;
  }

  /** No closed window of the budget's length ever holds more restarts than the budget allows. */
  lemma {:induction false} BudgetHolds(attempts: seq<Attempt>, budget: Budget, from: int)
    requires ClockAdvances(attempts) && budget.maxRestarts >= 0
    ensures InWindow(Run(attempts, budget).all, from, budget.windowMs) <= budget.maxRestarts
  {
    if attempts != [] {
      var n := |attempts| - 1;
      var before, attempt, w := Run(attempts[..n], budget), attempts[n], budget.windowMs;
      BudgetHolds(attempts[..n], budget, from);
      if Allowed(before, attempt, budget) && attempt.taken {
        InWindowAppend(before.all, attempt.restartedAt, from, w);
        if from <= attempt.restartedAt <= from + w {
          KeptAnswersAsHistory(attempts[..n], budget, attempt.checkedAt);
          WindowInsideRecent(before.all, from, attempt.checkedAt, w);
        }
      }
    }
  }

  lemma {:induction false} RecentIsWindow(timestamps: seq<int>, now: int, windowMs: int)
    requires forall i :: 0 <= i < |timestamps| ==> timestamps[i] <= now
    ensures |Recent(timestamps, now, windowMs)| == InWindow(timestamps, now - windowMs, windowMs)
  {
    if timestamps != [] {
      RecentIsWindow(timestamps[..|timestamps| - 1], now, windowMs);
    }
  }

  lemma {:induction false} RecordedInThePast(attempts: seq<Attempt>, budget: Budget, now: int)
    requires forall i :: 0 <= i < |attempts| ==> attempts[i].restartedAt <= now
    ensures forall i :: 0 <= i < |Run(attempts, budget).all| ==> Run(attempts, budget).all[i] <= now
  {
    if attempts != [] {
      RecordedInThePast(attempts[..|attempts| - 1], budget, now);
    }
  }

  /** A restart is allowed exactly when the window that ends at the check has room for it. */
  lemma AllowedIff(attempts: seq<Attempt>, next: Attempt, budget: Budget)
    requires ClockAdvances(attempts + [next])
    ensures Allowed(Run(attempts, budget), next, budget) <==>
            InWindow(Run(attempts, budget).all, next.checkedAt - budget.windowMs, budget.windowMs) < budget.maxRestarts
  {
    var all := attempts + [next];
    forall i | 0 <= i < |attempts| ensures attempts[i].restartedAt <= next.checkedAt && attempts[i].checkedAt <= attempts[i].restartedAt {
      assert all[i] == attempts[i] && all[|attempts|] == next;
    }
    forall i, j | 0 <= i < j < |attempts| ensures attempts[i].restartedAt <= attempts[j].checkedAt {
      assert all[i].restartedAt <= all[j].checkedAt;
    }
    KeptAnswersAsHistory(attempts, budget, next.checkedAt);
    RecordedInThePast(attempts, budget, next.checkedAt);
    RecentIsWindow(Run(attempts, budget).all, next.checkedAt, budget.windowMs);
  }

  /** One attempt made through the tracker is one step of the run. */
  method Try(tracker: RestartBudgetTracker, moduleId: string, attempt: Attempt, budget: Budget, ghost log: Log) returns (allowed: bool, ghost next: Log)
    requires TimestampsOf(tracker.restartTimestamps, moduleId) == log.kept
    modifies tracker
    ensures allowed == Allowed(log, attempt, budget) && next == Step(log, attempt, budget)
    ensures TimestampsOf(tracker.restartTimestamps, moduleId) == next.kept
    ensures forall other :: other != moduleId ==>
              TimestampsOf(tracker.restartTimestamps, other) == TimestampsOf(old(tracker.restartTimestamps), other)
  {
    next := Step(log, attempt, budget);
    allowed := tracker.CanRestart(moduleId, budget, attempt.checkedAt);
    if allowed && attempt.taken {
      tracker.RecordRestart(moduleId, attempt.restartedAt);
    }
  }
}
