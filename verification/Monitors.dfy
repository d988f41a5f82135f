// The counting semaphore and the event variable, as a transition system over any number
// of threads. The semaphore is the event variable without timed waits.

module Monitors {

  type Thread = nat

  // count: permits; asleep: threads inside the wait of the condition variable; woken:
  // threads let out of it that do not hold the lock again yet; timed: those of either
  // kind that came by wait_for.
  datatype Monitor = Monitor(count: nat, asleep: set<Thread>, woken: set<Thread>, timed: set<Thread>)

  // One critical section each. Signal names the sleeper that notify_one would pick; Wait
  // and WaitFor are a thread's arrival; Resume is a woken thread getting the lock back;
  // Wake is a sleeper let out without a signal: spuriously, or by its timeout.
  datatype Action =
    | Signal(n: nat, pick: Thread)
    | Wait(thread: Thread)
    | WaitFor(thread: Thread)
    | Resume(thread: Thread)
    | Wake(thread: Thread)

  // consumed: permits taken by wait; discarded: permits dropped by wait_for.
  datatype Result = Result(after: Monitor, consumed: nat, discarded: nat)

  const NEW_MONITOR := Monitor(0, {}, {}, {})

  predicate Enabled(m: Monitor, a: Action) {
    match a
    case Signal(n, pick) => n == 1 && m.asleep != {} ==> pick in m.asleep
    case Wait(t) => t !in m.asleep + m.woken
    case WaitFor(t) => t !in m.asleep + m.woken
    case Resume(t) => t in m.woken
    case Wake(t) => t in m.asleep
  }

  function NotifyOne(m: Monitor, pick: Thread): Monitor {
    if m.asleep == {} then m else m.(asleep := m.asleep - {pick}, woken := m.woken + {pick})
  }

  function NotifyAll(m: Monitor): Monitor {
    m.(asleep := {}, woken := m.woken + m.asleep)
  }

  // What a waiting thread with the lock does: take a permit or go to sleep.
  function TakeOrSleep(m: Monitor, t: Thread): Result {
    if m.count == 0 then Result(m.(asleep := m.asleep + {t}), 0, 0)
    else Result(m.(count := m.count - 1), 1, 0)
  }

  function Step(m: Monitor, a: Action): Result {
    match a
    case Signal(n, pick) =>
      var more := m.(count := m.count + n);
      Result(if n == 1 then NotifyOne(more, pick) else NotifyAll(more), 0, 0)
    case Wait(t) => TakeOrSleep(m, t)
    case WaitFor(t) =>
      if m.count == 0 then Result(m.(asleep := m.asleep + {t}, timed := m.timed + {t}), 0, 0)
      else Result(m.(count := 0), 0, m.count)
    case Resume(t) =>
      var back := m.(woken := m.woken - {t});
      if t in m.timed then Result(back.(timed := m.timed - {t}, count := 0), 0, m.count)
      else TakeOrSleep(back, t)
    case Wake(t) => Result(m.(asleep := m.asleep - {t}, woken := m.woken + {t}), 0, 0)
  }

  ghost predicate IsRun(m: Monitor, trace: seq<Action>)
    decreases |trace|
  {
    trace == [] || (IsRun(m, trace[..|trace| - 1]) &&
                    Enabled(Run(m, trace[..|trace| - 1]).after, trace[|trace| - 1]))
  }

  function Run(m: Monitor, trace: seq<Action>): Result
    decreases |trace|
  {
    if trace == [] then
      Result(m, 0, 0)
    else
      var before := Run(m, trace[..|trace| - 1]);
      var last := Step(before.after, trace[|trace| - 1]);
      Result(last.after, before.consumed + last.consumed, before.discarded + last.discarded)
  }

  // ---------- tallies of a trace ----------

  function Signalled(trace: seq<Action>): nat {
    if trace == [] then 0
    else Signalled(trace[..|trace| - 1]) + if trace[|trace| - 1].Signal? then trace[|trace| - 1].n else 0
  }

  function WaitsStarted(trace: seq<Action>): nat {
    if trace == [] then 0
    else WaitsStarted(trace[..|trace| - 1]) + if trace[|trace| - 1].Wait? then 1 else 0
  }

  // ---------- invariant ----------

  // While a thread sleeps, every permit is matched by a woken thread on its way to it.
  ghost predicate Inv(m: Monitor) {
    && m.asleep !! m.woken
    && m.timed <= m.asleep + m.woken
    && (m.asleep != {} ==> m.count <= |m.woken|)
  }

  lemma StepKeepsInv(m: Monitor, a: Action)
    requires Inv(m) && Enabled(m, a)
    ensures Inv(Step(m, a).after)
  {
    var m' := Step(m, a).after;
    match a
    case Signal(n, pick) =>
      if n == 1 && m.asleep != {} {
        assert |m'.woken| == |m.woken| + 1;
      }
    case Resume(t) =>
      assert |m.woken - {t}| == |m.woken| - 1;
    case Wake(t) =>
      assert |m'.woken| == |m.woken| + 1;
    case _ =>
  }

  lemma {:induction false} RunKeepsInv(m: Monitor, trace: seq<Action>)
    requires Inv(m) && IsRun(m, trace)
    ensures Inv(Run(m, trace).after)
    decreases |trace|
  {
    if trace != [] {
      RunKeepsInv(m, trace[..|trace| - 1]);
      StepKeepsInv(Run(m, trace[..|trace| - 1]).after, trace[|trace| - 1]);
    }
  }

  // No lost wakeup: in every reachable state, with any number of threads, arrivals that
  // overtake, timeouts and spurious wakeups, if some thread sleeps there are at most as
  // many permits as woken threads not yet back; so permits with nobody on the way to them
  // and a sleeper cannot be.
  lemma NoLostWakeup(trace: seq<Action>)
    requires IsRun(NEW_MONITOR, trace)
    ensures var m := Run(NEW_MONITOR, trace).after;
            && (m.asleep != {} ==> m.count <= |m.woken|)
            && !(m.count > 0 && m.asleep != {} && m.woken == {})
  {
    RunKeepsInv(NEW_MONITOR, trace);
  }

  // ---------- accounting ----------

  // Over every run: the permits there were and those signalled are consumed by wait,
  // discarded by wait_for, or still there; and every untimed wait, inside at first or
  // started later, has its permit or its thread is inside.
  lemma {:induction false} PermitsAccounted(m: Monitor, trace: seq<Action>)
    requires Inv(m) && IsRun(m, trace)
    ensures m.count + Signalled(trace)
         == Run(m, trace).consumed + Run(m, trace).discarded + Run(m, trace).after.count
    ensures |Untimed(m)| + WaitsStarted(trace) == Run(m, trace).consumed + |Untimed(Run(m, trace).after)|
    decreases |trace|
  {
    if trace != [] {
      var before, a := trace[..|trace| - 1], trace[|trace| - 1];
      PermitsAccounted(m, before);
      RunKeepsInv(m, before);
      StepAccounts(Run(m, before).after, a);
    }
  }

  // The threads inside a wait without timeout.
  function Untimed(m: Monitor): set<Thread> {
    set t | t in m.asleep + m.woken && t !in m.timed
  }

  lemma StepAccounts(m: Monitor, a: Action)
    requires Inv(m) && Enabled(m, a)
    ensures m.count + (if a.Signal? then a.n else 0)
         == Step(m, a).consumed + Step(m, a).discarded + Step(m, a).after.count
    ensures |Untimed(m)| + (if a.Wait? then 1 else 0) == Step(m, a).consumed + |Untimed(Step(m, a).after)|
  {
    match a
    case Signal(n, pick) => SignalUntimed(m, n, pick);
    case Wait(t) => WaitAccounts(m, t);
    case WaitFor(t) => WaitForUntimed(m, t);
    case Resume(t) => ResumeAccounts(m, t);
    case Wake(t) => WakeUntimed(m, t);
  }

  lemma WaitAccounts(m: Monitor, t: Thread)
    requires Inv(m) && Enabled(m, Wait(t))
    ensures |Untimed(m)| + 1 == Step(m, Wait(t)).consumed + |Untimed(Step(m, Wait(t)).after)|
  {
    WaitUntimed(m, t);
    if m.count == 0 {
      Joins(Untimed(m), t);
    } else {
      assert Untimed(m) + {} == Untimed(m);
    }
  }

  lemma ResumeAccounts(m: Monitor, t: Thread)
    requires Inv(m) && Enabled(m, Resume(t))
    ensures |Untimed(m)| == Step(m, Resume(t)).consumed + |Untimed(Step(m, Resume(t)).after)|
  {
    ResumeUntimed(m, t);
    Leaves(Untimed(m), t);
  }

  lemma Joins(s: set<Thread>, t: Thread)
    requires t !in s
    ensures |s + {t}| == |s| + 1
  {
  }

  lemma Leaves(s: set<Thread>, t: Thread)
    ensures t in s ==> |s - {t}| == |s| - 1
  {
  }

  lemma SignalUntimed(m: Monitor, n: nat, pick: Thread)
    requires Enabled(m, Signal(n, pick))
    ensures Untimed(Step(m, Signal(n, pick)).after) == Untimed(m)
  {
    var m' := Step(m, Signal(n, pick)).after;
    assert m'.asleep + m'.woken == m.asleep + m.woken && m'.timed == m.timed;
  }

  lemma WaitUntimed(m: Monitor, t: Thread)
    requires Inv(m) && Enabled(m, Wait(t))
    ensures t !in Untimed(m)
    ensures Untimed(Step(m, Wait(t)).after) == Untimed(m) + if Step(m, Wait(t)).consumed == 0 then {t} else {}
  {
  }

  lemma WakeUntimed(m: Monitor, t: Thread)
    requires Enabled(m, Wake(t))
    ensures Untimed(Step(m, Wake(t)).after) == Untimed(m)
  {
    assert Step(m, Wake(t)).after.asleep + Step(m, Wake(t)).after.woken == m.asleep + m.woken;
  }

  lemma WaitForUntimed(m: Monitor, t: Thread)
    requires Inv(m) && Enabled(m, WaitFor(t))
    ensures Untimed(Step(m, WaitFor(t)).after) == Untimed(m)
  {
  }

  lemma ResumeUntimed(m: Monitor, t: Thread)
    requires Inv(m) && t in m.woken
    ensures Step(m, Resume(t)).consumed == 0 ==> Untimed(Step(m, Resume(t)).after) == Untimed(m)
    ensures Step(m, Resume(t)).consumed != 0 ==>
              Step(m, Resume(t)).consumed == 1 && t in Untimed(m) &&
              Untimed(Step(m, Resume(t)).after) == Untimed(m) - {t}
  {
  }

  // ---------- quiescence ----------

  // Woken threads get the lock back, one after the other, and nothing else happens.
  ghost predicate Drains(trace: seq<Action>) {
    forall i :: 0 <= i < |trace| ==> trace[i].Resume?
  }

  // Each resumption leaves one woken thread less, so draining ends, after exactly as many
  // resumptions as threads were woken, in whatever order they come.
  lemma {:induction false} DrainingEnds(m: Monitor, drain: seq<Action>)
    requires Inv(m) && Drains(drain) && IsRun(m, drain)
    ensures |Run(m, drain).after.woken| == |m.woken| - |drain|
    decreases |drain|
  {
    if drain != [] {
      var before, a := drain[..|drain| - 1], drain[|drain| - 1];
      DrainingEnds(m, before);
      RunKeepsInv(m, before);
      var now := Run(m, before).after;
      assert a.thread in now.woken;
      assert Step(now, a).after.woken == now.woken - {a.thread};
    }
  }

  lemma {:induction false} DrainCountsNothing(drain: seq<Action>)
    requires Drains(drain)
    ensures Signalled(drain) == WaitsStarted(drain) == 0
    decreases |drain|
  {
    if drain != [] {
      DrainCountsNothing(drain[..|drain| - 1]);
    }
  }

  // From every reachable state a complete drain exists.
  lemma CompleteDrainExists(trace: seq<Action>)
    requires IsRun(NEW_MONITOR, trace)
    ensures exists drain :: Drains(drain) && IsRun(Run(NEW_MONITOR, trace).after, drain) &&
                            Run(Run(NEW_MONITOR, trace).after, drain).after.woken == {}
  {
    RunKeepsInv(NEW_MONITOR, trace);
    var drain := DrainFrom(Run(NEW_MONITOR, trace).after);
  }

  // Resumes one woken thread after the other.
  lemma {:induction false} DrainFrom(m: Monitor) returns (drain: seq<Action>)
    requires Inv(m)
    ensures Drains(drain) && IsRun(m, drain) && Run(m, drain).after.woken == {}
    decreases m.woken
  {
    drain := [];
    if m.woken != {} {
      var t :| t in m.woken;
      StepKeepsInv(m, Resume(t));
      var rest := DrainFrom(Step(m, Resume(t)).after);
      FirstStep(m, Resume(t));
      RunSplits(m, [Resume(t)], rest);
      drain := [Resume(t)] + rest;
    }
  }

  lemma FirstStep(m: Monitor, a: Action)
    requires Enabled(m, a)
    ensures IsRun(m, [a]) && Run(m, [a]).after == Step(m, a).after
  {
    assert [a][..0] == [];
  }

  // From any reachable state, let the woken threads resume in any order until none is
  // left: then the waits that completed are as many as there were waits started or
  // permits signalled and not discarded, whichever is less.
  lemma Quiescence(trace: seq<Action>, drain: seq<Action>)
    requires IsRun(NEW_MONITOR, trace) && Drains(drain) && IsRun(Run(NEW_MONITOR, trace).after, drain)
    requires Run(Run(NEW_MONITOR, trace).after, drain).after.woken == {}
    ensures var r := Run(NEW_MONITOR, trace + drain);
            IsLesser(r.consumed, Signalled(trace) - r.discarded, WaitsStarted(trace))
  {
    RunSplits(NEW_MONITOR, trace, drain);
    DrainCountsNothing(drain);
    assert Untimed(NEW_MONITOR) == {};
    RestCounts(NEW_MONITOR, trace + drain);
  }

  // A run that ends with no thread woken.
  lemma RestCounts(m: Monitor, trace: seq<Action>)
    requires Inv(m) && IsRun(m, trace) && Run(m, trace).after.woken == {}
    ensures IsLesser(Run(m, trace).consumed, m.count + Signalled(trace) - Run(m, trace).discarded,
                     |Untimed(m)| + WaitsStarted(trace))
  {
    RunKeepsInv(m, trace);
    PermitsAccounted(m, trace);
    AtRest(Run(m, trace), m.count + Signalled(trace), |Untimed(m)| + WaitsStarted(trace));
  }

  // With no thread woken, a sleeper means no permit is left.
  lemma AtRest(r: Result, signalled: nat, started: nat)
    requires Inv(r.after) && r.after.woken == {}
    requires signalled == r.consumed + r.discarded + r.after.count
    requires started == r.consumed + |Untimed(r.after)|
    ensures IsLesser(r.consumed, signalled - r.discarded, started)
  {
    if r.after.asleep == {} {
      assert Untimed(r.after) == {};
    }
  }

  // x is the lesser of a and b.
  predicate IsLesser(x: int, a: int, b: int) {
    x <= a && x <= b && (x == a || x == b)
  }

  // The semaphore is used without timed waits.
  ghost predicate OnlyPostAndWait(trace: seq<Action>) {
    forall i :: 0 <= i < |trace| ==> !trace[i].WaitFor?
  }

  lemma {:induction false} NothingDiscarded(m: Monitor, trace: seq<Action>)
    requires OnlyPostAndWait(trace) && m.timed == {}
    ensures Run(m, trace).discarded == 0 && Run(m, trace).after.timed == {}
    decreases |trace|
  {
    if trace != [] {
      NothingDiscarded(m, trace[..|trace| - 1]);
    }
  }

  // The semaphore at rest: completed waits are the lesser of permits posted and waits
  // started.
  lemma SemaphoreQuiescence(trace: seq<Action>, drain: seq<Action>)
    requires OnlyPostAndWait(trace)
    requires IsRun(NEW_MONITOR, trace) && Drains(drain) && IsRun(Run(NEW_MONITOR, trace).after, drain)
    requires Run(Run(NEW_MONITOR, trace).after, drain).after.woken == {}
    ensures IsLesser(Run(NEW_MONITOR, trace + drain).consumed, Signalled(trace), WaitsStarted(trace))
  {
    Quiescence(trace, drain);
    StillPostAndWait(trace, drain);
    NothingDiscarded(NEW_MONITOR, trace + drain);
  }

  lemma StillPostAndWait(trace: seq<Action>, drain: seq<Action>)
    requires OnlyPostAndWait(trace) && Drains(drain)
    ensures OnlyPostAndWait(trace + drain)
  {
    var all := trace + drain;
    assert forall i :: 0 <= i < |all| ==> all[i] == if i < |trace| then trace[i] else drain[i - |trace|];
  }

  lemma {:induction false} RunSplits(m: Monitor, a: seq<Action>, b: seq<Action>)
    requires IsRun(m, a) && IsRun(Run(m, a).after, b)
    ensures IsRun(m, a + b)
    ensures Run(m, a + b).after == Run(Run(m, a).after, b).after
    ensures Signalled(a + b) == Signalled(a) + Signalled(b)
    ensures WaitsStarted(a + b) == WaitsStarted(a) + WaitsStarted(b)
    decreases |b|
  {
    if b == [] {
      assert a + b == a;
    } else {
      assert (a + b)[..|a + b| - 1] == a + b[..|b| - 1];
      RunSplits(m, a, b[..|b| - 1]);
    }
  }

  // ---------- who is woken ----------

  // A signal of one permit takes exactly the picked sleeper, if there is any, out of its
  // sleep; of any other number, all sleepers.
  lemma SignalWakes(m: Monitor, n: nat, pick: Thread)
    requires Enabled(m, Signal(n, pick))
    ensures var r := Step(m, Signal(n, pick)).after;
            && r.count == m.count + n && r.timed == m.timed
            && (n == 1 && m.asleep != {} ==>
                  pick in m.asleep && r.asleep == m.asleep - {pick} && r.woken == m.woken + {pick})
            && (n == 1 && m.asleep == {} ==> r.asleep == {} && r.woken == m.woken)
            && (n != 1 ==> r.asleep == {} && r.woken == m.woken + m.asleep)
  {
  }

  // How many threads have left their sleep, step by step.
  function LeftSleep(m: Monitor, trace: seq<Action>): nat
    decreases |trace|
  {
    if trace == [] then 0 else
    var before := Run(m, trace[..|trace| - 1]).after;
    LeftSleep(m, trace[..|trace| - 1]) + |before.asleep - Step(before, trace[|trace| - 1]).after.asleep|
  }

  // Signals of a single permit, and wakeups without a signal.
  function SinglesAndWakeups(trace: seq<Action>): nat {
    if trace == [] then 0 else
    var a := trace[|trace| - 1];
    SinglesAndWakeups(trace[..|trace| - 1]) + if (a.Signal? && a.n == 1) || a.Wake? then 1 else 0
  }

  // The sleepers found by signals of any other number of permits.
  function FoundAsleep(m: Monitor, trace: seq<Action>): nat
    decreases |trace|
  {
    if trace == [] then 0 else
    var a := trace[|trace| - 1];
    FoundAsleep(m, trace[..|trace| - 1]) +
    if a.Signal? && a.n != 1 then |Run(m, trace[..|trace| - 1]).after.asleep| else 0
  }

  // Over every run: nobody leaves a sleep but by a single permit or a wakeup of its own, or
  // by a signal of more permits that found it asleep.
  lemma {:induction false} NobodyWokenInVain(m: Monitor, trace: seq<Action>)
    requires IsRun(m, trace)
    ensures LeftSleep(m, trace) <= SinglesAndWakeups(trace) + FoundAsleep(m, trace)
    decreases |trace|
  {
    if trace != [] {
      NobodyWokenInVain(m, trace[..|trace| - 1]);
      OneStepWakes(Run(m, trace[..|trace| - 1]).after, trace[|trace| - 1]);
    }
  }

  lemma OneStepWakes(m: Monitor, a: Action)
    requires Enabled(m, a)
    ensures var left := |m.asleep - Step(m, a).after.asleep|;
            && ((a.Signal? && a.n == 1) || a.Wake? ==> left <= 1)
            && (a.Signal? && a.n != 1 ==> left == |m.asleep|)
            && (!a.Signal? && !a.Wake? ==> left == 0)
  {
    var left := m.asleep - Step(m, a).after.asleep;
    match a
    case Signal(n, pick) =>
      if n == 1 {
        AtMost(left, pick);
      } else {
        assert left == m.asleep;
      }
    case Wake(t) => AtMost(left, t);
    case _ => assert left == {};
  }

  lemma AtMost(s: set<Thread>, t: Thread)
    requires s <= {t}
    ensures |s| <= 1
  {
    assert s == {} || s == {t};
  }

  // ---------- why the branch on n ----------

  // Waking one sleeper for n permits keeps the invariant exactly when nobody else sleeps
  // or the permits are no more than the woken threads with the new one. For one permit
  // that is always so; for more it is not, and all must be woken.
  lemma NotifyOneSufficesIff(m: Monitor, n: nat, pick: Thread)
    requires Inv(m) && pick in m.asleep
    ensures Inv(NotifyOne(m.(count := m.count + n), pick)) <==> |m.asleep| == 1 || m.count + n <= |m.woken| + 1
    ensures n <= 1 ==> Inv(NotifyOne(m.(count := m.count + n), pick))
  {
    var m' := NotifyOne(m.(count := m.count + n), pick);
    assert |m'.woken| == |m.woken| + 1 && |m'.asleep| == |m.asleep| - 1;
    assert m'.asleep + m'.woken == m.asleep + m.woken;
    assert m'.asleep == {} <==> |m'.asleep| == 0;
  }

  // A reachable state where one wakeup for two permits would strand a sleeper beside a
  // permit that nobody is on the way to, and waking all does not.
  lemma NotifyOneForTwoLosesWakeups()
    ensures var trace := [Wait(1), Wait(2)];
            && IsRun(NEW_MONITOR, trace)
            && var m := Run(NEW_MONITOR, trace).after;
               var one := Step(NotifyOne(m.(count := m.count + 2), 1), Resume(1)).after;
               var all := Step(Step(Step(m, Signal(2, 1)).after, Resume(1)).after, Resume(2)).after;
               && one.count > 0 && one.asleep != {} && one.woken == {}
               && all.count == 0 && all.asleep == {}
  {
    var m := Monitor(0, {1}, {}, {});
    FirstStep(NEW_MONITOR, Wait(1));
    FirstStep(m, Wait(2));
    RunSplits(NEW_MONITOR, [Wait(1)], [Wait(2)]);
    assert [Wait(1)] + [Wait(2)] == [Wait(1), Wait(2)];
  }
}
