// The event variable as the program has it: a count changed under a lock, with wait
// loops. Its methods, loops and all, are proved to be runs of the transition system, so
// what is proved of every run there holds of them. The semaphore has the same code for
// posting and waiting.

module EventVariables {
  import opened Monitors

  // ---------- what happens while a thread waits ----------

  // What the others do while the thread sleeps: those of the given actions that are
  // possible when their turn comes, short of resuming the thread itself; and if nobody has
  // woken the thread by then, it is woken without a signal.
  function OthersDo(m: Monitor, t: Thread, actions: seq<Action>): seq<Action>
    decreases |actions|
  {
    if actions == [] then
      if t in m.asleep then [Wake(t)] else []
    else if actions[0] != Resume(t) && Enabled(m, actions[0]) then
      [actions[0]] + OthersDo(Step(m, actions[0]).after, t, actions[1..])
    else
      OthersDo(m, t, actions[1..])
  }

  // A wait from the state at the head of its loop: its own step takes a permit or goes to
  // sleep, then the others have their turn, then it comes back. With no turn left for the
  // others it stays asleep.
  function WaitTrace(m: Monitor, t: Thread, own: Action, env: seq<seq<Action>>): seq<Action>
    decreases |env|
  {
    if m.count > 0 || env == [] then
      [own]
    else
      var others := OthersDo(Step(m, own).after, t, env[0]);
      [own] + others + WaitTrace(Run(Step(m, own).after, others).after, t, Resume(t), env[1..])
  }

  // A timed wait: at most one turn of the others.
  function WaitForTrace(m: Monitor, t: Thread, env: seq<Action>): seq<Action> {
    if m.count > 0 then [Action.WaitFor(t)]
    else [Action.WaitFor(t)] + OthersDo(Step(m, Action.WaitFor(t)).after, t, env) + [Resume(t)]
  }

  // How many steps of the trace are the thread's own.
  function Own(trace: seq<Action>, t: Thread): nat {
    if trace == [] then 0 else
    Own(trace[..|trace| - 1], t) +
    if trace[|trace| - 1] in {Action.Wait(t), Action.WaitFor(t), Resume(t)} then 1 else 0
  }

  lemma {:induction false} OwnAppend(a: seq<Action>, b: seq<Action>, t: Thread)
    ensures Own(a + b, t) == Own(a, t) + Own(b, t)
    decreases |b|
  {
    if b == [] {
      assert a + b == a;
    } else {
      assert (a + b)[..|a + b| - 1] == a + b[..|b| - 1];
      OwnAppend(a, b[..|b| - 1], t);
    }
  }

  lemma OwnOne(a: Action, t: Thread)
    ensures Own([a], t) == if a in {Action.Wait(t), Action.WaitFor(t), Resume(t)} then 1 else 0
  {
    assert [a][..0] == [];
  }

  // The thread takes no step of its own while the others have their turn, and is woken at
  // the end of it.
  lemma {:induction false} OthersRun(m: Monitor, t: Thread, actions: seq<Action>)
    requires Inv(m) && t in m.asleep + m.woken
    ensures var trace := OthersDo(m, t, actions);
            var after := Run(m, trace).after;
            && IsRun(m, trace) && Own(trace, t) == 0
            && Inv(after) && t in after.woken && (t in after.timed <==> t in m.timed)
    decreases |actions|
  {
    if actions == [] {
      if t in m.asleep {
        FirstStep(m, Wake(t));
        StepKeepsInv(m, Wake(t));
        OwnOne(Wake(t), t);
      }
    } else if actions[0] != Resume(t) && Enabled(m, actions[0]) {
      var a := actions[0];
      OthersKeep(m, a, t);
      StepKeepsInv(m, a);
      OthersRun(Step(m, a).after, t, actions[1..]);
      FirstStep(m, a);
      var rest := OthersDo(Step(m, a).after, t, actions[1..]);
      RunSplits(m, [a], rest);
      OwnAppend([a], rest, t);
      OwnOne(a, t);
    } else {
      OthersRun(m, t, actions[1..]);
    }
  }

  // What the others do, short of resuming it, leaves a waiting thread where it is.
  lemma OthersKeep(m: Monitor, a: Action, t: Thread)
    requires Enabled(m, a) && t in m.asleep + m.woken && a != Resume(t)
    ensures t in Step(m, a).after.asleep + Step(m, a).after.woken
    ensures t in Step(m, a).after.timed <==> t in m.timed
  {
    if a.Signal? {
      var after := Step(m, a).after;
      assert after.asleep + after.woken == m.asleep + m.woken && after.timed == m.timed;
    }
  }

  // The thread is at the head of its loop, with this step of its own to make.
  ghost predicate AtHead(m: Monitor, t: Thread, own: Action) {
    (own == Action.Wait(t) || own == Resume(t)) && Enabled(m, own) && t !in m.timed
  }

  // A wait is a run that begins with the thread's arrival. It ends with the first own step
  // that finds a permit, which takes it; or asleep after one own step more than the others
  // have turns, if none does.
  lemma {:induction false} WaitRuns(m: Monitor, t: Thread, own: Action, env: seq<seq<Action>>)
    requires Inv(m) && AtHead(m, t, own)
    ensures var trace := WaitTrace(m, t, own, env);
            var after := Run(m, trace).after;
            && IsRun(m, trace) && trace != [] && trace[0] == own && Inv(after)
            && 1 <= Own(trace, t) <= |env| + 1
            && (t in after.asleep || (t !in after.asleep + after.woken && Took(m, trace, t)))
            && (t in after.asleep ==> after.count == 0 && Own(trace, t) == |env| + 1)
    decreases |env|
  {
    FirstStep(m, own);
    StepKeepsInv(m, own);
    OwnOne(own, t);
    if m.count > 0 || env == [] {
      assert [own][..0] == [];
    } else {
      var slept := Step(m, own).after;
      var others := OthersDo(slept, t, env[0]);
      OthersRun(slept, t, env[0]);
      RunSplits(m, [own], others);
      var back := Run(slept, others).after;
      var rest := WaitTrace(back, t, Resume(t), env[1..]);
      WaitRuns(back, t, Resume(t), env[1..]);
      RunSplits(m, [own] + others, rest);
      OwnAppend([own], others, t);
      OwnAppend([own] + others, rest, t);
      TookLater(m, [own] + others, rest, t);
    }
  }

  // The last step of the run gave the thread its permit.
  ghost predicate Took(m: Monitor, trace: seq<Action>, t: Thread) {
    && trace != []
    && (trace[|trace| - 1] == Action.Wait(t) || trace[|trace| - 1] == Resume(t))
    && Step(Run(m, trace[..|trace| - 1]).after, trace[|trace| - 1]).consumed == 1
  }

  lemma TookLater(m: Monitor, a: seq<Action>, b: seq<Action>, t: Thread)
    requires IsRun(m, a) && IsRun(Run(m, a).after, b)
    ensures Took(Run(m, a).after, b, t) ==> Took(m, a + b, t)
  {
    if b != [] {
      assert (a + b)[..|a + b| - 1] == a + b[..|b| - 1];
      RunSplits(m, a, b[..|b| - 1]);
    }
  }

  // The state after an own step that sleeps and the turn of the others after it.
  ghost function AfterTurn(m: Monitor, t: Thread, own: Action, actions: seq<Action>): Monitor {
    Run(Step(m, own).after, OthersDo(Step(m, own).after, t, actions)).after
  }

  // The state after the rest of a wait.
  ghost function AfterWait(m: Monitor, t: Thread, own: Action, env: seq<seq<Action>>): Monitor {
    Run(m, WaitTrace(m, t, own, env)).after
  }

  lemma OneTurn(m: Monitor, t: Thread, own: Action, env: seq<seq<Action>>)
    requires Inv(m) && AtHead(m, t, own) && m.count == 0 && env != []
    ensures AfterWait(m, t, own, env) == AfterWait(AfterTurn(m, t, own, env[0]), t, Resume(t), env[1..])
    ensures Inv(AfterTurn(m, t, own, env[0])) && AtHead(AfterTurn(m, t, own, env[0]), t, Resume(t))
  {
    var slept := Step(m, own).after;
    StepKeepsInv(m, own);
    FirstStep(m, own);
    OthersRun(slept, t, env[0]);
    var others, back := OthersDo(slept, t, env[0]), AfterTurn(m, t, own, env[0]);
    RunSplits(m, [own], others);
    WaitRuns(back, t, Resume(t), env[1..]);
    RunSplits(m, [own] + others, WaitTrace(back, t, Resume(t), env[1..]));
  }

  lemma LastOwnStep(m: Monitor, t: Thread, own: Action, env: seq<seq<Action>>)
    requires Inv(m) && AtHead(m, t, own) && (m.count > 0 || env == [])
    ensures AfterWait(m, t, own, env) == Step(m, own).after
    ensures t in Step(m, own).after.asleep <==> m.count == 0
  {
    FirstStep(m, own);
  }

  // A timed wait is a run with one own step, or two around one turn of the others.
  lemma WaitForRuns(m: Monitor, t: Thread, env: seq<Action>)
    requires Inv(m) && Enabled(m, Action.WaitFor(t))
    ensures var trace := WaitForTrace(m, t, env);
            var after := Run(m, trace).after;
            && IsRun(m, trace) && trace[0] == Action.WaitFor(t)
            && Own(trace, t) == (if m.count > 0 then 1 else 2)
            && after.count == 0 && t !in after.asleep + after.woken
            && after == if m.count > 0 then m.(count := 0)
                        else Step(AfterTurn(m, t, Action.WaitFor(t), env), Resume(t)).after
    ensures m.count == 0 ==> var back := AfterTurn(m, t, Action.WaitFor(t), env); t in back.woken && t in back.timed
  {
    var own := Action.WaitFor(t);
    FirstStep(m, own);
    StepKeepsInv(m, own);
    OwnOne(own, t);
    if m.count == 0 {
      var slept := Step(m, own).after;
      OthersRun(slept, t, env);
      var others := OthersDo(slept, t, env);
      RunSplits(m, [own], others);
      OwnAppend([own], others, t);
      ThenResumed(m, [own] + others, t);
    }
  }

  lemma ThenResumed(m: Monitor, trace: seq<Action>, t: Thread)
    requires IsRun(m, trace) && t in Run(m, trace).after.woken
    ensures IsRun(m, trace + [Resume(t)]) && Own(trace + [Resume(t)], t) == Own(trace, t) + 1
    ensures Run(m, trace + [Resume(t)]).after == Step(Run(m, trace).after, Resume(t)).after
  {
    assert (trace + [Resume(t)])[..|trace|] == trace;
  }

  class EventVariable {
    var count: nat

    // The condition variable: who is inside its wait, who is out but still without the
    // lock, and who of both came by WaitFor.
    var asleep: set<Thread>
    var woken: set<Thread>
    var timed: set<Thread>

    ghost function State(): Monitor
      reads this
    {
      Monitor(count, asleep, woken, timed)
    }

    constructor ()
      ensures State() == NEW_MONITOR
    {
      count, asleep, woken, timed := 0, {}, {}, {};
    }

    // ---------- the program's methods ----------

    method Signal(n: nat, pick: Thread)
      requires Enabled(State(), Action.Signal(n, pick))
      modifies this
      ensures State() == Step(old(State()), Action.Signal(n, pick)).after
    {
      count := count + n;
      if n == 1 {
        CallNotifyOne(pick);
      } else {
        CallNotifyAll();
      }
    }

    // The wait loop, against what other threads do each time this one sleeps. It either
    // comes back with a permit or is asleep when the others have no turn left. What happened
    // is the run that the given turns determine; it begins with the arrival of this thread.
    method Wait(t: Thread, env: seq<seq<Action>>) returns (done: bool, ghost trace: seq<Action>)
      requires Inv(State()) && Enabled(State(), Action.Wait(t))
      modifies this
      ensures trace == WaitTrace(old(State()), t, Action.Wait(t), env)
      ensures IsRun(old(State()), trace) && State() == Run(old(State()), trace).after
      ensures trace != [] && trace[0] == Action.Wait(t)
      ensures if done then t !in asleep + woken && Took(old(State()), trace, t) else t in asleep && count == 0
      ensures Own(trace, t) <= |env| + 1 && (!done ==> Own(trace, t) == |env| + 1)
    {
      ghost var b, own := State(), Action.Wait(t);
      trace := WaitTrace(b, t, own, env);
      WaitRuns(b, t, own, env);
      done := WaitLoop(t, env);
    }

    method WaitLoop(t: Thread, env: seq<seq<Action>>) returns (done: bool)
      requires Inv(State()) && Enabled(State(), Action.Wait(t))
      modifies this
      ensures State() == AfterWait(old(State()), t, Action.Wait(t), env) && (done <==> t !in asleep)
    {
      ghost var start, b, own := State(), State(), Action.Wait(t);
      var i := 0;
      while count == 0
        invariant 0 <= i <= |env| && Inv(b) && HoldsLock(b, own, t, State())
        invariant AfterWait(start, t, Action.Wait(t), env) == AfterWait(b, t, own, env[i..])
        decreases |env| - i
      {
        if i == |env| {
          LastOwnStep(b, t, own, env[i..]);
          asleep := asleep + {t};
          return false;
        }
        OneTurn(b, t, own, env[i..]);
        assert env[i..][1..] == env[i + 1..];
        WaitOnCondition(t, env[i], b, own);
        b, own := AfterTurn(b, t, own, env[i]), Resume(t);
        i := i + 1;
      }
      LastOwnStep(b, t, own, env[i..]);
      count := count - 1;
      done := true;
    }

    // The program's loop leaves after one pass: at most one sleep, ended by a signal, a
    // timeout or nothing at all; then every permit is dropped.
    method WaitFor(t: Thread, env: seq<Action>) returns (ghost trace: seq<Action>)
      requires Inv(State()) && Enabled(State(), Action.WaitFor(t))
      modifies this
      ensures trace == WaitForTrace(old(State()), t, env)
      ensures IsRun(old(State()), trace) && State() == Run(old(State()), trace).after
      ensures trace[0] == Action.WaitFor(t)
      ensures count == 0 && t !in asleep + woken
      ensures Own(trace, t) == if old(count) > 0 then 1 else 2
    {
      trace := WaitForTrace(State(), t, env);
      WaitForRuns(State(), t, env);
      if count == 0 {
        StepKeepsInv(State(), Action.WaitFor(t));
        asleep, timed := asleep + {t}, timed + {t};
        LetOthersRun(t, env);
        woken, timed := woken - {t}, timed - {t};
      }
      count := 0;
    }

    // ---------- what waiting is made of ----------

    // The thread has the lock and is at the head of its loop.
    static ghost predicate HoldsLock(b: Monitor, own: Action, t: Thread, now: Monitor) {
      AtHead(b, t, own) && now == if own == Resume(t) then b.(woken := b.woken - {t}) else b
    }

    method CallNotifyOne(pick: Thread)
      requires asleep != {} ==> pick in asleep
      modifies this`asleep, this`woken
      ensures State() == NotifyOne(old(State()), pick)
    {
      if asleep != {} {
        asleep, woken := asleep - {pick}, woken + {pick};
      }
    }

    method CallNotifyAll()
      modifies this`asleep, this`woken
      ensures State() == NotifyAll(old(State()))
    {
      asleep, woken := {}, woken + asleep;
    }

    // Gives the lock back, sleeps while the others run, is woken and gets the lock again.
    method WaitOnCondition(t: Thread, others: seq<Action>, ghost b: Monitor, ghost own: Action)
      requires Inv(b) && HoldsLock(b, own, t, State()) && count == 0
      modifies this
      ensures HoldsLock(AfterTurn(b, t, own, others), Resume(t), t, State())
    {
      StepKeepsInv(b, own);
      asleep := asleep + {t};
      LetOthersRun(t, others);
      woken := woken - {t};
    }

    // While the thread sleeps the others do what they can of the given actions; then the
    // thread is woken, if nobody did it, without a signal.
    method LetOthersRun(t: Thread, actions: seq<Action>)
      requires Inv(State()) && t in asleep
      modifies this
      ensures State() == Run(old(State()), OthersDo(old(State()), t, actions)).after
      ensures t in woken && (t in timed <==> t in old(timed))
    {
      OthersRun(State(), t, actions);
      ghost var last := Run(State(), OthersDo(State(), t, actions)).after;
      for i := 0 to |actions|
        invariant Inv(State()) && t in asleep + woken
        invariant last == Run(State(), OthersDo(State(), t, actions[i..])).after
      {
        assert actions[i..][1..] == actions[i + 1..];
        if actions[i] != Resume(t) && Possible(actions[i]) {
          OneOther(State(), t, actions[i..]);
          Perform(actions[i]);
        }
      }
      if t in asleep {
        FirstStep(State(), Wake(t));
        Perform(Wake(t));
      }
    }

    static lemma OneOther(m: Monitor, t: Thread, actions: seq<Action>)
      requires Inv(m) && t in m.asleep + m.woken && actions != [] && actions[0] != Resume(t) && Enabled(m, actions[0])
      ensures var next := Step(m, actions[0]).after;
              && Inv(next) && t in next.asleep + next.woken
              && Run(m, OthersDo(m, t, actions)).after == Run(next, OthersDo(next, t, actions[1..])).after
    {
      var next := Step(m, actions[0]).after;
      OthersKeep(m, actions[0], t);
      StepKeepsInv(m, actions[0]);
      FirstStep(m, actions[0]);
      OthersRun(next, t, actions[1..]);
      RunSplits(m, [actions[0]], OthersDo(next, t, actions[1..]));
    }

    predicate Possible(a: Action)
      reads this
    {
      Enabled(Monitor(count, asleep, woken, timed), a)
    }

    method Perform(a: Action)
      requires Enabled(State(), a)
      modifies this
      ensures State() == Step(old(State()), a).after
    {
      var m := Step(Monitor(count, asleep, woken, timed), a).after;
      count, asleep, woken, timed := m.count, m.asleep, m.woken, m.timed;
    }
  }
}
