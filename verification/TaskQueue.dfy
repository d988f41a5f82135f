// The task queue of the thread pool: a list under one lock and a semaphore that counts its
// tasks and the requests to exit. Producers fill the list before they post, and consumers
// wait before they look, so the two can be out of step at any moment.

module TaskQueues {
  import opened Monitors

  // pushing: producers that have put their task in the list and not posted yet; granted:
  // consumers that have their permit and not looked at the list yet; taken: the tasks
  // handed out, in order; refusals: consumers told that there is no task.
  datatype Pool<Task> = Pool(
    sem: Monitor, queue: seq<Task>, pushing: nat, granted: set<Thread>,
    taken: seq<Task>, exits: nat, refusals: nat)

  // One critical section each, as in Monitors: a task goes in at the back or the front; a
  // producer posts for it; a number of exits is posted; a consumer arrives, resumes or is
  // woken; a consumer with a permit looks at the list.
  datatype PoolAction<Task> =
    | PutTask(task: Task, atFront: bool)
    | PostTask(pick: Thread)
    | PostExits(n: nat, pick: Thread)
    | Consume(a: Action)
    | Look(thread: Thread)

  predicate CanDo<Task>(p: Pool<Task>, a: PoolAction<Task>) {
    match a
    case PutTask(_, _) => true
    case PostTask(pick) => p.pushing > 0 && Enabled(p.sem, Signal(1, pick))
    case PostExits(n, pick) => Enabled(p.sem, Signal(n, pick))
    case Consume(b) => (b.Wait? || b.Resume? || b.Wake?) && Enabled(p.sem, b) && b.thread !in p.granted
    case Look(t) => t in p.granted
  }

  function Do<Task>(p: Pool<Task>, a: PoolAction<Task>): Pool<Task>
    requires CanDo(p, a)
  {
    match a
    case PutTask(task, atFront) =>
      p.(queue := if atFront then [task] + p.queue else p.queue + [task], pushing := p.pushing + 1)
    case PostTask(pick) => p.(sem := Step(p.sem, Signal(1, pick)).after, pushing := p.pushing - 1)
    case PostExits(n, pick) => p.(sem := Step(p.sem, Signal(n, pick)).after, exits := p.exits + n)
    case Consume(b) =>
      var r := Step(p.sem, b);
      p.(sem := r.after, granted := if r.consumed > 0 then p.granted + {b.thread} else p.granted)
    case Look(t) =>
      var p' := p.(granted := p.granted - {t});
      if p.queue == [] then p'.(refusals := p.refusals + 1)
      else p'.(queue := p.queue[1..], taken := p.taken + [p.queue[0]])
  }

  function NewPool<Task>(): Pool<Task> {
    Pool(NEW_MONITOR, [], 0, {}, [], 0, 0)
  }

  ghost predicate IsPoolRun<Task>(acts: seq<PoolAction<Task>>)
    decreases |acts|, 0
  {
    acts == [] || (IsPoolRun(acts[..|acts| - 1]) && CanDo(PoolAt(acts[..|acts| - 1]), acts[|acts| - 1]))
  }

  ghost function PoolAt<Task>(acts: seq<PoolAction<Task>>): Pool<Task>
    requires IsPoolRun(acts)
    decreases |acts|, 1
  {
    if acts == [] then NewPool() else Do(PoolAt(acts[..|acts| - 1]), acts[|acts| - 1])
  }

  // ---------- invariant ----------

  // Permits, consumers that hold one, refusals and unposted tasks together are the tasks
  // in the list and the exits asked for.
  ghost predicate PoolInv<Task>(p: Pool<Task>) {
    && Inv(p.sem) && p.sem.timed == {}
    && p.sem.count + |p.granted| + p.refusals + p.pushing == |p.queue| + p.exits
    && p.refusals <= p.exits
  }

  lemma ConsumeStep(m: Monitor, b: Action)
    requires Inv(m) && m.timed == {} && (b.Wait? || b.Resume? || b.Wake?) && Enabled(m, b)
    ensures var r := Step(m, b);
            Inv(r.after) && r.after.timed == {} && r.consumed <= 1 && r.after.count + r.consumed == m.count
  {
    StepKeepsInv(m, b);
  }

  lemma DoKeepsInv<Task>(p: Pool<Task>, a: PoolAction<Task>)
    requires PoolInv(p) && CanDo(p, a)
    ensures PoolInv(Do(p, a))
  {
    match a
    case PutTask(_, _) =>
    case PostTask(pick) => StepKeepsInv(p.sem, Signal(1, pick));
    case PostExits(n, pick) => StepKeepsInv(p.sem, Signal(n, pick));
    case Consume(b) => ConsumeStep(p.sem, b);
    case Look(t) => assert |p.granted - {t}| == |p.granted| - 1;
  }

  lemma {:induction false} PoolKeepsInv<Task>(acts: seq<PoolAction<Task>>)
    requires IsPoolRun(acts)
    ensures PoolInv(PoolAt(acts))
    decreases |acts|
  {
    if acts != [] {
      PoolKeepsInv(acts[..|acts| - 1]);
      DoKeepsInv(PoolAt(acts[..|acts| - 1]), acts[|acts| - 1]);
    }
  }

  // ---------- theorems ----------

  // Over any interleaving, no more consumers are told to exit than exits were asked for.
  lemma NoUnaskedExit<Task>(acts: seq<PoolAction<Task>>)
    requires IsPoolRun(acts)
    ensures PoolAt(acts).refusals <= PoolAt(acts).exits
  {
    PoolKeepsInv(acts);
  }

  // Whenever no producer is between its list and its post, no consumer is between its
  // permit and the list, and no thread is woken: a consumer that sleeps means that the
  // list is empty and every exit asked for has reached exactly one consumer.
  lemma SleeperMeansNoTask<Task>(acts: seq<PoolAction<Task>>)
    requires IsPoolRun(acts)
    requires var p := PoolAt(acts);
             p.pushing == 0 && p.granted == {} && p.sem.woken == {} && p.sem.asleep != {}
    ensures PoolAt(acts).queue == [] && PoolAt(acts).refusals == PoolAt(acts).exits
  {
    PoolKeepsInv(acts);
  }

  // The tasks put in, in the order of a run that only puts them at the back.
  function PutIn<Task>(acts: seq<PoolAction<Task>>): seq<Task> {
    if acts == [] then []
    else PutIn(acts[..|acts| - 1]) + if acts[|acts| - 1].PutTask? then [acts[|acts| - 1].task] else []
  }

  // Tasks are handed out once each and none is lost, wherever they were put; and in the
  // order they were put in, if always at the back.
  lemma {:induction false} TasksConserved<Task>(acts: seq<PoolAction<Task>>)
    requires IsPoolRun(acts)
    ensures multiset(PoolAt(acts).taken) + multiset(PoolAt(acts).queue) == multiset(PutIn(acts))
    decreases |acts|
  {
    if acts != [] {
      var before, a := acts[..|acts| - 1], acts[|acts| - 1];
      TasksConserved(before);
      OneMove(PoolAt(before), a);
    }
  }

  lemma OneMove<Task>(p: Pool<Task>, a: PoolAction<Task>)
    requires CanDo(p, a)
    ensures multiset(Do(p, a).taken) + multiset(Do(p, a).queue)
         == multiset(p.taken) + multiset(p.queue) + multiset(if a.PutTask? then [a.task] else [])
  {
    if a.Look? && p.queue != [] {
      assert p.queue == [p.queue[0]] + p.queue[1..];
    }
  }

  ghost predicate OnlyAtBack<Task>(acts: seq<PoolAction<Task>>) {
    forall i :: 0 <= i < |acts| && acts[i].PutTask? ==> !acts[i].atFront
  }

  lemma {:induction false} FirstInFirstOut<Task>(acts: seq<PoolAction<Task>>)
    requires IsPoolRun(acts) && OnlyAtBack(acts)
    ensures PoolAt(acts).taken + PoolAt(acts).queue == PutIn(acts)
    decreases |acts|
  {
    if acts != [] {
      var before, a := acts[..|acts| - 1], acts[|acts| - 1];
      FirstInFirstOut(before);
      var p := PoolAt(before);
      if a.Look? && p.queue != [] {
        assert p.taken + [p.queue[0]] + p.queue[1..] == p.taken + p.queue;
      } else if a.PutTask? {
        assert p.taken + (p.queue + [a.task]) == p.taken + p.queue + [a.task];
      }
    }
  }

  // ---------- at the front ----------

  // Nothing is taken, and nothing is put at the front.
  ghost predicate LeavesFront<Task>(acts: seq<PoolAction<Task>>) {
    forall i :: 0 <= i < |acts| ==> !acts[i].Look? && (acts[i].PutTask? ==> !acts[i].atFront)
  }

  // A task put at the front is the next one handed out, unless another one is put there.
  lemma {:induction false} FrontIsNext<Task>(acts: seq<PoolAction<Task>>, task: Task, more: seq<PoolAction<Task>>)
    requires IsPoolRun(acts + [PutTask(task, true)] + more) && LeavesFront(more)
    ensures IsPoolRun(acts)
    ensures var p := PoolAt(acts + [PutTask(task, true)] + more);
            p.queue != [] && p.queue[0] == task && p.taken == PoolAt(acts).taken
    decreases |more|
  {
    var all := acts + [PutTask(task, true)] + more;
    if more == [] {
      assert all[..|all| - 1] == acts;
    } else {
      assert all[..|all| - 1] == acts + [PutTask(task, true)] + more[..|more| - 1];
      FrontIsNext(acts, task, more[..|more| - 1]);
    }
  }

  lemma FrontIsTaken<Task>(acts: seq<PoolAction<Task>>, task: Task, more: seq<PoolAction<Task>>, t: Thread)
    requires IsPoolRun(acts + [PutTask(task, true)] + more + [Look(t)]) && LeavesFront(more)
    ensures IsPoolRun(acts)
    ensures PoolAt(acts + [PutTask(task, true)] + more + [Look(t)]).taken == PoolAt(acts).taken + [task]
  {
    var all := acts + [PutTask(task, true)] + more;
    assert (all + [Look(t)])[..|all|] == all;
    FrontIsNext(acts, task, more);
  }

  // ---------- at rest ----------

  // How many consumers have called for a task.
  function Calls<Task>(acts: seq<PoolAction<Task>>): nat {
    if acts == [] then 0
    else Calls(acts[..|acts| - 1]) + if acts[|acts| - 1].Consume? && acts[|acts| - 1].a.Wait? then 1 else 0
  }

  // How many exits were asked for.
  function ExitsAsked<Task>(acts: seq<PoolAction<Task>>): nat {
    if acts == [] then 0
    else ExitsAsked(acts[..|acts| - 1]) + if acts[|acts| - 1].PostExits? then acts[|acts| - 1].n else 0
  }

  // Every call has its task or its refusal, or its consumer is on the way.
  ghost predicate CallsAccounted<Task>(acts: seq<PoolAction<Task>>)
    requires IsPoolRun(acts)
  {
    var p := PoolAt(acts);
    && Calls(acts) == |p.taken| + p.refusals + |p.granted| + |p.sem.asleep + p.sem.woken|
    && |p.taken| + |p.queue| == |PutIn(acts)| && p.exits == ExitsAsked(acts)
  }

  lemma {:induction false} CallsAreAccounted<Task>(acts: seq<PoolAction<Task>>)
    requires IsPoolRun(acts)
    ensures CallsAccounted(acts)
    decreases |acts|
  {
    if acts != [] {
      var before, a := acts[..|acts| - 1], acts[|acts| - 1];
      PoolKeepsInv(before);
      CallsAreAccounted(before);
      OneCallAccounted(PoolAt(before), a);
    }
  }

  lemma OneCallAccounted<Task>(p: Pool<Task>, a: PoolAction<Task>)
    requires PoolInv(p) && CanDo(p, a)
    ensures var q := Do(p, a);
            && |q.taken| + q.refusals + |q.granted| + |q.sem.asleep + q.sem.woken|
               == |p.taken| + p.refusals + |p.granted| + |p.sem.asleep + p.sem.woken|
                  + (if a.Consume? && a.a.Wait? then 1 else 0)
            && |q.taken| + |q.queue| == |p.taken| + |p.queue| + (if a.PutTask? then 1 else 0)
            && q.exits == p.exits + if a.PostExits? then a.n else 0
  {
    match a
    case PutTask(_, _) =>
    case PostTask(pick) => SignalKeepsWaiters(p.sem, 1, pick);
    case PostExits(n, pick) => SignalKeepsWaiters(p.sem, n, pick);
    case Consume(b) => ConsumeMoves(p.sem, b);
    case Look(t) => assert |p.granted - {t}| == |p.granted| - 1;
  }

  lemma SignalKeepsWaiters(m: Monitor, n: nat, pick: Thread)
    requires Enabled(m, Signal(n, pick))
    ensures var after := Step(m, Signal(n, pick)).after; after.asleep + after.woken == m.asleep + m.woken
  {
  }

  // A consumer that arrives goes to sleep or has its permit; one that resumes likewise.
  lemma ConsumeMoves(m: Monitor, b: Action)
    requires Inv(m) && m.timed == {} && (b.Wait? || b.Resume? || b.Wake?) && Enabled(m, b)
    ensures var r := Step(m, b);
            && |r.after.asleep + r.after.woken| + r.consumed == |m.asleep + m.woken| + (if b.Wait? then 1 else 0)
            && r.consumed <= 1
  {
    WaitersAfter(m, b);
    Without(m.asleep + m.woken, b.thread);
    With(m.asleep + m.woken, b.thread);
  }

  lemma WaitersAfter(m: Monitor, b: Action)
    requires Inv(m) && m.timed == {} && (b.Wait? || b.Resume? || b.Wake?) && Enabled(m, b)
    ensures Step(m, b).consumed <= 1 && (b.Wait? <==> b.thread !in m.asleep + m.woken)
    ensures var r := Step(m, b);
            r.consumed == 0 ==> r.after.asleep + r.after.woken == m.asleep + m.woken + {b.thread}
    ensures var r := Step(m, b);
            r.consumed > 0 ==> r.after.asleep + r.after.woken == m.asleep + m.woken - {b.thread}
  {
    match b
    case Wait(t) => Arrives(m.asleep, m.woken, t);
    case Resume(t) => Returns(m.asleep, m.woken, t);
    case Wake(t) => Leaves(m.asleep, m.woken, t);
  }

  lemma Arrives(asleep: set<Thread>, woken: set<Thread>, t: Thread)
    requires t !in asleep + woken
    ensures asleep + woken == asleep + woken - {t}
    ensures asleep + {t} + woken == asleep + woken + {t}
  {
  }

  lemma Returns(asleep: set<Thread>, woken: set<Thread>, t: Thread)
    requires asleep !! woken && t in woken
    ensures asleep + (woken - {t}) == asleep + woken - {t}
    ensures asleep + {t} + (woken - {t}) == asleep + woken + {t}
  {
  }

  lemma Leaves(asleep: set<Thread>, woken: set<Thread>, t: Thread)
    requires t in asleep
    ensures asleep - {t} + (woken + {t}) == asleep + woken + {t}
  {
  }

  lemma Without(s: set<Thread>, t: Thread)
    ensures |s - {t}| == if t in s then |s| - 1 else |s|
  {
    if t !in s {
      assert s - {t} == s;
    }
  }

  lemma With(s: set<Thread>, t: Thread)
    ensures |s + {t}| == if t in s then |s| else |s| + 1
  {
    if t in s {
      assert s + {t} == s;
    }
  }

  // At rest the calls that came back, with a task or a refusal, are the lesser of the calls
  // made and the tasks put in and exits asked for together.
  lemma PoolAtRest<Task>(acts: seq<PoolAction<Task>>)
    requires IsPoolRun(acts)
    requires var p := PoolAt(acts); p.pushing == 0 && p.granted == {} && p.sem.woken == {}
    ensures var p := PoolAt(acts);
            IsLesser(|p.taken| + p.refusals, |PutIn(acts)| + ExitsAsked(acts), Calls(acts))
  {
    PoolKeepsInv(acts);
    CallsAreAccounted(acts);
  }
}
