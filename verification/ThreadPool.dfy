// The worker pool of common/ThreadPool.h and common/ThreadPool.cpp, as the interleaving of its critical
// sections.  Tasks are numbered in the order in which enqueue accepts them.
module ThreadPoolSteps {
  import opened Counting

  type Worker = nat
  type Task = nat

  datatype Status =
    | Looking               // about to evaluate the wait condition with the mutex held
    | Sleeping              // in condition.wait
    | Running(task: Task)
    | Exited

  datatype State = State(
    stop: bool,
    notified: bool,         // the destructor has called notify_all
    accepted: nat,          // how many tasks enqueue has accepted; also the number of the next one
    tasks: seq<Task>,
    enqueuing: nat,         // enqueue calls that have pushed and not yet called notify_one
    workers: map<Worker, Status>,
    finished: set<Task>)

  datatype Action =
    | Enqueue                   // the locked part of an accepted enqueue
    | NotifyOne(chosen: Worker) // chosen matters only if someone sleeps
    | Look(worker: Worker)      // the wait condition, and what follows with the mutex held
    | Spurious(worker: Worker)
    | Finish(worker: Worker)
    | Stop                      // the destructor sets stop
    | NotifyAll                 // the destructor calls notify_all

  function At(s: State, status: Status): set<Worker> {
    set w | w in s.workers && s.workers[w] == status
  }

  function Runners(s: State): set<Worker> {
    set w | w in s.workers && s.workers[w].Running?
  }

  predicate Is(s: State, w: Worker, status: Status) {
    w in s.workers && s.workers[w] == status
  }

  predicate Enabled(s: State, a: Action) {
    match a
    case Enqueue => !s.stop
    case NotifyOne(w) => s.enqueuing > 0 && (At(s, Sleeping) != {} ==> w in At(s, Sleeping))
    case Look(w) => Is(s, w, Looking)
    case Spurious(w) => Is(s, w, Sleeping)
    case Finish(w) => w in s.workers && s.workers[w].Running?
    case Stop => !s.stop
    case NotifyAll => s.stop && !s.notified
  }

  function AllAwake(workers: map<Worker, Status>): map<Worker, Status> {
    map w | w in workers :: if workers[w] == Sleeping then Looking else workers[w]
  }

  function Move(s: State, w: Worker, status: Status): State {
    s.(workers := s.workers[w := status])
  }

  function Apply(s: State, a: Action): State
    requires Enabled(s, a)
  {
    match a
    case Enqueue => s.(tasks := s.tasks + [s.accepted], accepted := s.accepted + 1, enqueuing := s.enqueuing + 1)
    case NotifyOne(w) =>
      var t := s.(enqueuing := s.enqueuing - 1);
      if At(s, Sleeping) != {} then Move(t, w, Looking) else t
    case Look(w) =>
      if !s.stop && s.tasks == [] then Move(s, w, Sleeping)
      else if s.stop && s.tasks == [] then Move(s, w, Exited)
      else Move(s, w, Running(s.tasks[0])).(tasks := s.tasks[1..])
    case Spurious(w) => Move(s, w, Looking)
    case Finish(w) => Move(s, w, Looking).(finished := s.finished + {s.workers[w].task})
    case Stop => s.(stop := true)
    case NotifyAll => s.(notified := true, workers := AllAwake(s.workers))
  }

  /** The workers the constructor launches. */
  function Launched(threads: nat): (workers: map<Worker, Status>)
    ensures forall w: Worker :: w in workers <==> w < threads
    ensures forall w :: w in workers ==> workers[w] == Looking
  {
    if threads == 0 then map[] else Launched(threads - 1)[threads - 1 := Looking]
  }

  function Initial(threads: nat): State {
    State(false, false, 0, [], 0, Launched(threads), {})
  }

  // ---- The invariant

  /** How many tasks have left the queue. */
  function Taken(s: State): int {
    s.accepted - |s.tasks|
  }

  /** The queue holds the accepted tasks that have not been taken, oldest first: tasks leave in the order
      in which they were accepted. */
  ghost predicate Fifo(s: State) {
    && |s.tasks| <= s.accepted
    && forall i :: 0 <= i < |s.tasks| ==> s.tasks[i] == Taken(s) + i
  }

  ghost predicate BeingRun(s: State, t: Task) {
    exists w :: w in s.workers && s.workers[w] == Running(t)
  }

  /** A task has been taken if it is being run or has run, not both, and by one worker only. */
  ghost predicate ExactlyOnce(s: State) {
    && (forall t: Task :: t < Taken(s) <==> BeingRun(s, t) || t in s.finished)
    && (forall t: Task :: BeingRun(s, t) ==> t !in s.finished)
    && (forall v, w :: v in s.workers && w in s.workers && v != w && s.workers[v].Running? && s.workers[w].Running?
          ==> s.workers[v].task != s.workers[w].task)
  }

  /** A worker exits only after stop with nothing queued; nobody sleeps once everybody was notified. */
  ghost predicate Shutdown(s: State) {
    && (At(s, Exited) != {} ==> s.stop && s.tasks == [])
    && (s.notified ==> s.stop && At(s, Sleeping) == {})
  }

  /** Before stop no wake-up is lost. */
  predicate WakeupsCover(s: State) {
    !s.stop && At(s, Sleeping) != {} ==> |s.tasks| <= |At(s, Looking)| + s.enqueuing
  }

  ghost predicate Inv(s: State) {
    Fifo(s) && ExactlyOnce(s) && Shutdown(s) && WakeupsCover(s)
  }

  lemma InitialInv(threads: nat)
    ensures Inv(Initial(threads))
  {
  }

  // ---- Every step keeps it

  lemma LookTakes(s: State, w: Worker)
    requires Fifo(s) && ExactlyOnce(s) && Enabled(s, Look(w)) && s.tasks != []
    ensures Fifo(Apply(s, Look(w))) && ExactlyOnce(Apply(s, Look(w)))
  {
    var t := Apply(s, Look(w));
    var taken := s.tasks[0];
    assert forall i :: 0 <= i < |t.tasks| ==> t.tasks[i] == s.tasks[i + 1];
    assert t.workers[w] == Running(taken);
    forall x: Task
      ensures BeingRun(t, x) <==> BeingRun(s, x) || x == taken
    {
      if BeingRun(s, x) {
        var v :| v in s.workers && s.workers[v] == Running(x);
        assert t.workers[v] == Running(x);
      }
      if BeingRun(t, x) {
        var v :| v in t.workers && t.workers[v] == Running(x);
        assert v == w || s.workers[v] == Running(x);
      }
    }
    forall v | v in s.workers && s.workers[v].Running?
      ensures s.workers[v].task != taken
    {
      assert BeingRun(s, s.workers[v].task);
    }
  }

  lemma FinishMoves(s: State, w: Worker)
    requires Fifo(s) && ExactlyOnce(s) && Enabled(s, Finish(w))
    ensures Fifo(Apply(s, Finish(w))) && ExactlyOnce(Apply(s, Finish(w)))
  {
    var t, done := Apply(s, Finish(w)), s.workers[w].task;
    assert BeingRun(s, done);
    forall x: Task
      ensures BeingRun(t, x) <==> BeingRun(s, x) && x != done
    {
      if BeingRun(s, x) && x != done {
        var v :| v in s.workers && s.workers[v] == Running(x);
        assert t.workers[v] == Running(x);
      }
      if BeingRun(t, x) {
        var v :| v in t.workers && t.workers[v] == Running(x);
        assert v != w && s.workers[v] == Running(x);
      }
    }
  }

  ghost predicate SameRunners(s: State, t: State) {
    forall w, x :: Is(s, w, Running(x)) <==> Is(t, w, Running(x))
  }

  lemma OthersKeepTasks(s: State, t: State)
    requires ExactlyOnce(s) && SameRunners(s, t)
    requires t.finished == s.finished && Taken(t) == Taken(s)
    ensures ExactlyOnce(t)
  {
    forall x: Task
      ensures BeingRun(s, x) <==> BeingRun(t, x)
    {
      if BeingRun(s, x) {
        var v :| v in s.workers && s.workers[v] == Running(x);
        assert Is(t, v, Running(x));
      }
      if BeingRun(t, x) {
        var v :| v in t.workers && t.workers[v] == Running(x);
        assert Is(s, v, Running(x));
      }
    }
    forall v, w | v in t.workers && w in t.workers && v != w && t.workers[v].Running? && t.workers[w].Running?
      ensures t.workers[v].task != t.workers[w].task
    {
      assert Is(s, v, t.workers[v]) && Is(s, w, t.workers[w]);
    }
  }

  lemma StepKeepsTasks(s: State, a: Action)
    requires Inv(s) && Enabled(s, a)
    ensures Fifo(Apply(s, a)) && ExactlyOnce(Apply(s, a))
  {
    if a.Look? && s.tasks != [] {
      LookTakes(s, a.worker);
    } else if a.Finish? {
      FinishMoves(s, a.worker);
    } else {
      assert SameRunners(s, Apply(s, a));
      OthersKeepTasks(s, Apply(s, a));
    }
  }

  lemma StepKeepsShutdown(s: State, a: Action)
    requires Inv(s) && Enabled(s, a)
    ensures Shutdown(Apply(s, a))
  {
    var t := Apply(s, a);
    if At(t, Exited) != {} {
      var w :| w in At(t, Exited);
      assert w in At(s, Exited) || (a == Look(w) && s.stop && s.tasks == []);
    }
    if s.stop {
      assert At(t, Sleeping) <= At(s, Sleeping);
    }
  }

  ghost predicate OnlyMoves(s: State, t: State, w: Worker) {
    forall v :: v != w ==> ((v in s.workers <==> v in t.workers) && (v in s.workers ==> s.workers[v] == t.workers[v]))
  }

  lemma MoveOne(s: State, t: State, w: Worker, status: Status)
    requires OnlyMoves(s, t, w)
    ensures |At(t, status)| + One(Is(s, w, status)) == |At(s, status)| + One(Is(t, w, status))
  {
    assert At(s, status) - {w} == At(t, status) - {w};
    CardinalityMove(At(s, status), At(t, status), w);
  }

  lemma MoveRunner(s: State, t: State, w: Worker)
    requires OnlyMoves(s, t, w)
    ensures |Runners(t)| + One(w in Runners(s)) == |Runners(s)| + One(w in Runners(t))
  {
    assert Runners(s) - {w} == Runners(t) - {w};
    CardinalityMove(Runners(s), Runners(t), w);
  }

  lemma SamePlaces(s: State, t: State)
    requires s.workers == t.workers
    ensures forall status :: At(s, status) == At(t, status)
    ensures Runners(s) == Runners(t)
  {
  }

  lemma StepKeepsCover(s: State, a: Action)
    requires Inv(s) && Enabled(s, a)
    ensures WakeupsCover(Apply(s, a))
  {
    var t := Apply(s, a);
    if a.Look? || a.Spurious? || a.Finish? {
      MoveOne(s, t, a.worker, Looking);
      MoveOne(s, t, a.worker, Sleeping);
    } else if a.NotifyOne? {
      if At(s, Sleeping) != {} {
        MoveOne(s, t, a.chosen, Looking);
      } else {
        SamePlaces(s, t);
      }
    } else if a.Enqueue? {
      SamePlaces(s, t);
    }
  }

  lemma StepKeepsInv(s: State, a: Action)
    requires Inv(s) && Enabled(s, a)
    ensures Inv(Apply(s, a))
  {
    StepKeepsTasks(s, a);
    StepKeepsShutdown(s, a);
    StepKeepsCover(s, a);
  }

  // ---- Runs

  ghost predicate IsRun(s: State, actions: seq<Action>, t: State)
    decreases |actions|
  {
    if actions == [] then t == s
    else Enabled(s, actions[0]) && IsRun(Apply(s, actions[0]), actions[1..], t)
  }

  lemma {:induction false} RunKeepsInv(s: State, actions: seq<Action>, t: State)
    requires Inv(s) && IsRun(s, actions, t)
    ensures Inv(t) && t.workers.Keys == s.workers.Keys
    decreases |actions|
  {
    if actions != [] {
      StepKeepsInv(s, actions[0]);
      assert Apply(s, actions[0]).workers.Keys == s.workers.Keys;
      RunKeepsInv(Apply(s, actions[0]), actions[1..], t);
    }
  }

  /** Over every interleaving: first in first out, each accepted task taken exactly once, exits only after
      stop with an empty queue, no sleeper after notify_all, and no wake-up lost before stop. */
  lemma EveryRunIsSafe(threads: nat, actions: seq<Action>, t: State)
    requires IsRun(Initial(threads), actions, t)
    ensures Fifo(t) && ExactlyOnce(t) && Shutdown(t) && WakeupsCover(t)
  {
    InitialInv(threads);
    RunKeepsInv(Initial(threads), actions, t);
  }

  /** Once stop is set no task is accepted any more. */
  lemma {:induction false} NothingAcceptedAfterStop(s: State, actions: seq<Action>, t: State)
    requires s.stop && IsRun(s, actions, t)
    ensures t.stop && t.accepted == s.accepted
    decreases |actions|
  {
    if actions != [] {
      NothingAcceptedAfterStop(Apply(s, actions[0]), actions[1..], t);
    }
  }

  /** When the destructor has joined its one or more workers, every accepted task has run, and nothing
      else has. */
  lemma AllExitedMeansAllRun(s: State)
    requires Inv(s) && s.workers != map[]
    requires forall w :: w in s.workers ==> s.workers[w] == Exited
    ensures forall t: Task :: t in s.finished <==> t < s.accepted
  {
    var w :| w in s.workers;
    assert w in At(s, Exited);
    assert forall t: Task :: !BeingRun(s, t);
  }

  // ---- Somebody goes on

  predicate GoesOn(s: State, a: Action) {
    Enabled(s, a) && (a.NotifyOne? || a.Look? || a.Finish? || a.NotifyAll?)
  }

  lemma AwakeWorkerGoesOn(s: State, w: Worker)
    requires w in s.workers && s.workers[w] != Sleeping && s.workers[w] != Exited
    ensures exists a :: GoesOn(s, a)
  {
    match s.workers[w] {
      case Looking => assert GoesOn(s, Look(w));
      case Running(_) => assert GoesOn(s, Finish(w));
    }
  }

  lemma NotifierGoesOn(s: State)
    requires s.enqueuing > 0
    ensures exists a :: GoesOn(s, a)
  {
    var w :| At(s, Sleeping) != {} ==> w in At(s, Sleeping);
    assert GoesOn(s, NotifyOne(w));
  }

  /** No task is forgotten: while one is queued and there is a worker, somebody goes on. */
  lemma QueuedTaskGoesOn(s: State)
    requires Inv(s) && s.workers != map[] && s.tasks != []
    ensures exists a :: GoesOn(s, a)
  {
    var w :| w in s.workers;
    assert w !in At(s, Exited);
    if s.workers[w] != Sleeping {
      AwakeWorkerGoesOn(s, w);
    } else {
      assert w in At(s, Sleeping);
      if s.stop {
        assert GoesOn(s, NotifyAll);
      } else if At(s, Looking) != {} {
        var v :| v in At(s, Looking);
        AwakeWorkerGoesOn(s, v);
      } else {
        NotifierGoesOn(s);
      }
    }
  }

  lemma MoveAll(s: State, t: State, w: Worker)
    requires OnlyMoves(s, t, w)
    ensures |At(t, Looking)| + One(Is(s, w, Looking)) == |At(s, Looking)| + One(Is(t, w, Looking))
    ensures |At(t, Sleeping)| + One(Is(s, w, Sleeping)) == |At(s, Sleeping)| + One(Is(t, w, Sleeping))
    ensures |Runners(t)| + One(w in Runners(s)) == |Runners(s)| + One(w in Runners(t))
  {
    MoveOne(s, t, w, Looking);
    MoveOne(s, t, w, Sleeping);
    MoveRunner(s, t, w);
  }

  lemma WakeAll(s: State)
    requires Enabled(s, NotifyAll)
    ensures var t := Apply(s, NotifyAll);
            && At(t, Sleeping) == {}
            && |At(t, Looking)| == |At(s, Looking)| + |At(s, Sleeping)|
            && Runners(t) == Runners(s)
  {
    var t := Apply(s, NotifyAll);
    assert At(t, Looking) == At(s, Looking) + At(s, Sleeping);
  }

  // ---- Progress

  /** What is left to do, whether the pool is open or not.  A sleeper does nothing by itself. */
  function OpenWork(s: State): nat {
    2 * |s.tasks| + 2 * s.enqueuing + One(!s.stop) + (if s.notified then 0 else |s.workers| + 1)
    + |At(s, Looking)| + 2 * |Runners(s)|
  }

  /** What a step may add: five for an accepted task, two for a spurious wake-up, the step itself included. */
  function Cost(a: Action): nat {
    if a.Enqueue? then 5 else if a.Spurious? then 2 else 0
  }

  lemma SleepersAtMostAll(s: State)
    ensures |At(s, Sleeping)| <= |s.workers|
  {
    assert At(s, Sleeping) <= s.workers.Keys;
    SubsetSize(At(s, Sleeping), s.workers.Keys);
  }

  lemma SubsetSize<T>(a: set<T>, b: set<T>)
    requires a <= b
    ensures |a| <= |b|
  {
    assert b == a + (b - a);
  }

  lemma SameNumberOfWorkers(s: State, a: Action)
    requires Enabled(s, a)
    ensures |Apply(s, a).workers| == |s.workers|
  {
    var t := Apply(s, a);
    assert t.workers.Keys == s.workers.Keys;
    assert |t.workers.Keys| == |t.workers| && |s.workers.Keys| == |s.workers|;
  }

  lemma MoveWork(s: State, a: Action)
    requires Enabled(s, a) && (a.Look? || a.Spurious? || a.Finish?)
    ensures OpenWork(Apply(s, a)) + 1 <= OpenWork(s) + Cost(a)
  {
    SameNumberOfWorkers(s, a);
    MoveAll(s, Apply(s, a), a.worker);
  }

  lemma OpenStepWork(s: State, a: Action)
    requires Enabled(s, a)
    ensures OpenWork(Apply(s, a)) + 1 <= OpenWork(s) + Cost(a)
  {
    var t := Apply(s, a);
    if a.Look? || a.Spurious? || a.Finish? {
      MoveWork(s, a);
    } else if a.NotifyAll? {
      WakeAll(s);
      SleepersAtMostAll(s);
      SameNumberOfWorkers(s, a);
    } else if a.NotifyOne? && At(s, Sleeping) != {} {
      SameNumberOfWorkers(s, a);
      MoveAll(s, t, a.chosen);
    } else {
      SamePlaces(s, t);
    }
  }

  function Costs(actions: seq<Action>): nat {
    if actions == [] then 0 else Cost(actions[0]) + Costs(actions[1..])
  }

  predicate IsEnqueue(a: Action) {
    a.Enqueue?
  }

  predicate IsSpurious(a: Action) {
    a.Spurious?
  }

  lemma {:induction false} CostsSnoc(actions: seq<Action>, last: Action)
    ensures Costs(actions + [last]) == Costs(actions) + Cost(last)
  {
    var s := actions + [last];
    if actions == [] {
      assert s[1..] == [];
    } else {
      assert s[1..] == actions[1..] + [last];
      CostsSnoc(actions[1..], last);
    }
  }

  lemma {:induction false} CostsArePlaces(actions: seq<Action>)
    ensures Costs(actions) == 5 * |Places(actions, IsEnqueue)| + 2 * |Places(actions, IsSpurious)|
  {
    if actions != [] {
      var init, last := actions[..|actions| - 1], actions[|actions| - 1];
      hide Costs, Places;
      CostsArePlaces(init);
      CostsSnoc(init, last);
      PlacesSnoc(init, last, IsEnqueue);
      PlacesSnoc(init, last, IsSpurious);
      assert actions == init + [last];
    }
  }

  lemma {:induction false} RunCosts(s: State, actions: seq<Action>, t: State)
    requires IsRun(s, actions, t)
    ensures |actions| + OpenWork(t) <= OpenWork(s) + Costs(actions)
    decreases |actions|
  {
    if actions != [] {
      hide OpenWork, Cost;
      OpenStepWork(s, actions[0]);
      RunCosts(Apply(s, actions[0]), actions[1..], t);
    }
  }

  /** A run of the pool, open or shutting down, is only as long as the work there was, the accepted tasks and
      the spurious wake-ups make it. */
  lemma RunIsBounded(s: State, actions: seq<Action>, t: State)
    requires IsRun(s, actions, t)
    ensures |actions| + OpenWork(t) <=
            OpenWork(s) + 5 * |Places(actions, IsEnqueue)| + 2 * |Places(actions, IsSpurious)|
  {
    RunCosts(s, actions, t);
    CostsArePlaces(actions);
  }

  /** When nobody can go on, the queue is empty and exactly the accepted tasks have run. */
  lemma StuckHasRunAll(s: State)
    requires Inv(s) && s.workers != map[]
    requires forall a :: !GoesOn(s, a)
    ensures s.tasks == [] && s.enqueuing == 0
    ensures forall t: Task :: t in s.finished <==> t < s.accepted
  {
    if s.tasks != [] {
      QueuedTaskGoesOn(s);
    }
    if s.enqueuing > 0 {
      NotifierGoesOn(s);
    }
    forall w | w in s.workers ensures !s.workers[w].Running? {
      assert !GoesOn(s, Finish(w));
    }
    assert forall t: Task :: !BeingRun(s, t);
  }

  // ---- Shutdown

  /** What is left to do after stop. */
  function Work(s: State): nat {
    2 * |s.tasks| + 2 * s.enqueuing + One(!s.notified)
    + |At(s, Looking)| + 2 * |At(s, Sleeping)| + 2 * |Runners(s)|
  }

  lemma ShutdownMoveWork(s: State, a: Action)
    requires s.stop && Enabled(s, a) && (a.Look? || a.Spurious? || a.Finish?)
    ensures Work(Apply(s, a)) < Work(s)
  {
    MoveAll(s, Apply(s, a), a.worker);
  }

  lemma ShutdownNotifyWork(s: State, w: Worker)
    requires s.stop && Enabled(s, NotifyOne(w))
    ensures Work(Apply(s, NotifyOne(w))) < Work(s)
  {
    if At(s, Sleeping) != {} {
      MoveAll(s, Apply(s, NotifyOne(w)), w);
    } else {
      SamePlaces(s, Apply(s, NotifyOne(w)));
    }
  }

  /** After stop every step, spurious wake-ups included, brings the shutdown nearer. */
  lemma ShutdownStepDecreasesWork(s: State, a: Action)
    requires s.stop && Enabled(s, a)
    ensures Work(Apply(s, a)) < Work(s)
  {
    if a.NotifyAll? {
      WakeAll(s);
    } else if a.NotifyOne? {
      ShutdownNotifyWork(s, a.chosen);
    } else {
      ShutdownMoveWork(s, a);
    }
  }

  lemma {:induction false} ShutdownIsBounded(s: State, actions: seq<Action>, t: State)
    requires s.stop && IsRun(s, actions, t)
    ensures |actions| + Work(t) <= Work(s)
    decreases |actions|
  {
    if actions != [] {
      ShutdownStepDecreasesWork(s, actions[0]);
      ShutdownIsBounded(Apply(s, actions[0]), actions[1..], t);
    }
  }

  /** A shutdown cannot get stuck before every worker has exited. */
  lemma ShutdownGoesOn(s: State)
    requires Inv(s) && s.stop && exists w :: w in s.workers && s.workers[w] != Exited
    ensures exists a :: GoesOn(s, a)
  {
    var w :| w in s.workers && s.workers[w] != Exited;
    if s.workers[w] != Sleeping {
      AwakeWorkerGoesOn(s, w);
    } else {
      assert w in At(s, Sleeping);
      assert GoesOn(s, NotifyAll);
    }
  }

  /** The drain: however the steps after stop interleave, there are at most Work(s) of them, and when none
      is left to take, all workers have exited and every task accepted before stop has run. */
  lemma ShutdownDrains(s: State, actions: seq<Action>, t: State)
    requires Inv(s) && s.stop && s.workers != map[]
    requires IsRun(s, actions, t) && !exists a :: GoesOn(t, a)
    ensures |actions| <= Work(s)
    ensures forall w :: w in t.workers ==> t.workers[w] == Exited
    ensures forall x: Task :: x in t.finished <==> x < s.accepted
  {
    RunKeepsInv(s, actions, t);
    NothingAcceptedAfterStop(s, actions, t);
    ShutdownIsBounded(s, actions, t);
    if exists w :: w in t.workers && t.workers[w] != Exited {
      ShutdownGoesOn(t);
    }
    assert t.workers.Keys == s.workers.Keys;
    assert t.workers != map[];
    AllExitedMeansAllRun(t);
  }
}

// The pool object: each method is one critical section.
module ThreadPools {
  import opened ThreadPoolSteps

  class ThreadPool {
    var stop: bool
    var tasks: seq<Task>
    var workers: map<Worker, Status>
    var enqueuing: nat
    var notified: bool
    var accepted: nat
    ghost var finished: set<Task>

    ghost function Snapshot(): State
      reads this
    {
      State(stop, notified, accepted, tasks, enqueuing, workers, finished)
    }

    constructor (threads: nat)
      ensures Snapshot() == Initial(threads)
      ensures Inv(Snapshot())
      ensures !stop && tasks == [] && finished == {} && accepted == 0
      ensures forall w: Worker :: w in workers <==> w < threads
      ensures forall w :: w in workers ==> workers[w] == Looking
    {
      stop, notified, accepted, tasks, enqueuing, finished := false, false, 0, [], 0, {};
      workers := map[];
      new;
      for i := 0 to threads
        invariant stop == notified == false && accepted == 0 && tasks == [] && enqueuing == 0 && finished == {}
        invariant workers == Launched(i)
      {
        workers := workers[i := Looking];
      }
      InitialInv(threads);
    }

    /** The locked part of enqueue on an open pool; the task goes to the back of the queue. */
    method EnqueueLocked() returns (task: Task)
      requires Inv(Snapshot()) && !stop
      modifies this
      ensures Snapshot() == Apply(old(Snapshot()), Enqueue) && Inv(Snapshot())
      ensures task == old(accepted) && tasks == old(tasks) + [task]
      ensures workers == old(workers) && enqueuing == old(enqueuing) + 1
    {
      StepKeepsInv(Snapshot(), Enqueue);
      task := accepted;
      accepted := accepted + 1;
      tasks := tasks + [task];
      enqueuing := enqueuing + 1;
    }

    method NotifyOneWorker(chosen: Worker)
      requires Inv(Snapshot()) && Enabled(Snapshot(), NotifyOne(chosen))
      modifies this
      ensures Snapshot() == Apply(old(Snapshot()), NotifyOne(chosen)) && Inv(Snapshot())
      ensures tasks == old(tasks) && enqueuing == old(enqueuing) - 1
      ensures workers == if exists w :: w in old(workers) && old(workers)[w] == Sleeping
                         then old(workers)[chosen := Looking] else old(workers)
    {
      StepKeepsInv(Snapshot(), NotifyOne(chosen));
      if w :| w in workers && workers[w] == Sleeping {
        assert w in At(Snapshot(), Sleeping);
      }
      enqueuing := enqueuing - 1;
      if chosen in workers && workers[chosen] == Sleeping {
        assert chosen in At(old(Snapshot()), Sleeping);
        workers := workers[chosen := Looking];
      }
    }

    /** The worker's turn with the mutex: sleep, exit, or take the oldest task. */
    method LookForTask(w: Worker)
      requires Inv(Snapshot()) && Is(Snapshot(), w, Looking)
      modifies this
      ensures Snapshot() == Apply(old(Snapshot()), Look(w)) && Inv(Snapshot())
      ensures workers == old(workers)[w := workers[w]]
      ensures workers[w] == Exited <==> stop && old(tasks) == []
      ensures workers[w] == Sleeping <==> !stop && old(tasks) == []
      ensures workers[w].Running? <==> old(tasks) != []
      ensures workers[w].Running? ==>
                old(tasks) == [workers[w].task] + tasks && workers[w].task !in finished
                && forall t: Task :: t < workers[w].task ==> BeingRun(Snapshot(), t) || t in finished
    {
      StepKeepsInv(Snapshot(), Look(w));
      if !(stop || tasks != []) {
        workers := workers[w := Sleeping];
        return;
      }
      if stop && tasks == [] {
        workers := workers[w := Exited];
        return;
      }
      var task := tasks[0];
      tasks := tasks[1..];
      workers := workers[w := Running(task)];
      assert BeingRun(Snapshot(), task);
    }

    method FinishTask(w: Worker)
      requires Inv(Snapshot()) && w in workers && workers[w].Running?
      modifies this
      ensures Snapshot() == Apply(old(Snapshot()), Finish(w)) && Inv(Snapshot())
      ensures workers == old(workers)[w := Looking] && finished == old(finished) + {old(workers)[w].task}
      ensures tasks == old(tasks)
    {
      StepKeepsInv(Snapshot(), Finish(w));
      finished := finished + {workers[w].task};
      workers := workers[w := Looking];
    }

    method SetStop()
      requires Inv(Snapshot()) && !stop
      modifies this
      ensures Snapshot() == Apply(old(Snapshot()), Stop) && Inv(Snapshot())
      ensures stop && tasks == old(tasks) && workers == old(workers)
    {
      StepKeepsInv(Snapshot(), Stop);
      stop := true;
    }

    method NotifyAllWorkers()
      requires Inv(Snapshot()) && stop && !notified
      modifies this
      ensures Snapshot() == Apply(old(Snapshot()), NotifyAll) && Inv(Snapshot())
      ensures workers.Keys == old(workers).Keys && tasks == old(tasks)
      ensures forall w :: w in workers ==>
                workers[w] == if old(workers)[w] == Sleeping then Looking else old(workers)[w]
    {
      StepKeepsInv(Snapshot(), NotifyAll);
      notified := true;
      workers := AllAwake(workers);
    }

    /** join returns for all workers exactly when they have all exited; with at least one worker every
        accepted task has then run. */
    method JoinAll() returns (joined: bool)
      requires Inv(Snapshot())
      ensures joined <==> forall w :: w in workers ==> workers[w] == Exited
      ensures joined && workers != map[] ==> forall t: Task :: t in finished <==> t < accepted
    {
      joined := forall w :: w in workers ==> workers[w] == Exited;
      if joined && workers != map[] {
        AllExitedMeansAllRun(Snapshot());
      }
    }
  }
}
