/**
  The thread pool as a state machine: workers, callers of Add and Stop interleave freely, and each critical
  section of the mutex is one step.  A state starts where Start has set mIsRunning; its threads are launched
  one by one.  Condition variables may wake up a worker for no reason.
*/
module ThreadPool {
  import opened Sums

  /** A std::function, possibly empty: an empty one is popped but not called. */
  datatype Task = Callable(id: nat) | EmptyTask

  /** Where a worker is: before its loop test, before the lock, in mCond.wait, or holding the task popped as number
      index. */
  datatype Worker = Unborn | LoopTest | BeforeLock | Waiting | Holding(index: nat) | Exited

  /** pushed, popped and ran are history: ran holds the numbers of the popped tasks that were called. */
  datatype Pool = Pool(
    running: bool,
    workers: seq<Worker>,
    adding: seq<Task>,
    queue: seq<Task>,
    pushed: seq<Task>,
    popped: seq<Task>,
    ran: seq<nat>)

  datatype Event =
    | Launch(w: nat)
    | TestLoop(w: nat)
    | Lock(w: nat)
    | SpuriousWake(w: nat)
    | RunTask(w: nat)
    | AddTests(task: Task)
    | AddPushes(caller: nat, woken: nat)
    | StopSection

  function Start(threads: nat): Pool {
    Pool(true, seq(threads, _ => Unborn), [], [], [], [], [])
  }

  predicate At(s: Pool, w: nat, x: Worker) {
    w < |s.workers| && s.workers[w] == x
  }

  predicate Enabled(s: Pool, e: Event) {
    match e
    case Launch(w) => At(s, w, Unborn)
    case TestLoop(w) => At(s, w, LoopTest)
    case Lock(w) => At(s, w, BeforeLock)
    case SpuriousWake(w) => At(s, w, Waiting)
    case RunTask(w) => w < |s.workers| && s.workers[w].Holding? && s.workers[w].index < |s.popped|
    case AddTests(_) => true
    case AddPushes(c, woken) => c < |s.adding| && (Waiting in s.workers ==> At(s, woken, Waiting))
    case StopSection => true
  }

  function Move(s: Pool, w: nat, x: Worker): Pool
    requires w < |s.workers|
  {
    s.(workers := s.workers[w := x])
  }

  /** notify_all. */
  function WakeAll(ws: seq<Worker>): (r: seq<Worker>)
    ensures |r| == |ws|
  {
    seq(|ws|, i requires 0 <= i < |ws| => if ws[i] == Waiting then LoopTest else ws[i])
  }

  function Step(s: Pool, e: Event): Pool
    requires Enabled(s, e)
  {
    match e
    case Launch(w) => Move(s, w, LoopTest)
    case TestLoop(w) => Move(s, w, if s.running then BeforeLock else Exited)
    case Lock(w) =>
      if s.queue != [] then
        Move(s, w, Holding(|s.popped|)).(queue := s.queue[1..], popped := s.popped + [s.queue[0]])
      else Move(s, w, if s.running then Waiting else LoopTest)
    case SpuriousWake(w) => Move(s, w, LoopTest)
    case RunTask(w) =>
      var k := s.workers[w].index;
      Move(s, w, LoopTest).(ran := if s.popped[k].Callable? then s.ran + [k] else s.ran)
    case AddTests(task) => if s.running then s.(adding := s.adding + [task]) else s
    case AddPushes(c, woken) =>
      var task := s.adding[c];
      var awoken := if Waiting in s.workers then Move(s, woken, LoopTest) else s;
      awoken.(adding := s.adding[..c] + s.adding[c + 1..], queue := s.queue + [task], pushed := s.pushed + [task])
    case StopSection => s.(running := false, workers := WakeAll(s.workers))
  }

  // ----- totals over the workers -----

  /** What is counted: workers holding a task, workers not waiting, steps to the exit after Stop, tasks popped after
      Stop. */
  datatype Measure = HoldersOf(index: nat) | Awake | StepsToExit | PopsToExit

  function Weight(m: Measure, w: Worker): nat {
    match m
    case HoldersOf(k) => if w == Holding(k) then 1 else 0
    case Awake => if w == Waiting then 0 else 1
    case StepsToExit =>
      (match w
       case Exited => 0
       case LoopTest => 1
       case Holding(_) => 2
       case Unborn => 2
       case Waiting => 2
       case BeforeLock => 3)
    case PopsToExit => if w == BeforeLock then 1 else 0
  }

  function Weights(m: Measure, ws: seq<Worker>): (r: seq<nat>)
    ensures |r| == |ws|
  {
    seq(|ws|, i requires 0 <= i < |ws| => Weight(m, ws[i]))
  }

  function Total(m: Measure, ws: seq<Worker>): nat {
    Sum(Weights(m, ws))
  }

  lemma TotalUpdate(m: Measure, ws: seq<Worker>, i: nat, w: Worker)
    requires i < |ws|
    ensures Total(m, ws[i := w]) + Weight(m, ws[i]) == Total(m, ws) + Weight(m, w)
  {
    SumUpdate(Weights(m, ws), i, Weight(m, w));
    assert Weights(m, ws[i := w]) == Weights(m, ws)[i := Weight(m, w)];
  }

  lemma TotalSame(m: Measure, ws: seq<Worker>, vs: seq<Worker>)
    requires |ws| == |vs| && forall i :: 0 <= i < |ws| ==> Weight(m, ws[i]) == Weight(m, vs[i])
    ensures Total(m, ws) == Total(m, vs)
  {
    assert Weights(m, ws) == Weights(m, vs);
  }

  lemma TotalZero(m: Measure, ws: seq<Worker>)
    requires forall i :: 0 <= i < |ws| ==> Weight(m, ws[i]) == 0
    ensures Total(m, ws) == 0
  {
    SumZero(Weights(m, ws));
  }

  lemma TotalAtLeast(m: Measure, ws: seq<Worker>, i: nat)
    requires i < |ws|
    ensures Weight(m, ws[i]) <= Total(m, ws)
  {
    SumAtLeast(Weights(m, ws), i);
  }

  lemma TotalBounded(m: Measure, ws: seq<Worker>, b: nat)
    requires forall i :: 0 <= i < |ws| ==> Weight(m, ws[i]) <= b
    ensures Total(m, ws) <= b * |ws|
  {
    SumBounded(Weights(m, ws), b);
  }

  lemma AllAwake(ws: seq<Worker>)
    requires Waiting !in ws
    ensures Total(Awake, ws) == |ws|
  {
    SumOfOnes(Weights(Awake, ws));
  }

  // ----- the invariant -----

  /** Each popped task is in one worker's hand or was called once. */
  predicate Accounted(ws: seq<Worker>, popped: seq<Task>, ran: seq<nat>, k: nat) {
    var times := Total(HoldersOf(k), ws) + multiset(ran)[k];
    && times <= 1
    && (k >= |popped| ==> times == 0)
    && (k < |popped| && popped[k].Callable? ==> times == 1)
    && (k < |popped| && popped[k] == EmptyTask ==> k !in ran)
  }

  /** While running, queued tasks are matched by workers that are awake, unless all are awake. */
  predicate NoWakeupLost(s: Pool) {
    s.running && Waiting in s.workers ==> |s.queue| <= Total(Awake, s.workers)
  }

  ghost predicate Invariant(s: Pool) {
    && s.popped + s.queue == s.pushed
    && NoWakeupLost(s)
    && (if s.running then Exited !in s.workers else Waiting !in s.workers)
    && (forall w :: 0 <= w < |s.workers| && s.workers[w].Holding? ==> s.workers[w].index < |s.popped|)
    && (forall k: nat :: Accounted(s.workers, s.popped, s.ran, k))
  }

  lemma StartInvariant(threads: nat)
    ensures Invariant(Start(threads))
  {
    forall k: nat
      ensures Accounted(Start(threads).workers, [], [], k)
    {
      TotalZero(HoldersOf(k), Start(threads).workers);
    }
  }

  /** A move that does not touch tasks in hands keeps them accounted for. */
  lemma SameHands(ws: seq<Worker>, w: nat, x: Worker, popped: seq<Task>, ran: seq<nat>, k: nat)
    requires w < |ws| && !ws[w].Holding? && !x.Holding? && Accounted(ws, popped, ran, k)
    ensures Accounted(ws[w := x], popped, ran, k)
  {
    TotalUpdate(HoldersOf(k), ws, w, x);
  }

  lemma PopAccounted(ws: seq<Worker>, w: nat, popped: seq<Task>, task: Task, ran: seq<nat>, k: nat)
    requires w < |ws| && ws[w] == BeforeLock && Accounted(ws, popped, ran, k)
    ensures Accounted(ws[w := Holding(|popped|)], popped + [task], ran, k)
  {
    TotalUpdate(HoldersOf(k), ws, w, Holding(|popped|));
  }

  lemma RunAccounted(ws: seq<Worker>, w: nat, popped: seq<Task>, ran: seq<nat>, k: nat)
    requires w < |ws| && ws[w].Holding? && ws[w].index < |popped| && Accounted(ws, popped, ran, k)
    ensures Accounted(ws[w := LoopTest], popped, if popped[ws[w].index].Callable? then ran + [ws[w].index] else ran, k)
  {
    TotalUpdate(HoldersOf(k), ws, w, LoopTest);
    TotalAtLeast(HoldersOf(k), ws, w);
    var i := ws[w].index;
    assert multiset(ran + [i])[k] == multiset(ran)[k] + if i == k then 1 else 0;
  }

  lemma WakeAllAccounted(ws: seq<Worker>, popped: seq<Task>, ran: seq<nat>, k: nat)
    requires Accounted(ws, popped, ran, k)
    ensures Accounted(WakeAll(ws), popped, ran, k)
  {
    TotalSame(HoldersOf(k), ws, WakeAll(ws));
  }

  lemma StepAccounted(s: Pool, e: Event, k: nat)
    requires Enabled(s, e) && Accounted(s.workers, s.popped, s.ran, k)
    ensures var t := Step(s, e); Accounted(t.workers, t.popped, t.ran, k)
  {
    match e
    case Launch(w) => SameHands(s.workers, w, LoopTest, s.popped, s.ran, k);
    case TestLoop(w) => SameHands(s.workers, w, if s.running then BeforeLock else Exited, s.popped, s.ran, k);
    case Lock(w) =>
      if s.queue != [] {
        PopAccounted(s.workers, w, s.popped, s.queue[0], s.ran, k);
      } else {
        SameHands(s.workers, w, if s.running then Waiting else LoopTest, s.popped, s.ran, k);
      }
    case SpuriousWake(w) => SameHands(s.workers, w, LoopTest, s.popped, s.ran, k);
    case RunTask(w) => RunAccounted(s.workers, w, s.popped, s.ran, k);
    case AddTests(_) =>
    case AddPushes(_, woken) =>
      if Waiting in s.workers {
        SameHands(s.workers, woken, LoopTest, s.popped, s.ran, k);
      }
    case StopSection => WakeAllAccounted(s.workers, s.popped, s.ran, k);
  }

  lemma MoveKeepsWakeups(s: Pool, w: nat, x: Worker)
    requires w < |s.workers| && NoWakeupLost(s) && x != Waiting
    ensures NoWakeupLost(Move(s, w, x))
  {
    TotalUpdate(Awake, s.workers, w, x);
  }

  lemma PushKeepsWakeups(s: Pool, c: nat, woken: nat)
    requires Enabled(s, AddPushes(c, woken)) && NoWakeupLost(s)
    ensures NoWakeupLost(Step(s, AddPushes(c, woken)))
  {
    if Waiting in s.workers {
      TotalUpdate(Awake, s.workers, woken, LoopTest);
    }
  }

  lemma StepKeepsWakeups(s: Pool, e: Event)
    requires Enabled(s, e) && NoWakeupLost(s)
    ensures NoWakeupLost(Step(s, e))
  {
    match e
    case Launch(w) => MoveKeepsWakeups(s, w, LoopTest);
    case TestLoop(w) => MoveKeepsWakeups(s, w, if s.running then BeforeLock else Exited);
    case Lock(w) =>
      if s.queue != [] {
        MoveKeepsWakeups(s, w, Holding(|s.popped|));
      }
    case SpuriousWake(w) => MoveKeepsWakeups(s, w, LoopTest);
    case RunTask(w) => MoveKeepsWakeups(s, w, LoopTest);
    case AddTests(_) =>
    case AddPushes(c, woken) => PushKeepsWakeups(s, c, woken);
    case StopSection =>
  }

  lemma StepKeepsOrder(s: Pool, e: Event)
    requires Enabled(s, e) && s.popped + s.queue == s.pushed
    ensures Step(s, e).popped + Step(s, e).queue == Step(s, e).pushed
  {
  }

  lemma StepKeepsInvariant(s: Pool, e: Event)
    requires Invariant(s) && Enabled(s, e)
    ensures Invariant(Step(s, e))
  {
    var t := Step(s, e);
    StepKeepsOrder(s, e);
    StepKeepsWakeups(s, e);
    forall k: nat
      ensures Accounted(t.workers, t.popped, t.ran, k)
    {
      StepAccounted(s, e, k);
    }
  }

  // ----- runs -----

  ghost predicate IsRun(s: Pool, es: seq<Event>, t: Pool)
    decreases |es|
  {
    if es == [] then s == t else Enabled(s, es[0]) && IsRun(Step(s, es[0]), es[1..], t)
  }

  lemma {:induction false} RunKeepsInvariant(s: Pool, es: seq<Event>, t: Pool)
    requires Invariant(s) && IsRun(s, es, t)
    ensures Invariant(t) && |t.workers| == |s.workers|
    decreases |es|
  {
    if es != [] {
      StepKeepsInvariant(s, es[0]);
      RunKeepsInvariant(Step(s, es[0]), es[1..], t);
    }
  }

  /** In every run tasks leave the queue in the order they were pushed, and each is called at most once. */
  lemma FirstInFirstOut(threads: nat, es: seq<Event>, t: Pool)
    requires IsRun(Start(threads), es, t)
    ensures t.popped <= t.pushed
    ensures forall k: nat :: multiset(t.ran)[k] <= 1
    ensures forall k: nat :: k in t.ran ==> k < |t.popped| && t.popped[k].Callable?
  {
    StartInvariant(threads);
    RunKeepsInvariant(Start(threads), es, t);
    forall k: nat
      ensures multiset(t.ran)[k] <= 1
      ensures k in t.ran ==> k < |t.popped| && t.popped[k].Callable?
    {
      assert Accounted(t.workers, t.popped, t.ran, k);
      assert k in t.ran <==> k in multiset(t.ran);
    }
  }

  // ----- the tasks handed to Add -----

  /** From the events: the tasks given to Add before Stop's critical section, in the order of the calls. */
  function Accepted(open: bool, es: seq<Event>): seq<Task> {
    if es == [] then []
    else if open && es[0].AddTests? then [es[0].task] + Accepted(open, es[1..])
    else Accepted(open && es[0] != StopSection, es[1..])
  }

  /** From the events: the tasks of the calls of Add in the order in which they took the lock. */
  function Arrivals(pending: seq<Task>, open: bool, es: seq<Event>): seq<Task>
    decreases |es|
  {
    if es == [] then []
    else
      match es[0]
      case AddTests(task) => Arrivals(if open then pending + [task] else pending, open, es[1..])
      case AddPushes(c, _) =>
        if c < |pending| then [pending[c]] + Arrivals(pending[..c] + pending[c + 1..], open, es[1..])
        else Arrivals(pending, open, es[1..])
      case StopSection => Arrivals(pending, false, es[1..])
      case _ => Arrivals(pending, open, es[1..])
  }

  lemma TakeOut<T>(s: seq<T>, c: nat)
    requires c < |s|
    ensures multiset(s) == multiset(s[..c] + s[c + 1..]) + multiset{s[c]}
  {
    assert s == s[..c] + [s[c]] + s[c + 1..];
  }

  /** Tasks are queued in the order in which their calls of Add took the lock. */
  lemma {:induction false} PushedInOrderOfArrival(s: Pool, es: seq<Event>, t: Pool)
    requires IsRun(s, es, t)
    ensures t.pushed == s.pushed + Arrivals(s.adding, s.running, es)
    decreases |es|
  {
    if es != [] {
      PushedInOrderOfArrival(Step(s, es[0]), es[1..], t);
    }
  }

  lemma AcceptedStep(s: Pool, es: seq<Event>)
    requires es != [] && Enabled(s, es[0])
    ensures var s1 := Step(s, es[0]);
            multiset(s1.pushed) + multiset(s1.adding) + multiset(Accepted(s1.running, es[1..]))
            == multiset(s.pushed) + multiset(s.adding) + multiset(Accepted(s.running, es))
  {
    if es[0].AddPushes? {
      TakeOut(s.adding, es[0].caller);
    }
    if s.running && es[0].AddTests? {
      assert multiset(Accepted(true, es)) == multiset{es[0].task} + multiset(Accepted(true, es[1..]));
    }
  }

  /** Every task given to Add in time is queued once or still on its way to the lock, and no other one is. */
  lemma {:induction false} AcceptedTasksArrive(s: Pool, es: seq<Event>, t: Pool)
    requires IsRun(s, es, t)
    ensures multiset(t.pushed) + multiset(t.adding)
            == multiset(s.pushed) + multiset(s.adding) + multiset(Accepted(s.running, es))
    decreases |es|
  {
    if es != [] {
      AcceptedTasksArrive(Step(s, es[0]), es[1..], t);
      AcceptedStep(s, es);
    }
  }

  /** The tasks called, in order. */
  function Calls(popped: seq<Task>, ran: seq<nat>): seq<Task>
    requires forall i :: 0 <= i < |ran| ==> ran[i] < |popped|
  {
    seq(|ran|, i requires 0 <= i < |ran| => popped[ran[i]])
  }

  predicate AllDifferent(s: seq<nat>) {
    forall i, j :: 0 <= i < j < |s| ==> s[i] != s[j]
  }

  lemma OnceMeansDifferent(s: seq<nat>)
    requires forall k: nat :: multiset(s)[k] <= 1
    ensures AllDifferent(s)
  {
    forall i, j | 0 <= i < j < |s|
      ensures s[i] != s[j]
    {
      TakeOut(s, j);
      assert (s[..j] + s[j + 1..])[i] == s[i];
      assert multiset(s)[s[j]] == multiset(s[..j] + s[j + 1..])[s[j]] + 1;
    }
  }

  /** Different places of a sequence hold no more than the sequence does. */
  lemma {:induction false} DifferentPlaces(popped: seq<Task>, ran: seq<nat>)
    requires (forall i :: 0 <= i < |ran| ==> ran[i] < |popped|) && AllDifferent(ran)
    ensures multiset(Calls(popped, ran)) <= multiset(popped)
    decreases |popped|
  {
    if ran != [] {
      assert ran[0] < |popped|;
      var n := |popped| - 1;
      assert popped == popped[..n] + [popped[n]];
      if n in ran {
        var i :| 0 <= i < |ran| && ran[i] == n;
        var rest := ran[..i] + ran[i + 1..];
        assert forall j :: 0 <= j < |rest| ==> rest[j] == ran[if j < i then j else j + 1];
        DifferentPlaces(popped[..n], rest);
        OneCallLess(popped, ran, i);
      } else {
        DifferentPlaces(popped[..n], ran);
        assert Calls(popped, ran) == Calls(popped[..n], ran);
      }
    }
  }

  lemma OneCallLess(popped: seq<Task>, ran: seq<nat>, i: nat)
    requires i < |ran| && (forall j :: 0 <= j < |ran| ==> ran[j] < |popped|) && ran[i] == |popped| - 1
    requires AllDifferent(ran)
    ensures var rest, shorter := ran[..i] + ran[i + 1..], popped[..|popped| - 1];
            && (forall j :: 0 <= j < |rest| ==> rest[j] < |shorter|)
            && multiset(Calls(popped, ran)) == multiset(Calls(shorter, rest)) + multiset{popped[|popped| - 1]}
  {
    var rest, shorter := ran[..i] + ran[i + 1..], popped[..|popped| - 1];
    assert forall j :: 0 <= j < |rest| ==> rest[j] == ran[if j < i then j else j + 1] && rest[j] < |shorter|;
    var calls := Calls(popped, ran);
    TakeOut(calls, i);
    assert calls[..i] + calls[i + 1..] == Calls(shorter, rest);
  }

  /** In every run each task is called at most as often as it was given to Add before Stop's critical section. */
  lemma CalledAsGiven(threads: nat, es: seq<Event>, t: Pool)
    requires IsRun(Start(threads), es, t)
    ensures forall i :: 0 <= i < |t.ran| ==> t.ran[i] < |t.popped|
    ensures multiset(Calls(t.popped, t.ran)) <= multiset(Accepted(true, es))
  {
    FirstInFirstOut(threads, es, t);
    assert forall i :: 0 <= i < |t.ran| ==> t.ran[i] in t.ran;
    OnceMeansDifferent(t.ran);
    DifferentPlaces(t.popped, t.ran);
    PrefixHolds(t.popped, t.pushed);
    ArrivedFromStart(threads, es, t);
  }

  lemma ArrivedFromStart(threads: nat, es: seq<Event>, t: Pool)
    requires IsRun(Start(threads), es, t)
    ensures multiset(t.pushed) <= multiset(Accepted(true, es))
  {
    AcceptedTasksArrive(Start(threads), es, t);
    var both, given := multiset(t.pushed) + multiset(t.adding), multiset(Accepted(true, es));
    assert both == given;
    forall x
      ensures multiset(t.pushed)[x] <= given[x]
    {
      assert both[x] == multiset(t.pushed)[x] + multiset(t.adding)[x];
    }
  }

  lemma PrefixHolds<T>(a: seq<T>, b: seq<T>)
    requires a <= b
    ensures multiset(a) <= multiset(b)
  {
    assert b == a + b[|a|..];
  }

  /** While running, as many workers are awake as tasks are queued, or all are, and none has left: no wakeup is lost. */
  lemma QueuedTaskHasWorker(threads: nat, es: seq<Event>, t: Pool)
    requires IsRun(Start(threads), es, t) && t.running
    ensures Total(Awake, t.workers) >= if |t.queue| <= threads then |t.queue| else threads
    ensures Exited !in t.workers
    ensures t.queue != [] && threads > 0 ==> exists w :: 0 <= w < |t.workers| && t.workers[w] != Waiting
  {
    StartInvariant(threads);
    RunKeepsInvariant(Start(threads), es, t);
    if Waiting !in t.workers {
      AllAwake(t.workers);
    }
    if forall w :: 0 <= w < |t.workers| ==> t.workers[w] == Waiting {
      TotalZero(Awake, t.workers);
    }
  }

  /** After the critical section of Stop nobody waits, in any continuation. */
  lemma NobodyWaitsAfterStop(threads: nat, es: seq<Event>, t: Pool)
    requires IsRun(Start(threads), es, t) && !t.running
    ensures Waiting !in t.workers
  {
    StartInvariant(threads);
    RunKeepsInvariant(Start(threads), es, t);
  }

  // ----- Stop returns -----

  predicate OfWorker(e: Event) {
    e.Launch? || e.TestLoop? || e.Lock? || e.SpuriousWake? || e.RunTask?
  }

  /** A worker that has not left can take its next step, whatever the others do. */
  lemma WorkerCanMove(s: Pool, w: nat) returns (e: Event)
    requires Invariant(s) && !s.running && w < |s.workers| && s.workers[w] != Exited
    ensures Enabled(s, e) && OfWorker(e) && e.w == w
  {
    assert s.workers[w] in s.workers;
    match s.workers[w]
    case Unborn => e := Launch(w);
    case LoopTest => e := TestLoop(w);
    case BeforeLock => e := Lock(w);
    case Holding(_) => e := RunTask(w);
  }

  lemma StepAfterStop(s: Pool, e: Event)
    requires Invariant(s) && !s.running && Enabled(s, e)
    ensures var t := Step(s, e);
            && !t.running
            && Total(StepsToExit, t.workers) + (if OfWorker(e) then 1 else 0) <= Total(StepsToExit, s.workers)
            && |t.popped| + Total(PopsToExit, t.workers) <= |s.popped| + Total(PopsToExit, s.workers)
  {
    if OfWorker(e) {
      TotalUpdate(StepsToExit, s.workers, e.w, Step(s, e).workers[e.w]);
      TotalUpdate(PopsToExit, s.workers, e.w, Step(s, e).workers[e.w]);
    } else if e.StopSection? {
      TotalSame(StepsToExit, s.workers, WakeAll(s.workers));
      TotalSame(PopsToExit, s.workers, WakeAll(s.workers));
    }
  }

  function WorkerSteps(es: seq<Event>): nat {
    if es == [] then 0 else (if OfWorker(es[0]) then 1 else 0) + WorkerSteps(es[1..])
  }

  lemma {:induction false} AfterStop(s: Pool, es: seq<Event>, t: Pool)
    requires Invariant(s) && !s.running && IsRun(s, es, t)
    ensures Total(StepsToExit, t.workers) + WorkerSteps(es) <= Total(StepsToExit, s.workers)
    ensures |t.popped| + Total(PopsToExit, t.workers) <= |s.popped| + Total(PopsToExit, s.workers)
    decreases |es|
  {
    if es != [] {
      StepKeepsInvariant(s, es[0]);
      StepAfterStop(s, es[0]);
      AfterStop(Step(s, es[0]), es[1..], t);
    }
  }

  /** After Stop's critical section the workers take at most three steps each and pop at most one task each. */
  lemma StopReturns(s: Pool, es: seq<Event>, t: Pool)
    requires Invariant(s) && !s.running && IsRun(s, es, t)
    ensures WorkerSteps(es) <= 3 * |s.workers|
    ensures |t.popped| <= |s.popped| + |s.workers|
  {
    AfterStop(s, es, t);
    TotalBounded(StepsToExit, s.workers, 3);
    TotalBounded(PopsToExit, s.workers, 1);
  }

  /** When Stop has joined all workers, the callable tasks that were run are exactly those popped; the queue is
      dropped. */
  lemma JoinedPool(threads: nat, es: seq<Event>, t: Pool, k: nat)
    requires IsRun(Start(threads), es, t) && (forall w :: 0 <= w < |t.workers| ==> t.workers[w] == Exited)
    requires k < |t.pushed| && t.pushed[k].Callable?
    ensures multiset(t.ran)[k] == if k < |t.popped| then 1 else 0
    ensures t.pushed == t.popped + t.queue
  {
    StartInvariant(threads);
    RunKeepsInvariant(Start(threads), es, t);
    TotalZero(HoldersOf(k), t.workers);
    assert Accounted(t.workers, t.popped, t.ran, k);
  }

  // ----- which tasks Stop drops -----

  function Min(x: nat, y: nat): nat {
    if x <= y then x else y
  }

  /** The tasks popped so far and those that workers already past their loop test will still pop. */
  function PoppedInTheEnd(s: Pool): nat {
    |s.popped| + Min(|s.queue|, Total(PopsToExit, s.workers))
  }

  /** After Stop's critical section that number changes only when an Add in flight arrives, and does not fall then. */
  lemma StepPopsInTheEnd(s: Pool, e: Event)
    requires Invariant(s) && !s.running && Enabled(s, e)
    ensures var t := Step(s, e);
            && PoppedInTheEnd(s) <= PoppedInTheEnd(t)
            && (!e.AddPushes? ==> PoppedInTheEnd(t) == PoppedInTheEnd(s) && t.pushed == s.pushed)
            && (s.adding == [] ==> t.adding == [])
  {
    if OfWorker(e) {
      TotalUpdate(PopsToExit, s.workers, e.w, Step(s, e).workers[e.w]);
      TotalAtLeast(PopsToExit, s.workers, e.w);
    } else if e.StopSection? {
      TotalSame(PopsToExit, s.workers, WakeAll(s.workers));
    }
  }

  lemma {:induction false} RunPopsInTheEnd(s: Pool, es: seq<Event>, t: Pool)
    requires Invariant(s) && !s.running && IsRun(s, es, t)
    ensures PoppedInTheEnd(s) <= PoppedInTheEnd(t)
    ensures s.adding == [] ==> PoppedInTheEnd(t) == PoppedInTheEnd(s) && t.pushed == s.pushed
    decreases |es|
  {
    if es != [] {
      StepKeepsInvariant(s, es[0]);
      StepPopsInTheEnd(s, es[0]);
      StepAfterStop(s, es[0]);
      RunPopsInTheEnd(Step(s, es[0]), es[1..], t);
    }
  }

  lemma StopFinds(s: Pool)
    requires Invariant(s)
    ensures var t := Step(s, StopSection); Invariant(t) && !t.running && PoppedInTheEnd(t) == PoppedInTheEnd(s)
    ensures Total(PopsToExit, Step(s, StopSection).workers) == Total(PopsToExit, s.workers)
  {
    StepKeepsInvariant(s, StopSection);
    TotalSame(PopsToExit, s.workers, WakeAll(s.workers));
  }

  /**
    Which tasks run, from the state s that Stop finds when it takes the lock: with no Add in flight, exactly those
    already popped and as many queued ones as there are workers between their loop test and the lock; the others
    are dropped.  An Add in flight can only raise that number, and never beyond one task per such worker.
  */
  lemma TasksThatRun(threads: nat, es: seq<Event>, s: Pool, rest: seq<Event>, t: Pool, k: nat)
    requires IsRun(Start(threads), es, s) && IsRun(Step(s, StopSection), rest, t)
    requires forall w :: 0 <= w < |t.workers| ==> t.workers[w] == Exited
    requires k < |t.pushed| && t.pushed[k].Callable?
    ensures s.adding == [] ==> t.pushed == s.pushed && (k in t.ran <==> k < PoppedInTheEnd(s))
    ensures k < PoppedInTheEnd(s) ==> k in t.ran
    ensures k in t.ran ==> k < |s.popped| + Total(PopsToExit, s.workers)
  {
    StartInvariant(threads);
    RunKeepsInvariant(Start(threads), es, s);
    StopFinds(s);
    var stopped := Step(s, StopSection);
    RunKeepsInvariant(stopped, rest, t);
    RunPopsInTheEnd(stopped, rest, t);
    AfterStop(stopped, rest, t);
    TotalZero(PopsToExit, t.workers);
    RanIfPopped(t, k);
  }

  lemma RanIfPopped(t: Pool, k: nat)
    requires Invariant(t) && forall w :: 0 <= w < |t.workers| ==> t.workers[w] == Exited
    requires k < |t.pushed| && t.pushed[k].Callable?
    ensures k in t.ran <==> k < |t.popped|
  {
    TotalZero(HoldersOf(k), t.workers);
    assert Accounted(t.workers, t.popped, t.ran, k);
    assert k in t.ran <==> k in multiset(t.ran);
  }

  /** Stop drops no task if and only if enough workers are on their way to the lock. */
  lemma NothingDropped(threads: nat, es: seq<Event>, s: Pool, rest: seq<Event>, t: Pool)
    requires IsRun(Start(threads), es, s) && s.adding == [] && IsRun(Step(s, StopSection), rest, t)
    requires forall w :: 0 <= w < |t.workers| ==> t.workers[w] == Exited
    ensures t.queue == [] <==> |s.queue| <= Total(PopsToExit, s.workers)
  {
    StartInvariant(threads);
    RunKeepsInvariant(Start(threads), es, s);
    StopFinds(s);
    RunKeepsInvariant(Step(s, StopSection), rest, t);
    RunPopsInTheEnd(Step(s, StopSection), rest, t);
    TotalZero(PopsToExit, t.workers);
    assert |t.pushed| == |t.popped| + |t.queue| && |s.pushed| == |s.popped| + |s.queue|;
  }

  /** A task accepted before Stop can be dropped, even with an idle worker: Add and Stop both win the lock before it
      does. */
  lemma AcceptedTaskCanBeDropped(task: Task) returns (es: seq<Event>, t: Pool)
    ensures IsRun(Start(1), es, t) && t.workers == [Exited] && t.queue == [task] && t.ran == []
  {
    var s0 := Start(1);
    var s1 := Step(s0, Launch(0));
    var s2 := Step(s1, AddTests(task));
    var s3 := Step(s2, AddPushes(0, 0));
    var s4 := Step(s3, StopSection);
    t := Step(s4, TestLoop(0));
    var e5 := [TestLoop(0)];
    assert IsRun(s4, e5, t) by { assert e5[1..] == []; }
    var e4 := [StopSection] + e5;
    assert IsRun(s3, e4, t) by { assert e4[1..] == e5; }
    var e3 := [AddPushes(0, 0)] + e4;
    assert IsRun(s2, e3, t) by { assert e3[1..] == e4; }
    var e2 := [AddTests(task)] + e3;
    assert IsRun(s1, e2, t) by { assert e2[1..] == e3; }
    es := [Launch(0)] + e2;
    assert es[1..] == e2;
  }
}
