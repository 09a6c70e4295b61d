/**
  Stopping and restarting a C++ collection pipeline while processor threads work on its items.

  A processor thread pops an item under the queue lock, which counts it on the pipeline the map then
  holds; it looks the pipeline up again, processes and sends the item, and subtracts it from the count of
  the pipeline it found.  Stop disables popping, waits until the counter reads zero, flushes the batches
  and stops the flushers; then the manager installs a new pipeline or removes the entry.  The counter is a
  16-bit integer.  The steps of the threads and of the manager interleave freely; pipelines of one config
  name are numbered in the order they are installed.
*/
module PipelineStop {
  import opened Sums

  datatype Worker =
    | Idle
    | Popped(counted: nat)
    | Processing(counted: nat, pipeline: nat)
    | Finishing(counted: nat, pipeline: nat)

  datatype Phase = Absent | Serving | PopDisabled | Drained | Flushed | FlushersStopped | Installed | FlushersStarted

  datatype State = State(workers: seq<Worker>, counters: seq<int>, phase: Phase)

  datatype Event =
    | Pop(w: nat)
    | Find(w: nat)
    | CheckCount(w: nat)
    | Subtract(w: nat)
    | DisablePop
    | SeeZero
    | FlushBatch
    | StopFlushers
    | Install
    | Remove
    | StartFlushers
    | EnablePop

  /** std::atomic_int16_t arithmetic. */
  function Int16(x: int): int {
    (x + 32768) % 65536 - 32768
  }

  function Start(threads: nat): State {
    State(seq(threads, _ => Idle), [], Absent)
  }

  predicate Enabled(s: State, e: Event) {
    match e
    case Pop(w) => w < |s.workers| && s.workers[w] == Idle && s.phase == Serving && s.counters != []
    case Find(w) => w < |s.workers| && s.workers[w].Popped? && (s.phase != Absent ==> s.counters != [])
    case CheckCount(w) => w < |s.workers| && s.workers[w].Processing? && s.workers[w].pipeline < |s.counters|
    case Subtract(w) => w < |s.workers| && s.workers[w].Finishing? && s.workers[w].pipeline < |s.counters|
    case DisablePop => s.phase == Serving
    case SeeZero => s.phase == PopDisabled && s.counters != [] && s.counters[|s.counters| - 1] == 0
    case FlushBatch => s.phase == Drained
    case StopFlushers => s.phase == Flushed
    case Install => s.phase == FlushersStopped || s.phase == Absent
    case Remove => s.phase == FlushersStopped
    case StartFlushers => s.phase == Installed
    case EnablePop => s.phase == FlushersStarted
  }

  function Step(s: State, e: Event): State
    requires Enabled(s, e)
  {
    match e
    case Pop(w) =>
      var p := |s.counters| - 1;
      s.(workers := s.workers[w := Popped(p)], counters := s.counters[p := Int16(s.counters[p] + 1)])
    case Find(w) =>
      // a thread that finds no pipeline drops the item without subtracting it
      if s.phase == Absent then s.(workers := s.workers[w := Idle])
      else s.(workers := s.workers[w := Processing(s.workers[w].counted, |s.counters| - 1)])
    case CheckCount(w) =>
      var x := s.workers[w];
      // SubInProcessCnt gives up when it reads zero
      if s.counters[x.pipeline] == 0 then s.(workers := s.workers[w := Idle])
      else s.(workers := s.workers[w := Finishing(x.counted, x.pipeline)])
    case Subtract(w) =>
      var p := s.workers[w].pipeline;
      s.(workers := s.workers[w := Idle], counters := s.counters[p := Int16(s.counters[p] - 1)])
    case DisablePop => s.(phase := PopDisabled)
    case SeeZero => s.(phase := Drained)
    case FlushBatch => s.(phase := Flushed)
    case StopFlushers => s.(phase := FlushersStopped)
    case Install => s.(counters := s.counters + [0], phase := Installed)
    case Remove => s.(phase := Absent)
    case StartFlushers => s.(phase := FlushersStarted)
    case EnablePop => s.(phase := Serving)
  }

  function Weight(w: Worker, p: nat): nat {
    if w != Idle && w.counted == p then 1 else 0
  }

  function Weights(ws: seq<Worker>, p: nat): (r: seq<nat>)
    ensures |r| == |ws|
  {
    seq(|ws|, i requires 0 <= i < |ws| => Weight(ws[i], p))
  }

  /** Items counted on a pipeline and not yet subtracted. */
  function Unfinished(ws: seq<Worker>, p: nat): nat {
    Sum(Weights(ws, p))
  }

  lemma UnfinishedUpdate(ws: seq<Worker>, i: nat, w: Worker, p: nat)
    requires i < |ws|
    ensures Unfinished(ws[i := w], p) + Weight(ws[i], p) == Unfinished(ws, p) + Weight(w, p)
  {
    SumUpdate(Weights(ws, p), i, Weight(w, p));
    assert Weights(ws[i := w], p) == Weights(ws, p)[i := Weight(w, p)];
  }

  lemma UnfinishedBound(ws: seq<Worker>, p: nat)
    ensures Unfinished(ws, p) <= |ws|
  {
    SumBounded(Weights(ws, p), 1);
  }

  lemma UnfinishedPositive(ws: seq<Worker>, i: nat, p: nat)
    requires i < |ws| && ws[i] != Idle && ws[i].counted == p
    ensures Unfinished(ws, p) > 0
  {
    SumAtLeast(Weights(ws, p), i);
  }

  lemma UnfinishedNone(ws: seq<Worker>, p: nat)
    requires forall i :: 0 <= i < |ws| ==> ws[i] == Idle || ws[i].counted != p
    ensures Unfinished(ws, p) == 0
  {
    SumZero(Weights(ws, p));
  }

  predicate AllIdle(s: State) {
    forall i :: 0 <= i < |s.workers| ==> s.workers[i] == Idle
  }

  /** A busy thread works for the current pipeline, which counted its item, and Stop has not got past waiting. */
  predicate WorkerSound(s: State, w: Worker) {
    w != Idle ==>
      && s.counters != [] && w.counted == |s.counters| - 1
      && (s.phase == Serving || s.phase == PopDisabled)
      && (w.Processing? || w.Finishing? ==> w.pipeline == w.counted)
  }

  predicate Inv(s: State) {
    && |s.workers| < 65536
    && (forall p :: 0 <= p < |s.counters| ==> s.counters[p] == Int16(Unfinished(s.workers, p)))
    && (forall i :: 0 <= i < |s.workers| ==> WorkerSound(s, s.workers[i]))
    && (s.phase != Absent ==> s.counters != [])
  }

  lemma Int16Sum(x: int, d: int)
    ensures Int16(Int16(x) + d) == Int16(x + d)
  {
  }

  /** Below 65536 threads the 16-bit counter reads zero only when nothing is unfinished. */
  lemma ZeroMeansNone(s: State, p: nat)
    requires Inv(s) && p < |s.counters|
    ensures s.counters[p] == 0 <==> Unfinished(s.workers, p) == 0
  {
    UnfinishedBound(s.workers, p);
  }

  lemma WorkerStepKeepsInv(s: State, e: Event)
    requires Inv(s) && Enabled(s, e) && (e.Pop? || e.Find? || e.CheckCount? || e.Subtract?)
    ensures Inv(Step(s, e))
  {
    var s' := Step(s, e);
    assert WorkerSound(s, s.workers[e.w]);
    if e.CheckCount? {
      UnfinishedPositive(s.workers, e.w, s.workers[e.w].counted);
      ZeroMeansNone(s, s.workers[e.w].pipeline);
    }
    forall p | 0 <= p < |s'.counters|
      ensures s'.counters[p] == Int16(Unfinished(s'.workers, p))
    {
      UnfinishedUpdate(s.workers, e.w, s'.workers[e.w], p);
      Int16Sum(Unfinished(s.workers, p), 1);
      Int16Sum(Unfinished(s.workers, p), -1);
    }
    forall i | 0 <= i < |s'.workers|
      ensures WorkerSound(s', s'.workers[i])
    {
      assert WorkerSound(s, s.workers[i]);
    }
  }

  lemma BusyIsUnfinished(s: State)
    requires Inv(s) && s.counters != [] && s.counters[|s.counters| - 1] == 0
    ensures AllIdle(s)
  {
    forall i | 0 <= i < |s.workers|
      ensures s.workers[i] == Idle
    {
      assert WorkerSound(s, s.workers[i]);
      if s.workers[i] != Idle {
        UnfinishedPositive(s.workers, i, |s.counters| - 1);
        ZeroMeansNone(s, |s.counters| - 1);
      }
    }
  }

  lemma ManagerStepKeepsInv(s: State, e: Event)
    requires Inv(s) && Enabled(s, e) && !(e.Pop? || e.Find? || e.CheckCount? || e.Subtract?)
    ensures Inv(Step(s, e))
  {
    var s' := Step(s, e);
    if e == SeeZero {
      BusyIsUnfinished(s);
    }
    forall i | 0 <= i < |s'.workers|
      ensures WorkerSound(s', s'.workers[i])
    {
      assert WorkerSound(s, s.workers[i]);
    }
    forall p | 0 <= p < |s'.counters|
      ensures s'.counters[p] == Int16(Unfinished(s'.workers, p))
    {
      if p == |s.counters| {
        UnfinishedNone(s.workers, p);
      }
    }
  }

  lemma StepKeepsInv(s: State, e: Event)
    requires Inv(s) && Enabled(s, e)
    ensures Inv(Step(s, e))
  {
    if e.Pop? || e.Find? || e.CheckCount? || e.Subtract? {
      WorkerStepKeepsInv(s, e);
    } else {
      ManagerStepKeepsInv(s, e);
    }
  }

  predicate CanRun(s: State, es: seq<Event>)
    decreases |es|
  {
    es == [] || (Enabled(s, es[0]) && CanRun(Step(s, es[0]), es[1..]))
  }

  function After(s: State, es: seq<Event>): State
    requires CanRun(s, es)
    decreases |es|
  {
    if es == [] then s else After(Step(s, es[0]), es[1..])
  }

  lemma {:induction false} RunKeepsInv(s: State, es: seq<Event>)
    requires Inv(s) && CanRun(s, es)
    ensures Inv(After(s, es))
    decreases |es|
  {
    if es != [] {
      StepKeepsInv(s, es[0]);
      RunKeepsInv(Step(s, es[0]), es[1..]);
    }
  }

  lemma StartInv(threads: nat)
    requires threads < 65536
    ensures Inv(Start(threads))
  {
  }

  /** What Stop promises in a state: batches are flushed and flushers stopped only when no popped item is
      unfinished; no thread finds a pipeline other than the one that counted its item, or a zero count. */
  predicate StopIsSafe(s: State) {
    && (Enabled(s, FlushBatch) || Enabled(s, StopFlushers) || Enabled(s, Install) || Enabled(s, Remove) ==> AllIdle(s))
    && (forall i :: 0 <= i < |s.workers| && (s.workers[i].Processing? || s.workers[i].Finishing?) ==>
          && s.workers[i].pipeline == s.workers[i].counted < |s.counters|
          && s.counters[s.workers[i].pipeline] != 0)
  }

  lemma InvIsSafe(s: State)
    requires Inv(s)
    ensures StopIsSafe(s)
  {
    forall i | 0 <= i < |s.workers|
      ensures WorkerSound(s, s.workers[i])
      ensures s.workers[i].Processing? || s.workers[i].Finishing? ==> s.counters[s.workers[i].pipeline] != 0
    {
      assert WorkerSound(s, s.workers[i]);
      if s.workers[i].Processing? || s.workers[i].Finishing? {
        UnfinishedPositive(s.workers, i, s.workers[i].counted);
        ZeroMeansNone(s, s.workers[i].counted);
      }
    }
  }

  /** In every interleaving, with fewer than 65536 processor threads, the counter is the number of unfinished
      items and Stop is safe. */
  lemma StopSafeInEveryRun(threads: nat, es: seq<Event>)
    requires threads < 65536 && CanRun(Start(threads), es)
    ensures var s := After(Start(threads), es);
            && StopIsSafe(s)
            && (forall p :: 0 <= p < |s.counters| ==>
                  s.counters[p] == Int16(Unfinished(s.workers, p))
                      && (s.counters[p] == 0 <==> Unfinished(s.workers, p) == 0))
  {
    StartInv(threads);
    RunKeepsInv(Start(threads), es);
    var s := After(Start(threads), es);
    InvIsSafe(s);
    forall p | 0 <= p < |s.counters|
      ensures s.counters[p] == 0 <==> Unfinished(s.workers, p) == 0
    {
      ZeroMeansNone(s, p);
    }
  }

  // ----- the order of the manager's steps -----

  predicate OfManager(e: Event) {
    !(e.Pop? || e.Find? || e.CheckCount? || e.Subtract?)
  }

  /** What the manager does after what. */
  predicate Follows(a: Event, b: Event) {
    match b
    case Install => a == StopFlushers || a == Remove
    case StartFlushers => a == Install
    case EnablePop => a == StartFlushers
    case DisablePop => a == EnablePop
    case SeeZero => a == DisablePop
    case FlushBatch => a == SeeZero
    case StopFlushers => a == FlushBatch
    case Remove => a == StopFlushers
    case _ => false
  }

  /** From its last step on the manager keeps its order, and items are popped only between enabling and disabling. */
  predicate InOrder(last: Event, es: seq<Event>)
    decreases |es|
  {
    es == []
    || (if OfManager(es[0]) then Follows(last, es[0]) && InOrder(es[0], es[1..])
        else (es[0].Pop? ==> last == EnablePop) && InOrder(last, es[1..]))
  }

  function PhaseAfter(last: Event): Phase {
    match last
    case DisablePop => PopDisabled
    case SeeZero => Drained
    case FlushBatch => Flushed
    case StopFlushers => FlushersStopped
    case Install => Installed
    case StartFlushers => FlushersStarted
    case EnablePop => Serving
    case _ => Absent
  }

  lemma {:induction false} RunInOrder(s: State, es: seq<Event>, last: Event)
    requires CanRun(s, es) && OfManager(last) && s.phase == PhaseAfter(last)
    ensures InOrder(last, es)
    decreases |es|
  {
    if es != [] {
      RunInOrder(Step(s, es[0]), es[1..], if OfManager(es[0]) then es[0] else last);
    }
  }

  /** In every run the manager flushes and stops the flushers of a pipeline after it has disabled popping and seen no
      item in process, and only then installs the next one, which it opens last. */
  lemma ManagerInOrder(threads: nat, es: seq<Event>)
    requires CanRun(Start(threads), es)
    ensures InOrder(Remove, es)
  {
    RunInOrder(Start(threads), es, Remove);
  }

  // ----- the bound on the number of threads is needed -----

  /** The first k threads each hold an item counted on the only pipeline. */
  function Crowd(threads: nat, k: nat): State {
    State(seq(threads, i => if i < k then Popped(0) else Idle), [Int16(k)], Serving)
  }

  lemma {:induction false} CrowdGrows(threads: nat, k: nat, n: nat) returns (es: seq<Event>)
    requires k <= n <= threads
    ensures CanRun(Crowd(threads, k), es) && After(Crowd(threads, k), es) == Crowd(threads, n)
    decreases n - k
  {
    if k == n {
      es := [];
    } else {
      var rest := CrowdGrows(threads, k + 1, n);
      es := [Pop(k)] + rest;
      Int16Sum(k, 1);
      assert Step(Crowd(threads, k), Pop(k)) == Crowd(threads, k + 1);
      assert es[1..] == rest;
    }
  }

  lemma {:induction false} Concat(s: State, xs: seq<Event>, ys: seq<Event>)
    requires CanRun(s, xs) && CanRun(After(s, xs), ys)
    ensures CanRun(s, xs + ys) && After(s, xs + ys) == After(After(s, xs), ys)
    decreases |xs|
  {
    if xs == [] {
      assert xs + ys == ys;
    } else {
      Concat(Step(s, xs[0]), xs[1..], ys);
      assert (xs + ys)[1..] == xs[1..] + ys;
    }
  }

  lemma Run2(s: State, a: Event, b: Event)
    requires Enabled(s, a) && Enabled(Step(s, a), b)
    ensures CanRun(s, [a, b]) && After(s, [a, b]) == Step(Step(s, a), b)
  {
    assert [a, b][1..] == [b] && [b][1..] == [];
    assert After(Step(s, a), [b]) == After(Step(Step(s, a), b), []);
  }

  lemma Prelude(threads: nat) returns (es: seq<Event>)
    requires threads >= 65536
    ensures CanRun(Start(threads), es) && After(Start(threads), es) == Crowd(threads, 0)
  {
    var s0 := Start(threads);
    Run2(s0, Install, StartFlushers);
    var s1 := Step(Step(s0, Install), StartFlushers);
    assert [EnablePop][1..] == [];
    assert CanRun(s1, [EnablePop]) && After(s1, [EnablePop]) == Step(s1, EnablePop);
    Concat(s0, [Install, StartFlushers], [EnablePop]);
    es := [Install, StartFlushers] + [EnablePop];
    assert Step(s1, EnablePop) == Crowd(threads, 0);
  }

  /** With 65536 threads the counter can wrap to zero while 65536 items are unfinished, and Stop goes on to flush. */
  lemma EnoughThreadsBreakStop(threads: nat) returns (es: seq<Event>)
    requires threads >= 65536
    ensures CanRun(Start(threads), es) && !StopIsSafe(After(Start(threads), es))
    ensures After(Start(threads), es).phase == Drained
            && After(Start(threads), es) == Crowd(threads, 65536).(phase := Drained)
  {
    var s0 := Start(threads);
    var first := Prelude(threads);
    var pops := CrowdGrows(threads, 0, 65536);
    Concat(s0, first, pops);
    var full := Crowd(threads, 65536);
    Run2(full, DisablePop, SeeZero);
    Concat(s0, first + pops, [DisablePop, SeeZero]);
    es := first + pops + [DisablePop, SeeZero];
    assert After(s0, es).workers[0] == Popped(0);
  }

  // ----- Stop comes to an end -----

  function StepsOf(w: Worker): nat {
    match w
    case Idle => 0
    case Popped(_) => 3
    case Processing(_, _) => 2
    case Finishing(_, _) => 1
  }

  function StepsOfEach(ws: seq<Worker>): (r: seq<nat>)
    ensures |r| == |ws|
  {
    seq(|ws|, i requires 0 <= i < |ws| => StepsOf(ws[i]))
  }

  function StepsLeft(ws: seq<Worker>): nat {
    Sum(StepsOfEach(ws))
  }

  lemma StepsLeftFalls(ws: seq<Worker>, i: nat, w: Worker)
    requires i < |ws| && StepsOf(w) < StepsOf(ws[i])
    ensures StepsLeft(ws[i := w]) < StepsLeft(ws)
  {
    SumUpdate(StepsOfEach(ws), i, StepsOf(w));
    assert StepsOfEach(ws[i := w]) == StepsOfEach(ws)[i := StepsOf(w)];
  }

  /** Once popping is disabled no thread takes more than three steps and then the wait ends. */
  lemma {:induction false} StopDrains(s: State) returns (es: seq<Event>)
    requires Inv(s) && s.phase == PopDisabled
    ensures CanRun(s, es) && After(s, es).phase == Drained && AllIdle(After(s, es))
    decreases StepsLeft(s.workers)
  {
    var e: Event;
    if AllIdle(s) {
      UnfinishedNone(s.workers, |s.counters| - 1);
      es := [SeeZero];
      assert es[1..] == [];
    } else {
      var i :| 0 <= i < |s.workers| && s.workers[i] != Idle;
      assert WorkerSound(s, s.workers[i]);
      e := if s.workers[i].Popped? then Find(i) else if s.workers[i].Processing? then CheckCount(i) else Subtract(i);
      StepKeepsInv(s, e);
      StepsLeftFalls(s.workers, i, Step(s, e).workers[i]);
      var rest := StopDrains(Step(s, e));
      es := [e] + rest;
      assert es[1..] == rest;
    }
  }

  /** While Stop waits, every step of a thread brings it closer to idle, and nothing is popped. */
  lemma EveryStepDrains(s: State, e: Event)
    requires s.phase == PopDisabled && Enabled(s, e) && e != SeeZero
    ensures Step(s, e).phase == PopDisabled && StepsLeft(Step(s, e).workers) < StepsLeft(s.workers)
  {
    StepsLeftFalls(s.workers, e.w, Step(s, e).workers[e.w]);
  }

  lemma {:induction false} WaitSteps(s: State, es: seq<Event>)
    requires s.phase == PopDisabled && CanRun(s, es) && SeeZero !in es
    ensures |es| + StepsLeft(After(s, es).workers) <= StepsLeft(s.workers)
    decreases |es|
  {
    if es != [] {
      assert es[0] in es;
      EveryStepDrains(s, es[0]);
      WaitSteps(Step(s, es[0]), es[1..]);
    }
  }

  /** No interleaving lets Stop wait for more than three steps per thread. */
  lemma WaitIsBounded(s: State, es: seq<Event>)
    requires s.phase == PopDisabled && CanRun(s, es) && SeeZero !in es
    ensures |es| <= 3 * |s.workers|
  {
    WaitSteps(s, es);
    SumBounded(StepsOfEach(s.workers), 3);
  }
}
