/**
  Stop of the plugin runner always comes to an end: from the moment the flush-out flag is set, some
  stage can always move, every move that changes anything lowers a lexicographic measure, and what is
  left when Stop returns is accounted for.
*/
module PluginRunnerDrain {
  import opened Sums
  import opened PluginRunner
  import opened PluginRunnerRuns
  import Spill = FlushOutStores

  // ----- no deadlock -----

  /** Moves that do not rely on an aggregator accepting a log while LogGroupsChan takes no group. */
  predicate Unforced(s: State, e: Event) {
    e.Processor? && e.processor == AddSucceeds ==> GroupsRoom(s)
  }

  ghost predicate Moves(s: State, e: Event)
    requires |s.contents| == |s.aggregators|
  {
    Enabled(s, e) && Step(s, e) != s && !(e.Inputs? && e.input.Collect?)
  }

  lemma {:induction false} Listing(m: multiset<Log>) returns (logs: seq<Log>)
    ensures multiset(logs) == m
    decreases |m|
  {
    if m == multiset{} {
      logs := [];
    } else {
      var l :| l in m;
      var rest := Listing(m - multiset{l});
      logs := rest + [l];
    }
  }

  lemma FinalFlush(s: State, a: nat) returns (e: AggregatorEvent)
    requires Invariant(s) && a < |s.aggregators| && s.aggregators[a] == Asleep && s.phase.Rank() >= 4
    ensures AggregatorEnabled(s, a, e) && AggregatorStep(s, a, e) != s
  {
    var logs := Listing(s.contents[a]);
    e := Wake(true, [Group(a, logs)]);
    forall l
      ensures GroupCount([Group(a, logs)], a, l) == s.contents[a][l]
    {
      assert GroupCount([Group(a, logs)][1..], a, l) == 0;
    }
    assert AggregatorStep(s, a, e).aggregators[a] != Asleep;
  }

  /** While the stages downstream of the channel wait, one of the upstream stages or Stop can move. */
  lemma UpstreamMove(s: State) returns (e: Event)
    requires Invariant(s) && 1 <= s.phase.Rank()
    requires s.flusher == Waiting && s.groupsChan == []
    ensures Moves(s, e) && Unforced(s, e)
  {
    if s.todo != [] {
      e := Processor(AddSucceeds);
    } else if s.processorLive && s.logsChan != [] {
      e := Processor(Take([]));
    } else if s.phase == FlagSet {
      e := Stop(CancelInputs);
    } else if s.inputsLive && s.collected != [] {
      e := Inputs(Send);
    } else if s.inputsLive {
      e := Inputs(InputsReturn);
    } else if s.phase == InputsCancelled {
      e := Stop(CancelProcessor);
    } else if s.processorLive {
      e := Processor(ProcessorReturns);
    } else if s.phase == ProcessorCancelled {
      e := Stop(CancelAggregators);
    } else if !AllReturned(s) {
      var a :| 0 <= a < |s.aggregators| && s.aggregators[a] != Returned;
      if s.aggregators[a] == Asleep {
        var w := FinalFlush(s, a);
        e := Aggregator(a, w);
      } else if s.aggregators[a].rest != [] {
        e := Aggregator(a, SendNext);
        assert Step(s, e).aggregators[a] != s.aggregators[a];
      } else {
        e := Aggregator(a, EndOfLoop);
        assert Step(s, e).aggregators[a] != s.aggregators[a];
      }
    } else if s.phase == AggregatorsCancelled {
      e := Stop(CancelFlusher);
    } else {
      e := Flusher(FlusherReturns);
    }
  }

  /** Once the flag is set no reachable state short of Stopped is stuck. */
  lemma NoDeadlock(s: State) returns (e: Event)
    requires Invariant(s) && 1 <= s.phase.Rank() && s.phase != Stopped
    ensures Moves(s, e) && Unforced(s, e)
  {
    match s.flusher
    case Received(_) => e := Flusher(Count);
    case Filling(_, _) => e := Flusher(FillOne);
    case Holding(_) => e := Flusher(NotReady);
    case Exited => e := Stop(Finish(0, (_, _) => false));
    case Waiting =>
      if s.groupsChan != [] {
        e := Flusher(Receive);
      } else {
        e := UpstreamMove(s);
      }
  }

  // ----- the measure -----

  function AggregatorRank(st: AggregatorState): nat {
    match st
    case Returned => 0
    case Sending(_, exit) => if exit then 1 else 3
    case Asleep => 2
  }

  function FlusherRank(f: FlusherState): nat {
    match f
    case Exited => 0
    case Waiting => 1
    case Holding(_) => 2
    case Filling(_, _) => 2
    case Received(_) => 3
  }

  function Sizes(contents: seq<multiset<Log>>): (r: seq<nat>)
    ensures |r| == |contents| && forall i :: 0 <= i < |r| ==> r[i] == |contents[i]|
  {
    seq(|contents|, i requires 0 <= i < |contents| => |contents[i]|)
  }

  function Ranks(sts: seq<AggregatorState>): (r: seq<nat>)
    ensures |r| == |sts| && forall i :: 0 <= i < |r| ==> r[i] == AggregatorRank(sts[i])
  {
    seq(|sts|, i requires 0 <= i < |sts| => AggregatorRank(sts[i]))
  }

  function Pending(sts: seq<AggregatorState>): (r: seq<nat>)
    ensures |r| == |sts| && forall i :: 0 <= i < |r| ==> r[i] == |Rest(sts[i])|
  {
    seq(|sts|, i requires 0 <= i < |sts| => |Rest(sts[i])|)
  }

  /** Queued work and live stages, upstream first. */
  datatype Load = Load(
    stop: nat, inputs: nat, logs: nat, adds: nat, held: nat, stages: nat, sends: nat, groups: nat, flusher: nat)

  function Measure(s: State): Load {
    Load(6 - s.phase.Rank(),
         |s.collected| + (if s.inputsLive then 1 else 0),
         |s.logsChan| + (if s.processorLive then 1 else 0),
         |s.todo|,
         Sum(Sizes(s.contents)),
         Sum(Ranks(s.aggregators)),
         Sum(Pending(s.aggregators)),
         |s.groupsChan|,
         FlusherRank(s.flusher))
  }

  /** Lexicographic order. */
  predicate Below(x: Load, y: Load) {
    x.stop < y.stop || (x.stop == y.stop &&
    (x.inputs < y.inputs || (x.inputs == y.inputs &&
    (x.logs < y.logs || (x.logs == y.logs &&
    (x.adds < y.adds || (x.adds == y.adds &&
    (x.held < y.held || (x.held == y.held &&
    (x.stages < y.stages || (x.stages == y.stages &&
    (x.sends < y.sends || (x.sends == y.sends &&
    (x.groups < y.groups || (x.groups == y.groups &&
     x.flusher < y.flusher)))))))))))))))
  }

  lemma WakeMovesDown(s: State, a: nat, last: bool, gs: seq<Group>)
    requires a < |s.aggregators| == |s.contents| && AggregatorEnabled(s, a, Wake(last, gs))
             && AggregatorStep(s, a, Wake(last, gs)) != s
    ensures Below(Measure(AggregatorStep(s, a, Wake(last, gs))), Measure(s))
  {
    var s' := AggregatorStep(s, a, Wake(last, gs));
    assert Sizes(s'.contents) == Sizes(s.contents)[a := 0];
    SumUpdate(Sizes(s.contents), a, 0);
    if |s.contents[a]| == 0 {
      assert Ranks(s'.aggregators) == Ranks(s.aggregators)[a := 1];
      SumUpdate(Ranks(s.aggregators), a, 1);
    }
  }

  lemma RankUpdate(sts: seq<AggregatorState>, a: nat, st: AggregatorState)
    requires a < |sts|
    ensures Sum(Ranks(sts[a := st])) + AggregatorRank(sts[a]) == Sum(Ranks(sts)) + AggregatorRank(st)
  {
    assert Ranks(sts[a := st]) == Ranks(sts)[a := AggregatorRank(st)];
    SumUpdate(Ranks(sts), a, AggregatorRank(st));
  }

  lemma PendingUpdate(sts: seq<AggregatorState>, a: nat, st: AggregatorState)
    requires a < |sts|
    ensures Sum(Pending(sts[a := st])) + |Rest(sts[a])| == Sum(Pending(sts)) + |Rest(st)|
  {
    assert Pending(sts[a := st]) == Pending(sts)[a := |Rest(st)|];
    SumUpdate(Pending(sts), a, |Rest(st)|);
  }

  lemma SendMovesDown(s: State, a: nat, e: AggregatorEvent)
    requires a < |s.aggregators| == |s.contents| && !e.Wake? && AggregatorEnabled(s, a, e)
    ensures Below(Measure(AggregatorStep(s, a, e)), Measure(s))
  {
    var st := AggregatorStep(s, a, e).aggregators[a];
    RankUpdate(s.aggregators, a, st);
    PendingUpdate(s.aggregators, a, st);
  }

  lemma ProcessorMovesDown(s: State, e: ProcessorEvent)
    requires ProcessorEnabled(s, e) && ProcessorStep(s, e) != s
    ensures Below(Measure(ProcessorStep(s, e)), Measure(s))
  {
    var s' := ProcessorStep(s, e);
    match e
    case Take(_) =>
    case AddSucceeds =>
    case AddFails =>
    case QuickFlush(g) =>
      var left := s'.contents[g.owner];
      assert |left| < |s.contents[g.owner]| by {
        assert s.contents[g.owner] == left + multiset(g.logs);
        assert |multiset(g.logs)| == |g.logs|;
      }
      assert Sizes(s'.contents) == Sizes(s.contents)[g.owner := |left|];
      SumUpdate(Sizes(s.contents), g.owner, |left|);
    case ProcessorReturns =>
  }

  lemma InputMovesDown(s: State, e: InputEvent)
    requires InputEnabled(s, e) && !e.Collect?
    ensures Below(Measure(InputStep(s, e)), Measure(s))
  {
  }

  lemma StopMovesDown(s: State, e: StopEvent)
    requires StopEnabled(s, e)
    ensures Below(Measure(StopStep(s, e)), Measure(s))
  {
    assert StopStep(s, e).phase.Rank() == s.phase.Rank() + 1;
  }

  lemma FlusherMovesDown(s: State, e: FlusherEvent)
    requires 1 <= s.phase.Rank() && FlusherEnabled(s, e) && FlusherStep(s, e) != s
    ensures Below(Measure(FlusherStep(s, e)), Measure(s))
  {
  }

  /** Every move after the flag is set lowers the measure. */
  lemma EveryMoveGoesDown(s: State, e: Event)
    requires |s.contents| == |s.aggregators| && 1 <= s.phase.Rank() && Moves(s, e)
    ensures Below(Measure(Step(s, e)), Measure(s))
  {
    match e
    case Inputs(i) => InputMovesDown(s, i);
    case Processor(p) => ProcessorMovesDown(s, p);
    case Aggregator(a, g) =>
      if g.Wake? {
        WakeMovesDown(s, a, g.last, g.flush);
      } else {
        SendMovesDown(s, a, g);
      }
    case Flusher(f) => FlusherMovesDown(s, f);
    case Stop(c) => StopMovesDown(s, c);
  }

  /** A schedule of moves that never ends; f(i) is the state before move i. */
  ghost predicate Endless(f: nat -> State, es: nat -> Event) {
    forall i: nat :: |f(i).contents| == |f(i).aggregators| && Moves(f(i), es(i)) && f(i + 1) == Step(f(i), es(i))
  }

  /** No schedule keeps moving for ever after the flag is set. */
  lemma {:induction false} NoEndlessStop(f: nat -> State, es: nat -> Event, i: nat)
    requires Invariant(f(i)) && 1 <= f(i).phase.Rank()
    ensures !Endless(f, es)
    decreases Measure(f(i)).stop, Measure(f(i)).inputs, Measure(f(i)).logs, Measure(f(i)).adds, Measure(f(i)).held,
              Measure(f(i)).stages, Measure(f(i)).sends, Measure(f(i)).groups, Measure(f(i)).flusher
  {
    if Endless(f, es) {
      StepKeepsInvariant(f(i), es(i));
      EveryMoveGoesDown(f(i), es(i));
      NoEndlessStop(f, es, i + 1);
    }
  }

  lemma NextMove(s: State) returns (e: Event)
    requires Invariant(s) && 1 <= s.phase.Rank() && s.phase != Stopped
    ensures Enabled(s, e) && Invariant(Step(s, e)) && 1 <= Step(s, e).phase.Rank()
    ensures Below(Measure(Step(s, e)), Measure(s))
  {
    e := NoDeadlock(s);
    StepKeepsInvariant(s, e);
    EveryMoveGoesDown(s, e);
  }

  /** From any reachable state after the flag is set, Stop returns: some finite run of moves ends in Stopped. */
  lemma {:induction false} StopReturns(s: State) returns (es: seq<Event>)
    requires Invariant(s) && 1 <= s.phase.Rank()
    ensures CanRun(s, es) && After(s, es).phase == Stopped
    decreases Measure(s).stop, Measure(s).inputs, Measure(s).logs, Measure(s).adds, Measure(s).held,
              Measure(s).stages, Measure(s).sends, Measure(s).groups, Measure(s).flusher
  {
    if s.phase == Stopped {
      es := [];
    } else {
      var e := NextMove(s);
      var rest := StopReturns(Step(s, e));
      es := [e] + rest;
      assert es[1..] == rest;
    }
  }

  // ----- what is left -----

  /** When Stop has returned, everything upstream is empty and every group is flushed or in the store. */
  lemma NothingLeftBehind(s: State)
    requires Invariant(s) && s.phase == Stopped
    ensures s.collected == [] && s.logsChan == [] && s.todo == [] && s.groupsChan == []
    ensures forall a :: 0 <= a < |s.contents| ==> s.contents[a] == multiset{}
    ensures s.history.taken == s.history.accepted
    ensures multiset(s.history.sent) == multiset(s.flushed) + multiset(s.store)
    ensures forall a, l :: 0 <= a < |s.contents| ==>
              Owed(s.history.outputs, l) == GroupCount(s.flushed, a, l) + GroupCount(s.store, a, l)
  {
    forall a | 0 <= a < |s.contents|
      ensures s.contents[a] == multiset{}
    {
      assert Ending(s, a);
    }
    assert s.history.sent == s.history.settled;
    forall a, l | 0 <= a < |s.contents|
      ensures Owed(s.history.outputs, l) == GroupCount(s.flushed, a, l) + GroupCount(s.store, a, l)
    {
      assert Balanced(s, a, l);
      FanoutAllOwes(|s.contents|, s.history.outputs, a, l);
      assert s.history.added + [] == s.history.added;
      GroupCountOfUnion(s.history.settled, s.flushed, s.store, a, l);
    }
  }

  /**
    Whole runs: however the stages interleave, when Stop has returned every log collected was taken, every group
    taken over or sent was flushed or is in the store, and so is, for every aggregator, each log with contents
    that the processors put out.
  */
  lemma StoppedRunLosesNothing(
      n: nat, logsCapacity: nat, groupsCapacity: nat, inherited: seq<Group>, es: seq<Event>, a: nat, l: Log)
    requires |inherited| <= groupsCapacity && AllOwnedBy(inherited, INHERITED) && a < n
    requires CanRun(InitialState(n, logsCapacity, groupsCapacity, inherited), es)
    requires After(InitialState(n, logsCapacity, groupsCapacity, inherited), es).phase == Stopped
    ensures var s := After(InitialState(n, logsCapacity, groupsCapacity, inherited), es);
            && s.history.taken == Collected(es) && |Outputs(es)| == |Collected(es)|
            && inherited <= s.history.sent && multiset(s.history.sent) == multiset(s.flushed) + multiset(s.store)
            && Owed(Outputs(es), l) == GroupCount(s.flushed, a, l) + GroupCount(s.store, a, l)
  {
    var s0 := InitialState(n, logsCapacity, groupsCapacity, inherited);
    InitialInvariant(n, logsCapacity, groupsCapacity, inherited);
    RunKeepsInvariant(s0, es);
    RunKeepsWidth(s0, es);
    RunRecords(s0, es);
    SentOnlyGrows(s0, es);
    NothingLeftBehind(After(s0, es));
  }

  lemma {:induction false} RunOneMore(s: State, es: seq<Event>, e: Event)
    requires CanRun(s, es + [e])
    ensures CanRun(s, es) && |After(s, es).contents| == |After(s, es).aggregators| && Enabled(After(s, es), e)
    ensures After(s, es + [e]) == Step(After(s, es), e)
    decreases |es|
  {
    if |es| == 0 {
      assert es + [e] == [e] && [e][1..] == [];
    } else {
      assert (es + [e])[1..] == es[1..] + [e];
      RunOneMore(Step(s, es[0]), es[1..], e);
    }
  }

  /**
    The last step of Stop leaves the store empty if and only if it was empty or Stop was called with exit set and
    every flusher reported ready within its polls; then the flushers get it, and otherwise nothing changes.  With the
    store empty everything went to the flushers: all groups, and for every aggregator each log with contents that
    the processors put out.
  */
  lemma ExitEmptiesStore(
      n: nat, logsCapacity: nat, groupsCapacity: nat, inherited: seq<Group>, es: seq<Event>,
      flushers: nat, ready: (nat, nat) -> bool, a: nat, l: Log)
    requires |inherited| <= groupsCapacity && AllOwnedBy(inherited, INHERITED) && a < n
    requires CanRun(InitialState(n, logsCapacity, groupsCapacity, inherited), es + [Stop(Finish(flushers, ready))])
    ensures var s0 := InitialState(n, logsCapacity, groupsCapacity, inherited);
            && CanRun(s0, es)
            && var s, t := After(s0, es), After(s0, es + [Stop(Finish(flushers, ready))]);
               && (t.store == [] <==> s.store == [] || (ExitIn(es) && Spill.AllReadyInTime(flushers, ready)))
               && (if ExitIn(es) && Spill.AllReadyInTime(flushers, ready) then t.flushed == s.flushed + s.store
                   else t.flushed == s.flushed && t.store == s.store)
               && (t.store == [] ==>
                   && multiset(t.history.sent) == multiset(t.flushed)
                   && Owed(Outputs(es), l) == GroupCount(t.flushed, a, l))
  {
    var s0 := InitialState(n, logsCapacity, groupsCapacity, inherited);
    var all := es + [Stop(Finish(flushers, ready))];
    RunOneMore(s0, es, Stop(Finish(flushers, ready)));
    FlagIsSet(s0, es);
    StoppedRunLosesNothing(n, logsCapacity, groupsCapacity, inherited, all, a, l);
    RunRecords(s0, es);
    RunRecords(s0, all);
  }

  lemma {:induction false} SentOnlyGrows(s: State, es: seq<Event>)
    requires CanRun(s, es)
    ensures s.history.sent <= After(s, es).history.sent
    decreases |es|
  {
    if es != [] {
      SentOnlyGrows(Step(s, es[0]), es[1..]);
    }
  }
}
