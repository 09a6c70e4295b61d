/**
  Whole runs of the plugin runner: the invariant over every run, what the histories say about its events, and
  where every log is.
*/
module PluginRunnerRuns {
  import opened PluginRunner
  import opened Sequences

  // ----- runs -----

  ghost predicate CanRun(s: State, es: seq<Event>)
    decreases |es|
  {
    es == [] || (|s.contents| == |s.aggregators| && Enabled(s, es[0]) && CanRun(Step(s, es[0]), es[1..]))
  }

  ghost function After(s: State, es: seq<Event>): State
    requires CanRun(s, es)
    decreases |es|
  {
    if es == [] then s else After(Step(s, es[0]), es[1..])
  }

  lemma {:induction false} RunKeepsInvariant(s: State, es: seq<Event>)
    requires Invariant(s) && CanRun(s, es)
    ensures Invariant(After(s, es))
    decreases |es|
  {
    if es != [] {
      StepKeepsInvariant(s, es[0]);
      RunKeepsInvariant(Step(s, es[0]), es[1..]);
    }
  }

  lemma {:induction false} GroupCountOfUnion(x: seq<Group>, y: seq<Group>, z: seq<Group>, a: int, l: Log)
    requires multiset(x) == multiset(y) + multiset(z)
    ensures GroupCount(x, a, l) == GroupCount(y, a, l) + GroupCount(z, a, l)
  {
    if x == [] {
      assert |multiset(y)| == |y| && |multiset(z)| == |z|;
    } else {
      var g := x[0];
      assert multiset(x) == multiset{g} + multiset(x[1..]) by {
        assert x == [g] + x[1..];
      }
      if g in y {
        var y' := WithoutOne(y, g, a, l);
        Cancel(g, multiset(x[1..]), multiset(y') + multiset(z), multiset(x));
        GroupCountOfUnion(x[1..], y', z, a, l);
      } else {
        assert g !in multiset(y) && g in multiset(x);
        assert g in multiset(z);
        var z' := WithoutOne(z, g, a, l);
        Cancel(g, multiset(x[1..]), multiset(y) + multiset(z'), multiset(x));
        GroupCountOfUnion(x[1..], y, z', a, l);
      }
    }
  }

  lemma Cancel(g: Group, x: multiset<Group>, y: multiset<Group>, whole: multiset<Group>)
    requires multiset{g} + x == whole == y + multiset{g}
    ensures x == y
  {
    forall h
      ensures x[h] == y[h]
    {
      assert (multiset{g} + x)[h] == (y + multiset{g})[h];
    }
  }

  lemma WithoutOne(x: seq<Group>, g: Group, a: int, l: Log) returns (rest: seq<Group>)
    requires g in x
    ensures multiset(x) == multiset(rest) + multiset{g}
    ensures GroupCount(x, a, l) == GroupCount(rest, a, l) + if g.owner == a then multiset(g.logs)[l] else 0
  {
    var i :| 0 <= i < |x| && x[i] == g;
    rest := x[..i] + x[i + 1..];
    assert x == x[..i] + ([g] + x[i + 1..]);
    GroupCountAppend(x[..i], [g] + x[i + 1..], a, l);
    GroupCountAppend([g], x[i + 1..], a, l);
    GroupCountAppend(x[..i], x[i + 1..], a, l);
  }

  // ----- what the run's events say about its histories -----

  /** The logs the inputs collected, in order. */
  function Collected(es: seq<Event>): seq<Log>
    decreases |es|
  {
    if |es| == 0 then []
    else (if es[0].Inputs? && es[0].input.Collect? then [es[0].input.log] else []) + Collected(es[1..])
  }

  /** What the processors put out for each log they were given, in order. */
  function Outputs(es: seq<Event>): seq<seq<Log>>
    decreases |es|
  {
    if |es| == 0 then []
    else (if es[0].Processor? && es[0].processor.Take? then [es[0].processor.outputs] else []) + Outputs(es[1..])
  }

  function InputLogs(s: State): seq<Log> {
    s.history.accepted + s.collected
  }

  lemma StepRecordsInputs(s: State, e: Event)
    requires |s.contents| == |s.aggregators| && Enabled(s, e)
    ensures InputLogs(Step(s, e)) == InputLogs(s) + Collected([e])
  {
    assert [e][1..] == [];
    if e.Inputs? {
      InputRecords(s, e.input);
    }
  }

  lemma InputRecords(s: State, e: InputEvent)
    requires InputEnabled(s, e)
    ensures InputLogs(InputStep(s, e)) == InputLogs(s) + if e.Collect? then [e.log] else []
  {
    if e.Send? {
      assert s.collected == [s.collected[0]] + s.collected[1..];
    }
  }

  lemma StepRecordsOutputs(s: State, e: Event)
    requires |s.contents| == |s.aggregators| && Enabled(s, e)
    ensures Step(s, e).history.outputs == s.history.outputs + Outputs([e])
  {
    assert [e][1..] == [];
  }

  lemma {:induction false} RunRecordsInputs(s: State, es: seq<Event>)
    requires CanRun(s, es)
    ensures InputLogs(After(s, es)) == InputLogs(s) + Collected(es)
    decreases |es|
  {
    if es != [] {
      StepRecordsInputs(s, es[0]);
      RunRecordsInputs(Step(s, es[0]), es[1..]);
      FirstCollected(es);
      Associate(InputLogs(s), Collected([es[0]]), Collected(es[1..]));
    }
  }

  lemma FirstCollected(es: seq<Event>)
    requires |es| > 0
    ensures Collected(es) == Collected([es[0]]) + Collected(es[1..])
  {
    assert [es[0]][1..] == [];
  }

  lemma {:induction false} RunRecordsOutputs(s: State, es: seq<Event>)
    requires CanRun(s, es)
    ensures After(s, es).history.outputs == s.history.outputs + Outputs(es)
    decreases |es|
  {
    if es != [] {
      StepRecordsOutputs(s, es[0]);
      RunRecordsOutputs(Step(s, es[0]), es[1..]);
      FirstOutputs(es);
      Associate(s.history.outputs, Outputs([es[0]]), Outputs(es[1..]));
    }
  }

  lemma FirstOutputs(es: seq<Event>)
    requires |es| > 0
    ensures Outputs(es) == Outputs([es[0]]) + Outputs(es[1..])
  {
    assert [es[0]][1..] == [];
  }

  /** A state before anything has happened. */
  predicate Blank(s: State) {
    s.history.accepted == [] && s.collected == [] && s.history.outputs == []
  }

  lemma RunRecords(s: State, es: seq<Event>)
    requires CanRun(s, es) && Blank(s)
    ensures InputLogs(After(s, es)) == Collected(es) && After(s, es).history.outputs == Outputs(es)
  {
    RunRecordsInputs(s, es);
    RunRecordsOutputs(s, es);
  }

  /** Where a log can be once the processors have put it out, for one aggregator. */
  function Places(s: State, a: nat, l: Log): nat
    requires a < |s.aggregators| == |s.contents|
  {
    TodoCount(s.todo, a, l) + s.contents[a][l] + GroupCount(Rest(s.aggregators[a]), a, l)
    + GroupCount(s.groupsChan, a, l) + GroupCount(InHand(s.flusher), a, l)
    + GroupCount(s.flushed, a, l) + GroupCount(s.store, a, l)
  }

  lemma PlacesBalance(s: State, a: nat, l: Log)
    requires Invariant(s) && a < |s.aggregators|
    ensures Owed(s.history.outputs, l) == Places(s, a, l)
  {
    assert Balanced(s, a, l);
    FanoutAllOwes(|s.contents|, s.history.outputs, a, l);
    TodoCountAppend(s.history.added, s.todo, a, l);
    GroupCountAppend(s.history.settled + InHand(s.flusher), s.groupsChan, a, l);
    GroupCountAppend(s.history.settled, InHand(s.flusher), a, l);
    GroupCountOfUnion(s.history.settled, s.flushed, s.store, a, l);
  }

  /**
    Conservation over every run and every behaviour of the plugins.  The logs collected are those the processor
    took, those waiting in LogsChan and those the inputs still hold, in order; there is one list of outputs,
    possibly empty, for each log taken; and, for every aggregator, each log with contents in these lists is in
    exactly one place: still to be added, in the aggregator, in the aggregator goroutine's hand, in LogGroupsChan,
    in the flusher's hand, handed to the flushers, or in FlushOutStore.
  */
  lemma EveryLogInOnePlace(
      n: nat, logsCapacity: nat, groupsCapacity: nat, inherited: seq<Group>, es: seq<Event>, a: nat, l: Log)
    requires |inherited| <= groupsCapacity && AllOwnedBy(inherited, INHERITED) && a < n
    requires CanRun(InitialState(n, logsCapacity, groupsCapacity, inherited), es)
    ensures var s := After(InitialState(n, logsCapacity, groupsCapacity, inherited), es);
            && Collected(es) == s.history.taken + s.logsChan + s.collected
            && |Outputs(es)| == |s.history.taken|
            && |s.contents| == |s.aggregators| == n
            && Owed(Outputs(es), l) == Places(s, a, l)
  {
    var s0 := InitialState(n, logsCapacity, groupsCapacity, inherited);
    InitialInvariant(n, logsCapacity, groupsCapacity, inherited);
    RunKeepsInvariant(s0, es);
    RunKeepsWidth(s0, es);
    RunRecords(s0, es);
    Associate(After(s0, es).history.taken, After(s0, es).logsChan, After(s0, es).collected);
    PlacesBalance(After(s0, es), a, l);
  }

  lemma {:induction false} CountAppend(x: seq<Log>, y: seq<Log>, l: Log)
    ensures CountWithContents(x + y, l) == CountWithContents(x, l) + CountWithContents(y, l)
  {
    if x == [] {
      assert x + y == y;
    } else {
      CountAppend(x[1..], y, l);
      assert (x + y)[1..] == x[1..] + y;
    }
  }

  /** Processors that pass every log through. */
  predicate PassThrough(outputs: seq<seq<Log>>, taken: seq<Log>) {
    |outputs| == |taken| && forall i :: 0 <= i < |taken| ==> outputs[i] == [taken[i]]
  }

  lemma {:induction false} OwedIfPassed(outputs: seq<seq<Log>>, taken: seq<Log>, l: Log)
    requires PassThrough(outputs, taken)
    ensures Owed(outputs, l) == CountWithContents(taken, l)
    decreases |taken|
  {
    if taken != [] {
      var k := |taken| - 1;
      OwedIfPassed(outputs[..k], taken[..k], l);
      assert taken == taken[..k] + [taken[k]];
      CountAppend(taken[..k], [taken[k]], l);
    }
  }

  /** With processors that pass logs through, every log with contents that was collected is in exactly one place. */
  lemma PassedLogInOnePlace(
      n: nat, logsCapacity: nat, groupsCapacity: nat, inherited: seq<Group>, es: seq<Event>, a: nat, l: Log)
    requires |inherited| <= groupsCapacity && AllOwnedBy(inherited, INHERITED) && a < n
    requires CanRun(InitialState(n, logsCapacity, groupsCapacity, inherited), es)
    requires PassThrough(Outputs(es), After(InitialState(n, logsCapacity, groupsCapacity, inherited), es).history.taken)
    ensures var s := After(InitialState(n, logsCapacity, groupsCapacity, inherited), es);
            && |s.contents| == |s.aggregators| == n
            && CountWithContents(Collected(es), l)
               == CountWithContents(s.collected, l) + CountWithContents(s.logsChan, l) + Places(s, a, l)
  {
    EveryLogInOnePlace(n, logsCapacity, groupsCapacity, inherited, es, a, l);
    var s := After(InitialState(n, logsCapacity, groupsCapacity, inherited), es);
    OwedIfPassed(Outputs(es), s.history.taken, l);
    CountAppend(s.history.taken + s.logsChan, s.collected, l);
    CountAppend(s.history.taken, s.logsChan, l);
  }

  lemma {:induction false} RunKeepsWidth(s: State, es: seq<Event>)
    requires CanRun(s, es)
    ensures |After(s, es).aggregators| == |s.aggregators|
    decreases |es|
  {
    if es != [] {
      RunKeepsWidth(Step(s, es[0]), es[1..]);
    }
  }

  /** The receives that fill a batch never block, in any reachable state. */
  lemma FillNeverBlocks(n: nat, logsCapacity: nat, groupsCapacity: nat, inherited: seq<Group>, es: seq<Event>)
    requires |inherited| <= groupsCapacity && AllOwnedBy(inherited, INHERITED)
    requires CanRun(InitialState(n, logsCapacity, groupsCapacity, inherited), es)
    ensures var s := After(InitialState(n, logsCapacity, groupsCapacity, inherited), es);
            s.flusher.Filling? ==> FlusherEnabled(s, FillOne) && s.flusher.goal - |s.flusher.batch| <= |s.groupsChan|
  {
    InitialInvariant(n, logsCapacity, groupsCapacity, inherited);
    RunKeepsInvariant(InitialState(n, logsCapacity, groupsCapacity, inherited), es);
  }

  /** Adds are made in order: for each log taken, aggregator by aggregator, its outputs with contents. */
  lemma AddsInOrder(n: nat, logsCapacity: nat, groupsCapacity: nat, inherited: seq<Group>, es: seq<Event>)
    requires |inherited| <= groupsCapacity && AllOwnedBy(inherited, INHERITED)
    requires CanRun(InitialState(n, logsCapacity, groupsCapacity, inherited), es)
    ensures var s := After(InitialState(n, logsCapacity, groupsCapacity, inherited), es);
            s.history.added + s.todo == FanoutAll(n, Outputs(es))
  {
    var s0 := InitialState(n, logsCapacity, groupsCapacity, inherited);
    InitialInvariant(n, logsCapacity, groupsCapacity, inherited);
    RunKeepsInvariant(s0, es);
    RunKeepsWidth(s0, es);
    RunRecords(s0, es);
  }

  // ----- which groups are sent, and in which order -----

  lemma AggregatorSends(s: State, a: nat, e: AggregatorEvent)
    requires a < |s.aggregators| == |s.contents| && AggregatorEnabled(s, a, e)
    ensures AggregatorStep(s, a, e).history.sent
            == s.history.sent + if e.SendNext? then WithLogs([s.aggregators[a].rest[0]]) else []
  {
    if e.SendNext? {
      assert [s.aggregators[a].rest[0]][1..] == [];
    }
  }

  lemma ProcessorSends(s: State, e: ProcessorEvent)
    requires ProcessorEnabled(s, e)
    ensures ProcessorStep(s, e).history.sent == s.history.sent + if e.QuickFlush? then [e.group] else []
  {
  }

  /** What a step puts into LogGroupsChan, from the event and what the goroutine has to send. */
  function Sends(s: State, e: Event): seq<Group> {
    match e
    case Processor(p) => if p.QuickFlush? then [p.group] else []
    case Aggregator(a, g) =>
      if g.SendNext? && a < |s.aggregators| && Rest(s.aggregators[a]) != [] then WithLogs([Rest(s.aggregators[a])[0]])
      else []
    case _ => []
  }

  lemma StepSends(s: State, e: Event)
    requires |s.contents| == |s.aggregators| && Enabled(s, e)
    ensures Step(s, e).history.sent == s.history.sent + Sends(s, e)
  {
    match e
    case Processor(p) => ProcessorSends(s, p);
    case Aggregator(a, g) => AggregatorSends(s, a, g);
    case Inputs(_) =>
    case Flusher(_) =>
    case Stop(_) =>
  }

  lemma SentGrows(s: State, e: Event)
    requires |s.contents| == |s.aggregators| && Enabled(s, e)
    ensures s.history.sent <= Step(s, e).history.sent
  {
    StepSends(s, e);
  }

  /** What a step puts into LogGroupsChan. */
  ghost function NewlySent(s: State, e: Event): seq<Group>
    requires |s.contents| == |s.aggregators| && Enabled(s, e)
  {
    SentGrows(s, e);
    Step(s, e).history.sent[|s.history.sent|..]
  }

  function WithLogs(gs: seq<Group>): seq<Group> {
    if gs == [] then [] else (if gs[0].logs == [] then [] else [gs[0]]) + WithLogs(gs[1..])
  }

  predicate OfLoop(e: Event, a: nat) {
    e.Aggregator? && e.agg == a
  }

  ghost function SentIn(s: State, e: Event, a: nat): seq<Group>
    requires |s.contents| == |s.aggregators| && Enabled(s, e)
  {
    if OfLoop(e, a) then NewlySent(s, e) else []
  }

  /** What the goroutine of aggregator a sent in a run. */
  ghost function SentByLoop(s: State, es: seq<Event>, a: nat): seq<Group>
    requires CanRun(s, es)
    decreases |es|
  {
    if es == [] then []
    else SentIn(s, es[0], a) + SentByLoop(Step(s, es[0]), es[1..], a)
  }

  /** The groups with logs that Flush of aggregator a returned in a run, in order. */
  function FlushedBy(es: seq<Event>, a: nat): seq<Group>
    decreases |es|
  {
    if |es| == 0 then []
    else (if OfLoop(es[0], a) && es[0].aggregator.Wake? then WithLogs(es[0].aggregator.flush) else [])
         + FlushedBy(es[1..], a)
  }

  lemma SomeLog(gs: seq<Group>, a: nat) returns (l: Log)
    requires gs != [] && AllOwnedBy(gs, a) && gs[0].logs != []
    ensures GroupCount(gs, a, l) > 0
  {
    l := gs[0].logs[0];
    assert multiset(gs[0].logs)[l] > 0;
  }

  lemma {:induction false} NoLogsFlushed(gs: seq<Group>, a: nat)
    requires AllOwnedBy(gs, a) && forall l :: GroupCount(gs, a, l) == 0
    ensures WithLogs(gs) == []
  {
    if gs != [] {
      if gs[0].logs != [] {
        var l := SomeLog(gs, a);
      }
      forall l
        ensures GroupCount(gs[1..], a, l) == 0
      {
        assert GroupCount(gs, a, l) == 0;
      }
      NoLogsFlushed(gs[1..], a);
    }
  }

  lemma NewlySentIs(s: State, e: Event)
    requires |s.contents| == |s.aggregators| && Enabled(s, e)
    ensures NewlySent(s, e) == Sends(s, e)
  {
    StepSends(s, e);
  }

  lemma WakeSends(s: State, a: nat, last: bool, flush: seq<Group>)
    requires a < |s.aggregators| == |s.contents| && AggregatorEnabled(s, a, Wake(last, flush))
    ensures WithLogs(Rest(s.aggregators[a])) + WithLogs(flush)
            == WithLogs(Rest(AggregatorStep(s, a, Wake(last, flush)).aggregators[a]))
  {
    if !last && s.contents[a] == multiset{} {
      NoLogsFlushed(flush, a);
    }
  }

  lemma OneWithLogs(g: Group)
    ensures WithLogs([g]) == if g.logs == [] then [] else [g]
  {
    var none: seq<Group> := [g][1..];
    assert none == [];
  }

  lemma FirstWithLogs(gs: seq<Group>)
    requires gs != []
    ensures WithLogs(gs) == WithLogs([gs[0]]) + WithLogs(gs[1..])
  {
    OneWithLogs(gs[0]);
  }

  lemma RestAfterSend(s: State, a: nat)
    requires a < |s.aggregators| == |s.contents| && AggregatorEnabled(s, a, SendNext)
    ensures Rest(AggregatorStep(s, a, SendNext).aggregators[a]) == s.aggregators[a].rest[1..]
  {
  }

  lemma SendLeaves(s: State, a: nat)
    requires a < |s.aggregators| == |s.contents| && AggregatorEnabled(s, a, SendNext)
    ensures WithLogs(Rest(s.aggregators[a]))
            == WithLogs([s.aggregators[a].rest[0]]) + WithLogs(Rest(AggregatorStep(s, a, SendNext).aggregators[a]))
  {
    RestAfterSend(s, a);
    FirstWithLogs(s.aggregators[a].rest);
  }

  /** One step of the goroutine: what Flush returns joins what it still has to send, and what it sends leaves it. */
  lemma LoopStepSends(s: State, e: Event, a: nat)
    requires |s.contents| == |s.aggregators| && Enabled(s, e) && OfLoop(e, a)
    ensures WithLogs(Rest(s.aggregators[a])) + FlushedBy([e], a)
            == Sends(s, e) + WithLogs(Rest(Step(s, e).aggregators[a]))
  {
    assert [e][1..] == [];
    match e.aggregator
    case Wake(last, flush) => WakeSends(s, a, last, flush);
    case SendNext => SendLeaves(s, a);
    case EndOfLoop =>
  }

  lemma OtherStepSends(s: State, e: Event, a: nat)
    requires |s.contents| == |s.aggregators| && Enabled(s, e) && a < |s.aggregators| && !OfLoop(e, a)
    ensures Rest(Step(s, e).aggregators[a]) == Rest(s.aggregators[a]) && FlushedBy([e], a) == []
  {
    assert [e][1..] == [];
    if e.Aggregator? {
      OthersRest(s, e.agg, e.aggregator, a);
    } else {
      AggregatorsStay(s, e);
    }
  }

  lemma OthersRest(s: State, b: nat, x: AggregatorEvent, a: nat)
    requires b < |s.aggregators| == |s.contents| && AggregatorEnabled(s, b, x) && a < |s.aggregators| && a != b
    ensures var after := AggregatorStep(s, b, x).aggregators; |after| == |s.aggregators| && after[a] == s.aggregators[a]
  {
  }

  lemma AggregatorsStay(s: State, e: Event)
    requires |s.contents| == |s.aggregators| && Enabled(s, e) && !e.Aggregator?
    ensures Step(s, e).aggregators == s.aggregators
  {
    match e
    case Inputs(x) => InputFrame(s, x);
    case Processor(x) => ProcessorFrame(s, x);
    case Flusher(x) => FlusherFrame(s, x);
    case Stop(x) => StopFrame(s, x);
  }

  lemma StopFrame(s: State, e: StopEvent)
    requires StopEnabled(s, e)
    ensures StopStep(s, e).aggregators == s.aggregators && StopStep(s, e).contents == s.contents
  {
  }

  lemma FirstFlushed(es: seq<Event>, a: nat)
    requires |es| > 0
    ensures FlushedBy(es, a) == FlushedBy([es[0]], a) + FlushedBy(es[1..], a)
  {
    assert [es[0]][1..] == [];
  }

  /** In every run each aggregator's goroutine sends exactly the groups with logs that Flush returned, in order. */
  lemma {:induction false} LoopSendsInOrder(s: State, es: seq<Event>, a: nat)
    requires CanRun(s, es) && |s.contents| == |s.aggregators| && a < |s.aggregators|
    ensures |After(s, es).aggregators| == |s.aggregators|
    ensures WithLogs(Rest(s.aggregators[a])) + FlushedBy(es, a)
            == SentByLoop(s, es, a) + WithLogs(Rest(After(s, es).aggregators[a]))
    decreases |es|
  {
    if es != [] {
      var t := Step(s, es[0]);
      AnyStepSends(s, es[0], a);
      LoopSendsInOrder(t, es[1..], a);
      FirstFlushed(es, a);
      Shuffle(WithLogs(Rest(s.aggregators[a])), FlushedBy([es[0]], a), FlushedBy(es[1..], a), SentIn(s, es[0], a),
              WithLogs(Rest(t.aggregators[a])), SentByLoop(t, es[1..], a),
              WithLogs(Rest(After(t, es[1..]).aggregators[a])));
    }
  }

  lemma AnyStepSends(s: State, e: Event, a: nat)
    requires |s.contents| == |s.aggregators| && Enabled(s, e) && a < |s.aggregators|
    ensures |Step(s, e).contents| == |Step(s, e).aggregators| == |s.aggregators|
    ensures WithLogs(Rest(s.aggregators[a])) + FlushedBy([e], a)
            == SentIn(s, e, a) + WithLogs(Rest(Step(s, e).aggregators[a]))
  {
    StepKeepsWidth(s, e);
    if OfLoop(e, a) {
      LoopStepSends(s, e, a);
      NewlySentIs(s, e);
    } else {
      OtherStepSends(s, e, a);
    }
  }

  /** What no stage changes: the number of aggregators, and for all but Stop the phase and the exit flag. */
  predicate SameFrame(s: State, t: State) {
    |t.contents| == |s.contents| && |t.aggregators| == |s.aggregators| && t.phase == s.phase && t.exit == s.exit
  }

  lemma InputFrame(s: State, e: InputEvent)
    requires InputEnabled(s, e)
    ensures SameFrame(s, InputStep(s, e)) && InputStep(s, e).aggregators == s.aggregators
  {
  }

  lemma ProcessorFrame(s: State, e: ProcessorEvent)
    requires ProcessorEnabled(s, e)
    ensures SameFrame(s, ProcessorStep(s, e)) && ProcessorStep(s, e).aggregators == s.aggregators
  {
  }

  lemma AggregatorFrame(s: State, a: nat, e: AggregatorEvent)
    requires a < |s.aggregators| == |s.contents| && AggregatorEnabled(s, a, e)
    ensures SameFrame(s, AggregatorStep(s, a, e))
  {
  }

  lemma FlusherFrame(s: State, e: FlusherEvent)
    requires FlusherEnabled(s, e)
    ensures SameFrame(s, FlusherStep(s, e)) && FlusherStep(s, e).aggregators == s.aggregators
  {
  }

  lemma StepFrame(s: State, e: Event)
    requires |s.contents| == |s.aggregators| && Enabled(s, e) && !e.Stop?
    ensures SameFrame(s, Step(s, e))
  {
    match e
    case Inputs(x) => InputFrame(s, x);
    case Processor(x) => ProcessorFrame(s, x);
    case Aggregator(a, x) => AggregatorFrame(s, a, x);
    case Flusher(x) => FlusherFrame(s, x);
  }

  lemma StepKeepsWidth(s: State, e: Event)
    requires |s.contents| == |s.aggregators| && Enabled(s, e)
    ensures |Step(s, e).contents| == |Step(s, e).aggregators| == |s.aggregators|
  {
    if !e.Stop? {
      StepFrame(s, e);
    }
  }

  lemma Shuffle(a: seq<Group>, b: seq<Group>, c: seq<Group>, d: seq<Group>, e: seq<Group>, f: seq<Group>, g: seq<Group>)
    requires a + b == d + e && e + c == f + g
    ensures a + (b + c) == (d + f) + g
  {
    Associate(a, b, c);
    Associate(d, e, c);
    Associate(d, f, g);
  }

  /** The processor goroutine sends exactly the groups of the quick flushes, and no other stage sends any. */
  lemma OthersSend(s: State, e: Event)
    requires |s.contents| == |s.aggregators| && Enabled(s, e) && !e.Aggregator?
    ensures NewlySent(s, e) == if e.Processor? && e.processor.QuickFlush? then [e.processor.group] else []
  {
    NewlySentIs(s, e);
  }

  // ----- which batches are flushed, and which are kept -----

  predicate IsFlusher(e: Event, f: FlusherEvent) {
    e.Flusher? && e.flusher == f
  }

  /** The flag was set by one of these events. */
  predicate FlagIn(es: seq<Event>) {
    exists i :: 0 <= i < |es| && es[i].Stop? && es[i].stop.SetFlag?
  }

  /** Stop was called with exit set. */
  predicate ExitIn(es: seq<Event>) {
    exists i :: 0 <= i < |es| && es[i].Stop? && es[i].stop.SetFlag? && es[i].stop.exiting
  }

  lemma TailEvents(es: seq<Event>)
    requires |es| > 0
    ensures FlagIn(es) <==> (es[0].Stop? && es[0].stop.SetFlag?) || FlagIn(es[1..])
    ensures ExitIn(es) <==> (es[0].Stop? && es[0].stop.SetFlag? && es[0].stop.exiting) || ExitIn(es[1..])
  {
    var rest := es[1..];
    assert forall i :: 0 <= i < |rest| ==> rest[i] == es[i + 1];
    if i :| 0 < i < |es| && es[i].Stop? && es[i].stop.SetFlag? {
      assert rest[i - 1] == es[i];
    }
    if i :| 0 < i < |es| && es[i].Stop? && es[i].stop.SetFlag? && es[i].stop.exiting {
      assert rest[i - 1] == es[i];
    }
  }

  /** The phase and the exit flag are what the call of Stop made them. */
  lemma {:induction false} FlagIsSet(s: State, es: seq<Event>)
    requires CanRun(s, es)
    ensures After(s, es).phase == Running <==> s.phase == Running && !FlagIn(es)
    ensures s.phase == Running && !s.exit ==> (After(s, es).exit <==> ExitIn(es))
    ensures s.phase != Running ==> After(s, es).exit == s.exit && !FlagIn(es)
    decreases |es|
  {
    if es != [] {
      TailEvents(es);
      FlagStep(s, es[0]);
      FlagIsSet(Step(s, es[0]), es[1..]);
    }
  }

  lemma FlagStep(s: State, e: Event)
    requires |s.contents| == |s.aggregators| && Enabled(s, e)
    ensures var t, setting := Step(s, e), e.Stop? && e.stop.SetFlag?;
            && (t.phase == Running <==> s.phase == Running && !setting)
            && (setting ==> s.phase == Running)
            && t.exit == if setting then e.stop.exiting else s.exit
  {
    if !e.Stop? {
      StepFrame(s, e);
    }
  }

  /** The batches that were in the flusher's hand when all flushers were ready, in order. */
  ghost function ReadyBatches(s: State, es: seq<Event>): seq<Group>
    requires CanRun(s, es)
    decreases |es|
  {
    if es == [] then []
    else (if IsFlusher(es[0], AllReady) then InHand(s.flusher) else []) + ReadyBatches(Step(s, es[0]), es[1..])
  }

  /** The batches that were in its hand when one was not ready and Stop had set the flag, in order. */
  ghost function UnreadyBatches(s: State, es: seq<Event>): seq<Group>
    requires CanRun(s, es)
    decreases |es|
  {
    if es == [] then []
    else (if IsFlusher(es[0], NotReady) && s.phase != Running then InHand(s.flusher) else [])
         + UnreadyBatches(Step(s, es[0]), es[1..])
  }

  predicate NoFinish(es: seq<Event>) {
    forall i :: 0 <= i < |es| ==> !(es[i].Stop? && es[i].stop.Finish?)
  }

  /** Until Stop finishes, the flushers got exactly the batches for which all were ready, and the store exactly those
      for which one was not after the flag, each in order. */
  lemma {:induction false} WhereBatchesGo(s: State, es: seq<Event>)
    requires CanRun(s, es) && NoFinish(es)
    ensures After(s, es).flushed == s.flushed + ReadyBatches(s, es)
    ensures After(s, es).store == s.store + UnreadyBatches(s, es)
    decreases |es|
  {
    if es != [] {
      var t := Step(s, es[0]);
      assert NoFinish(es[1..]) by {
        assert forall i :: 0 <= i < |es[1..]| ==> es[1..][i] == es[i + 1];
      }
      assert !(es[0].Stop? && es[0].stop.Finish?);
      OneBatchGoes(s, es[0]);
      WhereBatchesGo(t, es[1..]);
      Associate(s.flushed, if IsFlusher(es[0], AllReady) then InHand(s.flusher) else [], ReadyBatches(t, es[1..]));
      Associate(s.store, if IsFlusher(es[0], NotReady) && s.phase != Running then InHand(s.flusher) else [],
                UnreadyBatches(t, es[1..]));
    }
  }

  lemma OneBatchGoes(s: State, e: Event)
    requires |s.contents| == |s.aggregators| && Enabled(s, e) && !(e.Stop? && e.stop.Finish?)
    ensures Step(s, e).flushed == s.flushed + if IsFlusher(e, AllReady) then InHand(s.flusher) else []
    ensures Step(s, e).store
            == s.store + if IsFlusher(e, NotReady) && s.phase != Running then InHand(s.flusher) else []
  {
    match e
    case Flusher(f) => FlusherGoes(s, f);
    case Inputs(_) =>
    case Processor(_) =>
    case Aggregator(_, _) =>
    case Stop(_) =>
  }

  lemma FlusherGoes(s: State, f: FlusherEvent)
    requires FlusherEnabled(s, f)
    ensures FlusherStep(s, f).flushed == s.flushed + if f == AllReady then InHand(s.flusher) else []
    ensures FlusherStep(s, f).store == s.store + if f == NotReady && s.phase != Running then InHand(s.flusher) else []
    ensures FlusherStep(s, f).history.settled
            == s.history.settled
               + if f == AllReady || (f == NotReady && s.phase != Running) then InHand(s.flusher) else []
  {
  }

  lemma {:induction false} NoneReady(s: State, es: seq<Event>)
    requires CanRun(s, es) && forall i :: 0 <= i < |es| ==> !IsFlusher(es[i], AllReady)
    ensures ReadyBatches(s, es) == []
    decreases |es|
  {
    if es != [] {
      assert forall i :: 0 <= i < |es[1..]| ==> es[1..][i] == es[i + 1];
      NoneReady(Step(s, es[0]), es[1..]);
    }
  }

  lemma {:induction false} AlwaysReady(s: State, es: seq<Event>)
    requires CanRun(s, es) && (forall i :: 0 <= i < |es| ==> !IsFlusher(es[i], NotReady))
    requires s.store == [] && s.flushed == s.history.settled
    ensures After(s, es).store == [] && After(s, es).flushed == After(s, es).history.settled
    decreases |es|
  {
    if es != [] {
      assert forall i :: 0 <= i < |es[1..]| ==> es[1..][i] == es[i + 1];
      ReadyStep(s, es[0]);
      AlwaysReady(Step(s, es[0]), es[1..]);
    }
  }

  lemma ReadyStep(s: State, e: Event)
    requires |s.contents| == |s.aggregators| && Enabled(s, e) && !IsFlusher(e, NotReady)
    requires s.store == [] && s.flushed == s.history.settled
    ensures Step(s, e).store == [] && Step(s, e).flushed == Step(s, e).history.settled
  {
    match e
    case Flusher(f) => FlusherGoes(s, f);
    case Stop(c) =>
      if c.Finish? {
        assert s.flushed + [] == s.flushed;
      }
    case _ => NobodyElseSettles(s, e);
  }

  /** Only the flusher and Stop touch what was flushed, stored and settled. */
  predicate SameEnd(s: State, t: State) {
    t.store == s.store && t.flushed == s.flushed && t.history.settled == s.history.settled
  }

  lemma InputSettlesNothing(s: State, e: InputEvent)
    requires InputEnabled(s, e)
    ensures SameEnd(s, InputStep(s, e))
  {
  }

  lemma ProcessorSettlesNothing(s: State, e: ProcessorEvent)
    requires ProcessorEnabled(s, e)
    ensures SameEnd(s, ProcessorStep(s, e))
  {
  }

  lemma AggregatorSettlesNothing(s: State, a: nat, e: AggregatorEvent)
    requires a < |s.aggregators| == |s.contents| && AggregatorEnabled(s, a, e)
    ensures SameEnd(s, AggregatorStep(s, a, e))
  {
  }

  lemma NobodyElseSettles(s: State, e: Event)
    requires |s.contents| == |s.aggregators| && Enabled(s, e) && !e.Flusher? && !e.Stop?
    ensures SameEnd(s, Step(s, e))
  {
    match e
    case Inputs(x) => InputSettlesNothing(s, x);
    case Processor(x) => ProcessorSettlesNothing(s, x);
    case Aggregator(a, x) => AggregatorSettlesNothing(s, a, x);
  }

  /**
    Which of the two ways a batch goes, over whole runs: before Stop sets the flag nothing is put into the store; with
    flushers that are never unready nothing ever is, and everything settled was flushed, in order; and with flushers
    that are never ready nothing is flushed before Stop finishes.
  */
  lemma BatchesByReadiness(n: nat, logsCapacity: nat, groupsCapacity: nat, inherited: seq<Group>, es: seq<Event>)
    requires |inherited| <= groupsCapacity && AllOwnedBy(inherited, INHERITED)
    requires CanRun(InitialState(n, logsCapacity, groupsCapacity, inherited), es)
    ensures var s := After(InitialState(n, logsCapacity, groupsCapacity, inherited), es);
            && (!FlagIn(es) ==> s.store == [])
            && ((forall i :: 0 <= i < |es| ==> !IsFlusher(es[i], NotReady)) ==>
                s.store == [] && s.flushed == s.history.settled)
            && ((forall i :: 0 <= i < |es| ==> !IsFlusher(es[i], AllReady)) && NoFinish(es) ==> s.flushed == [])
  {
    var s0 := InitialState(n, logsCapacity, groupsCapacity, inherited);
    InitialInvariant(n, logsCapacity, groupsCapacity, inherited);
    RunKeepsInvariant(s0, es);
    FlagIsSet(s0, es);
    if forall i :: 0 <= i < |es| ==> !IsFlusher(es[i], NotReady) {
      AlwaysReady(s0, es);
    }
    if (forall i :: 0 <= i < |es| ==> !IsFlusher(es[i], AllReady)) && NoFinish(es) {
      WhereBatchesGo(s0, es);
      NoneReady(s0, es);
    }
  }

  // ----- a batch takes all that waits -----

  /** The flusher is collecting, or holds, exactly this batch: what it lacks comes next in the channel. */
  predicate Collecting(s: State, batch: seq<Group>) {
    match s.flusher
    case Filling(got, goal) =>
      goal == |batch| && |got| < goal <= |got| + |s.groupsChan| && got + s.groupsChan[..goal - |got|] == batch
    case Holding(groups) => groups == batch
    case _ => false
  }

  predicate HandsOver(e: Event) {
    IsFlusher(e, AllReady) || IsFlusher(e, NotReady)
  }

  lemma FillKeepsBatch(s: State, batch: seq<Group>)
    requires Collecting(s, batch) && FlusherEnabled(s, FillOne)
    ensures Collecting(FlusherStep(s, FillOne), batch)
  {
    var got, goal, chan := s.flusher.batch, s.flusher.goal, s.groupsChan;
    assert chan[..goal - |got|] == [chan[0]] + chan[1..][..goal - |got| - 1];
    Associate(got, [chan[0]], chan[1..][..goal - |got| - 1]);
  }

  lemma SendKeepsBatch(s: State, e: Event, batch: seq<Group>)
    requires |s.contents| == |s.aggregators| && Enabled(s, e) && !e.Flusher? && Collecting(s, batch)
    ensures Collecting(Step(s, e), batch)
  {
    ChannelGrows(s, e);
    if s.flusher.Filling? {
      var k := s.flusher.goal - |s.flusher.batch|;
      assert Step(s, e).groupsChan[..k] == s.groupsChan[..k];
    }
  }

  lemma ChannelGrows(s: State, e: Event)
    requires |s.contents| == |s.aggregators| && Enabled(s, e) && !e.Flusher?
    ensures Step(s, e).flusher == s.flusher && s.groupsChan <= Step(s, e).groupsChan
  {
    match e
    case Inputs(_) =>
    case Processor(_) =>
    case Aggregator(a, x) => AggregatorExtends(s, a, x);
    case Stop(_) =>
  }

  lemma AggregatorExtends(s: State, a: nat, x: AggregatorEvent)
    requires a < |s.aggregators| == |s.contents| && AggregatorEnabled(s, a, x)
    ensures AggregatorStep(s, a, x).flusher == s.flusher && s.groupsChan <= AggregatorStep(s, a, x).groupsChan
  {
  }

  /** Whatever the other stages do, the flusher hands over the group it received and all that waited when it counted. */
  lemma {:induction false} BatchIsAllThatWaited(s: State, es: seq<Event>, batch: seq<Group>)
    requires CanRun(s, es) && Collecting(s, batch) && forall i :: 0 <= i < |es| ==> !HandsOver(es[i])
    ensures Collecting(After(s, es), batch)
    decreases |es|
  {
    if es != [] {
      assert forall i :: 0 <= i < |es[1..]| ==> es[1..][i] == es[i + 1];
      assert !HandsOver(es[0]);
      if es[0].Flusher? {
        FillKeepsBatch(s, batch);
      } else {
        SendKeepsBatch(s, es[0], batch);
      }
      BatchIsAllThatWaited(Step(s, es[0]), es[1..], batch);
    }
  }

  lemma CountStartsBatch(s: State)
    requires FlusherEnabled(s, Count)
    ensures Collecting(FlusherStep(s, Count), [s.flusher.first] + s.groupsChan)
  {
  }
}
