/**
  The Go plugin runner as a protocol of concurrent stages.

  Inputs put logs into LogsChan; the processor goroutine takes them one by one, runs the processors
  and adds every resulting log to every aggregator; each aggregator goroutine flushes its aggregator
  periodically into LogGroupsChan; the flusher goroutine drains LogGroupsChan in batches and hands
  every batch either to the flushers or, when the runner is stopping and some flusher is not ready,
  to FlushOutStore.  Stop shuts the stages down in order.

  A state holds what the goroutines share and the local state of each; an event is one atomic step
  of one goroutine.  Processors, aggregators and IsReady are abstract: their outcomes are arguments
  of the events, so a claim about every run is a claim about every behaviour of the plugins.
*/
module PluginRunner {
  import Spill = FlushOutStores

  /** A log, by identity; logs without contents are skipped by the processor loop. */
  datatype Log = Log(id: nat, hasContents: bool)

  /** A log group and the aggregator that made it; INHERITED marks groups taken over from an old runner. */
  datatype Group = Group(owner: int, logs: seq<Log>)

  const INHERITED := -1

  /** One pending call of aggregator.Add. */
  datatype Todo = Todo(agg: nat, log: Log)

  datatype AggregatorState =
    | Asleep
    | Sending(rest: seq<Group>, exit: bool)
    | Returned

  datatype FlusherState =
    | Waiting
    | Received(first: Group)
    | Filling(batch: seq<Group>, goal: nat)
    | Holding(groups: seq<Group>)
    | Exited

  /** What Stop has done so far. */
  datatype Phase =
    | Running
    | FlagSet
    | InputsCancelled
    | ProcessorCancelled
    | AggregatorsCancelled
    | FlusherCancelled
    | Stopped {
    function Rank(): nat {
      match this
      case Running => 0
      case FlagSet => 1
      case InputsCancelled => 2
      case ProcessorCancelled => 3
      case AggregatorsCancelled => 4
      case FlusherCancelled => 5
      case Stopped => 6
    }
  }

  /** Histories: never read by the protocol, only by what is claimed about it. */
  datatype History = History(
    accepted: seq<Log>,      // logs that entered LogsChan
    taken: seq<Log>,         // logs the processor received
    outputs: seq<seq<Log>>,  // what the processors made of each of them
    added: seq<Todo>,        // Add calls that have succeeded
    sent: seq<Group>,        // groups that entered LogGroupsChan
    settled: seq<Group>)     // groups handed to the flushers or to the store, in order

  datatype State = State(
    logsCapacity: nat,
    groupsCapacity: nat,
    collected: seq<Log>,     // what the inputs hold and still have to send
    inputsLive: bool,
    logsChan: seq<Log>,
    todo: seq<Todo>,
    processorLive: bool,
    contents: seq<multiset<Log>>,   // what each aggregator holds
    aggregators: seq<AggregatorState>,
    groupsChan: seq<Group>,
    flusher: FlusherState,
    store: seq<Group>,
    flushed: seq<Group>,
    phase: Phase,
    exit: bool,
    history: History)

  datatype InputEvent = Collect(log: Log) | Send | InputsReturn
  datatype ProcessorEvent =
    | Take(outputs: seq<Log>)
    | AddSucceeds
    | AddFails
    | QuickFlush(group: Group)
    | ProcessorReturns
  datatype AggregatorEvent = Wake(last: bool, flush: seq<Group>) | SendNext | EndOfLoop
  datatype FlusherEvent = Receive | Count | FillOne | AllReady | NotReady | FlusherReturns
  /** Finish is told how many flushers there are and at which polls each of them reports ready. */
  datatype StopEvent =
    | SetFlag(exiting: bool)
    | CancelInputs
    | CancelProcessor
    | CancelAggregators
    | CancelFlusher
    | Finish(flushers: nat, ready: (nat, nat) -> bool)

  /** One atomic step of one goroutine. */
  datatype Event =
    | Inputs(input: InputEvent)
    | Processor(processor: ProcessorEvent)
    | Aggregator(agg: nat, aggregator: AggregatorEvent)
    | Flusher(flusher: FlusherEvent)
    | Stop(stop: StopEvent)

  /** The Add calls for one batch of processed logs: aggregators outermost, empty logs skipped. */
  function Fanout(from: nat, limit: nat, logs: seq<Log>): seq<Todo>
    requires from <= limit
    decreases limit - from
  {
    if from == limit then [] else ForAggregator(from, logs) + Fanout(from + 1, limit, logs)
  }

  function ForAggregator(a: nat, logs: seq<Log>): seq<Todo> {
    if logs == [] then []
    else (if logs[0].hasContents then [Todo(a, logs[0])] else []) + ForAggregator(a, logs[1..])
  }

  /** How often log l is still to be added to aggregator a. */
  function TodoCount(ts: seq<Todo>, a: int, l: Log): nat {
    if ts == [] then 0
    else (if ts[0] == Todo(ts[0].agg, l) && ts[0].agg == a then 1 else 0) + TodoCount(ts[1..], a, l)
  }

  /** How often log l occurs in groups made by aggregator a. */
  function GroupCount(gs: seq<Group>, a: int, l: Log): nat {
    if gs == [] then 0
    else (if gs[0].owner == a then multiset(gs[0].logs)[l] else 0) + GroupCount(gs[1..], a, l)
  }

  predicate AllOwnedBy(gs: seq<Group>, a: int) {
    forall i :: 0 <= i < |gs| ==> gs[i].owner == a
  }

  function InitialState(aggregatorCount: nat, logsCapacity: nat, groupsCapacity: nat, inherited: seq<Group>): State {
    State(logsCapacity, groupsCapacity, [], true, [], [], true,
          seq(aggregatorCount, _ => multiset{}), seq(aggregatorCount, _ => Asleep),
          inherited, Waiting, [], [], Running, false,
          History([], [], [], [], inherited, []))
  }

  predicate AllReturned(s: State) {
    forall a :: 0 <= a < |s.aggregators| ==> s.aggregators[a] == Returned
  }

  ghost predicate Enabled(s: State, e: Event)
    requires |s.contents| == |s.aggregators|
  {
    match e
    case Inputs(i) => InputEnabled(s, i)
    case Processor(p) => ProcessorEnabled(s, p)
    case Aggregator(a, g) => a < |s.aggregators| && AggregatorEnabled(s, a, g)
    case Flusher(f) => FlusherEnabled(s, f)
    case Stop(c) => StopEnabled(s, c)
  }

  ghost function Step(s: State, e: Event): State
    requires |s.contents| == |s.aggregators| && Enabled(s, e)
  {
    match e
    case Inputs(i) => InputStep(s, i)
    case Processor(p) => ProcessorStep(s, p)
    case Aggregator(a, g) => AggregatorStep(s, a, g)
    case Flusher(f) => FlusherStep(s, f)
    case Stop(c) => StopStep(s, c)
  }

  /**
    Whether a send on a channel can go ahead.  On a channel without buffer it needs a receiver that waits there;
    the value then stands in the channel until that receiver, which can do nothing else, takes it.
  */
  predicate Room(queued: nat, capacity: nat, receiverWaits: bool) {
    queued < capacity || (capacity == 0 && queued == 0 && receiverWaits)
  }

  predicate LogsRoom(s: State) {
    Room(|s.logsChan|, s.logsCapacity, s.processorLive && s.todo == [])
  }

  predicate GroupsRoom(s: State) {
    Room(|s.groupsChan|, s.groupsCapacity, s.flusher == Waiting)
  }

  predicate InputEnabled(s: State, e: InputEvent) {
    match e
    case Collect(_) => s.inputsLive
    case Send => s.inputsLive && s.collected != [] && LogsRoom(s)
    case InputsReturn => s.inputsLive && s.phase.Rank() >= 2 && s.collected == []
  }

  function InputStep(s: State, e: InputEvent): State
    requires InputEnabled(s, e)
  {
    match e
    case Collect(l) => s.(collected := s.collected + [l])
    case Send =>
      var l := s.collected[0];
      s.(collected := s.collected[1..], logsChan := s.logsChan + [l],
          history := s.history.(accepted := s.history.accepted + [l]))
    case InputsReturn => s.(inputsLive := false)
  }

  predicate ProcessorEnabled(s: State, e: ProcessorEvent) {
    match e
    case Take(_) => s.processorLive && s.todo == [] && s.logsChan != []
    case AddSucceeds => s.todo != [] && s.todo[0].agg < |s.contents|
    case AddFails => s.todo != [] && !GroupsRoom(s)
    // a full group goes out through the wrapper's non-blocking Add
    case QuickFlush(g) =>
      && s.todo != [] && g.owner == s.todo[0].agg < |s.contents|
      && g.logs != [] && multiset(g.logs) <= s.contents[g.owner]
      && GroupsRoom(s)
    case ProcessorReturns => s.processorLive && s.todo == [] && s.logsChan == [] && s.phase.Rank() >= 3
  }

  function ProcessorStep(s: State, e: ProcessorEvent): State
    requires ProcessorEnabled(s, e)
  {
    var h := s.history;
    match e
    case Take(outputs) =>
      var ts := Fanout(0, |s.contents|, outputs);
      s.(logsChan := s.logsChan[1..], todo := ts,
         history := h.(taken := h.taken + [s.logsChan[0]], outputs := h.outputs + [outputs]))
    case AddSucceeds =>
      var t := s.todo[0];
      s.(todo := s.todo[1..], contents := s.contents[t.agg := s.contents[t.agg] + multiset{t.log}],
         history := h.(added := h.added + [t]))
    case AddFails => s
    case QuickFlush(g) =>
      s.(contents := s.contents[g.owner := s.contents[g.owner] - multiset(g.logs)],
         groupsChan := s.groupsChan + [g], history := h.(sent := h.sent + [g]))
    case ProcessorReturns => s.(processorLive := false)
  }

  ghost predicate AggregatorEnabled(s: State, a: nat, e: AggregatorEvent)
    requires a < |s.aggregators| == |s.contents|
  {
    match e
    case Wake(last, gs) =>
      && s.aggregators[a] == Asleep
      && (last ==> s.phase.Rank() >= 4)
      && AllOwnedBy(gs, a) && forall l :: GroupCount(gs, a, l) == s.contents[a][l]
    case SendNext =>
      && Rest(s.aggregators[a]) != []
      && (Rest(s.aggregators[a])[0].logs != [] ==> GroupsRoom(s))
    case EndOfLoop => s.aggregators[a].Sending? && s.aggregators[a].rest == []
  }

  ghost function AggregatorStep(s: State, a: nat, e: AggregatorEvent): State
    requires a < |s.aggregators| == |s.contents| && AggregatorEnabled(s, a, e)
  {
    match e
    case Wake(last, gs) =>
      // with nothing to flush a periodic wake-up goes straight back to sleep
      if !last && s.contents[a] == multiset{} then s
      else s.(contents := s.contents[a := multiset{}], aggregators := s.aggregators[a := Sending(gs, last)])
    case SendNext =>
      var st := s.aggregators[a];
      var g := st.rest[0];
      var after := s.aggregators[a := Sending(st.rest[1..], st.exit)];
      if g.logs == [] then s.(aggregators := after)
      else s.(aggregators := after, groupsChan := s.groupsChan + [g],
          history := s.history.(sent := s.history.sent + [g]))
    case EndOfLoop =>
      s.(aggregators := s.aggregators[a := if s.aggregators[a].exit then Returned else Asleep])
  }

  predicate FlusherEnabled(s: State, e: FlusherEvent) {
    match e
    case Receive => s.flusher == Waiting && s.groupsChan != []
    case Count => s.flusher.Received?
    case FillOne => s.flusher.Filling? && s.groupsChan != []
    case AllReady => s.flusher.Holding?
    case NotReady => s.flusher.Holding?
    case FlusherReturns => s.flusher == Waiting && s.groupsChan == [] && s.phase.Rank() >= 5
  }

  function Fill(batch: seq<Group>, goal: nat): FlusherState {
    if |batch| == goal then Holding(batch) else Filling(batch, goal)
  }

  function FlusherStep(s: State, e: FlusherEvent): State
    requires FlusherEnabled(s, e)
  {
    var h := s.history;
    match e
    case Receive => s.(flusher := Received(s.groupsChan[0]), groupsChan := s.groupsChan[1..])
    case Count => s.(flusher := Fill([s.flusher.first], |s.groupsChan| + 1))
    case FillOne =>
      s.(flusher := Fill(s.flusher.batch + [s.groupsChan[0]], s.flusher.goal), groupsChan := s.groupsChan[1..])
    case AllReady =>
      s.(flusher := Waiting, flushed := s.flushed + s.flusher.groups,
          history := h.(settled := h.settled + s.flusher.groups))
    case NotReady =>
      // before the flag is set the loop sleeps and asks again
      if s.phase == Running then s
      else s.(flusher := Waiting, store := s.store + s.flusher.groups,
          history := h.(settled := h.settled + s.flusher.groups))
    case FlusherReturns => s.(flusher := Exited)
  }

  predicate StopEnabled(s: State, e: StopEvent) {
    match e
    case SetFlag(_) => s.phase == Running
    case CancelInputs => s.phase == FlagSet
    case CancelProcessor => s.phase == InputsCancelled && !s.inputsLive
    case CancelAggregators => s.phase == ProcessorCancelled && !s.processorLive
    case CancelFlusher => s.phase == AggregatorsCancelled && AllReturned(s)
    case Finish(_, _) => s.phase == FlusherCancelled && s.flusher == Exited
  }

  ghost function StopStep(s: State, e: StopEvent): State
    requires StopEnabled(s, e)
  {
    match e
    case SetFlag(exiting) => s.(phase := FlagSet, exit := exiting)
    case CancelInputs => s.(phase := InputsCancelled)
    case CancelProcessor => s.(phase := ProcessorCancelled)
    case CancelAggregators => s.(phase := AggregatorsCancelled)
    case CancelFlusher => s.(phase := FlusherCancelled)
    case Finish(flushers, ready) =>
      if s.exit && Spill.AllReadyInTime(flushers, ready) then
        s.(phase := Stopped, flushed := s.flushed + s.store, store := [])
      else s.(phase := Stopped)
  }

  // ----- what every step keeps -----

  /** The groups the flusher holds between its receive and its hand-over. */
  function InHand(f: FlusherState): seq<Group> {
    match f
    case Waiting => []
    case Received(g) => [g]
    case Filling(batch, _) => batch
    case Holding(groups) => groups
    case Exited => []
  }

  function Rest(st: AggregatorState): seq<Group> {
    if st.Sending? then st.rest else []
  }

  predicate Bounded(s: State) {
    && |s.contents| == |s.aggregators|
    && (|s.logsChan| <= s.logsCapacity || |s.logsChan| == 1)
    && (|s.groupsChan| <= s.groupsCapacity || |s.groupsChan| == 1)
    && (forall i :: 0 <= i < |s.todo| ==> s.todo[i].agg < |s.contents|)
    && (forall a :: 0 <= a < |s.aggregators| ==> AllOwnedBy(Rest(s.aggregators[a]), a))
  }

  /** A stage has returned only after everything upstream of it has, and with nothing left to do. */
  predicate Staged(s: State)
    requires |s.contents| == |s.aggregators|
  {
    && (!s.inputsLive ==> s.phase.Rank() >= 2 && s.collected == [])
    && (s.phase.Rank() >= 3 ==> !s.inputsLive)
    && (!s.processorLive ==> s.phase.Rank() >= 3 && s.todo == [] && s.logsChan == [])
    && (s.phase.Rank() >= 4 ==> !s.processorLive)
    && (forall a :: 0 <= a < |s.aggregators| ==> Ending(s, a))
    && (s.phase.Rank() >= 5 ==> AllReturned(s))
    && (s.flusher == Exited ==> s.phase.Rank() >= 5 && s.groupsChan == [])
    && (s.phase == Stopped ==> s.flusher == Exited)
    && (s.phase == Running ==> s.store == [])
  }

  predicate Ending(s: State, a: nat)
    requires a < |s.aggregators| == |s.contents|
  {
    && (s.aggregators[a] == Returned ==> s.phase.Rank() >= 4 && s.contents[a] == multiset{})
    && (s.aggregators[a].Sending? && s.aggregators[a].exit ==> s.phase.Rank() >= 4 && s.contents[a] == multiset{})
  }

  /** The receives that fill a batch cannot block: what is missing is already in the channel. */
  predicate BatchCovered(s: State) {
    s.flusher.Filling? ==> 0 < |s.flusher.batch| < s.flusher.goal <= |s.flusher.batch| + |s.groupsChan|
  }

  /** The Add calls for all the logs taken, in order. */
  function FanoutAll(n: nat, outputs: seq<seq<Log>>): seq<Todo> {
    if outputs == [] then [] else FanoutAll(n, outputs[..|outputs| - 1]) + Fanout(0, n, outputs[|outputs| - 1])
  }

  /** Logs enter and leave LogsChan in order and are added in order; groups enter LogGroupsChan and are settled in
      order. */
  predicate InOrder(s: State) {
    && s.history.accepted == s.history.taken + s.logsChan
    && |s.history.outputs| == |s.history.taken|
    && s.history.added + s.todo == FanoutAll(|s.contents|, s.history.outputs)
    && s.history.sent == s.history.settled + InHand(s.flusher) + s.groupsChan
    && multiset(s.history.settled) == multiset(s.flushed) + multiset(s.store)
  }

  /** How often the processors put out log l, if it has contents, over all the logs they were given. */
  function Owed(outputs: seq<seq<Log>>, l: Log): nat {
    if outputs == [] then 0
    else Owed(outputs[..|outputs| - 1], l) + CountWithContents(outputs[|outputs| - 1], l)
  }

  /** Every log added to aggregator a is held by it, about to be sent, or sent. */
  predicate Balanced(s: State, a: nat, l: Log)
    requires a < |s.aggregators| == |s.contents|
  {
    TodoCount(s.history.added, a, l)
    == s.contents[a][l] + GroupCount(Rest(s.aggregators[a]), a, l) + GroupCount(s.history.sent, a, l)
  }

  ghost predicate AllBalanced(s: State)
    requires |s.aggregators| == |s.contents|
  {
    forall a, l :: 0 <= a < |s.aggregators| ==> Balanced(s, a, l)
  }

  ghost predicate Invariant(s: State) {
    Bounded(s) && Staged(s) && BatchCovered(s) && InOrder(s) && AllBalanced(s)
  }

  lemma {:induction false} TodoCountAppend(x: seq<Todo>, y: seq<Todo>, a: int, l: Log)
    ensures TodoCount(x + y, a, l) == TodoCount(x, a, l) + TodoCount(y, a, l)
  {
    if x == [] {
      assert x + y == y;
    } else {
      TodoCountAppend(x[1..], y, a, l);
      assert (x + y)[1..] == x[1..] + y;
    }
  }

  lemma {:induction false} GroupCountAppend(x: seq<Group>, y: seq<Group>, a: int, l: Log)
    ensures GroupCount(x + y, a, l) == GroupCount(x, a, l) + GroupCount(y, a, l)
  {
    if x == [] {
      assert x + y == y;
    } else {
      GroupCountAppend(x[1..], y, a, l);
      assert (x + y)[1..] == x[1..] + y;
    }
  }

  lemma {:induction false} GroupCountForeign(gs: seq<Group>, a: int, owner: int, l: Log)
    requires AllOwnedBy(gs, owner) && a != owner
    ensures GroupCount(gs, a, l) == 0
  {
    if gs != [] {
      GroupCountForeign(gs[1..], a, owner, l);
    }
  }

  lemma {:induction false} FanoutInRange(from: nat, limit: nat, logs: seq<Log>)
    requires from <= limit
    ensures forall i :: 0 <= i < |Fanout(from, limit, logs)| ==> from <= Fanout(from, limit, logs)[i].agg < limit
    decreases limit - from
  {
    if from < limit {
      ForAggregatorTarget(from, logs);
      FanoutInRange(from + 1, limit, logs);
    }
  }

  lemma {:induction false} ForAggregatorTarget(a: nat, logs: seq<Log>)
    ensures forall i :: 0 <= i < |ForAggregator(a, logs)| ==> ForAggregator(a, logs)[i].agg == a
  {
    if logs != [] {
      ForAggregatorTarget(a, logs[1..]);
    }
  }

  lemma InitialInvariant(n: nat, logsCapacity: nat, groupsCapacity: nat, inherited: seq<Group>)
    requires |inherited| <= groupsCapacity && AllOwnedBy(inherited, INHERITED)
    ensures Invariant(InitialState(n, logsCapacity, groupsCapacity, inherited))
  {
    var s := InitialState(n, logsCapacity, groupsCapacity, inherited);
    forall a, l | 0 <= a < n
      ensures Balanced(s, a, l)
    {
      GroupCountForeign(inherited, a, INHERITED, l);
    }
  }

  lemma InputKeepsInvariant(s: State, e: InputEvent)
    requires Invariant(s) && InputEnabled(s, e)
    ensures Invariant(InputStep(s, e))
  {
    SameBalance(s, InputStep(s, e));
    SameEnding(s, InputStep(s, e));
  }

  lemma StopKeepsInvariant(s: State, e: StopEvent)
    requires Invariant(s) && StopEnabled(s, e)
    ensures Invariant(StopStep(s, e))
  {
    SameBalance(s, StopStep(s, e));
    SameEnding(s, StopStep(s, e));
  }

  /** A step that touches neither the aggregators nor what was added or sent keeps the balance. */
  lemma SameBalance(s: State, s': State)
    requires |s.aggregators| == |s.contents| && AllBalanced(s)
    requires s'.contents == s.contents && s'.aggregators == s.aggregators
    requires s'.history.added == s.history.added && s'.history.sent == s.history.sent
    ensures AllBalanced(s')
  {
    forall a, l | 0 <= a < |s'.aggregators|
      ensures Balanced(s', a, l)
    {
      assert Balanced(s, a, l);
    }
  }

  lemma SameEnding(s: State, s': State)
    requires |s.aggregators| == |s.contents| && Staged(s)
    requires s'.contents == s.contents && s'.aggregators == s.aggregators && s'.phase.Rank() >= s.phase.Rank()
    ensures forall a :: 0 <= a < |s'.aggregators| ==> Ending(s', a)
  {
    forall a | 0 <= a < |s'.aggregators|
      ensures Ending(s', a)
    {
      assert Ending(s, a);
    }
  }

  lemma FlusherKeepsOrder(s: State, e: FlusherEvent)
    requires InOrder(s) && BatchCovered(s) && FlusherEnabled(s, e)
    ensures InOrder(FlusherStep(s, e)) && BatchCovered(FlusherStep(s, e))
  {
    var s' := FlusherStep(s, e);
    var settled, hand, chan := s.history.settled, InHand(s.flusher), s.groupsChan;
    match e
    case Receive => assert settled + hand + chan == settled + [chan[0]] + chan[1..];
    case Count =>
    case FillOne => assert settled + hand + chan == settled + (hand + [chan[0]]) + chan[1..];
    case AllReady => assert settled + hand + chan == (settled + hand) + [] + chan;
    case NotReady => assert settled + hand + chan == (settled + hand) + [] + chan;
    case FlusherReturns =>
  }

  lemma FlusherKeepsInvariant(s: State, e: FlusherEvent)
    requires Invariant(s) && FlusherEnabled(s, e)
    ensures Invariant(FlusherStep(s, e))
  {
    FlusherKeepsOrder(s, e);
    SameBalance(s, FlusherStep(s, e));
    SameEnding(s, FlusherStep(s, e));
  }

  lemma ProcessorKeepsBalance(s: State, e: ProcessorEvent)
    requires |s.aggregators| == |s.contents| && AllBalanced(s) && ProcessorEnabled(s, e)
    ensures AllBalanced(ProcessorStep(s, e))
  {
    var s' := ProcessorStep(s, e);
    forall a, l | 0 <= a < |s'.aggregators|
      ensures Balanced(s', a, l)
    {
      assert Balanced(s, a, l);
      if e == AddSucceeds {
        TodoCountAppend(s.history.added, [s.todo[0]], a, l);
        assert [s.todo[0]][1..] == [];
      } else if e.QuickFlush? {
        GroupCountAppend(s.history.sent, [e.group], a, l);
      }
    }
  }

  lemma ProcessorAddsInOrder(s: State, e: ProcessorEvent)
    requires ProcessorEnabled(s, e) && s.history.added + s.todo == FanoutAll(|s.contents|, s.history.outputs)
    ensures var t := ProcessorStep(s, e); t.history.added + t.todo == FanoutAll(|t.contents|, t.history.outputs)
  {
    if e.Take? {
      var outputs := s.history.outputs + [e.outputs];
      assert outputs[..|outputs| - 1] == s.history.outputs;
    } else if e == AddSucceeds {
      assert s.todo == [s.todo[0]] + s.todo[1..];
    }
  }

  lemma ProcessorKeepsOrder(s: State, e: ProcessorEvent)
    requires InOrder(s) && BatchCovered(s) && ProcessorEnabled(s, e)
    ensures InOrder(ProcessorStep(s, e)) && BatchCovered(ProcessorStep(s, e))
  {
    ProcessorAddsInOrder(s, e);
    if e.Take? {
      assert s.logsChan == [s.logsChan[0]] + s.logsChan[1..];
    }
  }

  lemma ProcessorKeepsStages(s: State, e: ProcessorEvent)
    requires Bounded(s) && Staged(s) && ProcessorEnabled(s, e)
    ensures Bounded(ProcessorStep(s, e)) && Staged(ProcessorStep(s, e))
  {
    if e.Take? {
      FanoutInRange(0, |s.contents|, e.outputs);
    }
    assert s.todo != [] || e == ProcessorReturns || e.Take? ==> s.processorLive;
    var s' := ProcessorStep(s, e);
    forall a | 0 <= a < |s'.aggregators|
      ensures Ending(s', a)
    {
      assert Ending(s, a);
    }
  }

  lemma ProcessorKeepsInvariant(s: State, e: ProcessorEvent)
    requires Invariant(s) && ProcessorEnabled(s, e)
    ensures Invariant(ProcessorStep(s, e))
  {
    ProcessorKeepsBalance(s, e);
    ProcessorKeepsStages(s, e);
    ProcessorKeepsOrder(s, e);
  }

  lemma WakeKeepsBalance(s: State, a: nat, last: bool, flush: seq<Group>, b: nat, l: Log)
    requires b < |s.aggregators| == |s.contents| && a < |s.aggregators| && AggregatorEnabled(s, a, Wake(last, flush))
    requires Balanced(s, b, l)
    ensures Balanced(AggregatorStep(s, a, Wake(last, flush)), b, l)
  {
  }

  lemma SendKeepsBalance(s: State, a: nat, b: nat, l: Log)
    requires b < |s.aggregators| == |s.contents| && a < |s.aggregators| && AggregatorEnabled(s, a, SendNext)
    requires AllOwnedBy(Rest(s.aggregators[a]), a) && Balanced(s, b, l)
    ensures Balanced(AggregatorStep(s, a, SendNext), b, l)
  {
    GroupCountAppend(s.history.sent, [s.aggregators[a].rest[0]], b, l);
  }

  lemma AggregatorKeepsBalance(s: State, a: nat, e: AggregatorEvent)
    requires |s.aggregators| == |s.contents| && AllBalanced(s) && a < |s.aggregators| && AggregatorEnabled(s, a, e)
    requires AllOwnedBy(Rest(s.aggregators[a]), a)
    ensures AllBalanced(AggregatorStep(s, a, e))
  {
    forall b, l | 0 <= b < |s.aggregators|
      ensures Balanced(AggregatorStep(s, a, e), b, l)
    {
      assert Balanced(s, b, l);
      match e
      case Wake(last, flush) => WakeKeepsBalance(s, a, last, flush, b, l);
      case SendNext => SendKeepsBalance(s, a, b, l);
      case EndOfLoop =>
    }
  }

  lemma AggregatorKeepsBounds(s: State, a: nat, e: AggregatorEvent)
    requires Bounded(s) && a < |s.aggregators| && AggregatorEnabled(s, a, e)
    ensures Bounded(AggregatorStep(s, a, e))
  {
  }

  lemma AggregatorKeepsEnding(s: State, a: nat, e: AggregatorEvent, b: nat)
    requires b < |s.aggregators| == |s.contents| && a < |s.aggregators| && AggregatorEnabled(s, a, e)
    requires Ending(s, a) && Ending(s, b)
    ensures Ending(AggregatorStep(s, a, e), b)
  {
  }

  lemma AggregatorKeepsStages(s: State, a: nat, e: AggregatorEvent)
    requires |s.contents| == |s.aggregators| && Staged(s) && a < |s.aggregators| && AggregatorEnabled(s, a, e)
    ensures Staged(AggregatorStep(s, a, e))
  {
    forall b | 0 <= b < |s.aggregators|
      ensures Ending(AggregatorStep(s, a, e), b)
    {
      assert Ending(s, a) && Ending(s, b);
      AggregatorKeepsEnding(s, a, e, b);
    }
    assert s.aggregators[a] != Returned;
  }

  lemma AggregatorKeepsOrder(s: State, a: nat, e: AggregatorEvent)
    requires |s.aggregators| == |s.contents| && a < |s.aggregators| && AggregatorEnabled(s, a, e)
    requires BatchCovered(s) && InOrder(s)
    ensures BatchCovered(AggregatorStep(s, a, e)) && InOrder(AggregatorStep(s, a, e))
  {
  }

  lemma AggregatorKeepsInvariant(s: State, a: nat, e: AggregatorEvent)
    requires Invariant(s) && a < |s.aggregators| && AggregatorEnabled(s, a, e)
    ensures Invariant(AggregatorStep(s, a, e))
  {
    AggregatorKeepsBalance(s, a, e);
    AggregatorKeepsBounds(s, a, e);
    AggregatorKeepsStages(s, a, e);
    AggregatorKeepsOrder(s, a, e);
  }

  lemma StepKeepsInvariant(s: State, e: Event)
    requires Invariant(s) && Enabled(s, e)
    ensures Invariant(Step(s, e))
  {
    match e
    case Inputs(i) => InputKeepsInvariant(s, i);
    case Processor(p) => ProcessorKeepsInvariant(s, p);
    case Aggregator(a, g) => AggregatorKeepsInvariant(s, a, g);
    case Flusher(f) => FlusherKeepsInvariant(s, f);
    case Stop(c) => StopKeepsInvariant(s, c);
  }

  function CountWithContents(logs: seq<Log>, l: Log): nat {
    if logs == [] then 0 else (if logs[0] == l && l.hasContents then 1 else 0) + CountWithContents(logs[1..], l)
  }

  /** One received log owes each processed log that has contents to every aggregator, once per occurrence. */
  lemma {:induction false} FanoutOwesEachAggregator(from: nat, limit: nat, logs: seq<Log>, a: nat, l: Log)
    requires from <= limit
    ensures TodoCount(Fanout(from, limit, logs), a, l) == if from <= a < limit then CountWithContents(logs, l) else 0
    decreases limit - from
  {
    if from < limit {
      ForAggregatorCount(from, logs, a, l);
      FanoutOwesEachAggregator(from + 1, limit, logs, a, l);
      TodoCountAppend(ForAggregator(from, logs), Fanout(from + 1, limit, logs), a, l);
    }
  }

  /** All logs taken owe each aggregator what the processors put out for them. */
  lemma {:induction false} FanoutAllOwes(n: nat, outputs: seq<seq<Log>>, a: nat, l: Log)
    requires a < n
    ensures TodoCount(FanoutAll(n, outputs), a, l) == Owed(outputs, l)
  {
    if outputs != [] {
      var init, last := outputs[..|outputs| - 1], outputs[|outputs| - 1];
      FanoutAllOwes(n, init, a, l);
      FanoutOwesEachAggregator(0, n, last, a, l);
      TodoCountAppend(FanoutAll(n, init), Fanout(0, n, last), a, l);
    }
  }

  lemma {:induction false} ForAggregatorCount(b: nat, logs: seq<Log>, a: nat, l: Log)
    ensures TodoCount(ForAggregator(b, logs), a, l) == if a == b then CountWithContents(logs, l) else 0
  {
    if logs != [] {
      ForAggregatorCount(b, logs[1..], a, l);
      if logs[0].hasContents {
        assert ForAggregator(b, logs)[1..] == ForAggregator(b, logs[1..]);
      } else {
        assert ForAggregator(b, logs) == ForAggregator(b, logs[1..]);
      }
    }
  }
}
