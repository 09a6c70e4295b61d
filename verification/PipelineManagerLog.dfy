/**
  What one update does to the pipelines of each name, read off the log it writes: which pipeline is stopped and
  how, which one is started, what is reported, and in which order the names have their turn.
*/
module PipelineManagerLog {
  import opened PipelineManager
  import opened PipelineManagerRuns

  /** The name an action is about; actions on the file server are about none. */
  predicate IsAbout(a: Action, n: string) {
    match a
    case StopPipeline(p, _) => p.config.name == n
    case StartPipeline(p) => p.config.name == n
    case DeleteQueue(p) => p.config.name == n
    case Feedback(name, _) => name == n
    case _ => false
  }

  /** The actions about a name, in order. */
  function About(log: seq<Action>, n: string): seq<Action> {
    if log == [] then []
    else About(log[..|log| - 1], n) + if IsAbout(log[|log| - 1], n) then [log[|log| - 1]] else []
  }

  /** The names reported on, in order. */
  function Reported(log: seq<Action>): seq<string> {
    if log == [] then []
    else Reported(log[..|log| - 1]) + if log[|log| - 1].Feedback? then [log[|log| - 1].name] else []
  }

  lemma {:induction false} AboutGrows(log: seq<Action>, acts: seq<Action>, n: string)
    ensures About(log + acts, n) == About(log, n) + About(acts, n)
    ensures Reported(log + acts) == Reported(log) + Reported(acts)
  {
    var l := log + acts;
    if acts == [] {
      assert l == log;
    } else {
      assert l[..|l| - 1] == log + acts[..|acts| - 1];
      AboutGrows(log, acts[..|acts| - 1], n);
    }
  }

  lemma {:induction false} AboutHas(log: seq<Action>, a: Action, n: string)
    requires IsAbout(a, n)
    ensures a in About(log, n) <==> a in log
  {
    if log != [] {
      AboutHas(log[..|log| - 1], a, n);
      assert log == log[..|log| - 1] + [log[|log| - 1]];
    }
  }

  lemma About1(a: Action, n: string)
    ensures About([a], n) == if IsAbout(a, n) then [a] else []
    ensures Reported([a]) == if a.Feedback? then [a.name] else []
  {
    assert [a][..0] == [];
  }

  lemma {:induction false} AboutAll(acts: seq<Action>, name: string, n: string)
    requires forall i :: 0 <= i < |acts| ==> IsAbout(acts[i], name)
    ensures About(acts, n) == if n == name then acts else []
  {
    if acts != [] {
      var k := |acts| - 1;
      AboutAll(acts[..k], name, n);
      assert acts == acts[..k] + [acts[k]];
    }
  }

  /** A block of actions that are all about one name. */
  lemma Block(log: seq<Action>, acts: seq<Action>, name: string, n: string)
    requires forall i :: 0 <= i < |acts| ==> IsAbout(acts[i], name)
    ensures About(log + acts, n) == About(log, n) + if n == name then acts else []
  {
    AboutGrows(log, acts, n);
    AboutAll(acts, name, n);
  }

  /** Pipelines are filed under the names of their configs. */
  predicate Filed(m: map<string, Pipeline>) {
    forall n :: n in m ==> m[n].config.name == n
  }

  /** Some input type is in one config and not in the other. */
  ghost predicate TypesDiffer(a: Config, b: Config) {
    exists t :: (t in a.inputs) != (t in b.inputs)
  }

  lemma TypeSets(a: Config, b: Config)
    ensures InputTypes(a) != InputTypes(b) <==> TypesDiffer(a, b)
  {
    assert forall t :: t in a.inputs <==> t in InputTypes(a);
    assert forall t :: t in b.inputs <==> t in InputTypes(b);
    assert TypesDiffer(a, b) || forall t :: t in a.inputs <==> t in b.inputs;
  }

  // ----- one entry -----

  /** The actions of one entry of a diff. */
  ghost function RemovedActs(p: Pipeline, n: string): seq<Action> {
    [StopPipeline(p, true), DeleteQueue(p), Feedback(n, Deleted)]
  }

  ghost function ModifiedActs(p: Pipeline, q: Pipeline, c: Config): seq<Action> {
    if c.builds then [StopPipeline(p, TypesDiffer(p.config, c)), StartPipeline(q), Feedback(c.name, Applied)]
    else [Feedback(c.name, Failed)]
  }

  ghost function AddedActs(q: Pipeline, c: Config): seq<Action> {
    if c.builds then [StartPipeline(q), Feedback(c.name, Applied)] else [Feedback(c.name, Failed)]
  }

  lemma RemoveOneAbout(s: State, name: string, n: string)
    requires name in s.pipelines && Filed(s.pipelines)
    ensures About(RemoveOne(s, name).log, n)
            == About(s.log, n) + if n == name then RemovedActs(s.pipelines[name], n) else []
  {
    Block(s.log, RemovedActs(s.pipelines[name], name), name, n);
  }

  lemma ModifyOneAbout(s: State, c: Config, n: string)
    requires c.name in s.pipelines && Filed(s.pipelines)
    ensures About(ModifyOne(s, c).log, n)
            == About(s.log, n)
               + if n == c.name then ModifiedActs(s.pipelines[n], ModifyOne(s, c).pipelines[n], c) else []
  {
    TypeSets(c, s.pipelines[c.name].config);
    Block(s.log, ModifiedActs(s.pipelines[c.name], ModifyOne(s, c).pipelines[c.name], c), c.name, n);
  }

  lemma AddOneAbout(s: State, c: Config, n: string)
    ensures var q := if c.builds then AddOne(s, c).pipelines[c.name] else Pipeline(0, c);
            About(AddOne(s, c).log, n) == About(s.log, n) + if n == c.name then AddedActs(q, c) else []
  {
    var q := if c.builds then AddOne(s, c).pipelines[c.name] else Pipeline(0, c);
    Block(s.log, AddedActs(q, c), c.name, n);
  }

  // ----- the three loops -----

  lemma {:induction false} RemoveAllAbout(s: State, names: seq<string>, n: string)
    requires RemovedOk(s.pipelines, names) && Filed(s.pipelines)
    ensures About(RemoveAll(s, names).log, n)
            == About(s.log, n) + if n in names then RemovedActs(s.pipelines[n], n) else []
    decreases |names|
  {
    if names != [] {
      RemoveOneAbout(s, names[0], n);
      RemoveAllAbout(RemoveOne(s, names[0]), names[1..], n);
      assert n in names <==> n == names[0] || n in names[1..];
    }
  }

  predicate Names(cs: seq<Config>, n: string) {
    exists i :: 0 <= i < |cs| && cs[i].name == n
  }

  lemma NamesTail(cs: seq<Config>, n: string)
    requires cs != [] && !Names(cs, n)
    ensures cs[0].name != n && !Names(cs[1..], n)
  {
    assert forall i :: 0 <= i < |cs[1..]| ==> cs[1..][i] == cs[i + 1];
  }

  lemma {:induction false} ModifyAllOthers(s: State, cs: seq<Config>, n: string)
    requires ModifiedOk(s.pipelines, cs) && Filed(s.pipelines) && !Names(cs, n)
    ensures About(ModifyAll(s, cs).log, n) == About(s.log, n)
    decreases |cs|
  {
    if cs != [] {
      NamesTail(cs, n);
      ModifyOneAbout(s, cs[0], n);
      ModifyAllOthers(ModifyOne(s, cs[0]), cs[1..], n);
    }
  }

  lemma HeadNotInTail(cs: seq<Config>)
    requires cs != [] && DistinctConfigs(cs)
    ensures !Names(cs[1..], cs[0].name) && !BuiltFrom(cs[1..], cs[0].name)
  {
    assert forall i :: 0 <= i < |cs[1..]| ==> cs[1..][i] == cs[i + 1];
  }

  lemma ModifyGoesOn(s: State, cs: seq<Config>)
    requires cs != [] && ModifiedOk(s.pipelines, cs) && Filed(s.pipelines)
    ensures ModifiedOk(ModifyOne(s, cs[0]).pipelines, cs[1..]) && Filed(ModifyOne(s, cs[0]).pipelines)
    ensures ModifyAll(s, cs) == ModifyAll(ModifyOne(s, cs[0]), cs[1..])
    ensures forall i :: 0 < i < |cs| ==> ModifyOne(s, cs[0]).pipelines[cs[i].name] == s.pipelines[cs[i].name]
  {
  }

  /** The name of the first config is done with after its turn. */
  lemma ModifyFirst(s: State, cs: seq<Config>)
    requires cs != [] && ModifiedOk(s.pipelines, cs) && Filed(s.pipelines)
    ensures var n, s1, r := cs[0].name, ModifyOne(s, cs[0]), ModifyAll(s, cs);
            n in r.pipelines && r.pipelines[n] == s1.pipelines[n] && About(r.log, n) == About(s1.log, n)
  {
    ModifyGoesOn(s, cs);
    HeadNotInTail(cs);
    ModifyAllMap(ModifyOne(s, cs[0]), cs[1..]);
    ModifyAllOthers(ModifyOne(s, cs[0]), cs[1..], cs[0].name);
  }

  lemma {:induction false} ModifyAllOwn(s: State, cs: seq<Config>, i: nat)
    requires ModifiedOk(s.pipelines, cs) && Filed(s.pipelines) && i < |cs|
    ensures cs[i].name in ModifyAll(s, cs).pipelines
    ensures var n := cs[i].name;
            About(ModifyAll(s, cs).log, n)
            == About(s.log, n) + ModifiedActs(s.pipelines[n], ModifyAll(s, cs).pipelines[n], cs[i])
    decreases |cs|
  {
    ModifyOneAbout(s, cs[0], cs[i].name);
    if i == 0 {
      ModifyFirst(s, cs);
    } else {
      ModifyGoesOn(s, cs);
      assert cs[1..][i - 1] == cs[i] && cs[0].name != cs[i].name;
      ModifyAllOwn(ModifyOne(s, cs[0]), cs[1..], i - 1);
    }
  }

  lemma {:induction false} AddAllOthers(s: State, cs: seq<Config>, n: string)
    requires AddedOk(s.pipelines, cs) && !Names(cs, n)
    ensures About(AddAll(s, cs).log, n) == About(s.log, n)
    decreases |cs|
  {
    if cs != [] {
      NamesTail(cs, n);
      AddOneAbout(s, cs[0], n);
      AddAllOthers(AddOne(s, cs[0]), cs[1..], n);
    }
  }

  /** The name of the first config is done with after its turn. */
  lemma AddFirst(s: State, cs: seq<Config>)
    requires cs != [] && AddedOk(s.pipelines, cs)
    ensures var n, s1, r := cs[0].name, AddOne(s, cs[0]), AddAll(s, cs);
            && About(r.log, n) == About(s1.log, n)
            && (cs[0].builds ==> n in r.pipelines && r.pipelines[n] == s1.pipelines[n])
  {
    HeadNotInTail(cs);
    AddAllMap(AddOne(s, cs[0]), cs[1..]);
    AddAllOthers(AddOne(s, cs[0]), cs[1..], cs[0].name);
  }

  lemma {:induction false} AddAllOwn(s: State, cs: seq<Config>, i: nat)
    requires AddedOk(s.pipelines, cs) && i < |cs|
    ensures cs[i].builds ==> cs[i].name in AddAll(s, cs).pipelines
    ensures var n, r := cs[i].name, AddAll(s, cs);
            About(r.log, n)
            == About(s.log, n) + AddedActs(if cs[i].builds then r.pipelines[n] else Pipeline(0, cs[i]), cs[i])
    decreases |cs|
  {
    AddOneAbout(s, cs[0], cs[i].name);
    if i == 0 {
      AddFirst(s, cs);
    } else {
      assert cs[1..][i - 1] == cs[i] && cs[0].name != cs[i].name;
      AddAllOwn(AddOne(s, cs[0]), cs[1..], i - 1);
    }
  }

  // ----- an update -----

  /** Actions on the file server are about no name and report on none. */
  lemma OnFileServerOnly(log: seq<Action>, acts: seq<Action>, n: string)
    requires acts == [] || (|acts| == 1 && OnFileServer(acts[0]))
    ensures About(log + acts, n) == About(log, n) && Reported(log + acts) == Reported(log)
  {
    AboutGrows(log, acts, n);
    if acts != [] {
      assert acts == [acts[0]];
      About1(acts[0], n);
    }
  }

  /** The log of an update around the work of its loops. */
  lemma AroundTheWork(s: State, d: Diff, n: string)
    requires WellFormed(s.pipelines, d)
    ensures About(Opened(s, d).log, n) == About(s.log, n) && Reported(Opened(s, d).log) == Reported(s.log)
    ensures About(Update(s, d).log, n) == About(Worked(s, d).log, n)
    ensures Reported(Update(s, d).log) == Reported(Worked(s, d).log)
    ensures Opened(s, d).pipelines == s.pipelines && Update(s, d).pipelines == Worked(s, d).pipelines
  {
    OnFileServerOnly(s.log, [PauseFileServer], n);
    LogParts(s, d);
    OnFileServerOnly(Worked(s, d).log, Closing(s, d), n);
  }

  /** A removed pipeline is stopped completely, its queue is deleted, and its name is reported as deleted. */
  lemma RemovedName(s: State, d: Diff, n: string)
    requires WellFormed(s.pipelines, d) && Filed(s.pipelines) && n in d.removed
    ensures About(Update(s, d).log, n)
            == About(s.log, n)
               + [StopPipeline(s.pipelines[n], true), DeleteQueue(s.pipelines[n]), Feedback(n, Deleted)]
  {
    AroundTheWork(s, d, n);
    var s0 := Opened(s, d);
    RemoveAllAbout(s0, d.removed, n);
    RemoveAllMap(s0, d.removed);
    var s1 := RemoveAll(s0, d.removed);
    ModifyAllOthers(s1, d.modified, n);
    ModifyAllMap(s1, d.modified);
    AddAllOthers(ModifyAll(s1, d.modified), d.added, n);
  }

  lemma RemovingLeavesModified(s: State, d: Diff, i: nat)
    requires WellFormed(s.pipelines, d) && Filed(s.pipelines) && i < |d.modified|
    ensures var n, s1 := d.modified[i].name, RemoveAll(s, d.removed);
            && ModifiedOk(s1.pipelines, d.modified) && Filed(s1.pipelines)
            && s1.pipelines[n] == s.pipelines[n] && About(s1.log, n) == About(s.log, n)
  {
    RemoveAllAbout(s, d.removed, d.modified[i].name);
    RemoveAllMap(s, d.removed);
  }

  lemma AddingLeavesModified(s: State, d: Diff, i: nat)
    requires WellFormed(s.pipelines, d) && i < |d.modified|
    ensures var n := d.modified[i].name;
            && ModifiedOk(RemoveAll(s, d.removed).pipelines, d.modified)
            && var s2 := ModifyAll(RemoveAll(s, d.removed), d.modified);
               && AddedOk(s2.pipelines, d.added) && n in s2.pipelines && n in AddAll(s2, d.added).pipelines
               && AddAll(s2, d.added).pipelines[n] == s2.pipelines[n]
               && About(AddAll(s2, d.added).log, n) == About(s2.log, n)
  {
    RemoveAllMap(s, d.removed);
    ModifyAllMap(RemoveAll(s, d.removed), d.modified);
    var s2 := ModifyAll(RemoveAll(s, d.removed), d.modified);
    AddAllOthers(s2, d.added, d.modified[i].name);
    AddAllMap(s2, d.added);
  }

  lemma ModifiedNameActs(s: State, d: Diff, i: nat)
    requires WellFormed(s.pipelines, d) && Filed(s.pipelines) && i < |d.modified|
    ensures var c, r := d.modified[i], Update(s, d);
            && c.name in r.pipelines
            && About(r.log, c.name)
               == About(s.log, c.name) + ModifiedActs(s.pipelines[c.name], r.pipelines[c.name], c)
  {
    AroundTheWork(s, d, d.modified[i].name);
    RemovingLeavesModified(Opened(s, d), d, i);
    ModifyAllOwn(RemoveAll(Opened(s, d), d.removed), d.modified, i);
    AddingLeavesModified(Opened(s, d), d, i);
  }

  /** A modified config that builds replaces its pipeline, which is stopped completely if and only if some input
      type is in one of the two configs alone; one that does not build is only reported. */
  lemma ModifiedName(s: State, d: Diff, i: nat)
    requires WellFormed(s.pipelines, d) && Filed(s.pipelines) && i < |d.modified|
    ensures var c := d.modified[i];
            && c.name in Update(s, d).pipelines
            && var p, q := s.pipelines[c.name], Update(s, d).pipelines[c.name];
               About(Update(s, d).log, c.name)
               == About(s.log, c.name)
                  + if c.builds then
                      [StopPipeline(p, exists t :: (t in p.config.inputs) != (t in c.inputs)), StartPipeline(q),
                       Feedback(c.name, Applied)]
                    else [Feedback(c.name, Failed)]
  {
    ModifiedNameActs(s, d, i);
  }

  /** An added config that builds is started; one that does not is only reported. */
  lemma AddedName(s: State, d: Diff, i: nat)
    requires WellFormed(s.pipelines, d) && Filed(s.pipelines) && i < |d.added|
    ensures var c := d.added[i];
            && (c.builds ==> c.name in Update(s, d).pipelines)
            && About(Update(s, d).log, c.name)
               == About(s.log, c.name)
                  + if c.builds then [StartPipeline(Update(s, d).pipelines[c.name]), Feedback(c.name, Applied)]
                    else [Feedback(c.name, Failed)]
  {
    var c := d.added[i];
    AroundTheWork(s, d, c.name);
    var s0 := Opened(s, d);
    RemoveAllAbout(s0, d.removed, c.name);
    RemoveAllMap(s0, d.removed);
    var s1 := RemoveAll(s0, d.removed);
    ModifyAllOthers(s1, d.modified, c.name);
    ModifyAllMap(s1, d.modified);
    AddAllOwn(ModifyAll(s1, d.modified), d.added, i);
  }

  /** Nothing is done about a name that is not in the diff. */
  lemma OtherName(s: State, d: Diff, n: string)
    requires WellFormed(s.pipelines, d) && Filed(s.pipelines)
    requires n !in d.removed && !Names(d.modified, n) && !Names(d.added, n)
    ensures About(Update(s, d).log, n) == About(s.log, n)
  {
    AroundTheWork(s, d, n);
    var s0 := Opened(s, d);
    RemoveAllAbout(s0, d.removed, n);
    RemoveAllMap(s0, d.removed);
    var s1 := RemoveAll(s0, d.removed);
    ModifyAllOthers(s1, d.modified, n);
    ModifyAllMap(s1, d.modified);
    AddAllOthers(ModifyAll(s1, d.modified), d.added, n);
  }

  /** What an update adds to the log: the work of its loops, between pausing and resuming the file server, or before
      starting it. */
  lemma NewActions(s: State, d: Diff) returns (acts: seq<Action>)
    requires WellFormed(s.pipelines, d)
    ensures NoneOnFileServer(acts)
    ensures Update(s, d).log
            == s.log + if !Detected(s.pipelines, d) then acts
                       else if s.fileServerStarted then [PauseFileServer] + acts + [ResumeFileServer]
                       else acts + [StartFileServer]
  {
    acts := WorkLog(s, d);
    LogParts(s, d);
  }

  /** The new part of the log holds, of the actions about a name, those that an update adds about it. */
  lemma NewAbout(s: State, d: Diff, a: Action, n: string, acts: seq<Action>)
    requires WellFormed(s.pipelines, d) && IsAbout(a, n)
    requires About(Update(s, d).log, n) == About(s.log, n) + acts
    ensures s.log <= Update(s, d).log
    ensures a in Update(s, d).log[|s.log|..] <==> a in acts
  {
    var _ := NewActions(s, d);
    var l := Update(s, d).log;
    var new_ := l[|s.log|..];
    assert l == s.log + new_;
    AboutGrows(s.log, new_, n);
    assert About(new_, n) == About(l, n)[|About(s.log, n)|..] == acts;
    AboutHas(new_, a, n);
  }

  /** The pipeline's replacement builds and has an input type it has not, or lacks one it has. */
  ghost predicate ReplacedByOtherTypes(d: Diff, p: Pipeline) {
    exists i :: 0 <= i < |d.modified| && d.modified[i].name == p.config.name && d.modified[i].builds
                && TypesDiffer(p.config, d.modified[i])
  }

  ghost predicate ReplacedBySameTypes(d: Diff, p: Pipeline) {
    exists i :: 0 <= i < |d.modified| && d.modified[i].name == p.config.name && d.modified[i].builds
                && !TypesDiffer(p.config, d.modified[i])
  }

  /** The pipeline was there and is removed, or replaced by other input types. */
  ghost predicate StoppedForGood(m: map<string, Pipeline>, d: Diff, p: Pipeline) {
    && p.config.name in m && p == m[p.config.name]
    && (p.config.name in d.removed || ReplacedByOtherTypes(d, p))
  }

  ghost predicate StoppedForNow(m: map<string, Pipeline>, d: Diff, p: Pipeline) {
    p.config.name in m && p == m[p.config.name] && ReplacedBySameTypes(d, p)
  }

  lemma StopOfRemoved(s: State, d: Diff, p: Pipeline, flag: bool)
    requires WellFormed(s.pipelines, d) && Filed(s.pipelines) && p.config.name in d.removed
    ensures s.log <= Update(s, d).log
    ensures StopPipeline(p, flag) in Update(s, d).log[|s.log|..]
            <==> if flag then StoppedForGood(s.pipelines, d, p) else StoppedForNow(s.pipelines, d, p)
  {
    var n := p.config.name;
    RemovedName(s, d, n);
    NewAbout(s, d, StopPipeline(p, flag), n, RemovedActs(s.pipelines[n], n));
  }

  lemma StopOfModified(s: State, d: Diff, p: Pipeline, flag: bool, i: nat)
    requires WellFormed(s.pipelines, d) && Filed(s.pipelines)
    requires i < |d.modified| && d.modified[i].name == p.config.name
    ensures s.log <= Update(s, d).log
    ensures StopPipeline(p, flag) in Update(s, d).log[|s.log|..]
            <==> if flag then StoppedForGood(s.pipelines, d, p) else StoppedForNow(s.pipelines, d, p)
  {
    var n, c := p.config.name, d.modified[i];
    ModifiedNameActs(s, d, i);
    assert forall j :: 0 <= j < |d.modified| && d.modified[j].name == n ==> j == i;
    NewAbout(s, d, StopPipeline(p, flag), n, ModifiedActs(s.pipelines[n], Update(s, d).pipelines[n], c));
  }

  lemma StopOfAdded(s: State, d: Diff, p: Pipeline, flag: bool, i: nat)
    requires WellFormed(s.pipelines, d) && Filed(s.pipelines)
    requires i < |d.added| && d.added[i].name == p.config.name
    ensures s.log <= Update(s, d).log && StopPipeline(p, flag) !in Update(s, d).log[|s.log|..]
  {
    var n, c := p.config.name, d.added[i];
    AddedName(s, d, i);
    var q := if c.builds then Update(s, d).pipelines[n] else p;
    NewAbout(s, d, StopPipeline(p, flag), n, AddedActs(q, c));
  }

  lemma StopOfOther(s: State, d: Diff, p: Pipeline, flag: bool)
    requires WellFormed(s.pipelines, d) && Filed(s.pipelines)
    requires p.config.name !in d.removed && !Names(d.modified, p.config.name) && !Names(d.added, p.config.name)
    ensures s.log <= Update(s, d).log && StopPipeline(p, flag) !in Update(s, d).log[|s.log|..]
  {
    OtherName(s, d, p.config.name);
    NewAbout(s, d, StopPipeline(p, flag), p.config.name, []);
  }

  /** Which pipelines an update stops, and how: completely when removed or replaced by other input types, and with
      the flag off when replaced by the same types. */
  lemma WhoIsStopped(s: State, d: Diff, p: Pipeline, flag: bool)
    requires WellFormed(s.pipelines, d) && Filed(s.pipelines)
    ensures s.log <= Update(s, d).log
    ensures StopPipeline(p, flag) in Update(s, d).log[|s.log|..]
            <==> if flag then StoppedForGood(s.pipelines, d, p) else StoppedForNow(s.pipelines, d, p)
  {
    var n := p.config.name;
    if n in d.removed {
      StopOfRemoved(s, d, p, flag);
    } else if Names(d.modified, n) {
      var i :| 0 <= i < |d.modified| && d.modified[i].name == n;
      StopOfModified(s, d, p, flag, i);
    } else if Names(d.added, n) {
      var i :| 0 <= i < |d.added| && d.added[i].name == n;
      StopOfAdded(s, d, p, flag, i);
    } else {
      StopOfOther(s, d, p, flag);
    }
  }

  function NamesOf(cs: seq<Config>): seq<string> {
    seq(|cs|, i requires 0 <= i < |cs| => cs[i].name)
  }

  lemma NamesOfFirst(cs: seq<Config>)
    requires cs != []
    ensures NamesOf(cs) == [cs[0].name] + NamesOf(cs[1..])
  {
  }

  lemma Regroup(a: seq<string>, x: string, b: seq<string>)
    ensures (a + [x]) + b == a + ([x] + b)
  {
  }

  lemma ReportsFirst(a: Action, acts: seq<Action>)
    ensures Reported([a] + acts) == (if a.Feedback? then [a.name] else []) + Reported(acts)
  {
    AboutGrows([a], acts, "");
    About1(a, "");
  }

  lemma ReportsEnd(a: Action, b: Action, n: string, status: Status)
    requires !a.Feedback? && !b.Feedback?
    ensures Reported([a, b, Feedback(n, status)]) == [n]
    ensures Reported([b, Feedback(n, status)]) == [n]
    ensures Reported([Feedback(n, status)]) == [n]
  {
    var f := Feedback(n, status);
    About1(f, n);
    ReportsFirst(b, [f]);
    ReportsFirst(a, [b] + [f]);
    assert [b] + [f] == [b, f] && [a] + [b, f] == [a, b, f];
  }

  lemma RemoveOneReports(s: State, n: string)
    requires n in s.pipelines
    ensures Reported(RemoveOne(s, n).log) == Reported(s.log) + [n]
  {
    var p := s.pipelines[n];
    var acts := [StopPipeline(p, true), DeleteQueue(p), Feedback(n, Deleted)];
    ReportsEnd(acts[0], acts[1], n, Deleted);
    AboutGrows(s.log, acts, n);
  }

  lemma ModifyOneReports(s: State, c: Config)
    requires c.name in s.pipelines
    ensures Reported(ModifyOne(s, c).log) == Reported(s.log) + [c.name]
  {
    var p, n := s.pipelines[c.name], c.name;
    if c.builds {
      var flag := InputTypes(c) != InputTypes(p.config);
      var acts := [StopPipeline(p, flag), StartPipeline(Pipeline(s.built, c)), Feedback(n, Applied)];
      ReportsEnd(acts[0], acts[1], n, Applied);
      AboutGrows(s.log, acts, n);
    } else {
      ReportsEnd(PauseFileServer, PauseFileServer, n, Failed);
      AboutGrows(s.log, [Feedback(n, Failed)], n);
    }
  }

  lemma AddOneReports(s: State, c: Config)
    ensures Reported(AddOne(s, c).log) == Reported(s.log) + [c.name]
  {
    var n, start := c.name, StartPipeline(Pipeline(s.built, c));
    if c.builds {
      ReportsEnd(start, start, n, Applied);
      AboutGrows(s.log, [start, Feedback(n, Applied)], n);
    } else {
      ReportsEnd(start, start, n, Failed);
      AboutGrows(s.log, [Feedback(n, Failed)], n);
    }
  }

  lemma RemoveGoesOn(s: State, names: seq<string>)
    requires names != [] && RemovedOk(s.pipelines, names)
    ensures RemovedOk(RemoveOne(s, names[0]).pipelines, names[1..])
    ensures RemoveAll(s, names) == RemoveAll(RemoveOne(s, names[0]), names[1..])
  {
  }

  lemma {:induction false} RemoveAllReports(s: State, names: seq<string>)
    requires RemovedOk(s.pipelines, names)
    ensures Reported(RemoveAll(s, names).log) == Reported(s.log) + names
    decreases |names|
  {
    if names != [] {
      RemoveOneReports(s, names[0]);
      RemoveGoesOn(s, names);
      RemoveAllReports(RemoveOne(s, names[0]), names[1..]);
      Regroup(Reported(s.log), names[0], names[1..]);
    }
  }

  lemma {:induction false} ModifyAllReports(s: State, cs: seq<Config>)
    requires ModifiedOk(s.pipelines, cs)
    ensures Reported(ModifyAll(s, cs).log) == Reported(s.log) + NamesOf(cs)
    decreases |cs|
  {
    if cs != [] {
      ModifyOneReports(s, cs[0]);
      ModifyAllReports(ModifyOne(s, cs[0]), cs[1..]);
      NamesOfFirst(cs);
      Regroup(Reported(s.log), cs[0].name, NamesOf(cs[1..]));
    }
  }

  lemma {:induction false} AddAllReports(s: State, cs: seq<Config>)
    requires AddedOk(s.pipelines, cs)
    ensures Reported(AddAll(s, cs).log) == Reported(s.log) + NamesOf(cs)
    decreases |cs|
  {
    if cs != [] {
      AddOneReports(s, cs[0]);
      AddAllReports(AddOne(s, cs[0]), cs[1..]);
      NamesOfFirst(cs);
      Regroup(Reported(s.log), cs[0].name, NamesOf(cs[1..]));
    }
  }

  /** Every name of the diff is reported on once: the removed ones first, then the modified, then the added. */
  lemma ReportsInOrder(s: State, d: Diff)
    requires WellFormed(s.pipelines, d)
    ensures Reported(Update(s, d).log) == Reported(s.log) + d.removed + NamesOf(d.modified) + NamesOf(d.added)
  {
    AroundTheWork(s, d, "");
    var s0 := Opened(s, d);
    RemoveAllReports(s0, d.removed);
    RemoveAllMap(s0, d.removed);
    var s1 := RemoveAll(s0, d.removed);
    ModifyAllReports(s1, d.modified);
    ModifyAllMap(s1, d.modified);
    AddAllReports(ModifyAll(s1, d.modified), d.added);
  }

  /** The two types of inputs that need the file server. */
  lemma FileInputTypes(c: Config)
    ensures HasFileInput(c) <==> "input_file" in c.inputs || "input_container_stdio" in c.inputs
  {
    if "input_file" in c.inputs {
      var i :| 0 <= i < |c.inputs| && c.inputs[i] == "input_file";
      assert IsFileInput(c.inputs[i]);
    }
    if "input_container_stdio" in c.inputs {
      var i :| 0 <= i < |c.inputs| && c.inputs[i] == "input_container_stdio";
      assert IsFileInput(c.inputs[i]);
    }
  }
}
