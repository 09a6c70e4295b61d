/**
  What the log of the pipeline manager shows over any sequence of updates: which pipelines run, that no name
  ever has two of them, and when file inputs are restarted while the file server is paused.
*/
module PipelineManagerRuns {
  import opened PipelineManager

  // ----- running pipelines -----

  function Effect(running: set<Pipeline>, a: Action): set<Pipeline> {
    match a
    case StartPipeline(p) => running + {p}
    case StopPipeline(p, _) => running - {p}
    case _ => running
  }

  function Running(log: seq<Action>): set<Pipeline> {
    if log == [] then {} else Effect(Running(log[..|log| - 1]), log[|log| - 1])
  }

  ghost predicate NamesUnique(ps: set<Pipeline>) {
    forall p, q :: p in ps && q in ps && p.config.name == q.config.name ==> p == q
  }

  /** At no moment of the log do two pipelines of the same name run. */
  ghost predicate AlwaysUnique(log: seq<Action>) {
    forall k :: 0 <= k <= |log| ==> NamesUnique(Running(log[..k]))
  }

  lemma Grow(log: seq<Action>, a: Action)
    requires AlwaysUnique(log) && NamesUnique(Effect(Running(log), a))
    ensures Running(log + [a]) == Effect(Running(log), a) && AlwaysUnique(log + [a])
  {
    var l := log + [a];
    assert l[..|l| - 1] == log;
    forall k | 0 <= k <= |l|
      ensures NamesUnique(Running(l[..k]))
    {
      if k <= |log| {
        assert l[..k] == log[..k];
      } else {
        assert l[..k] == l;
      }
    }
  }

  lemma Grow2(log: seq<Action>, a: Action, b: Action)
    requires AlwaysUnique(log) && NamesUnique(Effect(Running(log), a)) && b.Feedback?
    ensures Running(log + [a, b]) == Effect(Running(log), a) && AlwaysUnique(log + [a, b])
  {
    Grow(log, a);
    Grow(log + [a], b);
    assert log + [a, b] == log + [a] + [b];
  }

  lemma Grow3(log: seq<Action>, a: Action, b: Action, c: Action)
    requires AlwaysUnique(log) && NamesUnique(Effect(Running(log), a))
             && NamesUnique(Effect(Effect(Running(log), a), b))
    requires c.Feedback?
    ensures Running(log + [a, b, c]) == Effect(Effect(Running(log), a), b) && AlwaysUnique(log + [a, b, c])
  {
    Grow(log, a);
    Grow(log + [a], b);
    Grow(log + [a] + [b], c);
    assert log + [a, b, c] == log + [a] + [b] + [c];
  }

  /** The running pipelines are exactly the map's values, filed under their names. */
  ghost predicate Sound(s: State) {
    && (forall n :: n in s.pipelines ==> s.pipelines[n].config.name == n && s.pipelines[n].id < s.built)
    && (forall p :: p in Running(s.log) <==> p.config.name in s.pipelines && s.pipelines[p.config.name] == p)
    && AlwaysUnique(s.log)
  }

  lemma RemoveOneSound(s: State, name: string)
    requires Sound(s) && name in s.pipelines
    ensures Sound(RemoveOne(s, name))
  {
    var p := s.pipelines[name];
    Grow3(s.log, StopPipeline(p, true), DeleteQueue(p), Feedback(name, Deleted));
  }

  lemma ModifyOneSound(s: State, c: Config)
    requires Sound(s) && c.name in s.pipelines
    ensures Sound(ModifyOne(s, c))
  {
    var r := ModifyOne(s, c);
    if !c.builds {
      Grow(s.log, Feedback(c.name, Failed));
    } else {
      var o, p := s.pipelines[c.name], Pipeline(s.built, c);
      Grow3(s.log, StopPipeline(o, InputTypes(c) != InputTypes(o.config)), StartPipeline(p), Feedback(c.name, Applied));
    }
  }

  lemma AddOneSound(s: State, c: Config)
    requires Sound(s) && c.name !in s.pipelines
    ensures Sound(AddOne(s, c))
  {
    var r := AddOne(s, c);
    if !c.builds {
      Grow(s.log, Feedback(c.name, Failed));
    } else {
      var p := Pipeline(s.built, c);
      Grow2(s.log, StartPipeline(p), Feedback(c.name, Applied));
    }
  }

  lemma {:induction false} RemoveAllSound(s: State, names: seq<string>)
    requires Sound(s) && RemovedOk(s.pipelines, names)
    ensures Sound(RemoveAll(s, names))
    decreases |names|
  {
    if names != [] {
      RemoveOneSound(s, names[0]);
      RemoveAllSound(RemoveOne(s, names[0]), names[1..]);
    }
  }

  lemma {:induction false} ModifyAllSound(s: State, cs: seq<Config>)
    requires Sound(s) && ModifiedOk(s.pipelines, cs)
    ensures Sound(ModifyAll(s, cs))
    decreases |cs|
  {
    if cs != [] {
      ModifyOneSound(s, cs[0]);
      ModifyAllSound(ModifyOne(s, cs[0]), cs[1..]);
    }
  }

  lemma {:induction false} AddAllSound(s: State, cs: seq<Config>)
    requires Sound(s) && AddedOk(s.pipelines, cs)
    ensures Sound(AddAll(s, cs))
    decreases |cs|
  {
    if cs != [] {
      AddOneSound(s, cs[0]);
      AddAllSound(AddOne(s, cs[0]), cs[1..]);
    }
  }

  /** The states an update goes through between its loops. */
  function Opened(s: State, d: Diff): State
    requires WellFormed(s.pipelines, d)
  {
    if s.fileServerStarted && Detected(s.pipelines, d) then s.(log := s.log + [PauseFileServer]) else s
  }

  function Worked(s: State, d: Diff): State
    requires WellFormed(s.pipelines, d)
  {
    RemoveAllMap(Opened(s, d), d.removed);
    var s1 := RemoveAll(Opened(s, d), d.removed);
    ModifyAllMap(s1, d.modified);
    AddAll(ModifyAll(s1, d.modified), d.added)
  }

  function Closing(s: State, d: Diff): seq<Action>
    requires WellFormed(s.pipelines, d)
  {
    if !Detected(s.pipelines, d) then [] else if s.fileServerStarted then [ResumeFileServer] else [StartFileServer]
  }

  /** Actions on the file server leave the running pipelines as they are. */
  lemma FileServerSound(s: State, a: Action, started: bool)
    requires Sound(s) && Effect({}, a) == {} && !a.StopPipeline?
    ensures Sound(s.(log := s.log + [a], fileServerStarted := started))
  {
    Grow(s.log, a);
  }

  lemma WorkedSound(s: State, d: Diff)
    requires WellFormed(s.pipelines, d) && Sound(Opened(s, d))
    ensures Sound(Worked(s, d))
  {
    var s0 := Opened(s, d);
    RemoveAllMap(s0, d.removed);
    RemoveAllSound(s0, d.removed);
    var s1 := RemoveAll(s0, d.removed);
    ModifyAllMap(s1, d.modified);
    ModifyAllSound(s1, d.modified);
    AddAllSound(ModifyAll(s1, d.modified), d.added);
  }

  lemma UpdateSound(s: State, d: Diff)
    requires Sound(s) && WellFormed(s.pipelines, d)
    ensures Sound(Update(s, d))
  {
    if Opened(s, d) != s {
      FileServerSound(s, PauseFileServer, s.fileServerStarted);
    }
    WorkedSound(s, d);
    if Closing(s, d) != [] {
      FileServerSound(Worked(s, d), Closing(s, d)[0], true);
      FileServerSound(Worked(s, d), Closing(s, d)[0], Worked(s, d).fileServerStarted);
    }
  }

  predicate CanUpdate(s: State, ds: seq<Diff>)
    decreases |ds|
  {
    ds == [] || (WellFormed(s.pipelines, ds[0]) && CanUpdate(Update(s, ds[0]), ds[1..]))
  }

  function UpdateAll(s: State, ds: seq<Diff>): State
    requires CanUpdate(s, ds)
    decreases |ds|
  {
    if ds == [] then s else UpdateAll(Update(s, ds[0]), ds[1..])
  }

  const FRESH := State(map[], 0, false, [])

  /** Over any sequence of well-formed diffs the running pipelines are exactly the map's values, and at no
      moment do two pipelines of one name run. */
  lemma {:induction false} RunningIsTheMap(s: State, ds: seq<Diff>)
    requires Sound(s) && CanUpdate(s, ds)
    ensures Sound(UpdateAll(s, ds))
    decreases |ds|
  {
    if ds != [] {
      UpdateSound(s, ds[0]);
      RunningIsTheMap(Update(s, ds[0]), ds[1..]);
    }
  }

  /** In particular from the start of the agent. */
  lemma RunningIsTheMapFromStart(ds: seq<Diff>)
    requires CanUpdate(FRESH, ds)
    ensures Sound(UpdateAll(FRESH, ds))
  {
    assert Sound(FRESH);
    RunningIsTheMap(FRESH, ds);
  }

  // ----- the file server -----

  function Paused(log: seq<Action>): bool {
    if log == [] then false
    else
      match log[|log| - 1]
      case PauseFileServer => true
      case ResumeFileServer => false
      case _ => Paused(log[..|log| - 1])
  }

  predicate OnFileServer(a: Action) {
    a.PauseFileServer? || a.ResumeFileServer? || a.StartFileServer?
  }

  predicate RestartsFileInput(a: Action) {
    (a.StopPipeline? || a.StartPipeline?) && HasFileInput(a.p.config)
  }

  /** From the given moment on, pipelines with file inputs are stopped and started only while the file server is
      paused. */
  predicate Shielded(log: seq<Action>, from: nat) {
    forall i :: from <= i < |log| && RestartsFileInput(log[i]) ==> Paused(log[..i])
  }

  predicate NoneOnFileServer(acts: seq<Action>) {
    forall i :: 0 <= i < |acts| ==> !OnFileServer(acts[i])
  }

  predicate NoFileRestart(acts: seq<Action>) {
    forall i :: 0 <= i < |acts| ==> !RestartsFileInput(acts[i])
  }

  lemma {:induction false} PausedAcross(log: seq<Action>, acts: seq<Action>)
    requires NoneOnFileServer(acts)
    ensures Paused(log + acts) == Paused(log)
  {
    if acts == [] {
      assert log + acts == log;
    } else {
      PausedAcross(log, acts[..|acts| - 1]);
      assert (log + acts)[..|log + acts| - 1] == log + acts[..|acts| - 1];
    }
  }

  lemma Join(log: seq<Action>, a: seq<Action>, b: seq<Action>)
    requires NoneOnFileServer(a) && NoneOnFileServer(b)
    ensures (log + a) + b == log + (a + b) && NoneOnFileServer(a + b)
    ensures NoFileRestart(a + b) <==> NoFileRestart(a) && NoFileRestart(b)
  {
    assert forall i :: 0 <= i < |a| ==> (a + b)[i] == a[i];
    assert forall i :: 0 <= i < |b| ==> (a + b)[|a| + i] == b[i];
  }

  lemma {:induction false} RemoveAllLog(s: State, names: seq<string>) returns (acts: seq<Action>)
    requires RemovedOk(s.pipelines, names)
    ensures RemoveAll(s, names).log == s.log + acts && NoneOnFileServer(acts)
    ensures (forall i :: 0 <= i < |names| ==> !RemovedConcerns(s.pipelines, names[i])) ==> NoFileRestart(acts)
    decreases |names|
  {
    if names == [] {
      acts := [];
    } else {
      var r := RemoveOne(s, names[0]);
      var first := r.log[|s.log|..];
      var rest := RemoveAllLog(r, names[1..]);
      acts := first + rest;
      Join(s.log, first, rest);
      if forall i :: 0 <= i < |names| ==> !RemovedConcerns(s.pipelines, names[i]) {
        assert !RemovedConcerns(s.pipelines, names[0]);
        assert forall i :: 0 <= i < |names[1..]| ==> names[1..][i] == names[i + 1];
      }
    }
  }

  /** Modifying restarts a file input if an old pipeline had one, or a config that builds has one. */
  lemma {:induction false} ModifyAllLog(s: State, cs: seq<Config>) returns (acts: seq<Action>)
    requires ModifiedOk(s.pipelines, cs)
    ensures ModifyAll(s, cs).log == s.log + acts && NoneOnFileServer(acts)
    ensures NoOldFileInput(s, cs) ==> (NoFileRestart(acts) <==> NoNewFileInput(cs))
    decreases |cs|
  {
    if cs == [] {
      acts := [];
    } else {
      var r := ModifyOne(s, cs[0]);
      var first := r.log[|s.log|..];
      var rest := ModifyAllLog(r, cs[1..]);
      acts := first + rest;
      Join(s.log, first, rest);
      if NoOldFileInput(s, cs) {
        ModifyOneLog(s, cs[0], first);
        OldInputsAfter(s, cs);
        NewInputsTail(cs);
      }
    }
  }

  /** None of the pipelines that the configs modify has a file input. */
  predicate NoOldFileInput(s: State, cs: seq<Config>)
    requires ModifiedOk(s.pipelines, cs)
  {
    forall i :: 0 <= i < |cs| ==> !HasFileInput(s.pipelines[cs[i].name].config)
  }

  predicate NoNewFileInput(cs: seq<Config>) {
    forall i :: 0 <= i < |cs| && cs[i].builds ==> !HasFileInput(cs[i])
  }

  lemma OldInputsAfter(s: State, cs: seq<Config>)
    requires cs != [] && ModifiedOk(s.pipelines, cs) && NoOldFileInput(s, cs)
    requires ModifiedOk(ModifyOne(s, cs[0]).pipelines, cs[1..])
    ensures NoOldFileInput(ModifyOne(s, cs[0]), cs[1..])
  {
    forall i | 0 <= i < |cs[1..]|
      ensures !HasFileInput(ModifyOne(s, cs[0]).pipelines[cs[1..][i].name].config)
    {
      assert cs[1..][i] == cs[i + 1];
    }
  }

  lemma NewInputsTail(cs: seq<Config>)
    requires cs != []
    ensures NoNewFileInput(cs) <==> (cs[0].builds ==> !HasFileInput(cs[0])) && NoNewFileInput(cs[1..])
  {
    var rest := cs[1..];
    assert forall i :: 0 <= i < |rest| ==> rest[i] == cs[i + 1];
    if !NoNewFileInput(cs) && (cs[0].builds ==> !HasFileInput(cs[0])) {
      var i :| 0 <= i < |cs| && cs[i].builds && HasFileInput(cs[i]);
      assert rest[i - 1] == cs[i];
    }
  }

  lemma ModifyOneLog(s: State, c: Config, first: seq<Action>)
    requires c.name in s.pipelines && !HasFileInput(s.pipelines[c.name].config) && ModifyOne(s, c).log == s.log + first
    ensures NoFileRestart(first) <==> (c.builds ==> !HasFileInput(c))
  {
    assert first == ModifyOne(s, c).log[|s.log|..];
    if c.builds {
      assert first[1] == StartPipeline(Pipeline(s.built, c));
    }
  }

  lemma {:induction false} AddAllLog(s: State, cs: seq<Config>) returns (acts: seq<Action>)
    requires AddedOk(s.pipelines, cs)
    ensures AddAll(s, cs).log == s.log + acts && NoneOnFileServer(acts)
    ensures (forall i :: 0 <= i < |cs| ==> !HasFileInput(cs[i])) ==> NoFileRestart(acts)
    decreases |cs|
  {
    if cs == [] {
      acts := [];
    } else {
      var r := AddOne(s, cs[0]);
      var first := r.log[|s.log|..];
      var rest := AddAllLog(r, cs[1..]);
      acts := first + rest;
      Join(s.log, first, rest);
      assert forall i :: 0 <= i < |cs[1..]| ==> cs[1..][i] == cs[i + 1];
    }
  }

  /** A modified config that builds has a file input. */
  predicate BringsFileInput(d: Diff) {
    exists i :: 0 <= i < |d.modified| && d.modified[i].builds && HasFileInput(d.modified[i])
  }

  /** What the three loops of an update log; undetected, they restart a file input only for a modified config. */
  lemma WorkLog(s: State, d: Diff) returns (acts: seq<Action>)
    requires WellFormed(s.pipelines, d)
    ensures Worked(s, d).log == Opened(s, d).log + acts && NoneOnFileServer(acts)
    ensures !Detected(s.pipelines, d) ==> (NoFileRestart(acts) <==> !BringsFileInput(d))
  {
    var s0 := Opened(s, d);
    RemoveAllMap(s0, d.removed);
    var s1 := RemoveAll(s0, d.removed);
    ModifyAllMap(s1, d.modified);
    var s2 := ModifyAll(s1, d.modified);
    var a1 := RemoveAllLog(s0, d.removed);
    var a2 := ModifyAllLog(s1, d.modified);
    var a3 := AddAllLog(s2, d.added);
    Join(s0.log, a1, a2);
    Join(s0.log, a1 + a2, a3);
    acts := a1 + a2 + a3;
    if !Detected(s.pipelines, d) {
      forall i | 0 <= i < |d.modified|
        ensures !HasFileInput(s1.pipelines[d.modified[i].name].config)
      {
        assert !ModifiedConcerns(s.pipelines, d.modified[i]);
      }
    }
  }

  lemma LogParts(s: State, d: Diff)
    requires WellFormed(s.pipelines, d)
    ensures Update(s, d).log == Worked(s, d).log + Closing(s, d)
  {
  }

  /**
    Once the file server runs, an update leaves it unpaused, and restarts of file inputs lie between its Pause
    and Resume if and only if the change was detected or no modified config that builds has a file input.
  */
  lemma FileRestartsShielded(s: State, d: Diff)
    requires WellFormed(s.pipelines, d) && s.fileServerStarted && !Paused(s.log)
    ensures !Paused(Update(s, d).log) && Update(s, d).fileServerStarted
    ensures Shielded(Update(s, d).log, |s.log|) <==> Detected(s.pipelines, d) || !BringsFileInput(d)
  {
    LogParts(s, d);
    RemoveAllMap(Opened(s, d), d.removed);
    ModifyAllMap(RemoveAll(Opened(s, d), d.removed), d.modified);
    AddAllMap(ModifyAll(RemoveAll(Opened(s, d), d.removed), d.modified), d.added);
    var acts := WorkLog(s, d);
    if Detected(s.pipelines, d) {
      DetectedIsShielded(s.log, acts);
    } else {
      UndetectedIsExposed(s.log, acts);
    }
  }

  lemma DetectedIsShielded(log: seq<Action>, acts: seq<Action>)
    requires NoneOnFileServer(acts)
    ensures var l := log + [PauseFileServer] + acts + [ResumeFileServer]; Shielded(l, |log|) && !Paused(l)
  {
    var start := log + [PauseFileServer];
    var l := start + acts + [ResumeFileServer];
    forall i | |log| <= i < |l| && RestartsFileInput(l[i])
      ensures Paused(l[..i])
    {
      var j := i - |start|;
      assert l[|log|] == PauseFileServer && l[|l| - 1] == ResumeFileServer;
      assert l[..i] == start + acts[..j];
      PausedAcross(start, acts[..j]);
    }
  }

  lemma UndetectedIsExposed(log: seq<Action>, acts: seq<Action>)
    requires NoneOnFileServer(acts) && !Paused(log)
    ensures !Paused(log + acts)
    ensures Shielded(log + acts, |log|) <==> NoFileRestart(acts)
  {
    var l := log + acts;
    PausedAcross(log, acts);
    forall i | 0 <= i < |acts|
      ensures !Paused(l[..|log| + i]) && l[|log| + i] == acts[i]
    {
      assert l[..|log| + i] == log + acts[..i];
      PausedAcross(log, acts[..i]);
    }
    if Shielded(l, |log|) {
      forall i | 0 <= i < |acts|
        ensures !RestartsFileInput(acts[i])
      {
        assert l[|log| + i] == acts[i];
      }
    }
  }

  /** The file server is unpaused between updates, from the first one on. */
  lemma {:induction false} UnpausedBetweenUpdates(s: State, ds: seq<Diff>)
    requires CanUpdate(s, ds) && !Paused(s.log)
    ensures !Paused(UpdateAll(s, ds).log)
    decreases |ds|
  {
    if ds != [] {
      if s.fileServerStarted {
        FileRestartsShielded(s, ds[0]);
      } else {
        var acts := WorkLog(s, ds[0]);
        LogParts(s, ds[0]);
        PausedAcross(s.log, acts);
        PausedAfterClosing(Worked(s, ds[0]).log, Closing(s, ds[0]));
      }
      UnpausedBetweenUpdates(Update(s, ds[0]), ds[1..]);
    }
  }

  lemma PausedAfterClosing(log: seq<Action>, closing: seq<Action>)
    requires !Paused(log) && (closing == [] || closing == [StartFileServer])
    ensures !Paused(log + closing)
  {
    assert closing == [] ==> log + closing == log;
    assert closing != [] ==> (log + closing)[..|log + closing| - 1] == log;
  }

  /** A change that goes undetected: the new config puts its file input second. */
  lemma LateFileInputIsMissed()
    ensures var http := Config("c", ["input_http"], true);
            var s := State(map["c" := Pipeline(0, http)], 1, true, []);
            var d := Diff([], [Config("c", ["input_http", "input_file"], true)], []);
            WellFormed(s.pipelines, d) && !Shielded(Update(s, d).log, 0)
  {
    var http := Config("c", ["input_http"], true);
    var late := Config("c", ["input_http", "input_file"], true);
    var s := State(map["c" := Pipeline(0, http)], 1, true, []);
    var d := Diff([], [late], []);
    assert late.inputs[1] == "input_file" && HasFileInput(late);
    assert d.modified[0] == late && BringsFileInput(d);
    assert !HasFileInput(http);
    FileRestartsShielded(s, d);
  }

  // ----- pipelines that need the file server -----

  /** The file server runs, or no pipeline needs it. */
  predicate Served(s: State) {
    s.fileServerStarted || forall n :: n in s.pipelines ==> !HasFileInput(s.pipelines[n].config)
  }

  lemma StartedAfter(s: State, d: Diff)
    requires WellFormed(s.pipelines, d)
    ensures Update(s, d).fileServerStarted <==> s.fileServerStarted || Detected(s.pipelines, d)
  {
    var s0 := Opened(s, d);
    RemoveAllMap(s0, d.removed);
    var s1 := RemoveAll(s0, d.removed);
    ModifyAllMap(s1, d.modified);
    AddAllMap(ModifyAll(s1, d.modified), d.added);
  }

  /** Whatever the map holds after an update was there before, or is a config of the diff that builds. */
  lemma ComesFrom(s: State, d: Diff, n: string)
    requires WellFormed(s.pipelines, d) && n in Update(s, d).pipelines
    ensures var c := Update(s, d).pipelines[n].config;
            || (n in s.pipelines && c == s.pipelines[n].config)
            || (exists i :: 0 <= i < |d.modified| && d.modified[i].builds && c == d.modified[i])
            || (exists i :: 0 <= i < |d.added| && d.added[i].builds && c == d.added[i])
  {
    UpdateMap(s, d);
    if BuiltFrom(d.added, n) {
      var i :| 0 <= i < |d.added| && d.added[i].name == n && d.added[i].builds;
      assert Update(s, d).pipelines[n].config == d.added[i];
    } else if BuiltFrom(d.modified, n) {
      var i :| 0 <= i < |d.modified| && d.modified[i].name == n && d.modified[i].builds;
      assert Update(s, d).pipelines[n].config == d.modified[i];
    }
  }

  /**
    An update leaves every pipeline with a file input a file server if and only if one was started before, the
    change is detected, or no modified config that builds brings a file input.
  */
  lemma FileInputsServed(s: State, d: Diff)
    requires WellFormed(s.pipelines, d) && Served(s)
    ensures Served(Update(s, d)) <==> s.fileServerStarted || Detected(s.pipelines, d) || !BringsFileInput(d)
  {
    StartedAfter(s, d);
    if !s.fileServerStarted && !Detected(s.pipelines, d) {
      if BringsFileInput(d) {
        UpdateMap(s, d);
        var i :| 0 <= i < |d.modified| && d.modified[i].builds && HasFileInput(d.modified[i]);
        assert d.modified[i].name in Update(s, d).pipelines;
      } else {
        forall n | n in Update(s, d).pipelines
          ensures !HasFileInput(Update(s, d).pipelines[n].config)
        {
          ComesFrom(s, d, n);
        }
      }
    }
  }

  /** A pipeline with a file input and no file server at all. */
  lemma FileInputNotServed()
    ensures var http := Config("c", ["input_http"], true);
            var s := State(map["c" := Pipeline(0, http)], 1, false, []);
            var d := Diff([], [Config("c", ["input_http", "input_file"], true)], []);
            WellFormed(s.pipelines, d) && Served(s) && !Served(Update(s, d))
  {
    var http := Config("c", ["input_http"], true);
    var late := Config("c", ["input_http", "input_file"], true);
    var s := State(map["c" := Pipeline(0, http)], 1, false, []);
    var d := Diff([], [late], []);
    assert late.inputs[1] == "input_file" && HasFileInput(late);
    assert d.modified[0] == late && BringsFileInput(d);
    assert !HasFileInput(http);
    FileInputsServed(s, d);
  }
}
