/**
  CollectionPipelineManager::UpdatePipelines as a machine driven by config diffs.

  The manager's state is the map of pipelines by name, whether the file server was started, and the log of
  what it did to pipelines and to the file server.  The class runs the source's loops; each is proved to be
  a fold of one-entry updates, and what the manager promises is proved about those folds over any sequence
  of well-formed diffs.
*/
module PipelineManager {

  /** A config; whether it builds is decided by plugins outside this model. */
  datatype Config = Config(name: string, inputs: seq<string>, builds: bool)

  /** Pipelines are told apart by the order in which they were built. */
  datatype Pipeline = Pipeline(id: nat, config: Config)

  datatype Status = Applied | Failed | Deleted

  datatype Action =
    | PauseFileServer
    | ResumeFileServer
    | StartFileServer
    | StopPipeline(p: Pipeline, completely: bool)
    | StartPipeline(p: Pipeline)
    | DeleteQueue(p: Pipeline)
    | Feedback(name: string, status: Status)

  datatype Diff = Diff(added: seq<Config>, modified: seq<Config>, removed: seq<string>)

  datatype State = State(pipelines: map<string, Pipeline>, built: nat, fileServerStarted: bool, log: seq<Action>)

  // ----- which diffs concern the file server -----

  predicate IsFileInput(input: string) {
    input == "input_file" || input == "input_container_stdio"
  }

  predicate HasFileInput(c: Config) {
    exists i :: 0 <= i < |c.inputs| && IsFileInput(c.inputs[i])
  }

  predicate RemovedConcerns(m: map<string, Pipeline>, name: string) {
    name in m && HasFileInput(m[name].config)
  }

  /** Of a modified config only the first new input is looked at, but every old one. */
  predicate ModifiedConcerns(m: map<string, Pipeline>, c: Config)
    requires c.inputs != []
  {
    IsFileInput(c.inputs[0]) || (c.name in m && HasFileInput(m[c.name].config))
  }

  predicate Detected(m: map<string, Pipeline>, d: Diff)
    requires forall i :: 0 <= i < |d.modified| ==> d.modified[i].inputs != []
  {
    || (exists i :: 0 <= i < |d.removed| && RemovedConcerns(m, d.removed[i]))
    || (exists i :: 0 <= i < |d.modified| && ModifiedConcerns(m, d.modified[i]))
    || (exists i :: 0 <= i < |d.added| && HasFileInput(d.added[i]))
  }

  // ----- one entry of a diff -----

  function RemoveOne(s: State, name: string): State
    requires name in s.pipelines
  {
    var p := s.pipelines[name];
    s.(pipelines := s.pipelines - {name},
       log := s.log + [StopPipeline(p, true), DeleteQueue(p), Feedback(name, Deleted)])
  }

  function InputTypes(c: Config): set<string> {
    set i | 0 <= i < |c.inputs| :: c.inputs[i]
  }

  function ModifyOne(s: State, c: Config): State
    requires c.name in s.pipelines
  {
    if !c.builds then s.(log := s.log + [Feedback(c.name, Failed)])
    else
      var old_, p := s.pipelines[c.name], Pipeline(s.built, c);
      s.(pipelines := s.pipelines[c.name := p], built := s.built + 1,
         log := s.log + [StopPipeline(old_, InputTypes(c) != InputTypes(old_.config)), StartPipeline(p),
                         Feedback(c.name, Applied)])
  }

  function AddOne(s: State, c: Config): State {
    if !c.builds then s.(log := s.log + [Feedback(c.name, Failed)])
    else
      var p := Pipeline(s.built, c);
      s.(pipelines := s.pipelines[c.name := p], built := s.built + 1,
         log := s.log + [StartPipeline(p), Feedback(c.name, Applied)])
  }

  // ----- what a diff must satisfy -----

  predicate DistinctNames(names: seq<string>) {
    forall i, j :: 0 <= i < j < |names| ==> names[i] != names[j]
  }

  predicate DistinctConfigs(cs: seq<Config>) {
    forall i, j :: 0 <= i < j < |cs| ==> cs[i].name != cs[j].name
  }

  predicate RemovedOk(m: map<string, Pipeline>, names: seq<string>) {
    DistinctNames(names) && forall i :: 0 <= i < |names| ==> names[i] in m
  }

  predicate ModifiedOk(m: map<string, Pipeline>, cs: seq<Config>) {
    DistinctConfigs(cs) && forall i :: 0 <= i < |cs| ==> cs[i].name in m && cs[i].inputs != []
  }

  predicate AddedOk(m: map<string, Pipeline>, cs: seq<Config>) {
    DistinctConfigs(cs) && forall i :: 0 <= i < |cs| ==> cs[i].name !in m
  }

  /** Removed and modified names are present and disjoint, added names are absent. */
  predicate WellFormed(m: map<string, Pipeline>, d: Diff) {
    && RemovedOk(m, d.removed) && ModifiedOk(m, d.modified) && AddedOk(m, d.added)
    && forall i, j :: 0 <= i < |d.removed| && 0 <= j < |d.modified| ==> d.removed[i] != d.modified[j].name
  }

  // ----- the folds -----

  function RemoveAll(s: State, names: seq<string>): State
    requires RemovedOk(s.pipelines, names)
    decreases |names|
  {
    if names == [] then s else RemoveAll(RemoveOne(s, names[0]), names[1..])
  }

  function ModifyAll(s: State, cs: seq<Config>): State
    requires ModifiedOk(s.pipelines, cs)
    decreases |cs|
  {
    if cs == [] then s else ModifyAll(ModifyOne(s, cs[0]), cs[1..])
  }

  function AddAll(s: State, cs: seq<Config>): State
    requires AddedOk(s.pipelines, cs)
    decreases |cs|
  {
    if cs == [] then s else AddAll(AddOne(s, cs[0]), cs[1..])
  }

  /** Removing takes exactly the named entries out of the map. */
  lemma {:induction false} RemoveAllMap(s: State, names: seq<string>)
    requires RemovedOk(s.pipelines, names)
    ensures var r := RemoveAll(s, names);
            && r.pipelines == s.pipelines - (set n | n in names)
            && r.built == s.built && r.fileServerStarted == s.fileServerStarted
    decreases |names|
  {
    if names != [] {
      RemoveAllMap(RemoveOne(s, names[0]), names[1..]);
      assert (set n | n in names) == {names[0]} + (set n | n in names[1..]);
    }
  }

  predicate BuiltFrom(cs: seq<Config>, name: string) {
    exists i :: 0 <= i < |cs| && cs[i].name == name && cs[i].builds
  }

  /** Modifying keeps the names, replaces exactly the entries whose config builds, and leaves the others untouched. */
  lemma {:induction false} ModifyAllMap(s: State, cs: seq<Config>)
    requires ModifiedOk(s.pipelines, cs)
    ensures var r := ModifyAll(s, cs);
            && r.pipelines.Keys == s.pipelines.Keys && r.fileServerStarted == s.fileServerStarted && r.built >= s.built
            && (forall n :: n in s.pipelines && !BuiltFrom(cs, n) ==> r.pipelines[n] == s.pipelines[n])
            && (forall i :: 0 <= i < |cs| && cs[i].builds ==>
                  r.pipelines[cs[i].name].config == cs[i] && r.pipelines[cs[i].name].id >= s.built)
    decreases |cs|
  {
    if cs != [] {
      var s1 := ModifyOne(s, cs[0]);
      ModifyAllMap(s1, cs[1..]);
      var r := ModifyAll(s, cs);
      forall n | n in s.pipelines && !BuiltFrom(cs, n)
        ensures r.pipelines[n] == s.pipelines[n]
      {
        NotBuiltInTail(cs, n);
      }
      if cs[0].builds {
        NotBuiltTwice(cs);
      }
      forall i | 0 <= i < |cs| && cs[i].builds
        ensures r.pipelines[cs[i].name].config == cs[i] && r.pipelines[cs[i].name].id >= s.built
      {
        if i > 0 {
          assert cs[1..][i - 1] == cs[i];
        }
      }
    }
  }

  lemma BuiltInTail(cs: seq<Config>, n: string) returns (i: nat)
    requires cs != [] && BuiltFrom(cs[1..], n)
    ensures BuiltFrom(cs, n) && 0 < i < |cs| && cs[i].name == n
  {
    var rest := cs[1..];
    var k :| 0 <= k < |rest| && rest[k].name == n && rest[k].builds;
    i := k + 1;
    assert cs[i] == rest[k];
  }

  lemma NotBuiltInTail(cs: seq<Config>, n: string)
    requires cs != [] && !BuiltFrom(cs, n)
    ensures !BuiltFrom(cs[1..], n) && !(cs[0].name == n && cs[0].builds)
  {
    if BuiltFrom(cs[1..], n) {
      var _ := BuiltInTail(cs, n);
    }
  }

  lemma NotBuiltTwice(cs: seq<Config>)
    requires cs != [] && DistinctConfigs(cs)
    ensures !BuiltFrom(cs[1..], cs[0].name)
  {
    if BuiltFrom(cs[1..], cs[0].name) {
      var _ := BuiltInTail(cs, cs[0].name);
    }
  }

  /** Adding enters exactly the configs that build and leaves the other entries untouched. */
  lemma {:induction false} AddAllMap(s: State, cs: seq<Config>)
    requires AddedOk(s.pipelines, cs)
    ensures var r := AddAll(s, cs);
            && r.fileServerStarted == s.fileServerStarted
            && (forall n :: n in r.pipelines <==> n in s.pipelines || BuiltFrom(cs, n))
            && (forall n :: n in s.pipelines ==> r.pipelines[n] == s.pipelines[n])
            && (forall i :: 0 <= i < |cs| && cs[i].builds ==>
                  cs[i].name in r.pipelines && r.pipelines[cs[i].name].config == cs[i])
    decreases |cs|
  {
    if cs != [] {
      var s1 := AddOne(s, cs[0]);
      AddAllMap(s1, cs[1..]);
      var r := AddAll(s, cs);
      forall n
        ensures n in r.pipelines <==> n in s.pipelines || BuiltFrom(cs, n)
      {
        if BuiltFrom(cs, n) {
          var i :| 0 <= i < |cs| && cs[i].name == n && cs[i].builds;
          if i > 0 {
            assert cs[1..][i - 1] == cs[i];
            assert BuiltFrom(cs[1..], n);
          }
        } else {
          NotBuiltInTail(cs, n);
        }
      }
      forall i | 0 <= i < |cs| && cs[i].builds
        ensures cs[i].name in r.pipelines && r.pipelines[cs[i].name].config == cs[i]
      {
        if i > 0 {
          assert cs[1..][i - 1] == cs[i];
        }
      }
    }
  }

  /** One call of UpdatePipelines. */
  function Update(s: State, d: Diff): State
    requires WellFormed(s.pipelines, d)
  {
    var changed := Detected(s.pipelines, d);
    var s0 := if s.fileServerStarted && changed then s.(log := s.log + [PauseFileServer]) else s;
    RemoveAllMap(s0, d.removed);
    var s1 := RemoveAll(s0, d.removed);
    ModifyAllMap(s1, d.modified);
    var s2 := ModifyAll(s1, d.modified);
    var s3 := AddAll(s2, d.added);
    if !changed then s3
    else if s.fileServerStarted then s3.(log := s3.log + [ResumeFileServer])
    else s3.(log := s3.log + [StartFileServer], fileServerStarted := true)
  }

  /** The map after an update, entry by entry: a failed build leaves the old pipeline in place. */
  lemma UpdateMap(s: State, d: Diff)
    requires WellFormed(s.pipelines, d)
    ensures var r := Update(s, d);
            && (forall n :: n in r.pipelines <==> (n in s.pipelines && n !in d.removed) || BuiltFrom(d.added, n))
            && (forall n :: n in s.pipelines && n !in d.removed && !BuiltFrom(d.modified, n) ==>
                  r.pipelines[n] == s.pipelines[n])
            && (forall i :: 0 <= i < |d.modified| && d.modified[i].builds ==>
                  r.pipelines[d.modified[i].name].config == d.modified[i])
            && (forall i :: 0 <= i < |d.added| && d.added[i].builds ==>
                  r.pipelines[d.added[i].name].config == d.added[i])
  {
    var s0 := if s.fileServerStarted && Detected(s.pipelines, d) then s.(log := s.log + [PauseFileServer]) else s;
    RemoveAllMap(s0, d.removed);
    var s1 := RemoveAll(s0, d.removed);
    ModifyAllMap(s1, d.modified);
    AddAllMap(ModifyAll(s1, d.modified), d.added);
    assert forall i :: 0 <= i < |d.added| && d.added[i].builds ==> BuiltFrom(d.added, d.added[i].name);
  }

  // ----- the class -----

  method AnyFileInput(inputs: seq<string>) returns (found: bool)
    ensures found <==> exists i :: 0 <= i < |inputs| && IsFileInput(inputs[i])
  {
    for i := 0 to |inputs|
      invariant forall j :: 0 <= j < i ==> !IsFileInput(inputs[j])
    {
      if IsFileInput(inputs[i]) {
        return true;
      }
    }
    found := false;
  }

  class Manager {
    var pipelines: map<string, Pipeline>
    var built: nat
    var fileServerStarted: bool
    var log: seq<Action>

    function View(): State
      reads this
    {
      State(pipelines, built, fileServerStarted, log)
    }

    constructor ()
      ensures View() == State(map[], 0, false, [])
    {
      pipelines, built, fileServerStarted, log := map[], 0, false, [];
    }

    method CheckIfFileServerUpdated(d: Diff) returns (changed: bool)
      requires WellFormed(pipelines, d)
      ensures changed <==> Detected(pipelines, d)
    {
      for i := 0 to |d.removed|
        invariant forall j :: 0 <= j < i ==> !RemovedConcerns(pipelines, d.removed[j])
      {
        var found := AnyFileInput(pipelines[d.removed[i]].config.inputs);
        if found {
          assert RemovedConcerns(pipelines, d.removed[i]);
          return true;
        }
      }
      for i := 0 to |d.modified|
        invariant forall j :: 0 <= j < i ==> !ModifiedConcerns(pipelines, d.modified[j])
      {
        var c := d.modified[i];
        if IsFileInput(c.inputs[0]) {
          assert ModifiedConcerns(pipelines, d.modified[i]);
          return true;
        }
        var found := AnyFileInput(pipelines[c.name].config.inputs);
        if found {
          assert ModifiedConcerns(pipelines, d.modified[i]);
          return true;
        }
      }
      for i := 0 to |d.added|
        invariant forall j :: 0 <= j < i ==> !HasFileInput(d.added[j])
      {
        var found := AnyFileInput(d.added[i].inputs);
        if found {
          assert HasFileInput(d.added[i]);
          return true;
        }
      }
      changed := false;
    }

    method RemoveListed(names: seq<string>)
      requires RemovedOk(pipelines, names)
      modifies this
      ensures View() == RemoveAll(old(View()), names)
    {
      for i := 0 to |names|
        invariant RemovedOk(pipelines, names[i..])
        invariant RemoveAll(View(), names[i..]) == RemoveAll(old(View()), names)
      {
        var name := names[i];
        assert names[i..][0] == name && names[i..][1..] == names[i + 1..];
        var p := pipelines[name];
        log := log + [StopPipeline(p, true), DeleteQueue(p), Feedback(name, Deleted)];
        pipelines := pipelines - {name};
      }
    }

    method ModifyListed(cs: seq<Config>)
      requires ModifiedOk(pipelines, cs)
      modifies this
      ensures View() == ModifyAll(old(View()), cs)
    {
      for i := 0 to |cs|
        invariant ModifiedOk(pipelines, cs[i..])
        invariant ModifyAll(View(), cs[i..]) == ModifyAll(old(View()), cs)
      {
        var c := cs[i];
        assert cs[i..][0] == c && cs[i..][1..] == cs[i + 1..];
        if !c.builds {
          log := log + [Feedback(c.name, Failed)];
          continue;
        }
        var p, old_ := Pipeline(built, c), pipelines[c.name];
        built := built + 1;
        log := log + [StopPipeline(old_, InputTypes(c) != InputTypes(old_.config)), StartPipeline(p),
            Feedback(c.name, Applied)];
        pipelines := pipelines[c.name := p];
      }
    }

    method AddListed(cs: seq<Config>)
      requires AddedOk(pipelines, cs)
      modifies this
      ensures View() == AddAll(old(View()), cs)
    {
      for i := 0 to |cs|
        invariant AddedOk(pipelines, cs[i..])
        invariant AddAll(View(), cs[i..]) == AddAll(old(View()), cs)
      {
        var c := cs[i];
        assert cs[i..][0] == c && cs[i..][1..] == cs[i + 1..];
        if !c.builds {
          log := log + [Feedback(c.name, Failed)];
          continue;
        }
        var p := Pipeline(built, c);
        built := built + 1;
        log := log + [StartPipeline(p), Feedback(c.name, Applied)];
        pipelines := pipelines[c.name := p];
      }
    }

    method UpdatePipelines(d: Diff)
      requires WellFormed(pipelines, d)
      modifies this
      ensures View() == Update(old(View()), d)
    {
      var changed := CheckIfFileServerUpdated(d);
      if fileServerStarted && changed {
        log := log + [PauseFileServer];
      }
      RemoveAllMap(View(), d.removed);
      RemoveListed(d.removed);
      ModifyAllMap(View(), d.modified);
      ModifyListed(d.modified);
      AddAllMap(View(), d.added);
      AddListed(d.added);
      if changed {
        if fileServerStarted {
          log := log + [ResumeFileServer];
        } else {
          log := log + [StartFileServer];
          fileServerStarted := true;
        }
      }
    }
  }
}
