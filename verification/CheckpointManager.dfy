/**
  The clean-up of checkpoints whose config is gone.  A round visits the keys of a snapshot of the database in
  order, looks up the config of each, stops early once it has met enough keys without a config, then counts
  those one by one and deletes a key whose count passes the threshold.  The lookups see whatever configs are
  loaded at that moment, deletions can fail, and checkpoints are saved and deleted in between.
*/
module CheckpointManager {
  import opened Search
  import opened Modular

  type Key = string

  // ----- which keys have a config -----

  /** The key SaveCheckpoint writes. */
  function SavedKey(configName: string, key: string): Key {
    configName + "^" + key
  }

  /** keyMatch: the text before the first '^' names a loaded config. */
  predicate Matches(key: Key, configs: set<string>) {
    var index := FindFrom(key, "^", 0);
    index.At? && index.index > 0 && key[..index.index] + "/1" in configs
  }

  lemma FirstCaret(s: string, i: nat)
    requires i < |s| && s[i] == '^' && '^' !in s[..i]
    ensures FindFrom(s, "^", 0) == At(i)
  {
    forall j | 0 <= j <= i
      ensures OccursAt(s, "^", j) <==> j == i
    {
      CharOccurs(s, '^', j);
      if j < i {
        assert s[j] == s[..i][j];
      }
    }
    FindIs(s, "^", 0, i);
  }

  lemma {:induction false} CaretIn(s: string) returns (i: nat)
    requires '^' in s
    ensures i < |s| && s[i] == '^' && '^' !in s[..i]
    decreases |s|
  {
    i :| 0 <= i < |s| && s[i] == '^';
    if '^' in s[..i] {
      var t := s[..i];
      var k := CaretIn(t);
      assert t[..k] == s[..k];
      i := k;
    }
  }

  /** The name keyMatch reads in the keys of a config: the config's own, up to its first '^'. */
  function NameInKeys(configName: string): string {
    match FindFrom(configName, "^", 0)
    case Npos => configName
    case At(i) => configName[..i]
  }

  lemma NoCaret(s: string)
    requires '^' !in s
    ensures FindFrom(s, "^", 0) == Npos
  {
    forall j: nat
      ensures !OccursAt(s, "^", j)
    {
      CharOccurs(s, '^', j);
    }
    FindNone(s, "^", 0);
  }

  /** A saved key is matched if and only if the name read in it is not empty and loaded. */
  lemma SavedKeyMatches(configName: string, key: string, configs: set<string>)
    ensures Matches(SavedKey(configName, key), configs)
            <==> NameInKeys(configName) != [] && NameInKeys(configName) + "/1" in configs
  {
    var s := SavedKey(configName, key);
    if '^' in configName {
      var i := CaretIn(configName);
      FirstCaret(configName, i);
      assert s[..i] == configName[..i] && s[i] == '^';
      FirstCaret(s, i);
    } else {
      NoCaret(configName);
      assert s[..|configName|] == configName;
      FirstCaret(s, |configName|);
    }
  }

  /** A loaded config keeps its checkpoints exactly when its name is not empty and, if it contains '^', the part
      before the first one is not empty and is the name of a loaded config too. */
  lemma ConfigKeepsItsKeys(configName: string, key: string, configs: set<string>)
    requires configName + "/1" in configs
    ensures Matches(SavedKey(configName, key), configs)
            <==> configName != []
                 && ('^' in configName ==> NameInKeys(configName) != [] && NameInKeys(configName) + "/1" in configs)
  {
    SavedKeyMatches(configName, key, configs);
    if '^' in configName {
      var i := CaretIn(configName);
      FirstCaret(configName, i);
    } else {
      NoCaret(configName);
    }
  }

  /** Names of two configs where the second one's checkpoints are safe only while the first is loaded. */
  lemma CaretInName(key: string)
    ensures !Matches(SavedKey("a^b", key), {"a^b/1"}) && Matches(SavedKey("a^b", key), {"a^b/1", "a/1"})
  {
    var name := "a^b";
    assert name[..1] == "a" && name + "/1" == "a^b/1" && "a" + "/1" == "a/1";
    FirstCaret(name, 1);
    assert |"a/1"| != |"a^b/1"|;
    ConfigKeepsItsKeys(name, key, {"a^b/1"});
    ConfigKeepsItsKeys(name, key, {"a^b/1", "a/1"});
  }

  // ----- one round -----

  /** The configs that are loaded when a key is looked up. */
  type Loaded = Key -> set<string>

  predicate Hit(k: Key, loaded: Loaded) {
    Matches(k, loaded(k))
  }

  datatype Store = Store(db: set<Key>, counter: map<Key, nat>)

  function Count(s: Store, k: Key): nat {
    if k in s.counter then s.counter[k] else 0
  }

  /** How many keys a round visits, when have keys without a config were met before them. */
  function VisitCount(order: seq<Key>, loaded: Loaded, max: int, have: nat): (n: nat)
    ensures n <= |order|
  {
    if order == [] then 0
    else if Hit(order[0], loaded) then 1 + VisitCount(order[1..], loaded, max, have)
    else if have + 1 >= max then 1
    else 1 + VisitCount(order[1..], loaded, max, have + 1)
  }

  function Visited(order: seq<Key>, loaded: Loaded, max: int): seq<Key> {
    order[..VisitCount(order, loaded, max, 0)]
  }

  function Unmatched(keys: seq<Key>, loaded: Loaded): seq<Key> {
    if keys == [] then []
    else
      var k := keys[|keys| - 1];
      Unmatched(keys[..|keys| - 1], loaded) + if Hit(k, loaded) then [] else [k]
  }

  function MatchedIn(keys: seq<Key>, loaded: Loaded): set<Key> {
    set k | k in keys && Hit(k, loaded)
  }

  /** One more round without a config; past the threshold the count goes, and the key if the deletion succeeds. */
  function Bump(s: Store, k: Key, threshold: nat, deletes: bool): Store {
    var c := Count(s, k) + 1;
    if c > threshold then Store(if deletes then s.db - {k} else s.db, s.counter - {k})
    else s.(counter := s.counter[k := c])
  }

  function BumpAll(s: Store, keys: seq<Key>, threshold: nat, deletes: Key -> bool): Store {
    if keys == [] then s
    else
      var k := keys[|keys| - 1];
      Bump(BumpAll(s, keys[..|keys| - 1], threshold, deletes), k, threshold, deletes(k))
  }

  /** The first loop: what it does to the counts. */
  function Scanned(s: Store, order: seq<Key>, loaded: Loaded, max: int): Store {
    s.(counter := s.counter - MatchedIn(Visited(order, loaded, max), loaded))
  }

  function Round(s: Store, order: seq<Key>, loaded: Loaded, max: int, threshold: nat, deletes: Key -> bool): Store {
    BumpAll(Scanned(s, order, loaded, max), Unmatched(Visited(order, loaded, max), loaded), threshold, deletes)
  }

  ghost predicate Distinct(keys: seq<Key>) {
    forall i, j :: 0 <= i < j < |keys| ==> keys[i] != keys[j]
  }

  /** What the iterator hands out: keys of the database, each once, and not all of them if it fails on the way. */
  ghost predicate HandsOut(order: seq<Key>, db: set<Key>) {
    (forall k :: k in order ==> k in db) && Distinct(order)
  }

  class CheckPointManager {
    var isOpen: bool
    var db: set<Key>
    var configCounter: map<Key, nat>
    const cleanThreshold: nat

    ghost function Contents(): Store
      reads this
    {
      Store(db, configCounter)
    }

    constructor ()
      ensures isOpen && Contents() == Store({}, map[]) && cleanThreshold == 6
    {
      isOpen, db, configCounter, cleanThreshold := true, {}, map[], 6;
    }

    /** check, for what the iterator hands out, what the lookups find and which deletions succeed. */
    method Check(order: seq<Key>, loaded: Loaded, max: int, deletes: Key -> bool)
      requires HandsOut(order, db)
      modifies this`db, this`configCounter
      ensures Contents() == if isOpen then Round(old(Contents()), order, loaded, max, cleanThreshold, deletes)
                            else old(Contents())
    {
      if !isOpen {
        return;
      }
      var cleanItems := ScanKeys(order, loaded, max);
      CleanKeys(cleanItems, deletes);
    }

    /** The first loop: collects keys without a config and forgets the counts of the others. */
    method ScanKeys(order: seq<Key>, loaded: Loaded, max: int) returns (cleanItems: seq<Key>)
      modifies this`configCounter
      ensures cleanItems == Unmatched(Visited(order, loaded, max), loaded)
      ensures Contents() == Scanned(old(Contents()), order, loaded, max)
    {
      cleanItems := [];
      var i := 0;
      while i < |order|
        invariant 0 <= i <= |order|
        invariant cleanItems == Unmatched(order[..i], loaded)
        invariant configCounter == old(configCounter) - MatchedIn(order[..i], loaded)
        invariant VisitCount(order, loaded, max, 0) == i + VisitCount(order[i..], loaded, max, |cleanItems|)
      {
        var key := order[i];
        VisitStep(order, i, loaded, max, |cleanItems|);
        UnmatchedSnoc(order, i, loaded);
        ForgetSnoc(old(configCounter), order, i, loaded);
        i := i + 1;
        if !Hit(key, loaded) {
          cleanItems := cleanItems + [key];
          if |cleanItems| >= max {
            break;
          }
        } else {
          configCounter := configCounter - {key};
        }
      }
    }

    /** The second loop: counts the collected keys and deletes those past the threshold. */
    method CleanKeys(cleanItems: seq<Key>, deletes: Key -> bool)
      modifies this`db, this`configCounter
      ensures Contents() == BumpAll(old(Contents()), cleanItems, cleanThreshold, deletes)
    {
      for i := 0 to |cleanItems|
        invariant Contents() == BumpAll(old(Contents()), cleanItems[..i], cleanThreshold, deletes)
      {
        CleanOne(cleanItems[i], deletes(cleanItems[i]));
        assert cleanItems[..i + 1][..i] == cleanItems[..i];
      }
      assert cleanItems[..|cleanItems|] == cleanItems;
    }

    method CleanOne(key: Key, deletes: bool)
      modifies this`db, this`configCounter
      ensures Contents() == Bump(old(Contents()), key, cleanThreshold, deletes)
    {
      configCounter := configCounter[key := (if key in configCounter then configCounter[key] else 0) + 1];
      if configCounter[key] > cleanThreshold {
        if deletes {
          db := db - {key};
        }
        configCounter := configCounter - {key};
      }
    }
  }

  lemma VisitStep(order: seq<Key>, i: nat, loaded: Loaded, max: int, have: nat)
    requires i < |order|
    ensures VisitCount(order[i..], loaded, max, have)
            == if Hit(order[i], loaded) then 1 + VisitCount(order[i + 1..], loaded, max, have)
               else if have + 1 >= max then 1
               else 1 + VisitCount(order[i + 1..], loaded, max, have + 1)
  {
    assert order[i..][1..] == order[i + 1..];
  }

  lemma UnmatchedSnoc(order: seq<Key>, i: nat, loaded: Loaded)
    requires i < |order|
    ensures Unmatched(order[..i + 1], loaded)
            == Unmatched(order[..i], loaded) + if Hit(order[i], loaded) then [] else [order[i]]
  {
    assert order[..i + 1][..i] == order[..i];
  }

  lemma ForgetSnoc(counter: map<Key, nat>, order: seq<Key>, i: nat, loaded: Loaded)
    requires i < |order|
    ensures var before := counter - MatchedIn(order[..i], loaded);
            counter - MatchedIn(order[..i + 1], loaded) == if Hit(order[i], loaded) then before - {order[i]} else before
  {
    assert order[..i + 1] == order[..i] + [order[i]];
    assert MatchedIn(order[..i + 1], loaded)
        == MatchedIn(order[..i], loaded) + if Hit(order[i], loaded) then {order[i]} else {};
  }

  // ----- what a round does to one key -----

  lemma {:induction false} UnmatchedHolds(keys: seq<Key>, loaded: Loaded, k: Key)
    ensures k in Unmatched(keys, loaded) <==> k in keys && !Hit(k, loaded)
  {
    if keys != [] {
      UnmatchedHolds(keys[..|keys| - 1], loaded, k);
      assert keys == keys[..|keys| - 1] + [keys[|keys| - 1]];
    }
  }

  lemma DistinctInit(keys: seq<Key>)
    requires keys != [] && Distinct(keys)
    ensures Distinct(keys[..|keys| - 1]) && keys[|keys| - 1] !in keys[..|keys| - 1]
  {
  }

  lemma {:induction false} UnmatchedDistinct(keys: seq<Key>, loaded: Loaded)
    requires Distinct(keys)
    ensures Distinct(Unmatched(keys, loaded))
  {
    if keys != [] {
      var init, k := keys[..|keys| - 1], keys[|keys| - 1];
      DistinctInit(keys);
      UnmatchedDistinct(init, loaded);
      UnmatchedHolds(init, loaded, k);
    }
  }

  lemma {:induction false} BumpAllOthers(s: Store, keys: seq<Key>, threshold: nat, deletes: Key -> bool, k: Key)
    requires k !in keys
    ensures Count(BumpAll(s, keys, threshold, deletes), k) == Count(s, k)
    ensures k in BumpAll(s, keys, threshold, deletes).db <==> k in s.db
  {
    if keys != [] {
      BumpAllOthers(s, keys[..|keys| - 1], threshold, deletes, k);
    }
  }

  lemma {:induction false} BumpAllOne(s: Store, keys: seq<Key>, threshold: nat, deletes: Key -> bool, k: Key)
    requires Distinct(keys) && k in keys
    ensures var t := BumpAll(s, keys, threshold, deletes);
            if Count(s, k) + 1 > threshold then Count(t, k) == 0 && (k in t.db <==> k in s.db && !deletes(k))
            else Count(t, k) == Count(s, k) + 1 && (k in t.db <==> k in s.db)
  {
    var init, last := keys[..|keys| - 1], keys[|keys| - 1];
    DistinctInit(keys);
    assert keys == init + [last];
    if k == last {
      BumpAllOthers(s, init, threshold, deletes, k);
    } else {
      BumpAllOne(s, init, threshold, deletes, k);
    }
  }

  lemma VisitedHandedOut(order: seq<Key>, loaded: Loaded, max: int, db: set<Key>)
    requires HandsOut(order, db)
    ensures Distinct(Visited(order, loaded, max))
    ensures forall k :: k in Visited(order, loaded, max) ==> k in db
  {
  }

  /** A round forgets the count of a visited key with a config, counts one without, and leaves the others. */
  lemma RoundOnKey(s: Store, order: seq<Key>, loaded: Loaded, max: int, threshold: nat, deletes: Key -> bool, k: Key)
    requires HandsOut(order, s.db)
    ensures var t, visited := Round(s, order, loaded, max, threshold, deletes), Visited(order, loaded, max);
            if k !in visited then Count(t, k) == Count(s, k) && (k in t.db <==> k in s.db)
            else if Hit(k, loaded) then Count(t, k) == 0 && k in t.db
            else if Count(s, k) + 1 > threshold then Count(t, k) == 0 && (k in t.db <==> !deletes(k))
            else Count(t, k) == Count(s, k) + 1 && k in t.db
  {
    var visited := Visited(order, loaded, max);
    VisitedHandedOut(order, loaded, max, s.db);
    UnmatchedHolds(visited, loaded, k);
    UnmatchedDistinct(visited, loaded);
    var u, items := Scanned(s, order, loaded, max), Unmatched(visited, loaded);
    if k in items {
      BumpAllOne(u, items, threshold, deletes, k);
    } else {
      BumpAllOthers(u, items, threshold, deletes, k);
    }
  }

  // ----- histories -----

  /** The manager between any two steps; pending holds the collected keys the second loop has not reached. */
  datatype Manager = Manager(store: Store, pending: seq<Key>)

  datatype Event =
    | Scan(order: seq<Key>, loaded: Loaded, max: int)
    | CleanNext(deletes: bool)
    | Save(key: Key)
    | Delete(key: Key)

  ghost predicate Enabled(s: Manager, e: Event) {
    match e
    case Scan(order, _, _) => s.pending == [] && HandsOut(order, s.store.db)
    case CleanNext(_) => s.pending != []
    case Save(_) => true
    case Delete(_) => true
  }

  ghost function Step(s: Manager, e: Event, threshold: nat): Manager
    requires Enabled(s, e)
  {
    match e
    case Scan(order, loaded, max) =>
      Manager(Scanned(s.store, order, loaded, max), Unmatched(Visited(order, loaded, max), loaded))
    case CleanNext(deletes) => Manager(Bump(s.store, s.pending[0], threshold, deletes), s.pending[1..])
    case Save(k) => s.(store := s.store.(db := s.store.db + {k}))
    case Delete(k) => s.(store := s.store.(db := s.store.db - {k}))
  }

  ghost predicate IsHistory(s: Manager, es: seq<Event>, threshold: nat)
    decreases |es|, 0
  {
    |es| == 0 || (IsHistory(s, es[..|es| - 1], threshold)
                  && Enabled(After(s, es[..|es| - 1], threshold), es[|es| - 1]))
  }

  ghost function After(s: Manager, es: seq<Event>, threshold: nat): Manager
    requires IsHistory(s, es, threshold)
    decreases |es|, 1
  {
    if |es| == 0 then s else Step(After(s, es[..|es| - 1], threshold), es[|es| - 1], threshold)
  }

  /** A manager that has just started on an existing database. */
  function Started(db: set<Key>): Manager {
    Manager(Store(db, map[]), [])
  }

  lemma OneMore(s: Manager, es: seq<Event>, e: Event, threshold: nat)
    requires IsHistory(s, es, threshold) && Enabled(After(s, es, threshold), e)
    ensures IsHistory(s, es + [e], threshold)
    ensures After(s, es + [e], threshold) == Step(After(s, es, threshold), e, threshold)
  {
    var all := es + [e];
    assert all[..|all| - 1] == es && all[|all| - 1] == e;
  }

  lemma {:induction false} BumpFirst(s: Store, keys: seq<Key>, threshold: nat, deletes: Key -> bool)
    requires keys != []
    ensures BumpAll(s, keys, threshold, deletes)
            == BumpAll(Bump(s, keys[0], threshold, deletes(keys[0])), keys[1..], threshold, deletes)
  {
    var init, rest := keys[..|keys| - 1], keys[1..];
    if init == [] {
      assert rest == [];
      assert BumpAll(s, init, threshold, deletes) == s;
    } else {
      BumpFirst(s, init, threshold, deletes);
      assert rest[..|rest| - 1] == init[1..] && init[0] == keys[0] && rest[|rest| - 1] == keys[|keys| - 1];
    }
  }

  lemma {:induction false} CleaningIsHistory(
      s: Manager, es: seq<Event>, u: Store, items: seq<Key>, threshold: nat, deletes: Key -> bool)
    returns (all: seq<Event>)
    requires IsHistory(s, es, threshold) && After(s, es, threshold) == Manager(u, items)
    ensures IsHistory(s, all, threshold)
    ensures After(s, all, threshold) == Manager(BumpAll(u, items, threshold, deletes), [])
    decreases |items|
  {
    if items == [] {
      all := es;
    } else {
      var ok := deletes(items[0]);
      OneMore(s, es, CleanNext(ok), threshold);
      BumpFirst(u, items, threshold, deletes);
      all := CleaningIsHistory(s, es + [CleanNext(ok)], Bump(u, items[0], threshold, ok), items[1..], threshold,
          deletes);
    }
  }

  /** check, run without interruption, is the history of one scan and the cleaning of what it collected. */
  lemma RoundIsHistory(s: Store, order: seq<Key>, loaded: Loaded, max: int, threshold: nat, deletes: Key -> bool)
    returns (es: seq<Event>)
    requires HandsOut(order, s.db)
    ensures IsHistory(Manager(s, []), es, threshold)
    ensures After(Manager(s, []), es, threshold) == Manager(Round(s, order, loaded, max, threshold, deletes), [])
  {
    OneMore(Manager(s, []), [], Scan(order, loaded, max), threshold);
    es := CleaningIsHistory(Manager(s, []), [] + [Scan(order, loaded, max)], Scanned(s, order, loaded, max),
                            Unmatched(Visited(order, loaded, max), loaded), threshold, deletes);
  }

  /** The scans that visited a key without a config since one last visited it with a config, whatever was deleted. */
  function Streak(es: seq<Event>, k: Key): nat
    decreases |es|
  {
    if |es| == 0 then 0 else StreakAfter(Streak(es[..|es| - 1], k), es[|es| - 1], k)
  }

  function StreakAfter(before: nat, e: Event, k: Key): nat {
    if !e.Scan? || k !in Visited(e.order, e.loaded, e.max) then before
    else if Hit(k, e.loaded) then 0
    else before + 1
  }

  lemma NextRemainder(n: nat, m: nat)
    requires m > 0
    ensures (n + 1) % m == if n % m + 1 == m then 0 else n % m + 1
  {
    ModSucc(n, m);
    if n % m + 1 == m {
      DivModUnique(m, m, 1, 0);
    } else {
      DivModUnique(n % m + 1, m, 0, n % m + 1);
    }
  }

  /** The count of a key is its streak, starting again each time it has passed the threshold; for a key that is
      collected but not yet counted it is one visit behind. */
  ghost predicate Counted(s: Manager, threshold: nat, k: Key, streak: nat) {
    if k in s.pending then streak > 0 && Count(s.store, k) == (streak - 1) % (threshold + 1)
    else Count(s.store, k) == streak % (threshold + 1)
  }

  lemma ScanCounts(s: Manager, e: Event, threshold: nat, k: Key, before: nat)
    requires e.Scan? && Enabled(s, e) && Counted(s, threshold, k, before)
    ensures Counted(Step(s, e, threshold), threshold, k, StreakAfter(before, e, k))
    ensures Distinct(Step(s, e, threshold).pending)
  {
    var visited := Visited(e.order, e.loaded, e.max);
    VisitedHandedOut(e.order, e.loaded, e.max, s.store.db);
    UnmatchedHolds(visited, e.loaded, k);
    UnmatchedDistinct(visited, e.loaded);
    DivModUnique(0, threshold + 1, 0, 0);
  }

  lemma DistinctTail(keys: seq<Key>)
    requires keys != [] && Distinct(keys)
    ensures Distinct(keys[1..]) && keys[0] !in keys[1..]
  {
  }

  lemma CleanCounts(s: Manager, deletes: bool, threshold: nat, k: Key, streak: nat)
    requires s.pending != [] && Distinct(s.pending) && Counted(s, threshold, k, streak)
    ensures Counted(Step(s, CleanNext(deletes), threshold), threshold, k, streak)
    ensures Distinct(Step(s, CleanNext(deletes), threshold).pending)
  {
    DistinctTail(s.pending);
    assert s.pending == [s.pending[0]] + s.pending[1..];
    if k == s.pending[0] {
      NextRemainder(streak - 1, threshold + 1);
    }
  }

  lemma StepCounts(s: Manager, e: Event, threshold: nat, k: Key, before: nat)
    requires Enabled(s, e) && Distinct(s.pending) && Counted(s, threshold, k, before)
    ensures Counted(Step(s, e, threshold), threshold, k, StreakAfter(before, e, k))
    ensures Distinct(Step(s, e, threshold).pending)
  {
    match e
    case Scan(_, _, _) => ScanCounts(s, e, threshold, k, before);
    case CleanNext(deletes) => CleanCounts(s, deletes, threshold, k, before);
    case Save(_) =>
    case Delete(_) =>
  }

  lemma {:induction false} CountIsStreak(db: set<Key>, es: seq<Event>, threshold: nat, k: Key)
    requires IsHistory(Started(db), es, threshold)
    ensures Counted(After(Started(db), es, threshold), threshold, k, Streak(es, k))
    ensures Distinct(After(Started(db), es, threshold).pending)
    decreases |es|
  {
    if |es| == 0 {
      DivModUnique(0, threshold + 1, 0, 0);
    } else {
      var init, e := es[..|es| - 1], es[|es| - 1];
      CountIsStreak(db, init, threshold, k);
      StepCounts(After(Started(db), init, threshold), e, threshold, k, Streak(init, k));
    }
  }

  lemma PositiveMultiple(n: nat, m: nat)
    requires m > 0 && n > 0 && n % m == 0
    ensures n >= m
  {
    if n < m {
      DivModUnique(n, m, 0, n);
    }
  }

  /** Cleaning takes a key out of the database exactly when it is next, the deletion succeeds, and the visits that
      found no config for it make a multiple of threshold + 1; so never before there were that many. */
  lemma DeleteStep(s: Manager, deletes: bool, threshold: nat, k: Key, streak: nat)
    requires s.pending != [] && Distinct(s.pending) && Counted(s, threshold, k, streak)
    ensures var t := Step(s, CleanNext(deletes), threshold);
            && (k in s.store.db && k !in t.store.db <==>
                k in s.store.db && k == s.pending[0] && deletes && streak % (threshold + 1) == 0)
            && (k in s.store.db && k !in t.store.db ==> streak >= threshold + 1)
            && (k in t.store.db ==> k in s.store.db)
  {
    if k == s.pending[0] {
      assert k in s.pending;
      NextRemainder(streak - 1, threshold + 1);
      if streak % (threshold + 1) == 0 {
        PositiveMultiple(streak, threshold + 1);
      }
    }
  }

  lemma DeletedAtThreshold(db: set<Key>, es: seq<Event>, deletes: bool, threshold: nat, k: Key)
    requires IsHistory(Started(db), es, threshold) && After(Started(db), es, threshold).pending != []
    ensures var s := After(Started(db), es, threshold);
            var t := Step(s, CleanNext(deletes), threshold);
            && (k in s.store.db && k !in t.store.db <==>
                k in s.store.db && k == s.pending[0] && deletes && Streak(es, k) % (threshold + 1) == 0)
            && (k in s.store.db && k !in t.store.db ==> Streak(es, k) >= threshold + 1)
  {
    CountIsStreak(db, es, threshold, k);
    DeleteStep(After(Started(db), es, threshold), deletes, threshold, k, Streak(es, k));
  }

  /** No count is ever above the threshold, also between the two loops. */
  lemma CountBounded(db: set<Key>, es: seq<Event>, threshold: nat, k: Key)
    requires IsHistory(Started(db), es, threshold)
    ensures Count(After(Started(db), es, threshold).store, k) <= threshold
  {
    CountIsStreak(db, es, threshold, k);
  }

  // ----- the early break does not starve keys -----

  /** An iterator that does not fail hands out the whole database. */
  ghost predicate Lists(order: seq<Key>, db: set<Key>) {
    HandsOut(order, db) && forall k :: k in db ==> k in order
  }

  predicate AlwaysDeletes(k: Key) {
    true
  }

  /** A round that finds keys without a config visits at least one. */
  lemma {:induction false} VisitsOne(order: seq<Key>, loaded: Loaded, max: int, have: nat, i: nat) returns (j: nat)
    requires i < |order| && !Hit(order[i], loaded)
    ensures j < VisitCount(order, loaded, max, have) && !Hit(order[j], loaded)
    decreases |order|
  {
    if Hit(order[0], loaded) {
      j := VisitsOne(order[1..], loaded, max, have, i - 1);
      j := j + 1;
    } else {
      j := 0;
    }
  }

  /** A round visits no more than max keys without a config, or one, and all keys when there are fewer. */
  lemma {:induction false} VisitBound(order: seq<Key>, loaded: Loaded, max: int, have: nat)
    requires have == 0 || have < max
    ensures var n := |Unmatched(order[..VisitCount(order, loaded, max, have)], loaded)|;
            && (have + n <= max || (have == 0 && n <= 1))
            && (have + n < max ==> VisitCount(order, loaded, max, have) == |order|)
    decreases |order|
  {
    if order != [] {
      var k := order[0];
      if Hit(k, loaded) {
        VisitBound(order[1..], loaded, max, have);
        UnmatchedPrefix(order, VisitCount(order, loaded, max, have), loaded);
      } else if have + 1 < max {
        VisitBound(order[1..], loaded, max, have + 1);
        UnmatchedPrefix(order, VisitCount(order, loaded, max, have), loaded);
      } else {
        UnmatchedPrefix(order, 1, loaded);
      }
    }
  }

  lemma UnmatchedPrefix(order: seq<Key>, v: nat, loaded: Loaded)
    requires 0 < v <= |order|
    ensures |Unmatched(order[..v], loaded)|
            == (if Hit(order[0], loaded) then 0 else 1) + |Unmatched(order[1..][..v - 1], loaded)|
  {
    UnmatchedFront(order[..v], loaded);
    assert order[..v][1..] == order[1..][..v - 1];
  }

  lemma {:induction false} UnmatchedFront(keys: seq<Key>, loaded: Loaded)
    requires keys != []
    ensures |Unmatched(keys, loaded)| == (if Hit(keys[0], loaded) then 0 else 1) + |Unmatched(keys[1..], loaded)|
    decreases |keys|
  {
    if |keys| > 1 {
      var init := keys[..|keys| - 1];
      UnmatchedFront(init, loaded);
      assert keys[1..][..|keys| - 2] == init[1..];
    } else {
      assert keys[..0] == [];
    }
  }

  /** Rounds still owed to a key: none once it is deleted or has a config. */
  function Owed(s: Store, loaded: Loaded, threshold: nat, k: Key): nat {
    if k in s.db && !Hit(k, loaded) && Count(s, k) <= threshold then threshold + 1 - Count(s, k) else 0
  }

  function TotalOwed(s: Store, loaded: Loaded, threshold: nat, keys: seq<Key>): nat {
    if keys == [] then 0 else Owed(s, loaded, threshold, keys[0]) + TotalOwed(s, loaded, threshold, keys[1..])
  }

  lemma RoundOwes(s: Store, order: seq<Key>, loaded: Loaded, max: int, threshold: nat, k: Key)
    requires Lists(order, s.db) && Count(s, k) <= threshold
    ensures var t := Round(s, order, loaded, max, threshold, AlwaysDeletes);
            && Count(t, k) <= threshold
            && Owed(t, loaded, threshold, k) <= Owed(s, loaded, threshold, k)
            && (k in Visited(order, loaded, max) && !Hit(k, loaded) ==>
                Owed(t, loaded, threshold, k) < Owed(s, loaded, threshold, k))
  {
    RoundOnKey(s, order, loaded, max, threshold, AlwaysDeletes, k);
    VisitedHandedOut(order, loaded, max, s.db);
  }

  lemma {:induction false} TotalFalls(s: Store, t: Store, loaded: Loaded, threshold: nat, keys: seq<Key>)
    requires forall k :: k in keys ==> Owed(t, loaded, threshold, k) <= Owed(s, loaded, threshold, k)
    ensures TotalOwed(t, loaded, threshold, keys) <= TotalOwed(s, loaded, threshold, keys)
    ensures (exists k :: k in keys && Owed(t, loaded, threshold, k) < Owed(s, loaded, threshold, k)) ==>
              TotalOwed(t, loaded, threshold, keys) < TotalOwed(s, loaded, threshold, keys)
  {
    if keys != [] {
      TotalFalls(s, t, loaded, threshold, keys[1..]);
    }
  }

  ghost predicate Bounded(s: Store, threshold: nat) {
    forall k :: Count(s, k) <= threshold
  }

  /** While a key without a config is left, a round lowers what is owed in all, and deletes no key with a config. */
  lemma RoundProgress(s: Store, order: seq<Key>, loaded: Loaded, max: int, threshold: nat, keys: seq<Key>)
    requires Lists(order, s.db) && Bounded(s, threshold) && forall k :: k in s.db ==> k in keys
    ensures var t := Round(s, order, loaded, max, threshold, AlwaysDeletes);
            && Bounded(t, threshold)
            && t.db <= s.db
            && (forall k :: k in s.db && Hit(k, loaded) ==> k in t.db)
            && ((exists k :: k in s.db && !Hit(k, loaded)) ==>
                TotalOwed(t, loaded, threshold, keys) < TotalOwed(s, loaded, threshold, keys))
  {
    var t := Round(s, order, loaded, max, threshold, AlwaysDeletes);
    forall k
      ensures Count(t, k) <= threshold && Owed(t, loaded, threshold, k) <= Owed(s, loaded, threshold, k)
      ensures k in t.db ==> k in s.db
      ensures k in s.db && Hit(k, loaded) ==> k in t.db
    {
      RoundOwes(s, order, loaded, max, threshold, k);
      RoundOnKey(s, order, loaded, max, threshold, AlwaysDeletes, k);
    }
    TotalFalls(s, t, loaded, threshold, keys);
    if k :| k in s.db && !Hit(k, loaded) {
      var i :| 0 <= i < |order| && order[i] == k;
      var j := VisitsOne(order, loaded, max, 0, i);
      var visited := Visited(order, loaded, max);
      assert visited[j] == order[j];
      assert order[j] in visited;
      RoundOwes(s, order, loaded, max, threshold, order[j]);
    }
  }

  /** With the lookups fixed, no failures and no checkpoint saved, enough rounds delete every key without a config and
      no other. */
  lemma {:induction false} CleansUp(
      s: Store, orders: seq<seq<Key>>, stores: seq<Store>, loaded: Loaded, max: int, threshold: nat, keys: seq<Key>)
    requires Bounded(s, threshold) && (forall k :: k in s.db ==> k in keys)
    requires |stores| == |orders| + 1 && stores[0] == s
    requires forall i :: 0 <= i < |orders| ==>
               Lists(orders[i], stores[i].db)
                   && stores[i + 1] == Round(stores[i], orders[i], loaded, max, threshold, AlwaysDeletes)
    requires |orders| >= TotalOwed(s, loaded, threshold, keys)
    ensures stores[|orders|].db == set k | k in s.db && Hit(k, loaded)
    decreases |orders|
  {
    if orders == [] {
      forall k | k in s.db && !Hit(k, loaded)
        ensures false
      {
        OwedInTotal(s, loaded, threshold, keys, k);
      }
    } else {
      RoundProgress(s, orders[0], loaded, max, threshold, keys);
      if exists k :: k in s.db && !Hit(k, loaded) {
      } else {
        NothingOwed(s, loaded, threshold, keys);
        NothingOwed(stores[1], loaded, threshold, keys);
      }
      CleansUp(stores[1], orders[1..], stores[1..], loaded, max, threshold, keys);
    }
  }

  lemma {:induction false} OwedInTotal(s: Store, loaded: Loaded, threshold: nat, keys: seq<Key>, k: Key)
    requires k in keys
    ensures Owed(s, loaded, threshold, k) <= TotalOwed(s, loaded, threshold, keys)
  {
    if k != keys[0] {
      OwedInTotal(s, loaded, threshold, keys[1..], k);
    }
  }

  lemma {:induction false} NothingOwed(s: Store, loaded: Loaded, threshold: nat, keys: seq<Key>)
    requires forall k :: k in s.db ==> Hit(k, loaded)
    ensures TotalOwed(s, loaded, threshold, keys) == 0
  {
    if keys != [] {
      NothingOwed(s, loaded, threshold, keys[1..]);
    }
  }
}
