/**
  The recency list over whole histories from the empty cache: which of two stored keys stands first, what their
  values are, who is evicted before whom, and when nobody is.
*/
module LruCacheHistory {
  import opened LruCache

  // ----- what a history says about a key -----

  predicate Puts<K(==), V>(op: Op<K, V>, k: K) {
    (op.Insert? || op.Emplace?) && op.key == k
  }

  predicate Uses<K(==), V>(op: Op<K, V>, k: K) {
    Puts(op, k) || (op.Get? && op.key == k)
  }

  /** The place of the last operation that used the key, or -1. */
  function LastUse<K(==), V>(ops: seq<Op<K, V>>, k: K): (i: int)
    ensures -1 <= i < |ops|
  {
    if ops == [] then -1
    else if Uses(ops[|ops| - 1], k) then |ops| - 1
    else LastUse(ops[..|ops| - 1], k)
  }

  /** The place of the last insertion of the key, or -1. */
  function LastPut<K(==), V>(ops: seq<Op<K, V>>, k: K): (i: int)
    ensures -1 <= i < |ops| && (i >= 0 ==> Puts(ops[i], k))
  {
    if ops == [] then -1
    else if Puts(ops[|ops| - 1], k) then |ops| - 1
    else LastPut(ops[..|ops| - 1], k)
  }

  lemma {:induction false} RunLast<K, V>(es: seq<Entry<K, V>>, ops: seq<Op<K, V>>, cfg: Config)
    requires ops != []
    ensures Run(es, ops, cfg) == Apply(Run(es, ops[..|ops| - 1], cfg), ops[|ops| - 1], cfg)
    ensures History(es, ops, cfg) ==>
              History(es, ops[..|ops| - 1], cfg) && Permitted(Run(es, ops[..|ops| - 1], cfg), ops[|ops| - 1])
    decreases |ops|
  {
    var before := ops[..|ops| - 1];
    if |ops| > 1 {
      RunLast(Apply(es, ops[0], cfg), ops[1..], cfg);
      assert ops[1..][..|ops| - 2] == before[1..] && before[0] == ops[0];
    } else {
      assert ops[1..] == [] && before == [];
    }
  }

  // ----- order and values -----

  /** Of two stored keys the one used last stands first. */
  ghost predicate ByRecency<K, V>(es: seq<Entry<K, V>>, ops: seq<Op<K, V>>) {
    && (forall i :: 0 <= i < |es| ==> LastUse(ops, es[i].key) >= 0)
    && (forall i, j :: 0 <= i < j < |es| ==> LastUse(ops, es[i].key) > LastUse(ops, es[j].key))
  }

  /** Every stored value is the one inserted last for its key. */
  ghost predicate LastValues<K, V>(es: seq<Entry<K, V>>, ops: seq<Op<K, V>>) {
    forall i :: 0 <= i < |es| ==>
      LastPut(ops, es[i].key) >= 0 && es[i].value == ops[LastPut(ops, es[i].key)].value
  }

  /** An operation that uses no stored key other than the one it puts in front. */
  lemma FrontByRecency<K, V>(
      es: seq<Entry<K, V>>, rest: seq<Entry<K, V>>, e: Entry<K, V>, ops: seq<Op<K, V>>, op: Op<K, V>)
    requires ByRecency(rest, ops) && Uses(op, e.key) && es == [e] + rest
    requires forall i :: 0 <= i < |rest| ==> !Uses(op, rest[i].key)
    ensures ByRecency(es, ops + [op])
  {
    var all := ops + [op];
    assert all[..|all| - 1] == ops;
    assert LastUse(all, e.key) == |ops|;
    forall i | 0 <= i < |rest|
      ensures LastUse(all, rest[i].key) == LastUse(ops, rest[i].key)
    {
    }
  }

  lemma WithoutByRecency<K, V>(es: seq<Entry<K, V>>, f: nat, ops: seq<Op<K, V>>)
    requires ByRecency(es, ops) && f < |es|
    ensures ByRecency(Without(es, f), ops)
    ensures forall i :: 0 <= i < |Without(es, f)| ==> Without(es, f)[i].key != es[f].key
  {
    var r := Without(es, f);
    assert forall i :: 0 <= i < |r| ==> r[i] == es[if i < f then i else i + 1];
  }

  lemma SameUses<K, V>(es: seq<Entry<K, V>>, ops: seq<Op<K, V>>, op: Op<K, V>)
    requires ByRecency(es, ops) && forall i :: 0 <= i < |es| ==> !Uses(op, es[i].key)
    ensures ByRecency(es, ops + [op])
  {
    assert (ops + [op])[..|ops|] == ops;
    assert forall i :: 0 <= i < |es| ==> LastUse(ops + [op], es[i].key) == LastUse(ops, es[i].key);
  }

  lemma PushByRecency<K, V>(es: seq<Entry<K, V>>, e: Entry<K, V>, ops: seq<Op<K, V>>, op: Op<K, V>, cfg: Config)
    requires ByRecency(es, ops) && Puts(op, e.key) && !Has(es, e.key)
    ensures ByRecency(Pruned([e] + es, cfg), ops + [op])
  {
    FrontByRecency([e] + es, es, e, ops, op);
  }

  lemma FoundByRecency<K, V>(es: seq<Entry<K, V>>, after: seq<Entry<K, V>>, ops: seq<Op<K, V>>, op: Op<K, V>, f: nat)
    requires ByRecency(es, ops) && f < |es| && Uses(op, es[f].key)
    requires after != [] && after[0].key == es[f].key && after[1..] == Without(es, f)
    ensures ByRecency(after, ops + [op])
  {
    WithoutByRecency(es, f, ops);
    assert after == [after[0]] + after[1..];
    FrontByRecency(after, Without(es, f), after[0], ops, op);
  }

  lemma StepByRecency<K, V>(es: seq<Entry<K, V>>, ops: seq<Op<K, V>>, op: Op<K, V>, cfg: Config)
    requires ByRecency(es, ops) && Permitted(es, op)
    ensures ByRecency(Apply(es, op, cfg), ops + [op])
  {
    match op
    case Insert(k, v) =>
      if Has(es, k) {
        InsertPuts(es, k, v, cfg);
        FoundByRecency(es, Apply(es, op, cfg), ops, op, Find(es, k));
      } else {
        PushByRecency(es, Entry(k, v), ops, op, cfg);
      }
    case Emplace(k, v) =>
      PushByRecency(es, Entry(k, v), ops, op, cfg);
    case Get(k) =>
      if Has(es, k) {
        GetPuts(es, k, cfg);
        FoundByRecency(es, Apply(es, op, cfg), ops, op, Find(es, k));
      } else {
        SameUses(es, ops, op);
      }
    case Remove(k) =>
      if Has(es, k) {
        WithoutByRecency(es, Find(es, k), ops);
      }
      SameUses(Apply(es, op, cfg), ops, op);
    case Clear =>
  }

  lemma StepLastValues<K, V>(es: seq<Entry<K, V>>, ops: seq<Op<K, V>>, op: Op<K, V>, cfg: Config)
    requires LastValues(es, ops) && Distinct(es) && Permitted(es, op)
    ensures LastValues(Apply(es, op, cfg), ops + [op])
  {
    var all, r := ops + [op], Apply(es, op, cfg);
    assert all[..|ops|] == ops;
    forall i | 0 <= i < |r|
      ensures LastPut(all, r[i].key) >= 0 && r[i].value == all[LastPut(all, r[i].key)].value
    {
      var _ := ComesFrom(es, op, cfg, i);
    }
  }

  /** Whatever is stored after an operation was put there by it or is an entry it did not put. */
  lemma ComesFrom<K, V>(es: seq<Entry<K, V>>, op: Op<K, V>, cfg: Config, i: nat) returns (j: nat)
    requires i < |Apply(es, op, cfg)| && Distinct(es) && Permitted(es, op)
    ensures var e := Apply(es, op, cfg)[i];
            || (Puts(op, e.key) && e.value == op.value)
            || (!Puts(op, e.key) && j < |es| && es[j] == e)
  {
    match op
    case Insert(k, v) =>
      if Has(es, k) {
        var f := Find(es, k);
        j := if i == 0 then f else if i <= f then i - 1 else i;
        assert i > 0 ==> Apply(es, op, cfg)[i] == es[j];
      } else {
        j := if i == 0 then 0 else i - 1;
        assert Apply(es, op, cfg)[i] == ([Entry(k, v)] + es)[i];
      }
    case Emplace(k, v) =>
      j := if i == 0 then 0 else i - 1;
      assert Apply(es, op, cfg)[i] == ([Entry(k, v)] + es)[i];
    case Get(k) =>
      if Has(es, k) {
        var f := Find(es, k);
        j := if i == 0 then f else if i <= f then i - 1 else i;
        assert i > 0 ==> Apply(es, op, cfg)[i] == es[j];
      } else {
        j := i;
      }
    case Remove(k) =>
      if Has(es, k) {
        var f := Find(es, k);
        j := if i < f then i else i + 1;
      } else {
        j := i;
      }
    case Clear =>
  }

  /**
    Over every history from the empty cache: of two stored keys the one used last stands first, and every stored
    value is the one inserted last for its key.
  */
  lemma {:induction false} MostRecentFirst<K, V>(ops: seq<Op<K, V>>, cfg: Config)
    requires History([], ops, cfg)
    ensures ByRecency(Run([], ops, cfg), ops) && LastValues(Run([], ops, cfg), ops) && Distinct(Run([], ops, cfg))
    decreases |ops|
  {
    if ops != [] {
      var before, op := ops[..|ops| - 1], ops[|ops| - 1];
      RunLast([], ops, cfg);
      MostRecentFirst(before, cfg);
      StepByRecency(Run([], before, cfg), before, op, cfg);
      StepLastValues(Run([], before, cfg), before, op, cfg);
      assert before + [op] == ops;
      assert Distinct(Run([], ops, cfg));
    }
  }

  // ----- who is evicted first -----

  /** The place of the last operation that found or stored the key, or -1. */
  function LastTouch<K(==), V>(ops: seq<Op<K, V>>, k: K, cfg: Config): (i: int)
    ensures -1 <= i < |ops|
  {
    if ops == [] then -1
    else if k in Touched(Run([], ops[..|ops| - 1], cfg), ops[|ops| - 1]) then |ops| - 1
    else LastTouch(ops[..|ops| - 1], k, cfg)
  }

  lemma Kept<K, V>(es: seq<Entry<K, V>>, op: Op<K, V>, cfg: Config, k: K)
    requires Distinct(es) && Permitted(es, op) && Has(Apply(es, op, cfg), k) && k !in Touched(es, op)
    ensures Has(es, k)
  {
    var r := Apply(es, op, cfg);
    var i :| 0 <= i < |r| && r[i].key == k;
    var j := ComesFrom(es, op, cfg, i);
  }

  /** A stored key was last used when it was last touched: lookups that failed came before it was stored. */
  lemma {:induction false} StoredTouch<K, V>(ops: seq<Op<K, V>>, k: K, cfg: Config)
    requires History([], ops, cfg) && Has(Run([], ops, cfg), k)
    ensures LastTouch(ops, k, cfg) == LastUse(ops, k)
    decreases |ops|
  {
    var before, op := ops[..|ops| - 1], ops[|ops| - 1];
    RunLast([], ops, cfg);
    var es := Run([], before, cfg);
    if k !in Touched(es, op) {
      MostRecentFirst(before, cfg);
      Kept(es, op, cfg, k);
      StoredTouch(before, k, cfg);
    }
  }

  lemma TouchedIsStored<K, V>(es: seq<Entry<K, V>>, op: Op<K, V>, cfg: Config, k: K)
    requires k in Touched(es, op)
    ensures Has(Apply(es, op, cfg), k)
  {
    match op
    case Insert(_, v) => InsertPuts(es, k, v, cfg);
    case Emplace(_, v) => assert Pruned([Entry(k, v)] + es, cfg)[0].key == k;
    case Get(_) => GetPuts(es, k, cfg);
    case _ =>
  }

  lemma FirstStays<K, V>(es: seq<Entry<K, V>>, op: Op<K, V>, cfg: Config, a: nat, b: nat)
    requires Distinct(es) && a < b < |es| && Permitted(es, op) && Spares(op, es[a].key)
    requires es[a].key !in Touched(es, op) && es[b].key !in Touched(es, op) && Has(Apply(es, op, cfg), es[b].key)
    ensures Has(Apply(es, op, cfg), es[a].key)
  {
    var r, j := Apply(es, op, cfg), es[a].key;
    assert Has(es, es[a].key) && Has(es, es[b].key);
    match op
    case Insert(k, v) =>
      if Has(es, k) {
        var f := Find(es, k);
        assert r[if a < f then a + 1 else a].key == j;
      } else {
        PushedFirstStays(es, Entry(k, v), cfg, a, b);
      }
    case Emplace(k, v) =>
      PushedFirstStays(es, Entry(k, v), cfg, a, b);
    case Get(k) =>
      if Has(es, k) {
        var f := Find(es, k);
        assert r[if a < f then a + 1 else a].key == j;
      }
    case Remove(k) =>
      if Has(es, k) {
        var f := Find(es, k);
        assert r[if a < f then a else a - 1].key == j;
      }
    case Clear =>
  }

  lemma PushedFirstStays<K, V>(es: seq<Entry<K, V>>, e: Entry<K, V>, cfg: Config, a: nat, b: nat)
    requires Distinct(es) && a < b < |es| && !Has(es, e.key) && Has(Pruned([e] + es, cfg), es[b].key)
    ensures Has(Pruned([e] + es, cfg), es[a].key)
  {
    var r := Pruned([e] + es, cfg);
    var i :| 0 <= i < |r| && r[i].key == es[b].key;
    assert r[i] == ([e] + es)[i] && i == b + 1;
    assert r[a + 1] == ([e] + es)[a + 1] == es[a];
  }

  /** If a key is stored, so is every key touched after it and not removed since: the least recent goes first. */
  lemma {:induction false} UsedLaterStays<K, V>(ops: seq<Op<K, V>>, j: K, k: K, cfg: Config)
    requires History([], ops, cfg) && Has(Run([], ops, cfg), k)
    requires LastTouch(ops, j, cfg) > LastTouch(ops, k, cfg)
    requires forall i :: LastTouch(ops, j, cfg) < i < |ops| ==> Spares(ops[i], j)
    ensures Has(Run([], ops, cfg), j)
    decreases |ops|
  {
    var before, op := ops[..|ops| - 1], ops[|ops| - 1];
    var es := Run([], before, cfg);
    RunLast([], ops, cfg);
    if j in Touched(es, op) {
      TouchedIsStored(es, op, cfg, j);
    } else {
      MostRecentFirst(before, cfg);
      Kept(es, op, cfg, k);
      UsedLaterStays(before, j, k, cfg);
      StoredTouch(before, j, cfg);
      StoredTouch(before, k, cfg);
      FirstStays(es, op, cfg, Find(es, j), Find(es, k));
    }
  }

  // ----- when somebody is evicted -----

  /** An insertion of an absent key evicts somebody exactly when the cache has reached maxSize + elasticity keys and
      more than maxSize, and then it leaves the maxSize most recent ones. */
  lemma PruneMoment<K, V>(es: seq<Entry<K, V>>, e: Entry<K, V>, cfg: Config)
    requires cfg.maxSize + cfg.elasticity < WORD && !Has(es, e.key)
    ensures var n := |es| + 1;
            |Apply(es, Op.Insert(e.key, e.value), cfg)|
            == if cfg.maxSize > 0 && n > cfg.maxSize && n >= cfg.maxSize + cfg.elasticity then cfg.maxSize else n
  {
  }

  lemma RoomLeft<K, V>(es: seq<Entry<K, V>>, e: Entry<K, V>, s: set<K>, cfg: Config)
    requires Distinct(es) && (forall i :: 0 <= i < |es| ==> es[i].key in s) && e.key in s && !Has(es, e.key)
    requires cfg.maxSize == 0 || |s| < cfg.maxSize + cfg.elasticity < WORD
    ensures Pruned([e] + es, cfg) == [e] + es
  {
    Pigeonhole([e] + es, |es| + 1, s);
  }

  lemma StaysStep<K, V>(es: seq<Entry<K, V>>, op: Op<K, V>, k: K, s: set<K>, cfg: Config)
    requires Distinct(es) && (forall i :: 0 <= i < |es| ==> es[i].key in s) && Permitted(es, op)
    requires Touched(es, op) <= s && (cfg.maxSize == 0 || |s| < cfg.maxSize + cfg.elasticity < WORD)
    requires Has(es, k) && Spares(op, k)
    ensures var r := Apply(es, op, cfg); Has(r, k) && forall i :: 0 <= i < |r| ==> r[i].key in s
  {
    var r, a := Apply(es, op, cfg), Find(es, k);
    forall i | 0 <= i < |r|
      ensures r[i].key in s
    {
      var j := ComesFrom(es, op, cfg, i);
    }
    if k in Touched(es, op) {
      TouchedIsStored(es, op, cfg, k);
    } else if (op.Insert? || op.Emplace?) && !Has(es, op.key) {
      RoomLeft(es, Entry(op.key, op.value), s, cfg);
      assert r[a + 1].key == k;
    } else if !op.Clear? && Has(es, op.key) {
      var f := Find(es, op.key);
      assert r[if op.Remove? then if a < f then a else a - 1 else if a < f then a + 1 else a].key == k;
    }
  }

  /** As long as fewer than maxSize + elasticity keys are in play, a stored key leaves only by being removed. */
  lemma {:induction false} NobodyEvicted<K, V>(
      es: seq<Entry<K, V>>, ops: seq<Op<K, V>>, k: K, s: set<K>, cfg: Config)
    requires Distinct(es) && (forall i :: 0 <= i < |es| ==> es[i].key in s) && History(es, ops, cfg)
    requires OthersTouched(es, ops, k, cfg) + {k} <= s
    requires cfg.maxSize == 0 || |s| < cfg.maxSize + cfg.elasticity < WORD
    requires Has(es, k) && forall i :: 0 <= i < |ops| ==> Spares(ops[i], k)
    ensures Has(Run(es, ops, cfg), k)
    decreases |ops|
  {
    if ops != [] {
      StaysStep(es, ops[0], k, s, cfg);
      StepDistinct(es, ops[0], cfg);
      NobodyEvicted(Apply(es, ops[0], cfg), ops[1..], k, s, cfg);
    }
  }

  lemma StepDistinct<K, V>(es: seq<Entry<K, V>>, op: Op<K, V>, cfg: Config)
    requires Distinct(es) && Permitted(es, op)
    ensures Distinct(Apply(es, op, cfg))
  {
    // the size bound plays no part when the cache is taken as unbounded
    ApplyKeepsSize(es, op, Config(0, 0));
    if op.Insert? || op.Emplace? {
      assert Apply(es, op, cfg) <= Apply(es, op, Config(0, 0));
    }
  }
}
