/**
  The LRU cache: a map from keys to nodes kept in step with a list of nodes, most recently used first.

  The list is specified as a recency-ordered sequence of entries; the class does what the source does
  to its map and list, and each method is proved to be one operation on that sequence.  What the cache
  promises is then proved about every history of operations.
*/
module LruCache {

  const WORD := 0x1_0000_0000_0000_0000

  datatype Entry<K, V> = Entry(key: K, value: V)

  datatype Config = Config(maxSize: nat, elasticity: nat) {
    /** maxSize + elasticity in size_t. */
    function MaxAllowed(): nat {
      (maxSize + elasticity) % WORD
    }

    /** The largest size a pruned cache can have. */
    function Limit(): nat {
      if elasticity == 0 then maxSize else maxSize + elasticity - 1
    }
  }

  // ----- the recency list -----

  predicate Has<K(==), V>(es: seq<Entry<K, V>>, k: K) {
    exists i :: 0 <= i < |es| && es[i].key == k
  }

  ghost predicate Distinct<K, V>(es: seq<Entry<K, V>>) {
    forall i, j :: 0 <= i < j < |es| ==> es[i].key != es[j].key
  }

  function Find<K(==), V>(es: seq<Entry<K, V>>, k: K): (i: nat)
    requires Has(es, k)
    ensures i < |es| && es[i].key == k && forall j :: 0 <= j < i ==> es[j].key != k
  {
    if es[0].key == k then 0
    else
      assert Has(es[1..], k) by {
        var i :| 0 <= i < |es| && es[i].key == k;
        assert es[1..][i - 1].key == k;
      }
      1 + Find(es[1..], k)
  }

  function ToFront<T>(s: seq<T>, i: nat): (r: seq<T>)
    requires i < |s|
    ensures |r| == |s|
  {
    [s[i]] + s[..i] + s[i + 1..]
  }

  lemma ToFrontIs<T>(s: seq<T>, i: nat)
    requires i < |s|
    ensures ToFront(s, i)[0] == s[i] && ToFront(s, i)[1..] == Without(s, i)
  {
  }

  function Without<T>(s: seq<T>, i: nat): seq<T>
    requires i < |s|
  {
    s[..i] + s[i + 1..]
  }

  ghost function IndexOf<T>(s: seq<T>, x: T): (i: nat)
    requires x in s
    ensures i < |s| && s[i] == x
  {
    var i :| 0 <= i < |s| && s[i] == x;
    i
  }

  function Pruned<T>(s: seq<T>, cfg: Config): seq<T> {
    if cfg.maxSize == 0 || |s| < cfg.MaxAllowed() || |s| <= cfg.maxSize then s else s[..cfg.maxSize]
  }

  datatype Op<K, V> = Insert(key: K, value: V) | Emplace(key: K, value: V) | Get(key: K) | Remove(key: K) | Clear

  function Apply<K(==), V>(es: seq<Entry<K, V>>, op: Op<K, V>, cfg: Config): seq<Entry<K, V>> {
    match op
    case Insert(k, v) =>
      if Has(es, k) then ToFront(es[Find(es, k) := Entry(k, v)], Find(es, k)) else Pruned([Entry(k, v)] + es, cfg)
    case Emplace(k, v) => Pruned([Entry(k, v)] + es, cfg)
    case Get(k) => if Has(es, k) then ToFront(es, Find(es, k)) else es
    case Remove(k) => if Has(es, k) then Without(es, Find(es, k)) else es
    case Clear => []
  }

  // ----- the class -----

  class Node<K, V> {
    const key: K
    var value: V

    constructor (key: K, value: V)
      ensures this.key == key && this.value == value
    {
      this.key := key;
      this.value := value;
    }
  }

  datatype Lookup<V> = Found(value: V) | KeyNotFound

  /** Whatever the map holds is a node of the list, filed under its own key. */
  ghost predicate Covered<K, V>(cache: map<K, Node<K, V>>, keys: seq<Node<K, V>>) {
    forall k :: k in cache ==> cache[k] in keys && cache[k].key == k
  }

  /** No key is in the list twice and every node of the list is the one the map holds for its key. */
  ghost predicate Linked<K, V>(cache: map<K, Node<K, V>>, keys: seq<Node<K, V>>) {
    && (forall i, j :: 0 <= i < j < |keys| ==> keys[i].key != keys[j].key)
    && (forall i :: 0 <= i < |keys| ==> keys[i].key in cache && cache[keys[i].key] == keys[i])
  }

  ghost predicate InStep<K, V>(cache: map<K, Node<K, V>>, keys: seq<Node<K, V>>) {
    Covered(cache, keys) && Linked(cache, keys)
  }

  ghost function EntriesOf<K, V>(keys: seq<Node<K, V>>): (es: seq<Entry<K, V>>)
    reads keys
  {
    seq(|keys|, i requires 0 <= i < |keys| reads keys => Entry(keys[i].key, keys[i].value))
  }

  lemma SizesAgree<K, V>(cache: map<K, Node<K, V>>, keys: seq<Node<K, V>>)
    requires InStep(cache, keys)
    ensures |cache| == |keys|
  {
    var ks := seq(|keys|, i requires 0 <= i < |keys| => keys[i].key);
    DistinctSize(ks);
    assert cache.Keys == set k | k in ks by {
      forall k | k in cache
        ensures k in ks
      {
        var i :| 0 <= i < |keys| && keys[i] == cache[k];
        assert ks[i] == k;
      }
    }
  }

  /** Whether a key is stored, in the map as in the list. */
  lemma Contained<K, V>(cache: map<K, Node<K, V>>, keys: seq<Node<K, V>>, k: K)
    requires InStep(cache, keys)
    ensures k in cache <==> Has(EntriesOf(keys), k)
    ensures k in cache ==> cache[k] in keys && IndexOf(keys, cache[k]) == Find(EntriesOf(keys), k)
  {
    if k in cache {
      var i := IndexOf(keys, cache[k]);
      assert EntriesOf(keys)[i].key == k;
    }
  }

  lemma EntriesPush<K, V>(node: Node<K, V>, keys: seq<Node<K, V>>)
    ensures EntriesOf([node] + keys) == [Entry(node.key, node.value)] + EntriesOf(keys)
  {
  }

  lemma EntriesErase<K, V>(keys: seq<Node<K, V>>, i: nat)
    requires i < |keys|
    ensures EntriesOf(keys[..i] + keys[i + 1..]) == EntriesOf(keys)[..i] + EntriesOf(keys)[i + 1..]
  {
  }

  lemma EntriesPruned<K, V>(keys: seq<Node<K, V>>, cfg: Config)
    ensures EntriesOf(Pruned(keys, cfg)) == Pruned(EntriesOf(keys), cfg)
  {
  }

  lemma EntriesToFront<K, V>(keys: seq<Node<K, V>>, i: nat)
    requires i < |keys|
    ensures EntriesOf(ToFront(keys, i)) == ToFront(EntriesOf(keys), i)
  {
  }

  // ----- lists that need not agree with the map -----

  ghost predicate NodesDistinct<K, V>(keys: seq<Node<K, V>>) {
    forall i, j :: 0 <= i < j < |keys| ==> keys[i] != keys[j]
  }

  /** What every operation keeps, also after emplace has been given a stored key. */
  ghost predicate Sane<K, V>(cache: map<K, Node<K, V>>, keys: seq<Node<K, V>>) {
    Covered(cache, keys) && NodesDistinct(keys)
  }

  lemma InStepIsSane<K, V>(cache: map<K, Node<K, V>>, keys: seq<Node<K, V>>)
    requires InStep(cache, keys)
    ensures Sane(cache, keys)
  {
  }

  /** The map never holds more than the list. */
  lemma CoveredSize<K, V>(cache: map<K, Node<K, V>>, keys: seq<Node<K, V>>)
    requires Covered(cache, keys)
    ensures |cache| <= |keys|
  {
    var names := seq(|keys|, i requires 0 <= i < |keys| => keys[i].key);
    assert cache.Keys <= set k | k in names by {
      forall k | k in cache
        ensures k in names
      {
        var i :| 0 <= i < |keys| && keys[i] == cache[k];
        assert names[i] == k;
      }
    }
    SetSize(names);
    SubsetSize(cache.Keys, set k | k in names);
  }

  lemma {:induction false} SetSize<K>(ks: seq<K>)
    ensures |set k | k in ks| <= |ks|
  {
    if ks != [] {
      SetSize(ks[1..]);
      assert (set k | k in ks) == (set k | k in ks[1..]) + {ks[0]};
    }
  }

  lemma {:induction false} SubsetSize<K>(a: set<K>, b: set<K>)
    requires a <= b
    ensures |a| <= |b|
  {
    if a != {} {
      var k :| k in a;
      SubsetSize(a - {k}, b - {k});
    }
  }

  /** Without a node that the map does not hold, the list still covers the map. */
  lemma CoveredWithout<K, V>(cache: map<K, Node<K, V>>, keys: seq<Node<K, V>>, i: nat)
    requires Covered(cache, keys) && i < |keys| && (keys[i].key in cache ==> cache[keys[i].key] != keys[i])
    ensures Covered(cache, keys[..i] + keys[i + 1..])
  {
    var rest := keys[..i] + keys[i + 1..];
    forall k | k in cache
      ensures cache[k] in rest && cache[k].key == k
    {
      var j :| 0 <= j < |keys| && keys[j] == cache[k];
      assert rest[if j < i then j else j - 1] == keys[j];
    }
  }

  /** Map and list agree if and only if they have the same size. */
  lemma AgreeBySize<K, V>(cache: map<K, Node<K, V>>, keys: seq<Node<K, V>>)
    requires Sane(cache, keys)
    ensures InStep(cache, keys) <==> |cache| == |keys|
  {
    if Linked(cache, keys) {
      SizesAgree(cache, keys);
    } else if i :| 0 <= i < |keys| && (keys[i].key in cache ==> cache[keys[i].key] != keys[i]) {
      CoveredWithout(cache, keys, i);
      CoveredSize(cache, keys[..i] + keys[i + 1..]);
    }
  }

  lemma SpliceKeeps<K, V>(cache: map<K, Node<K, V>>, keys: seq<Node<K, V>>, i: nat)
    requires Sane(cache, keys) && i < |keys|
    ensures Sane(cache, ToFront(keys, i))
    ensures InStep(cache, keys) ==> InStep(cache, ToFront(keys, i))
  {
    var after := ToFront(keys, i);
    forall k | k in cache
      ensures cache[k] in after
    {
      var j :| 0 <= j < |keys| && keys[j] == cache[k];
      assert after[if j < i then j + 1 else if j == i then 0 else j] == keys[j];
    }
    AgreeBySize(cache, keys);
    AgreeBySize(cache, after);
  }

  /** Taking a node out of the list and its key out of the map. */
  lemma EraseCovered<K, V>(cache: map<K, Node<K, V>>, keys: seq<Node<K, V>>, i: nat)
    requires Sane(cache, keys) && i < |keys|
    ensures Sane(cache - {keys[i].key}, keys[..i] + keys[i + 1..])
  {
    var after := keys[..i] + keys[i + 1..];
    forall k | k in cache && k != keys[i].key
      ensures cache[k] in after
    {
      var j :| 0 <= j < |keys| && keys[j] == cache[k];
      assert after[if j < i then j else j - 1] == keys[j];
    }
  }

  lemma EraseKeeps<K, V>(cache: map<K, Node<K, V>>, keys: seq<Node<K, V>>, i: nat)
    requires Sane(cache, keys) && i < |keys|
    ensures Sane(cache - {keys[i].key}, keys[..i] + keys[i + 1..])
    ensures InStep(cache, keys) ==> InStep(cache - {keys[i].key}, keys[..i] + keys[i + 1..])
  {
    EraseCovered(cache, keys, i);
    AgreeBySize(cache, keys);
    AgreeBySize(cache - {keys[i].key}, keys[..i] + keys[i + 1..]);
  }

  // ----- pruning -----

  /** The loop of prune: nodes leave the list from the back, and their keys the map, until it is small enough. */
  ghost function PopDown<K, V>(cache: map<K, Node<K, V>>, keys: seq<Node<K, V>>, size: nat)
    : (map<K, Node<K, V>>, seq<Node<K, V>>)
    decreases |keys|
  {
    if |cache| <= size || keys == [] then (cache, keys)
    else PopDown(cache - {keys[|keys| - 1].key}, keys[..|keys| - 1], size)
  }

  ghost function PruneBoth<K, V>(cache: map<K, Node<K, V>>, keys: seq<Node<K, V>>, cfg: Config)
    : (map<K, Node<K, V>>, seq<Node<K, V>>)
  {
    if cfg.maxSize == 0 || |cache| < cfg.MaxAllowed() then (cache, keys) else PopDown(cache, keys, cfg.maxSize)
  }

  lemma PopKeeps<K, V>(cache: map<K, Node<K, V>>, keys: seq<Node<K, V>>)
    requires Sane(cache, keys) && keys != []
    ensures Sane(cache - {keys[|keys| - 1].key}, keys[..|keys| - 1])
    ensures InStep(cache, keys) ==> InStep(cache - {keys[|keys| - 1].key}, keys[..|keys| - 1])
  {
    EraseKeeps(cache, keys, |keys| - 1);
    assert keys[..|keys| - 1] == keys[..|keys| - 1] + keys[|keys|..];
  }

  lemma {:induction false} PopDownSane<K, V>(cache: map<K, Node<K, V>>, keys: seq<Node<K, V>>, size: nat)
    requires Sane(cache, keys)
    ensures var (c, ks) := PopDown(cache, keys, size); Sane(c, ks) && ks <= keys
    ensures size > 0 && keys != [] ==> PopDown(cache, keys, size).1 != []
    decreases |keys|
  {
    if |cache| > size && keys != [] {
      PopKeeps(cache, keys);
      CoveredSize(cache, keys);
      PopDownSane(cache - {keys[|keys| - 1].key}, keys[..|keys| - 1], size);
    }
  }

  lemma {:induction false} PopDownInStep<K, V>(cache: map<K, Node<K, V>>, keys: seq<Node<K, V>>, size: nat)
    requires InStep(cache, keys)
    ensures var (c, ks) := PopDown(cache, keys, size);
            InStep(c, ks) && ks <= keys && |ks| == if |keys| > size then size else |keys|
    decreases |keys|
  {
    SizesAgree(cache, keys);
    if |keys| > size {
      InStepIsSane(cache, keys);
      PopKeeps(cache, keys);
      PopDownInStep(cache - {keys[|keys| - 1].key}, keys[..|keys| - 1], size);
    }
  }

  lemma PopOne<K, V>(
      cache: map<K, Node<K, V>>, keys: seq<Node<K, V>>, size: nat,
      cache': map<K, Node<K, V>>, keys': seq<Node<K, V>>, last: Node<K, V>)
    requires |cache| > size && keys == keys' + [last] && cache - {last.key} == cache'
    ensures PopDown(cache, keys, size) == PopDown(cache', keys', size)
  {
    assert keys[|keys| - 1] == last && keys[..|keys| - 1] == keys';
  }

  /** The node in front is the second one of its key, or the map has lost that key. */
  ghost predicate Orphaned<K, V>(cache: map<K, Node<K, V>>, keys: seq<Node<K, V>>) {
    keys != [] && (keys[0].key in cache ==> exists i :: 0 < i < |keys| && keys[i].key == keys[0].key)
  }

  lemma OrphanedNotLinked<K, V>(cache: map<K, Node<K, V>>, keys: seq<Node<K, V>>)
    requires Orphaned(cache, keys)
    ensures !Linked(cache, keys)
  {
  }

  /** Popping the older node of the key takes the key out of the map and leaves the node in front without it. */
  lemma PopOrphaned<K, V>(cache: map<K, Node<K, V>>, keys: seq<Node<K, V>>)
    requires Orphaned(cache, keys) && |keys| > 1
    ensures Orphaned(cache - {keys[|keys| - 1].key}, keys[..|keys| - 1])
  {
    var k := keys[0].key;
    if k in cache && k != keys[|keys| - 1].key {
      var i :| 0 < i < |keys| && keys[i].key == k;
      assert keys[..|keys| - 1][i].key == k;
    }
  }

  /** A prune under an orphaned node in front leaves it orphaned. */
  lemma {:induction false} PopDownOrphaned<K, V>(cache: map<K, Node<K, V>>, keys: seq<Node<K, V>>, size: nat)
    requires Sane(cache, keys) && Orphaned(cache, keys) && size > 0
    ensures var (c, ks) := PopDown(cache, keys, size); Orphaned(c, ks)
    decreases |keys|
  {
    if |cache| > size {
      CoveredSize(cache, keys);
      PopKeeps(cache, keys);
      PopOrphaned(cache, keys);
      PopDownOrphaned(cache - {keys[|keys| - 1].key}, keys[..|keys| - 1], size);
    }
  }

  lemma PruneSane<K, V>(cache: map<K, Node<K, V>>, keys: seq<Node<K, V>>, cfg: Config)
    requires Sane(cache, keys)
    ensures var (c, ks) := PruneBoth(cache, keys, cfg); Sane(c, ks) && ks <= keys && (keys != [] ==> ks != [])
  {
    PopDownSane(cache, keys, cfg.maxSize);
  }

  lemma PruneInStep<K, V>(cache: map<K, Node<K, V>>, keys: seq<Node<K, V>>, cfg: Config)
    requires InStep(cache, keys)
    ensures var (c, ks) := PruneBoth(cache, keys, cfg); InStep(c, ks) && ks == Pruned(keys, cfg)
  {
    SizesAgree(cache, keys);
    PopDownInStep(cache, keys, cfg.maxSize);
    var (_, ks) := PopDown(cache, keys, cfg.maxSize);
    assert ks == keys[..|ks|];
  }

  // ----- pushing -----

  lemma PushSane<K, V>(cache: map<K, Node<K, V>>, keys: seq<Node<K, V>>, node: Node<K, V>)
    requires Sane(cache, keys) && node !in keys
    ensures Sane(cache[node.key := node], [node] + keys)
  {
    var after := [node] + keys;
    forall k | k in cache && k != node.key
      ensures cache[k] in after
    {
      var i :| 0 <= i < |keys| && keys[i] == cache[k];
      assert after[i + 1] == keys[i];
    }
    assert after[0] == node;
  }

  /** What a push and the prune after it make of map and list. */
  ghost function Push<K, V>(cache: map<K, Node<K, V>>, keys: seq<Node<K, V>>, node: Node<K, V>, cfg: Config)
    : (map<K, Node<K, V>>, seq<Node<K, V>>)
  {
    PruneBoth(cache[node.key := node], [node] + keys, cfg)
  }

  lemma PushKeeps<K, V>(cache: map<K, Node<K, V>>, keys: seq<Node<K, V>>, node: Node<K, V>, cfg: Config)
    requires Sane(cache, keys) && node !in keys
    ensures var (c, ks) := Push(cache, keys, node, cfg); Sane(c, ks) && ks != [] && ks[0] == node
  {
    PushSane(cache, keys, node);
    PruneSane(cache[node.key := node], [node] + keys, cfg);
  }

  /** Pushing an absent key onto a list in step with the map keeps them in step. */
  lemma PushAbsent<K, V>(cache: map<K, Node<K, V>>, keys: seq<Node<K, V>>, node: Node<K, V>, cfg: Config)
    requires InStep(cache, keys) && node !in keys && node.key !in cache
    ensures var (c, ks) := Push(cache, keys, node, cfg); InStep(c, ks) && ks == Pruned([node] + keys, cfg)
  {
    InStepIsSane(cache, keys);
    PushSane(cache, keys, node);
    AgreeBySize(cache, keys);
    AgreeBySize(cache[node.key := node], [node] + keys);
    PruneInStep(cache[node.key := node], [node] + keys, cfg);
  }

  /** Pushing a stored key breaks the agreement, whether the prune after it cuts the older node off or not. */
  lemma PushStored<K, V>(cache: map<K, Node<K, V>>, keys: seq<Node<K, V>>, node: Node<K, V>, cfg: Config)
    requires InStep(cache, keys) && node !in keys && node.key in cache
    ensures var (c, ks) := Push(cache, keys, node, cfg); Orphaned(c, ks) && !InStep(c, ks)
  {
    InStepIsSane(cache, keys);
    PushSane(cache, keys, node);
    var pushed, after := cache[node.key := node], [node] + keys;
    var i :| 0 <= i < |keys| && keys[i] == cache[node.key];
    assert after[i + 1].key == node.key;
    if cfg.maxSize > 0 {
      PopDownOrphaned(pushed, after, cfg.maxSize);
    }
    var (c, ks) := Push(cache, keys, node, cfg);
    OrphanedNotLinked(c, ks);
  }

  // ----- the cache -----

  class Cache<K(==), V> {
    const cfg: Config
    var cache: map<K, Node<K, V>>
    var keys: seq<Node<K, V>>

    /** Map and list agree. */
    ghost predicate Valid()
      reads this
    {
      InStep(cache, keys)
    }

    ghost predicate Usable()
      reads this
    {
      Sane(cache, keys)
    }

    ghost function Entries(): seq<Entry<K, V>>
      reads this, keys
    {
      EntriesOf(keys)
    }

    constructor (cfg: Config)
      ensures Valid() && Usable() && this.cfg == cfg && cache == map[] && keys == []
    {
      this.cfg := cfg;
      cache := map[];
      keys := [];
    }

    /** Pruning from the back. */
    method Prune()
      requires Usable()
      modifies this
      ensures (cache, keys) == PruneBoth(old(cache), old(keys), cfg)
    {
      if cfg.maxSize == 0 || |cache| < cfg.MaxAllowed() {
        return;
      }
      PruneTo(cfg.maxSize);
    }

    /** The loop of prune, which ends because the map never holds more than the list. */
    method PruneTo(size: nat)
      requires Usable()
      modifies this
      ensures (cache, keys) == PopDown(old(cache), old(keys), size)
    {
      ghost var goal := PopDown(cache, keys, size);
      while |cache| > size
        invariant Usable() && PopDown(cache, keys, size) == goal
        decreases |keys|
      {
        CoveredSize(cache, keys);
        var last := PopBack();
      }
    }

    /** One round of that loop. */
    method PopBack() returns (last: Node<K, V>)
      requires Usable() && keys != []
      modifies this
      ensures Usable() && old(keys) == keys + [last] && cache == old(cache) - {last.key}
      ensures forall size: nat :: size < |old(cache)| ==>
                PopDown(cache, keys, size) == PopDown(old(cache), old(keys), size)
    {
      last := keys[|keys| - 1];
      PopKeeps(cache, keys);
      forall size: nat | size < |cache|
        ensures PopDown(cache - {last.key}, keys[..|keys| - 1], size) == PopDown(cache, keys, size)
      {
        PopOne(cache, keys, size, cache - {last.key}, keys[..|keys| - 1], last);
      }
      cache, keys := cache - {last.key}, keys[..|keys| - 1];
    }

    /** A new node at the front of the list and under its key in the map, and a prune. */
    method PushFront(k: K, v: V)
      requires Usable()
      modifies this
      ensures Usable() && keys != [] && fresh(keys[0]) && keys[0].key == k && keys[0].value == v
      ensures (cache, keys) == Push(old(cache), old(keys), keys[0], cfg)
    {
      var node := new Node<K, V>(k, v);
      PushKeeps(cache, keys, node, cfg);
      PushSane(cache, keys, node);
      keys, cache := [node] + keys, cache[k := node];
      Prune();
    }

    /** Moves a node to the front. */
    method Splice(node: Node<K, V>)
      requires Usable() && node in keys
      modifies this`keys
      ensures Usable() && (old(Valid()) ==> Valid())
      ensures keys == ToFront(old(keys), IndexOf(old(keys), node))
      ensures EntriesOf(keys) == ToFront(old(EntriesOf(keys)), IndexOf(old(keys), node))
    {
      var at :| 0 <= at < |keys| && keys[at] == node;
      assert at == IndexOf(keys, node);
      SpliceKeeps(cache, keys, at);
      EntriesToFront(keys, at);
      keys := ToFront(keys, at);
    }

    /** A stored key gets its value and moves to the front, an absent one is pushed. */
    method Insert(k: K, v: V)
      requires Usable()
      modifies this, keys
      ensures Usable()
      ensures old(k in cache) ==> cache == old(cache) && cache[k] in old(keys) && cache[k].value == v
      ensures old(k in cache) ==> keys == ToFront(old(keys), IndexOf(old(keys), cache[k]))
      ensures old(k !in cache) ==> keys != [] && fresh(keys[0]) && keys[0].key == k && keys[0].value == v
      ensures old(k !in cache) ==> (cache, keys) == Push(old(cache), old(keys), keys[0], cfg)
      ensures old(Valid()) ==> Valid() && Entries() == Apply(old(Entries()), Op.Insert(k, v), cfg)
      ensures old(Valid()) ==> PutInFront(old(Entries()), Entries(), Entry(k, v))
    {
      if k in cache {
        InsertStored(k, v);
      } else {
        Emplace(k, v);
        if old(Valid()) {
          Contained(old(cache), old(keys), k);
        }
      }
      if old(Valid()) {
        InsertPuts(old(Entries()), k, v, cfg);
      }
    }

    method InsertStored(k: K, v: V)
      requires Usable() && k in cache
      modifies this`keys, keys
      ensures Usable() && cache[k] in old(keys) && cache[k].value == v
      ensures keys == ToFront(old(keys), IndexOf(old(keys), cache[k]))
      ensures old(Valid()) ==> Valid() && Entries() == Apply(old(Entries()), Op.Insert(k, v), cfg)
    {
      ghost var es := EntriesOf(keys);
      if Valid() {
        Contained(cache, keys, k);
      }
      cache[k].value := v;
      assert Valid() ==> EntriesOf(keys) == es[IndexOf(keys, cache[k]) := Entry(k, v)];
      Splice(cache[k]);
    }

    /** An absent key goes to the front.  A key that is already stored gets a second node, and then the list and the
        map no longer agree, whether the prune of this call cuts the older node off or not: prune erases by key, so
        that takes the new node's entry out of the map. */
    method Emplace(k: K, v: V)
      requires Usable()
      modifies this
      ensures Usable() && keys != [] && fresh(keys[0]) && keys[0].key == k && keys[0].value == v
      ensures (cache, keys) == Push(old(cache), old(keys), keys[0], cfg)
      ensures old(Valid()) ==> (Valid() <==> old(k !in cache))
      ensures old(Valid()) && Valid() ==> Entries() == Apply(old(Entries()), Op.Emplace(k, v), cfg)
      ensures old(Valid()) && !Valid() ==> Orphaned(cache, keys)
    {
      PushFront(k, v);
      if old(Valid()) {
        if old(k in cache) {
          PushStored(old(cache), old(keys), keys[0], cfg);
        } else {
          PushAbsent(old(cache), old(keys), keys[0], cfg);
          PushedEntries(keys[0], old(keys), old(EntriesOf(keys)), cfg);
        }
      }
    }

    method TryGetCopy(k: K) returns (r: Lookup<V>)
      requires Usable()
      modifies this`keys
      ensures Usable() && r == if k in cache then Found(cache[k].value) else KeyNotFound
      ensures k in cache ==> cache[k] in old(keys) && keys == ToFront(old(keys), IndexOf(old(keys), cache[k]))
      ensures k !in cache ==> keys == old(keys)
      ensures old(Valid()) ==> Valid() && Entries() == Apply(old(Entries()), Get(k), cfg)
      ensures old(Valid()) ==>
                r == if Has(old(Entries()), k) then Found(old(Entries())[Find(old(Entries()), k)].value)
                     else KeyNotFound
      ensures old(Valid()) && r.Found? ==> PutInFront(old(Entries()), Entries(), Entry(k, r.value))
    {
      if Valid() {
        Contained(cache, keys, k);
        GetPuts(Entries(), k, cfg);
      }
      if k !in cache {
        return KeyNotFound;
      }
      Splice(cache[k]);
      r := Found(cache[k].value);
    }

    method Remove(k: K) returns (removed: bool)
      requires Usable()
      modifies this
      ensures Usable() && cache == old(cache) - {k} && (removed <==> k in old(cache))
      ensures !removed ==> keys == old(keys)
      ensures removed ==> old(cache)[k] in old(keys) && keys == Without(old(keys), IndexOf(old(keys), old(cache)[k]))
      ensures old(Valid()) ==> Valid() && Entries() == Apply(old(Entries()), Op.Remove(k), cfg)
      ensures old(Valid()) ==> (removed <==> Has(old(Entries()), k))
    {
      ghost var es := EntriesOf(keys);
      if Valid() {
        Contained(cache, keys, k);
        RemoveIs(es, k, cfg);
      }
      if k !in cache {
        return false;
      }
      Erase(cache[k]);
      removed := true;
    }

    /** Takes a node out of the list and its key out of the map. */
    method Erase(node: Node<K, V>)
      requires Usable() && node in keys
      modifies this
      ensures Usable() && (old(Valid()) ==> Valid())
      ensures cache == old(cache) - {node.key} && keys == Without(old(keys), IndexOf(old(keys), node))
      ensures EntriesOf(keys) == Without(old(EntriesOf(keys)), IndexOf(old(keys), node))
    {
      var at :| 0 <= at < |keys| && keys[at] == node;
      assert at == IndexOf(keys, node);
      EraseKeeps(cache, keys, at);
      EntriesErase(keys, at);
      keys, cache := Without(keys, at), cache - {node.key};
    }

    method Clear()
      modifies this
      ensures Valid() && Usable() && Entries() == []
    {
      cache := map[];
      keys := [];
    }
  }

  /** The entry stands in front; behind it are the other entries in their order, of which an insertion of an absent
      key may have cut off the last. */
  ghost predicate PutInFront<K, V>(before: seq<Entry<K, V>>, after: seq<Entry<K, V>>, e: Entry<K, V>) {
    && after != [] && after[0] == e
    && if Has(before, e.key) then after[1..] == Without(before, Find(before, e.key)) else after[1..] <= before
  }

  lemma InsertPuts<K, V>(es: seq<Entry<K, V>>, k: K, v: V, cfg: Config)
    ensures PutInFront(es, Apply(es, Op.Insert(k, v), cfg), Entry(k, v))
  {
    if Has(es, k) {
      var f := Find(es, k);
      ToFrontIs(es[f := Entry(k, v)], f);
      assert Without(es[f := Entry(k, v)], f) == Without(es, f);
    } else {
      var all := [Entry(k, v)] + es;
      assert forall n: nat :: 1 <= n <= |all| ==> all[..n][1..] == es[..n - 1];
      assert all[1..] == es;
    }
  }

  lemma GetPuts<K, V>(es: seq<Entry<K, V>>, k: K, cfg: Config)
    ensures Has(es, k) ==> PutInFront(es, Apply(es, Get(k), cfg), es[Find(es, k)])
  {
    if Has(es, k) {
      ToFrontIs(es, Find(es, k));
    }
  }

  lemma RemoveIs<K, V>(es: seq<Entry<K, V>>, k: K, cfg: Config)
    ensures Apply(es, Op.Remove(k), cfg) == if Has(es, k) then Without(es, Find(es, k)) else es
  {
  }

  /** The entries after a push of an absent key and the prune after it. */
  lemma PushedEntries<K, V>(node: Node<K, V>, keys: seq<Node<K, V>>, es: seq<Entry<K, V>>, cfg: Config)
    requires es == EntriesOf(keys)
    ensures EntriesOf(Pruned([node] + keys, cfg)) == Pruned([Entry(node.key, node.value)] + es, cfg)
  {
    EntriesPush(node, keys);
    EntriesPruned([node] + keys, cfg);
  }

  // ----- how agreement is lost and comes back -----

  lemma FirstPush<K, V>(n1: Node<K, V>, cfg: Config)
    requires cfg == Config(1, 0)
    ensures Push(map[], [], n1, cfg) == (map[n1.key := n1], [n1])
  {
    var none: map<K, Node<K, V>> := map[];
    assert none[n1.key := n1] == map[n1.key := n1] && map[n1.key := n1].Keys == {n1.key};
    assert [n1] + [] == [n1];
  }

  lemma SecondPush<K, V>(n1: Node<K, V>, n2: Node<K, V>, cfg: Config)
    requires cfg == Config(1, 0) && n1.key == n2.key
    ensures Push(map[n1.key := n1], [n1], n2, cfg) == (map[n2.key := n2], [n2, n1])
  {
    assert map[n1.key := n1][n2.key := n2] == map[n2.key := n2];
    assert map[n2.key := n2].Keys == {n2.key};
    assert [n2] + [n1] == [n2, n1];
  }

  lemma ThirdPush<K, V>(n1: Node<K, V>, n2: Node<K, V>, n3: Node<K, V>, cfg: Config)
    requires cfg == Config(1, 0) && n1.key == n2.key && n2.key != n3.key
    ensures Push(map[n2.key := n2], [n2, n1], n3, cfg) == (map[n3.key := n3], [n3, n2])
  {
    TwoKeys(n2, n3);
    assert [n3] + [n2, n1] == [n3, n2] + [n1];
    PopOne(map[n2.key := n2][n3.key := n3], [n3] + [n2, n1], 1, map[n3.key := n3], [n3, n2], n1);
  }

  lemma TwoKeys<K, V>(x: Node<K, V>, y: Node<K, V>)
    requires x.key != y.key
    ensures var both := map[x.key := x][y.key := y];
            |both| == 2 && both - {x.key} == map[y.key := y] && |map[y.key := y]| == 1
  {
    var both := map[x.key := x][y.key := y];
    assert both.Keys == {x.key, y.key} && map[y.key := y].Keys == {y.key};
  }

  lemma FourthPush<K, V>(n2: Node<K, V>, n3: Node<K, V>, n4: Node<K, V>, cfg: Config)
    requires cfg == Config(1, 0) && n2.key != n3.key && n3.key != n4.key && n2.key != n4.key
    ensures Push(map[n3.key := n3], [n3, n2], n4, cfg) == (map[n4.key := n4], [n4])
  {
    TwoKeys(n3, n4);
    PopTwo(map[n3.key := n3][n4.key := n4], map[n4.key := n4], n2, n3, n4);
  }

  lemma PopTwo<K, V>(
      both: map<K, Node<K, V>>, one: map<K, Node<K, V>>, n2: Node<K, V>, n3: Node<K, V>, n4: Node<K, V>)
    requires |both| == 2 && |one| == 1 && n2.key !in both && both - {n3.key} == one
    ensures PopDown(both, [n4] + [n3, n2], 1) == (one, [n4])
  {
    assert both - {n2.key} == both && [n4] + [n3, n2] == [n4, n3] + [n2];
    PopOne(both, [n4] + [n3, n2], 1, both, [n4, n3], n2);
    assert [n4, n3] == [n4] + [n3];
    PopOne(both, [n4, n3], 1, one, [n4], n3);
  }

  /**
    Agreement can return: with room for one key, emplace of a stored key leaves a second node behind, which the
    next insert orphans and the one after that prunes.
  */
  method AgreementReturns<K(==), V>(a: K, b: K, c: K, v: V) returns (lru: Cache<K, V>, ghost broken: bool)
    requires a != b && b != c && a != c
    ensures broken && lru.Valid()
  {
    lru := new Cache<K, V>(Config(1, 0));
    lru.Insert(a, v);
    var n1 := lru.keys[0];
    FirstPush(n1, lru.cfg);
    lru.Emplace(a, v);
    var n2 := lru.keys[0];
    SecondPush(n1, n2, lru.cfg);
    assert !Linked(lru.cache, lru.keys) by { assert lru.keys[0].key == lru.keys[1].key; }
    broken := !lru.Valid();
    lru.Insert(b, v);
    var n3 := lru.keys[0];
    ThirdPush(n1, n2, n3, lru.cfg);
    assert !Linked(lru.cache, lru.keys) by { assert lru.keys[1].key !in lru.cache; }
    broken := broken && !lru.Valid();
    lru.Insert(c, v);
    FourthPush(n2, n3, lru.keys[0], lru.cfg);
  }

  lemma {:induction false} DistinctSize<K>(ks: seq<K>)
    requires forall i, j :: 0 <= i < j < |ks| ==> ks[i] != ks[j]
    ensures |set k | k in ks| == |ks|
  {
    if ks != [] {
      DistinctSize(ks[1..]);
      assert (set k | k in ks) == (set k | k in ks[1..]) + {ks[0]};
    }
  }

  // ----- every history of operations -----

  /** emplace is only for keys that are not stored. */
  predicate Permitted<K(==), V>(es: seq<Entry<K, V>>, op: Op<K, V>) {
    op.Emplace? ==> !Has(es, op.key)
  }

  predicate History<K(==), V>(es: seq<Entry<K, V>>, ops: seq<Op<K, V>>, cfg: Config)
    decreases |ops|
  {
    ops == [] || (Permitted(es, ops[0]) && History(Apply(es, ops[0], cfg), ops[1..], cfg))
  }

  function Run<K(==), V>(es: seq<Entry<K, V>>, ops: seq<Op<K, V>>, cfg: Config): seq<Entry<K, V>>
    decreases |ops|
  {
    if ops == [] then es else Run(Apply(es, ops[0], cfg), ops[1..], cfg)
  }

  ghost predicate Sized<K, V>(es: seq<Entry<K, V>>, cfg: Config) {
    Distinct(es) && (cfg.maxSize > 0 ==> |es| <= cfg.Limit())
  }

  lemma PushKeepsSize<K, V>(es: seq<Entry<K, V>>, e: Entry<K, V>, cfg: Config)
    requires Sized(es, cfg) && !Has(es, e.key)
    ensures Sized(Pruned([e] + es, cfg), cfg)
  {
    assert cfg.MaxAllowed() <= cfg.maxSize + cfg.elasticity;
    assert Distinct([e] + es);
  }

  lemma ApplyKeepsSize<K, V>(es: seq<Entry<K, V>>, op: Op<K, V>, cfg: Config)
    requires Sized(es, cfg) && Permitted(es, op)
    ensures Sized(Apply(es, op, cfg), cfg)
  {
    match op
    case Insert(k, v) =>
      if Has(es, k) {
        ToFrontDistinct(es[Find(es, k) := Entry(k, v)], Find(es, k));
      } else {
        PushKeepsSize(es, Entry(k, v), cfg);
      }
    case Emplace(k, v) =>
      PushKeepsSize(es, Entry(k, v), cfg);
    case Get(k) =>
      if Has(es, k) {
        ToFrontDistinct(es, Find(es, k));
      }
    case Remove(k) =>
    case Clear =>
  }

  lemma ToFrontDistinct<K, V>(es: seq<Entry<K, V>>, i: nat)
    requires Distinct(es) && i < |es|
    ensures Distinct(ToFront(es, i))
  {
    var r := ToFront(es, i);
    forall a, b | 0 <= a < b < |r|
      ensures r[a].key != r[b].key
    {
      assert r[a] == es[if a == 0 then i else if a <= i then a - 1 else a];
      assert r[b] == es[if b <= i then b - 1 else b];
    }
  }

  /** Whatever is done to a new cache, no key is stored twice and, unless it is unbounded, the size stays
      within maxSize + max(elasticity, 1) - 1. */
  lemma {:induction false} SizeStaysBounded<K, V>(es: seq<Entry<K, V>>, ops: seq<Op<K, V>>, cfg: Config)
    requires Sized(es, cfg) && History(es, ops, cfg)
    ensures Sized(Run(es, ops, cfg), cfg)
    decreases |ops|
  {
    if ops != [] {
      ApplyKeepsSize(es, ops[0], cfg);
      SizeStaysBounded(Apply(es, ops[0], cfg), ops[1..], cfg);
    }
  }

  /** The key an operation makes most recent, if any; looking up an absent key touches nothing. */
  function Touched<K(==), V>(es: seq<Entry<K, V>>, op: Op<K, V>): set<K> {
    match op
    case Insert(k, _) => {k}
    case Emplace(k, _) => {k}
    case Get(k) => if Has(es, k) then {k} else {}
    case Remove(_) => {}
    case Clear => {}
  }

  /** The keys other than k touched by a history. */
  function OthersTouched<K(==), V>(es: seq<Entry<K, V>>, ops: seq<Op<K, V>>, k: K, cfg: Config): set<K>
    decreases |ops|
  {
    if ops == [] then {}
    else (Touched(es, ops[0]) - {k}) + OthersTouched(Apply(es, ops[0], cfg), ops[1..], k, cfg)
  }

  function Updated<K(==), V>(op: Op<K, V>, e: Entry<K, V>): Entry<K, V> {
    if op.Insert? && op.key == e.key then Entry(e.key, op.value) else e
  }

  /** The entry with the last value a history inserted for its key. */
  function LastEntry<K(==), V>(ops: seq<Op<K, V>>, e: Entry<K, V>): Entry<K, V> {
    if ops == [] then e else LastEntry(ops[1..], Updated(ops[0], e))
  }

  predicate Spares<K(==), V>(op: Op<K, V>, k: K) {
    op != Remove(k) && op != Clear
  }

  lemma {:induction false} Pigeonhole<K, V>(es: seq<Entry<K, V>>, n: nat, s: set<K>)
    requires Distinct(es) && n <= |es| && forall i :: 0 <= i < n ==> es[i].key in s
    ensures n <= |s|
  {
    if n > 0 {
      Pigeonhole(es, n - 1, s - {es[n - 1].key});
    }
  }

  /** Entry e sits behind at most the keys of s. */
  ghost predicate Behind<K, V>(es: seq<Entry<K, V>>, e: Entry<K, V>, p: nat, s: set<K>) {
    Distinct(es) && p < |es| && es[p] == e && e.key !in s && forall i :: 0 <= i < p ==> es[i].key in s
  }

  lemma BehindAfterPush<K, V>(es: seq<Entry<K, V>>, e: Entry<K, V>, p: nat, s: set<K>, x: Entry<K, V>, cfg: Config)
    requires Behind(es, e, p, s) && x.key in s && !Has(es, x.key) && (cfg.maxSize > 0 ==> |s| < cfg.maxSize)
    ensures Behind(Pruned([x] + es, cfg), e, p + 1, s)
  {
    var r := [x] + es;
    forall i | 0 <= i < p + 1
      ensures r[i].key in s
    {
    }
    Pigeonhole(r, p + 1, s);
  }

  lemma BehindAfterMove<K, V>(es: seq<Entry<K, V>>, e: Entry<K, V>, p: nat, s: set<K>, q: nat) returns (p': nat)
    requires Behind(es, e, p, s) && q < |es| && q != p && es[q].key in s
    ensures Behind(ToFront(es, q), e, p', s)
  {
    var r := ToFront(es, q);
    ToFrontDistinct(es, q);
    p' := if q < p then p else p + 1;
    forall i | 0 <= i < p'
      ensures r[i].key in s
    {
      assert r[i] == es[if i == 0 then q else if i <= q then i - 1 else i];
    }
  }

  lemma BehindAfterChange<K, V>(es: seq<Entry<K, V>>, e: Entry<K, V>, p: nat, s: set<K>, q: nat, v: V)
    requires Behind(es, e, p, s) && q < |es| && q != p
    ensures Behind(es[q := Entry(es[q].key, v)], e, p, s)
  {
  }

  lemma BehindAfterErase<K, V>(es: seq<Entry<K, V>>, e: Entry<K, V>, p: nat, s: set<K>, q: nat) returns (p': nat)
    requires Behind(es, e, p, s) && q < |es| && q != p
    ensures Behind(es[..q] + es[q + 1..], e, p', s)
  {
    p' := if q < p then p - 1 else p;
  }

  lemma SurvivesInsert<K, V>(
      es: seq<Entry<K, V>>, k: K, v: V, e: Entry<K, V>, p: nat, s: set<K>, cfg: Config)
    returns (p': nat)
    requires Behind(es, e, p, s) && (k != e.key ==> k in s) && (cfg.maxSize > 0 ==> |s| < cfg.maxSize)
    ensures Behind(Apply(es, Op.Insert(k, v), cfg), Updated(Op.Insert(k, v), e), p', s)
  {
    assert Has(es, e.key);
    if k == e.key {
      p' := 0;
      ToFrontDistinct(es[p := Entry(k, v)], p);
    } else if Has(es, k) {
      var q := Find(es, k);
      BehindAfterChange(es, e, p, s, q, v);
      p' := BehindAfterMove(es[q := Entry(k, v)], e, p, s, q);
    } else {
      p' := p + 1;
      BehindAfterPush(es, e, p, s, Entry(k, v), cfg);
    }
  }

  /** One operation leaves the entry behind at most the same keys. */
  lemma SurvivesStep<K, V>(es: seq<Entry<K, V>>, op: Op<K, V>, e: Entry<K, V>, p: nat, s: set<K>, cfg: Config)
    returns (p': nat)
    requires Behind(es, e, p, s) && Permitted(es, op) && Spares(op, e.key)
    requires Touched(es, op) - {e.key} <= s && (cfg.maxSize > 0 ==> |s| < cfg.maxSize)
    ensures Behind(Apply(es, op, cfg), Updated(op, e), p', s)
  {
    assert Has(es, e.key);
    match op
    case Insert(k, v) =>
      p' := SurvivesInsert(es, k, v, e, p, s, cfg);
    case Emplace(k, v) =>
      p' := p + 1;
      BehindAfterPush(es, e, p, s, Entry(k, v), cfg);
    case Get(k) =>
      if k == e.key {
        p' := 0;
        ToFrontDistinct(es, p);
      } else if Has(es, k) {
        p' := BehindAfterMove(es, e, p, s, Find(es, k));
      } else {
        p' := p;
      }
    case Remove(k) =>
      if Has(es, k) {
        p' := BehindAfterErase(es, e, p, s, Find(es, k));
      } else {
        p' := p;
      }
    case Clear =>
  }

  lemma {:induction false} SurvivesRun<K, V>(
      es: seq<Entry<K, V>>, ops: seq<Op<K, V>>, e: Entry<K, V>, p: nat, s: set<K>, cfg: Config)
    requires Behind(es, e, p, s) && History(es, ops, cfg) && forall i :: 0 <= i < |ops| ==> Spares(ops[i], e.key)
    requires OthersTouched(es, ops, e.key, cfg) <= s && (cfg.maxSize > 0 ==> |s| < cfg.maxSize)
    ensures LastEntry(ops, e) in Run(es, ops, cfg)
    decreases |ops|
  {
    if ops != [] {
      var p' := SurvivesStep(es, ops[0], e, p, s, cfg);
      SurvivesRun(Apply(es, ops[0], cfg), ops[1..], Updated(ops[0], e), p', s, cfg);
    }
  }

  /** A key that was just used is still there, with the last value given to it, as long as it was not removed
      and fewer than maxSize other keys have been used since. */
  lemma RecentKeySurvives<K, V>(es: seq<Entry<K, V>>, ops: seq<Op<K, V>>, cfg: Config)
    requires Distinct(es) && es != [] && History(es, ops, cfg)
    requires forall i :: 0 <= i < |ops| ==> Spares(ops[i], es[0].key)
    requires cfg.maxSize == 0 || |OthersTouched(es, ops, es[0].key, cfg)| < cfg.maxSize
    ensures LastEntry(ops, es[0]) in Run(es, ops, cfg)
  {
    var s := OthersTouched(es, ops, es[0].key, cfg);
    OthersExclude(es, ops, es[0].key, cfg);
    SurvivesRun(es, ops, es[0], 0, s, cfg);
  }

  lemma {:induction false} OthersExclude<K, V>(es: seq<Entry<K, V>>, ops: seq<Op<K, V>>, k: K, cfg: Config)
    ensures k !in OthersTouched(es, ops, k, cfg)
    decreases |ops|
  {
    if ops != [] {
      OthersExclude(Apply(es, ops[0], cfg), ops[1..], k, cfg);
    }
  }
}
