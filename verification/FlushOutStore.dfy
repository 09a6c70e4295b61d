/**
  FlushOutStore: the groups a stopped runner could not flush, and how the next runner takes them over.

  A store holds a Go slice: a backing array and a length.  Merge into an empty store copies the slice
  header, so both stores then share one backing array; Write sends the elements and overwrites the
  shared slots with nil.
*/
module FlushOutStores {

  datatype Pointer<T> = Nil | To(value: T)

  function Pointers<T>(items: seq<T>): (ps: seq<Pointer<T>>)
    ensures |ps| == |items| && forall i :: 0 <= i < |ps| ==> ps[i] == To(items[i])
  {
    seq(|items|, i requires 0 <= i < |items| => To(items[i]))
  }

  function Nils<T>(n: nat): seq<Pointer<T>> {
    seq(n, _ => Nil)
  }

  /** A buffered channel nobody receives from yet. */
  class Channel<T> {
    const capacity: nat
    var buffer: seq<Pointer<T>>

    ghost predicate Valid()
      reads this
    {
      |buffer| <= capacity
    }

    constructor (capacity: nat)
      ensures Valid() && this.capacity == capacity && buffer == []
    {
      this.capacity := capacity;
      buffer := [];
    }
  }

  class FlushOutStore<T> {
    var data: array<Pointer<T>>
    var len: nat

    ghost predicate Valid()
      reads this
    {
      len <= data.Length
    }

    ghost function Contents(): seq<Pointer<T>>
      reads this, data
      requires Valid()
    {
      data[..len]
    }

    constructor ()
      ensures Valid() && len == 0 && fresh(data) && Contents() == []
    {
      data := new Pointer<T>[0];
      len := 0;
    }

    /** append: in place while the capacity lasts, otherwise into a new backing array. */
    method Append(items: seq<Pointer<T>>)
      requires Valid()
      modifies this, data
      ensures Valid() && Contents() == old(Contents()) + items
      ensures if old(len) + |items| <= old(data).Length then
                data == old(data) && data[len..] == old(data[len + |items|..])
              else fresh(data) && old(data)[..] == old(data[..])
    {
      var n := len + |items|;
      if n > data.Length {
        var capacity :| capacity >= n;
        var grown := new Pointer<T>[capacity](_ => Nil);
        forall i | 0 <= i < len {
          grown[i] := data[i];
        }
        data := grown;
      }
      forall i | 0 <= i < |items| {
        data[len + i] := items[i];
      }
      len := n;
    }

    method Add(items: seq<T>)
      requires Valid()
      modifies this, data
      ensures Valid() && Contents() == old(Contents()) + Pointers(items)
      ensures if old(len) + |items| <= old(data).Length then
                data == old(data) && data[len..] == old(data[len + |items|..])
              else fresh(data) && old(data)[..] == old(data[..])
    {
      Append(Pointers(items));
    }

    method Reset()
      modifies this
      ensures Valid() && Contents() == [] && fresh(data)
    {
      data := new Pointer<T>[0];
      len := 0;
    }

    method Merge(other: FlushOutStore<T>)
      requires Valid() && other.Valid()
      modifies this, data
      ensures Valid()
      ensures this == other ==> Contents() == old(Contents())
      ensures this != other ==> Contents() == old(Contents()) + old(other.Contents())
      ensures this != other && old(len) == 0 ==> data == old(other.data) && len == old(other.len)
    {
      if this == other {
        return;
      }
      if len == 0 {
        data, len := other.data, other.len;
      } else {
        Append(other.data[..other.len]);
      }
    }

    /** Sends every element in order; blocks for ever exactly when the elements do not fit the channel. */
    method Write(ch: Channel<T>) returns (blocked: bool)
      requires Valid() && ch.Valid()
      modifies this, data, ch
      ensures Valid() && ch.Valid() && data == old(data)
      ensures blocked <==> old(len) > ch.capacity - |old(ch.buffer)|
      ensures !blocked ==> ch.buffer == old(ch.buffer) + old(Contents()) && len == 0
      ensures !blocked ==> data[..old(len)] == Nils(old(len))
      ensures blocked ==> |ch.buffer| == ch.capacity && len == old(len)
                          && ch.buffer == old(ch.buffer) + old(Contents())[..ch.capacity - |old(ch.buffer)|]
    {
      var i := 0;
      blocked := false;
      while i < len
        invariant 0 <= i <= len == old(len) && data == old(data) && ch.Valid()
        invariant ch.buffer == old(ch.buffer) + old(data[..len])[..i]
        invariant forall k :: 0 <= k < i ==> data[k] == Nil
        invariant forall k :: i <= k < len ==> data[k] == old(data[k])
      {
        if |ch.buffer| == ch.capacity {
          return true;
        }
        ch.buffer := ch.buffer + [data[i]];
        data[i] := Nil;
        i := i + 1;
      }
      assert old(data[..len])[..i] == old(data[..len]);
      len := 0;
    }
  }

  /** Capacity of the flush channel in v1, grown to hold what was taken over, and in v2, fixed. */
  function FlushCapacity(v1: bool, flushQueueSize: nat, stored: nat): nat {
    if v1 && stored > flushQueueSize then stored else flushQueueSize
  }

  /**
    A new runner takes over the unsent groups of an old one: Merge into its fresh store, then Init.
    v1 never blocks and puts exactly the old groups, in order and once each, into the channel; v2 does
    so exactly when they fit the queue size.  The old store keeps its length but, sharing the backing
    array, is left with nothing but nil.
  */
  method TakeOver<T>(old_: FlushOutStore<T>, v1: bool, flushQueueSize: nat)
    returns (store: FlushOutStore<T>, ch: Channel<T>, blocked: bool)
    requires old_.Valid()
    modifies old_.data
    ensures blocked <==> !v1 && old_.len > flushQueueSize
    ensures !blocked ==> ch.buffer == old(old_.Contents()) && store.Valid() && store.Contents() == []
    ensures !blocked ==> old_.Valid() && old_.Contents() == Nils(old_.len)
    ensures blocked ==> ch.buffer == old(old_.Contents())[..flushQueueSize]
  {
    store := new FlushOutStore<T>();
    store.Merge(old_);
    ch := new Channel<T>(FlushCapacity(v1, flushQueueSize, store.len));
    blocked := store.Write(ch);
  }

  /** Taking over from the same old store again delivers nothing but nil, as many as the first time. */
  method TakeOverTwice<T>(old_: FlushOutStore<T>, flushQueueSize: nat) returns (first: Channel<T>, second: Channel<T>)
    requires old_.Valid()
    modifies old_.data
    ensures first.buffer == old(old_.Contents())
    ensures second.buffer == Nils(|first.buffer|)
  {
    var s1, b1, s2, b2;
    s1, first, b1 := TakeOver(old_, true, flushQueueSize);
    s2, second, b2 := TakeOver(old_, true, flushQueueSize);
  }

  /** The first batch when the second one is written over its beginning. */
  function Overwritten<T>(xs: seq<T>, ys: seq<T>): (r: seq<T>)
    ensures |r| == |xs|
  {
    if |ys| <= |xs| then ys + xs[|ys|..] else ys[..|xs|]
  }

  /** Writing ys over xs in an array behind the first elements. */
  lemma WrittenOver<T>(base: seq<T>, xs: seq<T>, ys: seq<T>, before: seq<T>, after: seq<T>)
    requires |before| == |after| >= |base| + |xs| && |after| >= |base| + |ys|
    requires before[..|base| + |xs|] == base + xs && after[..|base| + |ys|] == base + ys
    requires after[|base| + |ys|..] == before[|base| + |ys|..]
    ensures after[..|base| + |xs|] == base + Overwritten(xs, ys)
  {
    forall i | 0 <= i < |base| + |xs|
      ensures after[i] == (base + Overwritten(xs, ys))[i]
    {
      if i < |base| + |ys| {
        assert after[..|base| + |ys|][i] == (base + ys)[i];
      } else {
        assert after[|base| + |ys|..][i - |base| - |ys|] == before[|base| + |ys|..][i - |base| - |ys|];
        assert before[..|base| + |xs|][i] == (base + xs)[i];
      }
    }
  }

  lemma PointersOverwritten<T>(xs: seq<T>, ys: seq<T>)
    ensures Overwritten(Pointers(xs), Pointers(ys)) == Pointers(Overwritten(xs, ys))
  {
  }

  /**
    Adding a batch to each of two stores that share an array writes the second batch over the beginning of the
    first one exactly when each of them fits the room left in the array; otherwise a store that does not fit grows
    an array of its own and both batches are kept.
  */
  method AddToBoth<T>(store: FlushOutStore<T>, other: FlushOutStore<T>, xs: seq<T>, ys: seq<T>)
    requires store != other && other.Valid() && store.data == other.data && store.len == other.len
    modifies store, other, other.data
    ensures store.Valid() && other.Valid()
    ensures var room := old(other.data.Length - other.len);
            store.Contents() == old(other.Contents())
                                + Pointers(if |xs| <= room && |ys| <= room then Overwritten(xs, ys) else xs)
    ensures other.Contents() == old(other.Contents()) + Pointers(ys)
  {
    ghost var shared, room, base := other.data, other.data.Length - other.len, other.Contents();
    store.Add(xs);
    ghost var before, mine := shared[..], store.data[..store.len];
    assert shared[..other.len] == base;
    other.Add(ys);
    if |xs| <= room && |ys| <= room {
      WrittenOver(base, Pointers(xs), Pointers(ys), before, shared[..]);
      PointersOverwritten(xs, ys);
    } else if |xs| <= room {
      assert shared[..] == before;
      assert store.data[..store.len] == mine;
    } else {
      assert store.data[..store.len] == mine;
    }
  }

  /** The same after Merge into an empty store, which makes them share the array. */
  method AddAfterSharing<T>(store: FlushOutStore<T>, other: FlushOutStore<T>, xs: seq<T>, ys: seq<T>)
    requires store != other && store.Valid() && other.Valid() && store.len == 0
    modifies store, store.data, other, other.data
    ensures store.Valid() && other.Valid()
    ensures var room := old(other.data.Length - other.len);
            store.Contents() == old(other.Contents())
                                + Pointers(if |xs| <= room && |ys| <= room then Overwritten(xs, ys) else xs)
    ensures other.Contents() == old(other.Contents()) + Pointers(ys)
  {
    ghost var room, base := other.data.Length - other.len, other.Contents();
    store.Merge(other);
    assert other.Contents() == base && other.data.Length - other.len == room;
    AddToBoth(store, other, xs, ys);
  }

  const MAX_FLUSH_OUT_TIME := 5

  /** Whether a flusher reports ready in one of the 502 polls flushOutStore grants it. */
  ghost predicate ReadyInTime(ready: (nat, nat) -> bool, flusher: nat) {
    exists k: nat :: k <= 501 && ready(flusher, k)
  }

  ghost predicate AllReadyInTime(flushers: nat, ready: (nat, nat) -> bool) {
    forall f: nat :: f < flushers ==> ReadyInTime(ready, f)
  }

  /**
    The last attempt of Stop(exit): wait a bounded number of polls for each flusher and hand it the
    store.  The store is emptied exactly when every flusher became ready in time; otherwise the groups
    stay, already handed to the flushers before the first that timed out.
  */
  method FlushOut<T>(store: FlushOutStore<T>, flushers: nat, ready: (nat, nat) -> bool)
    returns (done: bool, handed: seq<seq<Pointer<T>>>)
    requires store.Valid()
    modifies store
    ensures store.Valid()
    ensures done <==> AllReadyInTime(flushers, ready)
    ensures forall i :: 0 <= i < |handed| ==> handed[i] == old(store.Contents())
    ensures done ==> |handed| == flushers && store.Contents() == []
    ensures !done ==> store.Contents() == old(store.Contents()) && |handed| < flushers && !ReadyInTime(ready, |handed|)
                      && forall f: nat :: f < |handed| ==> ReadyInTime(ready, f)
  {
    handed := [];
    for f := 0 to flushers
      invariant store.len == old(store.len) && store.data == old(store.data)
      invariant |handed| == f
      invariant forall i :: 0 <= i < |handed| ==> handed[i] == old(store.Contents())
      invariant forall g: nat :: g < f ==> ReadyInTime(ready, g)
    {
      var waitCount := 0;
      while !ready(f, waitCount)
        invariant waitCount <= MAX_FLUSH_OUT_TIME * 100 + 1
        invariant forall k: nat :: k < waitCount ==> !ready(f, k)
        decreases MAX_FLUSH_OUT_TIME * 100 + 2 - waitCount
      {
        if waitCount > MAX_FLUSH_OUT_TIME * 100 {
          assert !ReadyInTime(ready, f);
          return false, handed;
        }
        waitCount := waitCount + 1;
      }
      handed := handed + [store.data[..store.len]];
    }
    store.Reset();
    done := true;
  }
}
