/**
  CircularBuffer: a ring of N + 1 slots for one producer and one consumer without locks.

  First the buffer as an object used by one thread, then the same code split into its individual loads
  and stores and run by two threads in any interleaving.
*/
module RingBuffer {
  import opened Modular

  /** The modulus of size_t, the type of the atomic item counter. */
  const WORD := 0x1_0000_0000_0000_0000

  /** The slot of the i-th item ever pushed. */
  function Slot(i: nat, size: nat): (s: nat)
    requires size > 0
    ensures s < size
  {
    i % size
  }

  lemma SlotNext(i: nat, size: nat)
    requires size > 0
    ensures (Slot(i, size) + 1) % size == Slot(i + 1, size)
  {
    ModSucc(i, size);
  }

  lemma SlotsDiffer(i: nat, j: nat, size: nat)
    requires i < j < i + size
    ensures Slot(i, size) != Slot(j, size)
  {
    ModDistinct(i, j, size);
  }

  lemma SlotWraps(i: nat, size: nat)
    requires size > 0
    ensures Slot(i + size, size) == Slot(i, size)
  {
    ModShift(i, 1, size);
  }

  /** A count that is at most one below zero, in size_t. */
  lemma InWord(x: int)
    requires -1 <= x < WORD
    ensures x % WORD == if x < 0 then WORD - 1 else x
  {
  }

  // ----- one thread -----

  class CircularBuffer<T> {
    const data: array<T>
    var writer: nat
    var reader: nat
    var itemNumber: nat
    ghost var contents: seq<T>
    ghost var taken: nat  // how many items have been popped

    ghost predicate Valid()
      reads this, data
    {
      && |contents| < data.Length < WORD
      && reader == Slot(taken, data.Length)
      && writer == Slot(taken + |contents|, data.Length)
      && itemNumber == |contents|
      && forall j :: taken <= j < taken + |contents| ==> data[Slot(j, data.Length)] == contents[j - taken]
    }

    constructor (n: nat, blank: T)
      requires n + 1 < WORD
      ensures Valid() && contents == [] && data.Length == n + 1 && fresh(data)
    {
      data := new T[n + 1](_ => blank);
      writer, reader, itemNumber, contents, taken := 0, 0, 0, [], 0;
    }

    /** Refuses exactly when N items are stored, otherwise appends. */
    method TryPushItem(item: T) returns (ok: bool)
      requires Valid()
      modifies this, data
      ensures Valid()
      ensures ok <==> |old(contents)| < data.Length - 1
      ensures contents == if ok then old(contents) + [item] else old(contents)
    {
      var size := data.Length;
      var nextWriter := (writer + 1) % size;
      SlotNext(taken + |contents|, size);
      if |contents| < size - 1 {
        SlotsDiffer(taken, taken + |contents| + 1, size);
      } else {
        SlotWraps(taken, size);
      }
      if nextWriter == reader {
        return false;
      }
      forall j | taken <= j < taken + |contents|
        ensures Slot(j, size) != writer
      {
        SlotsDiffer(j, taken + |contents|, size);
      }
      data[writer] := item;
      writer := nextWriter;
      InWord(itemNumber + 1);
      itemNumber := (itemNumber + 1) % WORD;
      contents := contents + [item];
      return true;
    }

    /** Refuses exactly when nothing is stored, otherwise returns the oldest item. */
    method TryPopItem(fallback: T) returns (ok: bool, item: T)
      requires Valid()
      modifies this
      ensures Valid()
      ensures ok <==> old(contents) != []
      ensures ok ==> item == old(contents)[0] && contents == old(contents)[1..]
      ensures !ok ==> item == fallback && contents == old(contents)
    {
      if contents != [] {
        SlotsDiffer(taken, taken + |contents|, data.Length);
      }
      if writer == reader {
        return false, fallback;
      }
      item := data[reader];
      SlotNext(taken, data.Length);
      reader := (reader + 1) % data.Length;
      InWord(itemNumber - 1);
      itemNumber := (itemNumber - 1) % WORD;
      contents := contents[1..];
      taken := taken + 1;
      ok := true;
    }
  }

  // ----- two threads -----

  /** Where the producer is inside TryPushItem; each step makes at most one access to shared memory. */
  datatype Producer<T> =
    | ProducerIdle
    | LoadedWriter(item: T, w: nat)
    | LoadedReader(item: T, w: nat, r: nat)
    | WroteSlot(item: T, w: nat)
    | Published

  /** Where the consumer is inside TryPopItem. */
  datatype Consumer<T> =
    | ConsumerIdle
    | SawWriter(w: nat)
    | SawBoth(w: nat, r: nat)
    | ReadSlot(r: nat, item: T)
    | Released

  /**
    Shared memory, both program counters, and histories: the items pushed and popped so far (in the
    order of the stores to mWriter and mReader) and, for each side, how many items the other side had
    moved when its index was loaded.
  */
  datatype Ring<T> = Ring(
    size: nat,
    writer: nat,
    reader: nat,
    data: seq<T>,
    itemNumber: nat,
    producer: Producer<T>,
    consumer: Consumer<T>,
    pushed: seq<T>,
    popped: seq<T>,
    seenPopped: nat,
    seenPushed: nat)

  /** A schedule is a list of turns; an idle producer starts pushing the given item on its turn. */
  datatype Turn<T> = Produce(item: T) | Consume

  function Start<T>(blank: seq<T>): Ring<T>
    requires |blank| > 0
  {
    Ring(|blank|, 0, 0, blank, 0, ProducerIdle, ConsumerIdle, [], [], 0, 0)
  }

  predicate WellSized<T>(s: Ring<T>) {
    && 0 < s.size == |s.data|
    && (s.producer.LoadedReader? ==> s.producer.w < s.size)
    && (s.consumer.SawBoth? ==> s.consumer.r < s.size)
  }

  function ProducerStep<T(==)>(s: Ring<T>, item: T): Ring<T>
    requires WellSized(s)
  {
    match s.producer
    case ProducerIdle => s.(producer := LoadedWriter(item, s.writer))
    case LoadedWriter(x, w) => s.(producer := LoadedReader(x, w, s.reader), seenPopped := |s.popped|)
    case LoadedReader(x, w, r) =>
      if (w + 1) % s.size == r then s.(producer := ProducerIdle)
      else s.(data := s.data[w := x], producer := WroteSlot(x, w))
    case WroteSlot(x, w) => s.(writer := (w + 1) % s.size, producer := Published, pushed := s.pushed + [x])
    case Published => s.(itemNumber := (s.itemNumber + 1) % WORD, producer := ProducerIdle)
  }

  function ConsumerStep<T(==)>(s: Ring<T>): Ring<T>
    requires WellSized(s)
  {
    match s.consumer
    case ConsumerIdle => s.(consumer := SawWriter(s.writer), seenPushed := |s.pushed|)
    case SawWriter(w) => s.(consumer := SawBoth(w, s.reader))
    case SawBoth(w, r) =>
      if w == r then s.(consumer := ConsumerIdle) else s.(consumer := ReadSlot(r, s.data[r]))
    case ReadSlot(r, x) => s.(reader := (r + 1) % s.size, consumer := Released, popped := s.popped + [x])
    case Released => s.(itemNumber := (s.itemNumber - 1) % WORD, consumer := ConsumerIdle)
  }

  function Next<T(==)>(s: Ring<T>, t: Turn<T>): Ring<T>
    requires WellSized(s)
  {
    match t
    case Produce(x) => ProducerStep(s, x)
    case Consume => ConsumerStep(s)
  }

  /** The items between the two indices are exactly the pushed items not yet popped, each in its slot. */
  ghost predicate Fifo<T>(s: Ring<T>)
    requires WellSized(s)
  {
    && s.popped <= s.pushed
    && |s.pushed| - |s.popped| < s.size
    && s.writer == Slot(|s.pushed|, s.size)
    && s.reader == Slot(|s.popped|, s.size)
    && forall i :: |s.popped| <= i < |s.pushed| ==> s.data[Slot(i, s.size)] == s.pushed[i]
  }

  /** What a half-done push knows: its view of the reader is at most too old, never too new. */
  ghost predicate ProducerSound<T>(s: Ring<T>)
    requires WellSized(s)
  {
    match s.producer
    case ProducerIdle => true
    case LoadedWriter(_, w) => w == s.writer
    case LoadedReader(_, w, r) =>
      && w == s.writer && r == Slot(s.seenPopped, s.size)
      && s.seenPopped <= |s.popped| && |s.pushed| - s.seenPopped < s.size
    case WroteSlot(x, w) => w == s.writer < s.size && s.data[w] == x && |s.pushed| - |s.popped| < s.size - 1
    case Published => true
  }

  /** What a half-done pop knows. */
  ghost predicate ConsumerSound<T>(s: Ring<T>)
    requires WellSized(s)
  {
    match s.consumer
    case ConsumerIdle => true
    case SawWriter(w) => w == Slot(s.seenPushed, s.size) && |s.popped| <= s.seenPushed <= |s.pushed|
    case SawBoth(w, r) => w == Slot(s.seenPushed, s.size) && |s.popped| <= s.seenPushed <= |s.pushed| && r == s.reader
    case ReadSlot(r, x) => r == s.reader && |s.popped| < |s.pushed| && x == s.pushed[|s.popped|]
    case Released => true
  }

  /** Items between the indices, corrected for a push not yet counted and a pop still counted. */
  function Counted<T>(s: Ring<T>): int {
    |s.pushed| - |s.popped| - (if s.producer == Published then 1 else 0) + (if s.consumer == Released then 1 else 0)
  }

  ghost predicate Inv<T>(s: Ring<T>) {
    WellSized(s) && Fifo(s) && ProducerSound(s) && ConsumerSound(s)
  }

  lemma StartInv<T>(blank: seq<T>)
    requires |blank| > 0
    ensures Inv(Start(blank))
  {
  }

  /** A push writes only into a slot that holds no item. */
  lemma WriteHitsFreeSlot<T>(s: Ring<T>, i: nat)
    requires Inv(s) && s.producer.LoadedReader? && (s.producer.w + 1) % s.size != s.producer.r
    ensures |s.pushed| - |s.popped| < s.size - 1
    ensures |s.popped| <= i < |s.pushed| ==> Slot(i, s.size) != s.producer.w
  {
    SlotNext(|s.pushed|, s.size);
    if |s.pushed| - s.seenPopped == s.size - 1 {
      SlotWraps(s.seenPopped, s.size);
    }
    if |s.popped| <= i < |s.pushed| {
      SlotsDiffer(i, |s.pushed|, s.size);
    }
  }

  lemma WriteKeepsInv<T>(s: Ring<T>, item: T)
    requires Inv(s) && s.producer.LoadedReader?
    ensures Inv(ProducerStep(s, item))
  {
    if (s.producer.w + 1) % s.size != s.producer.r {
      forall i | |s.popped| <= i < |s.pushed|
        ensures Slot(i, s.size) != s.producer.w
      {
        WriteHitsFreeSlot(s, i);
      }
      WriteHitsFreeSlot(s, 0);
    }
  }

  lemma PublishKeepsInv<T>(s: Ring<T>, item: T)
    requires Inv(s) && s.producer.WroteSlot?
    ensures Inv(ProducerStep(s, item))
  {
    SlotNext(|s.pushed|, s.size);
  }

  lemma ProducerKeepsInv<T>(s: Ring<T>, item: T)
    requires Inv(s)
    ensures Inv(ProducerStep(s, item))
  {
    match s.producer
    case LoadedReader(_, _, _) => WriteKeepsInv(s, item);
    case WroteSlot(_, _) => PublishKeepsInv(s, item);
    case _ =>
  }

  lemma ConsumerKeepsInv<T>(s: Ring<T>)
    requires Inv(s)
    ensures Inv(ConsumerStep(s))
  {
    match s.consumer
    case ReadSlot(_, _) => SlotNext(|s.popped|, s.size);
    case _ =>
  }

  lemma NextKeepsInv<T>(s: Ring<T>, t: Turn<T>)
    requires Inv(s)
    ensures Inv(Next(s, t))
  {
    match t
    case Produce(x) => ProducerKeepsInv(s, x);
    case Consume => ConsumerKeepsInv(s);
  }

  ghost function Play<T>(s: Ring<T>, ts: seq<Turn<T>>): Ring<T>
    requires Inv(s)
    decreases |ts|
  {
    if ts == [] then s
    else
      NextKeepsInv(s, ts[0]);
      Play(Next(s, ts[0]), ts[1..])
  }

  ghost predicate CountRight<T>(s: Ring<T>) {
    s.itemNumber == Counted(s) % WORD
  }

  lemma CountStep(x: int, d: int)
    ensures (x % WORD + d) % WORD == (x + d) % WORD
  {
    ModShift(x % WORD + d, x / WORD, WORD);
  }

  lemma NextKeepsCount<T>(s: Ring<T>, t: Turn<T>)
    requires WellSized(s) && CountRight(s)
    ensures CountRight(Next(s, t))
  {
    CountStep(Counted(s), 1);
    CountStep(Counted(s), -1);
  }

  lemma {:induction false} PlayKeepsInv<T>(s: Ring<T>, ts: seq<Turn<T>>)
    requires Inv(s) && CountRight(s)
    ensures Inv(Play(s, ts)) && CountRight(Play(s, ts)) && Play(s, ts).size == s.size
    decreases |ts|
  {
    if ts != [] {
      NextKeepsInv(s, ts[0]);
      NextKeepsCount(s, ts[0]);
      PlayKeepsInv(Next(s, ts[0]), ts[1..]);
    }
  }

  /**
    In every interleaving of loads and stores the ring is a FIFO queue of capacity N = size - 1: what
    has been popped is a prefix of what has been pushed, at most N items are in between, and the item
    counter is their number up to a push or pop that has not counted itself yet (modulo the word size).
  */
  lemma RingIsFifo<T>(blank: seq<T>, ts: seq<Turn<T>>)
    requires |blank| > 0
    ensures var s := Play(Start(blank), ts);
            && s.popped <= s.pushed
            && |s.pushed| - |s.popped| <= |blank| - 1
            && s.itemNumber == Counted(s) % WORD
  {
    PlayKeepsInv(Start(blank), ts);
  }

  /** The item a push in progress was started with. */
  predicate Carries<T(==)>(s: Ring<T>, item: T) {
    match s.producer
    case LoadedWriter(x, _) => x == item
    case LoadedReader(x, _, _) => x == item
    case WroteSlot(x, _) => x == item
    case _ => true
  }

  /** The item of the turn that starts a push, and otherwise the one given before. */
  function Current<T(==)>(s: Ring<T>, t: Turn<T>, item: T): T {
    if t.Produce? && s.producer == ProducerIdle then t.item else item
  }

  /** From the schedule: the items of the turns that started the pushes that were published, in order. */
  ghost function Accepted<T>(s: Ring<T>, ts: seq<Turn<T>>, item: T): seq<T>
    requires Inv(s)
    decreases |ts|
  {
    if ts == [] then []
    else
      var now := Current(s, ts[0], item);
      NextKeepsInv(s, ts[0]);
      (if ts[0].Produce? && s.producer.WroteSlot? then [now] else []) + Accepted(Next(s, ts[0]), ts[1..], now)
  }

  lemma NextCarries<T>(s: Ring<T>, t: Turn<T>, item: T)
    requires Inv(s) && Carries(s, item)
    ensures Carries(Next(s, t), Current(s, t, item))
    ensures Next(s, t).pushed
            == s.pushed + if t.Produce? && s.producer.WroteSlot? then [Current(s, t, item)] else []
  {
  }

  /** In every schedule the items pushed are those TryPushItem was called with, in order; refused calls add nothing. */
  lemma {:induction false} PushedIsWhatWasGiven<T>(s: Ring<T>, ts: seq<Turn<T>>, item: T)
    requires Inv(s) && Carries(s, item)
    ensures Play(s, ts).pushed == s.pushed + Accepted(s, ts, item)
    decreases |ts|
  {
    if ts != [] {
      NextKeepsInv(s, ts[0]);
      NextCarries(s, ts[0], item);
      PushedIsWhatWasGiven(Next(s, ts[0]), ts[1..], Current(s, ts[0], item));
    }
  }

  /** The consumer alone, for a number of turns. */
  ghost function Consumed<T>(s: Ring<T>, turns: nat): Ring<T>
    requires Inv(s)
    decreases turns
  {
    if turns == 0 then s
    else
      ConsumerKeepsInv(s);
      Consumed(ConsumerStep(s), turns - 1)
  }

  lemma {:induction false} ConsumedKeeps<T>(s: Ring<T>, turns: nat)
    requires Inv(s)
    ensures var t := Consumed(s, turns);
            Inv(t) && t.producer == s.producer && t.pushed == s.pushed && t.size == s.size
    decreases turns
  {
    if turns > 0 {
      ConsumerKeepsInv(s);
      ConsumedKeeps(ConsumerStep(s), turns - 1);
    }
  }

  /** A producer step after a number of consumer turns. */
  ghost function Produced<T>(s: Ring<T>, turns: nat, item: T): Ring<T>
    requires Inv(s)
  {
    ConsumedKeeps(s, turns);
    ProducerStep(Consumed(s, turns), item)
  }

  lemma ProducedKeeps<T>(s: Ring<T>, turns: nat, item: T)
    requires Inv(s)
    ensures Inv(Produced(s, turns, item))
  {
    ConsumedKeeps(s, turns);
    ProducerKeepsInv(Consumed(s, turns), item);
  }

  /** The two loads of a push, whatever the consumer does in between. */
  lemma PushLoads<T>(s: Ring<T>, item: T, a: nat, b: nat)
    requires Inv(s) && s.producer == ProducerIdle
    ensures Inv(Produced(s, a, item))
    ensures var s2 := Produced(Produced(s, a, item), b, item);
            Inv(s2) && s2.producer.LoadedReader? && Carries(s2, item) && s2.pushed == s.pushed && s2.size == s.size
  {
    ProducedKeeps(s, a, item);
    ConsumedKeeps(s, a);
    var s1 := Produced(s, a, item);
    ProducedKeeps(s1, b, item);
    ConsumedKeeps(s1, b);
  }

  /** The test and the two stores of a push. */
  lemma PushStores<T>(s: Ring<T>, item: T, c: nat, d: nat)
    requires Inv(s) && s.producer.LoadedReader? && Carries(s, item)
    ensures Inv(Produced(s, c, item))
    ensures var s3 := Produced(s, c, item);
            if |s.pushed| - s.seenPopped == s.size - 1 then
              s3.producer == ProducerIdle && s3.pushed == s.pushed
            else
              var s4 := Produced(s3, d, item);
              s4.producer == Published && s4.pushed == s.pushed + [item]
  {
    ProducedKeeps(s, c, item);
    ConsumedKeeps(s, c);
    RefusalsWereTrue(Consumed(s, c));
    ConsumedSees(s, c);
    ConsumedKeeps(Produced(s, c, item), d);
  }

  /** One call of TryPushItem, whatever the consumer does in between: it is published with exactly its item in the
      slot, or refused because N items were stored when it loaded the reader. */
  lemma OnePush<T>(s: Ring<T>, item: T, a: nat, b: nat, c: nat, d: nat)
    requires Inv(s) && s.producer == ProducerIdle
    ensures Inv(Produced(s, a, item)) && Inv(Produced(Produced(s, a, item), b, item))
    ensures var s2 := Produced(Produced(s, a, item), b, item);
            && Inv(Produced(s2, c, item))
            && var s3 := Produced(s2, c, item);
               if |s2.pushed| - s2.seenPopped == s.size - 1 then
                 s3.producer == ProducerIdle && s3.pushed == s.pushed
               else
                 var s4 := Produced(s3, d, item);
                 s4.producer == Published && s4.pushed == s.pushed + [item]
  {
    PushLoads(s, item, a, b);
    PushStores(Produced(Produced(s, a, item), b, item), item, c, d);
  }

  lemma {:induction false} ConsumedSees<T>(s: Ring<T>, turns: nat)
    requires Inv(s)
    ensures Consumed(s, turns).seenPopped == s.seenPopped
    decreases turns
  {
    if turns > 0 {
      ConsumerKeepsInv(s);
      ConsumedSees(ConsumerStep(s), turns - 1);
    }
  }

  /** Stale views are only conservative: a push is refused iff the ring was full when the reader was loaded,
      a pop iff it was empty when the writer was loaded. */
  lemma RefusalsWereTrue<T>(s: Ring<T>)
    requires Inv(s)
    ensures s.producer.LoadedReader? ==>
              ((s.producer.w + 1) % s.size == s.producer.r <==> |s.pushed| - s.seenPopped == s.size - 1)
    ensures s.consumer.SawBoth? ==> (s.consumer.w == s.consumer.r <==> s.seenPushed == |s.popped|)
  {
    if s.producer.LoadedReader? {
      SlotNext(|s.pushed|, s.size);
      if |s.pushed| - s.seenPopped == s.size - 1 {
        SlotWraps(s.seenPopped, s.size);
      } else {
        SlotsDiffer(s.seenPopped, |s.pushed| + 1, s.size);
      }
    }
    if s.consumer.SawBoth? && s.seenPushed != |s.popped| {
      SlotsDiffer(|s.popped|, s.seenPushed, s.size);
    }
  }

  /** The counter is exact iff no operation or both are between moving their index and counting. */
  lemma ItemNumberExact<T>(s: Ring<T>)
    requires Inv(s) && CountRight(s) && s.size < WORD - 1
    ensures s.itemNumber == |s.pushed| - |s.popped| <==> (s.producer == Published <==> s.consumer == Released)
  {
    InWord(Counted(s));
  }

  /** The counter leaves 0..N in exactly two situations: below zero, where it wraps round to the largest
      size_t, and one above N. */
  lemma ItemNumberOutOfRange<T>(s: Ring<T>)
    requires Inv(s) && CountRight(s) && s.size < WORD - 1
    ensures s.itemNumber > s.size - 1 <==>
              || (s.pushed == s.popped && s.producer == Published && s.consumer != Released)
              || (|s.pushed| - |s.popped| == s.size - 1 && s.producer != Published && s.consumer == Released)
    ensures s.pushed == s.popped && s.producer == Published && s.consumer != Released ==> s.itemNumber == WORD - 1
  {
    assert |s.pushed| == |s.popped| ==> s.pushed == s.popped;
    InWord(Counted(s));
  }

  lemma PlayFirst<T>(s: Ring<T>, t: Turn<T>, rest: seq<Turn<T>>) returns (s': Ring<T>)
    requires Inv(s)
    ensures s' == Next(s, t) && Inv(s') && Play(s, [t] + rest) == Play(s', rest)
  {
    NextKeepsInv(s, t);
    s' := Next(s, t);
    assert ([t] + rest)[1..] == rest;
  }

  /** A push of 7 into an empty ring of two slots that has published the item and not counted it. */
  const UNCOUNTED: Ring<int> := Ring(2, 1, 0, [7, 0], 0, Published, ConsumerIdle, [7], [], 0, 0)

  lemma PushUpToCount(rest: seq<Turn<int>>)
    ensures Inv(UNCOUNTED)
    ensures var t := Produce(7); Play(Start([0, 0]), [t] + ([t] + ([t] + ([t] + rest)))) == Play(UNCOUNTED, rest)
  {
    var t := Produce(7);
    var s := PlayFirst(Start([0, 0]), t, [t] + ([t] + ([t] + rest)));
    s := PlayFirst(s, t, [t] + ([t] + rest));
    s := PlayFirst(s, t, [t] + rest);
    s := PlayFirst(s, t, rest);
    assert s == UNCOUNTED;
  }

  /** A schedule that gets below zero: the consumer counts the item out before the producer has counted it in. */
  lemma CounterCanWrap()
    ensures var p, c := Produce(7), Consume;
            var ts := [c] + ([c] + ([c] + ([c] + ([c] + []))));
            Play(Start([0, 0]), [p] + ([p] + ([p] + ([p] + ts)))).itemNumber == WORD - 1
  {
    var t := Consume;
    PushUpToCount([t] + ([t] + ([t] + ([t] + ([t] + [])))));
    var s := PlayFirst(UNCOUNTED, t, [t] + ([t] + ([t] + ([t] + []))));
    s := PlayFirst(s, t, [t] + ([t] + ([t] + [])));
    s := PlayFirst(s, t, [t] + ([t] + []));
    s := PlayFirst(s, t, [t] + []);
    s := PlayFirst(s, t, []);
    assert s.itemNumber == (0 - 1) % WORD;
  }

  /** The same ring when the item has been counted in and popped, and the pop is not counted yet. */
  const STILL_COUNTED: Ring<int> := Ring(2, 1, 1, [7, 0], 1, ProducerIdle, Released, [7], [7], 0, 1)

  lemma PopUpToCount(rest: seq<Turn<int>>)
    ensures Inv(UNCOUNTED) && Inv(STILL_COUNTED)
    ensures var p, c := Produce(7), Consume;
            Play(UNCOUNTED, [p] + ([c] + ([c] + ([c] + ([c] + rest))))) == Play(STILL_COUNTED, rest)
  {
    var c := Consume;
    PushUpToCount([]);
    var s := PlayFirst(UNCOUNTED, Produce(7), [c] + ([c] + ([c] + ([c] + rest))));
    s := PlayFirst(s, c, [c] + ([c] + ([c] + rest)));
    s := PlayFirst(s, c, [c] + ([c] + rest));
    s := PlayFirst(s, c, [c] + rest);
    s := PlayFirst(s, c, rest);
    assert s == STILL_COUNTED;
  }

  /** A schedule that gets above N = 1: a second item is counted in before the first one is counted out. */
  lemma CounterCanExceed()
    ensures var p, q, c := Produce(7), Produce(8), Consume;
            var ts := [q] + ([q] + ([q] + ([q] + ([q] + []))));
            var popping := [p] + ([c] + ([c] + ([c] + ([c] + ts))));
            Play(Start([0, 0]), [p] + ([p] + ([p] + ([p] + popping)))).itemNumber == 2
  {
    var p, q, c := Produce(7), Produce(8), Consume;
    var ts := [q] + ([q] + ([q] + ([q] + ([q] + []))));
    PushUpToCount([p] + ([c] + ([c] + ([c] + ([c] + ts)))));
    PopUpToCount(ts);
    var s := PlayFirst(STILL_COUNTED, q, [q] + ([q] + ([q] + ([q] + []))));
    s := PlayFirst(s, q, [q] + ([q] + ([q] + [])));
    s := PlayFirst(s, q, [q] + ([q] + []));
    s := PlayFirst(s, q, [q] + []);
    s := PlayFirst(s, q, []);
    assert s.itemNumber == 2;
  }
}
