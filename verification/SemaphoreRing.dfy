/**
  CircularBufferSem: the ring with a semaphore of free slots and one of stored items.

  PushItem waits for a free slot, runs TryPushItem of the ring, posts an item, and asserts that the
  push succeeded; PopItem is symmetric.  The steps of the ring are those of RingBuffer; Wait and Post
  are atomic, and a Wait on a zero semaphore is a turn that changes nothing.
*/
module SemaphoreRing {
  import opened RingBuffer

  /** Where a thread is inside PushItem or PopItem. */
  datatype Caller = Outside | Inside | Posting | AssertFailed

  datatype SemRing<T> = SemRing(ring: Ring<T>, semFull: nat, semEmpty: nat, push: Caller, pop: Caller)

  function Fresh<T>(blank: seq<T>): SemRing<T>
    requires |blank| > 0
  {
    SemRing(Start(blank), |blank| - 1, 0, Outside, Outside)
  }

  function PushTurn<T(==)>(s: SemRing<T>, item: T): SemRing<T>
    requires WellSized(s.ring)
  {
    match s.push
    case Outside => if s.semFull == 0 then s else s.(semFull := s.semFull - 1, push := Inside)
    case Inside =>
      var ring := ProducerStep(s.ring, item);
      // TryPushItem returns true after counting the item and false after finding the ring full
      var after :=
        if ring.producer != ProducerIdle then Inside
        else if s.ring.producer == Published then Posting
        else AssertFailed;
      s.(ring := ring, push := after)
    case Posting => s.(semEmpty := s.semEmpty + 1, push := Outside)
    case AssertFailed => s
  }

  function PopTurn<T(==)>(s: SemRing<T>): SemRing<T>
    requires WellSized(s.ring)
  {
    match s.pop
    case Outside => if s.semEmpty == 0 then s else s.(semEmpty := s.semEmpty - 1, pop := Inside)
    case Inside =>
      var ring := ConsumerStep(s.ring);
      var after :=
        if ring.consumer != ConsumerIdle then Inside
        else if s.ring.consumer == Released then Posting
        else AssertFailed;
      s.(ring := ring, pop := after)
    case Posting => s.(semFull := s.semFull + 1, pop := Outside)
    case AssertFailed => s
  }

  function TakeTurn<T(==)>(s: SemRing<T>, t: Turn<T>): SemRing<T>
    requires WellSized(s.ring)
  {
    match t
    case Produce(x) => PushTurn(s, x)
    case Consume => PopTurn(s)
  }

  function Bit(b: bool): nat {
    if b then 1 else 0
  }

  /** A push that has taken a free-slot credit and not yet published its item. */
  predicate PushInFlight<T(==)>(s: SemRing<T>) {
    s.push == Inside && s.ring.producer != Published
  }

  /** A push that has published its item and not yet posted it. */
  predicate PushOwesPost<T(==)>(s: SemRing<T>) {
    s.push == Posting || (s.push == Inside && s.ring.producer == Published)
  }

  predicate PopInFlight<T(==)>(s: SemRing<T>) {
    s.pop == Inside && s.ring.consumer != Released
  }

  predicate PopOwesPost<T(==)>(s: SemRing<T>) {
    s.pop == Posting || (s.pop == Inside && s.ring.consumer == Released)
  }

  function Items<T>(s: SemRing<T>): int {
    |s.ring.pushed| - |s.ring.popped|
  }

  /** Every slot is a free credit, a push in flight, a stored item, or a slot freed but not posted;
      every stored item is an item credit, a pop in flight, or an item not posted. */
  predicate CreditsBalance<T(==)>(s: SemRing<T>) {
    && s.semFull + Bit(PushInFlight(s)) + Items(s) + Bit(PopOwesPost(s)) == s.ring.size - 1
    && s.semEmpty + Bit(PopInFlight(s)) + Bit(PushOwesPost(s)) == Items(s)
  }

  ghost predicate Sound<T>(s: SemRing<T>) {
    && Inv(s.ring) && CreditsBalance(s)
    && s.push != AssertFailed && s.pop != AssertFailed
    && (s.push != Inside ==> s.ring.producer == ProducerIdle)
    && (s.pop != Inside ==> s.ring.consumer == ConsumerIdle)
    && (s.ring.producer.LoadedReader? ==> |s.ring.pushed| - s.ring.seenPopped < s.ring.size - 1)
    && (s.ring.consumer.SawWriter? || s.ring.consumer.SawBoth? ==> |s.ring.popped| < s.ring.seenPushed)
  }

  lemma PushTurnSound<T>(s: SemRing<T>, item: T)
    requires Sound(s)
    ensures Sound(PushTurn(s, item))
  {
    if s.push == Inside {
      InsidePushSound(s, item);
    }
  }

  lemma InsidePushSound<T>(s: SemRing<T>, item: T)
    requires Sound(s) && s.push == Inside
    ensures Sound(PushTurn(s, item))
  {
    ProducerKeepsInv(s.ring, item);
    RefusalsWereTrue(s.ring);
  }

  lemma PopTurnSound<T>(s: SemRing<T>)
    requires Sound(s)
    ensures Sound(PopTurn(s))
  {
    if s.pop == Inside {
      ConsumerKeepsInv(s.ring);
      RefusalsWereTrue(s.ring);
    }
  }

  lemma TurnSound<T>(s: SemRing<T>, t: Turn<T>)
    requires Sound(s)
    ensures Sound(TakeTurn(s, t))
  {
    match t
    case Produce(x) => PushTurnSound(s, x);
    case Consume => PopTurnSound(s);
  }

  lemma TurnKeepsSize<T>(s: SemRing<T>, t: Turn<T>)
    requires WellSized(s.ring)
    ensures TakeTurn(s, t).ring.size == s.ring.size
  {
  }

  ghost function PlayTurns<T>(s: SemRing<T>, ts: seq<Turn<T>>): SemRing<T>
    requires Sound(s)
    decreases |ts|
  {
    if ts == [] then s
    else
      TurnSound(s, ts[0]);
      PlayTurns(TakeTurn(s, ts[0]), ts[1..])
  }

  lemma {:induction false} PlayTurnsSound<T>(s: SemRing<T>, ts: seq<Turn<T>>)
    requires Sound(s)
    ensures Sound(PlayTurns(s, ts)) && PlayTurns(s, ts).ring.size == s.ring.size
    decreases |ts|
  {
    if ts != [] {
      TurnSound(s, ts[0]);
      TurnKeepsSize(s, ts[0]);
      PlayTurnsSound(TakeTurn(s, ts[0]), ts[1..]);
    }
  }

  /** The turns of the ring in a schedule of blocking calls: those taken inside TryPushItem or TryPopItem. */
  ghost function RingTurns<T>(s: SemRing<T>, ts: seq<Turn<T>>): seq<Turn<T>>
    requires Sound(s)
    decreases |ts|
  {
    if ts == [] then []
    else
      TurnSound(s, ts[0]);
      var inside := if ts[0].Produce? then s.push == Inside else s.pop == Inside;
      (if inside then [ts[0]] else []) + RingTurns(TakeTurn(s, ts[0]), ts[1..])
  }

  lemma {:induction false} PlayTurnsIsPlay<T>(s: SemRing<T>, ts: seq<Turn<T>>)
    requires Sound(s)
    ensures PlayTurns(s, ts).ring == Play(s.ring, RingTurns(s, ts))
    decreases |ts|
  {
    if ts != [] {
      TurnSound(s, ts[0]);
      PlayTurnsIsPlay(TakeTurn(s, ts[0]), ts[1..]);
      var rest := RingTurns(TakeTurn(s, ts[0]), ts[1..]);
      if RingTurns(s, ts) != rest {
        assert RingTurns(s, ts)[1..] == rest;
      }
    }
  }

  /** In every interleaving the credits balance at N, items come out in the order they went in,
      what went in is what PushItem was given, and neither assertion after a Wait can fail. */
  lemma AssertionsNeverFail<T>(blank: seq<T>, ts: seq<Turn<T>>, item: T)
    requires |blank| > 0
    ensures Sound(Fresh(blank))
    ensures var s := PlayTurns(Fresh(blank), ts);
            && s.push != AssertFailed && s.pop != AssertFailed
            && s.semFull + Bit(PushInFlight(s)) + Items(s) + Bit(PopOwesPost(s)) == |blank| - 1
            && s.semEmpty + Bit(PopInFlight(s)) + Bit(PushOwesPost(s)) == Items(s)
            && s.ring.popped <= s.ring.pushed == Accepted(Start(blank), RingTurns(Fresh(blank), ts), item)
  {
    StartInv(blank);
    PlayTurnsSound(Fresh(blank), ts);
    PlayTurnsIsPlay(Fresh(blank), ts);
    PushedIsWhatWasGiven(Start(blank), RingTurns(Fresh(blank), ts), item);
  }

  /** With room for at least one item the two threads are never both stuck in Wait, and a thread that is
      stuck is waiting for something true: nothing to pop, or no slot to push into. */
  lemma NeverBothWaiting<T>(s: SemRing<T>)
    requires Sound(s) && s.ring.size > 1
    ensures !(s.push == Outside && s.semFull == 0 && s.pop == Outside && s.semEmpty == 0)
    ensures s.push == Outside && s.semFull == 0 ==> Items(s) + Bit(PopOwesPost(s)) == s.ring.size - 1
    ensures s.pop == Outside && s.semEmpty == 0 ==> Items(s) == Bit(PushOwesPost(s))
  {
  }
}
