/**
  MD5 around its compression function: how DoMd5Little and DoMd5Big cut a message into the 64-byte blocks they
  feed to it, and how they write out the hash.  The compression function itself is a parameter, so what is proved
  holds for CalMd5.  The reference is sections 3.1 to 3.5 of RFC 1321: the padded message, cut into blocks of
  sixteen little-endian words, and the four words of the hash, low-order byte first.
*/
module Md5 {

  type Byte = x: int | 0 <= x < 256

  /** Byte order in which the machine's memcpy sees integers. */
  datatype Machine = LittleEndian | BigEndian

  // ----- RFC 1321 -----

  function Word(b: seq<Byte>): nat
    requires |b| == 4
  {
    b[0] as int + 0x100 * (b[1] as int) + 0x1_0000 * (b[2] as int) + 0x100_0000 * (b[3] as int)
  }

  function Words(block: seq<Byte>): seq<nat>
    requires |block| == 64
  {
    seq(16, i requires 0 <= i < 16 => Word(block[4 * i..4 * i + 4]))
  }

  /** A 64-bit number as eight bytes, low-order byte first. */
  function Low8(v: nat): (b: seq<Byte>)
    ensures |b| == 8
  {
    [v % 0x100, v / 0x100 % 0x100, v / 0x1_0000 % 0x100, v / 0x100_0000 % 0x100,
     v / 0x1_0000_0000 % 0x100, v / 0x100_0000_0000 % 0x100, v / 0x1_0000_0000_0000 % 0x100,
     v / 0x100_0000_0000_0000 % 0x100]
  }

  function Zeros(n: nat): (z: seq<Byte>)
    ensures |z| == n
  {
    seq(n, _ => 0)
  }

  const WORD64 := 0x1_0000_0000_0000_0000

  /** Length of the message in bits, modulo 2^64. */
  function Bits(n: nat): nat {
    (n * 8) % WORD64
  }

  /** A single one bit, zero bits up to 56 modulo 64 bytes, then the given eight length bytes. */
  function PaddedWith(msg: seq<Byte>, length: seq<Byte>): seq<Byte> {
    msg + [0x80] + Zeros((55 - |msg|) % 64) + length
  }

  function Padded(msg: seq<Byte>): seq<Byte> {
    PaddedWith(msg, Low8(Bits(|msg|)))
  }

  /** Feeding a byte string to the compression function f, 64 bytes at a time. */
  function Digest<H>(f: (seq<nat>, H) -> H, h: H, bytes: seq<Byte>): H
    requires |bytes| % 64 == 0
  {
    if bytes == [] then h else Digest(f, f(Words(bytes[..64]), h), bytes[64..])
  }

  lemma PaddedIsBlocks(msg: seq<Byte>, length: seq<Byte>)
    requires |length| == 8
    ensures |PaddedWith(msg, length)| % 64 == 0
  {
  }

  lemma {:induction false} DigestConcat<H>(f: (seq<nat>, H) -> H, h: H, a: seq<Byte>, b: seq<Byte>)
    requires |a| % 64 == 0 && |b| % 64 == 0
    ensures Digest(f, h, a + b) == Digest(f, Digest(f, h, a), b)
  {
    if a == [] {
      assert a + b == b;
    } else {
      DigestConcat(f, f(Words(a[..64]), h), a[64..], b);
      assert (a + b)[..64] == a[..64] && (a + b)[64..] == a[64..] + b;
    }
  }

  lemma DigestOne<H>(f: (seq<nat>, H) -> H, h: H, block: seq<Byte>)
    requires |block| == 64
    ensures Digest(f, h, block) == f(Words(block), h)
  {
    assert block[..64] == block && block[64..] == [];
  }

  type Word32 = x: int | 0 <= x < 0x1_0000_0000

  datatype Hash = Hash(a: Word32, b: Word32, c: Word32, d: Word32)

  /** The initial value of the hash. */
  const INITIAL := Hash(0x6745_2301, 0xEFCD_AB89, 0x98BA_DCFE, 0x1032_5476)

  /** A 32-bit number as four bytes, low-order byte first. */
  function Low4(v: Word32): (b: seq<Byte>)
    ensures |b| == 4
  {
    [v % 0x100, v / 0x100 % 0x100, v / 0x1_0000 % 0x100, v / 0x100_0000]
  }

  /** The message digest for compression function f. */
  function Md5Of(f: (seq<nat>, Hash) -> Hash, msg: seq<Byte>): seq<Byte> {
    PaddedIsBlocks(msg, Low8(Bits(|msg|)));
    var h := Digest(f, INITIAL, Padded(msg));
    Low4(h.a) + Low4(h.b) + Low4(h.c) + Low4(h.d)
  }

  // ----- the implementation -----

  /** What memcpy of a 32-bit integer writes. */
  function Native4(m: Machine, v: Word32): (b: seq<Byte>)
    ensures |b| == 4
  {
    var l := Low4(v);
    if m == LittleEndian then l else [l[3], l[2], l[1], l[0]]
  }

  /** What memcpy of the four hash words writes. */
  function Output(m: Machine, h: Hash): (b: seq<Byte>)
    ensures |b| == 16
  {
    Native4(m, h.a) + Native4(m, h.b) + Native4(m, h.c) + Native4(m, h.d)
  }

  /** What memcpy of a 64-bit integer writes. */
  function Native8(m: Machine, v: nat): (b: seq<Byte>)
    ensures |b| == 8
  {
    var l := Low8(v);
    if m == LittleEndian then l else [l[7], l[6], l[5], l[4], l[3], l[2], l[1], l[0]]
  }

  /** gPadding: one set bit and then zeros. */
  function GPadding(n: nat): (b: seq<Byte>)
    requires n >= 1
    ensures |b| == n
  {
    [0x80] + Zeros(n - 1)
  }

  method Memcpy(block: array<Byte>, at: nat, src: seq<Byte>)
    requires at + |src| <= block.Length
    modifies block
    ensures block[..] == old(block[..at]) + src + old(block[at + |src|..])
  {
    forall i | 0 <= i < |src| {
      block[at + i] := src[i];
    }
  }

  /** CopyBytesToBlock: four bytes to a word, low-order first, on any machine. */
  method CopyBytesToBlock(pool: seq<Byte>) returns (words: seq<nat>)
    requires |pool| == 64
    ensures words == Words(pool)
  {
    words := [];
    var j := 0;
    for i := 0 to 16
      invariant j == 4 * i && |words| == i
      invariant forall k :: 0 <= k < i ==> words[k] == Word(pool[4 * k..4 * k + 4])
    {
      words := words + [pool[j] as int + 0x100 * (pool[j + 1] as int) + 0x1_0000 * (pool[j + 2] as int)
          + 0x100_0000 * (pool[j + 3] as int)];
      j := j + 4;
    }
  }

  function FullLen(n: nat): nat {
    n / 64 * 64
  }

  /** The blocks after the whole ones: the rest of the message, padding and length, in one block or two. */
  function Tail(part: seq<Byte>, length: seq<Byte>): seq<Byte>
    requires |part| < 64 && |length| == 8
  {
    if |part| > 55 then part + GPadding(64 - |part|) + Zeros(56) + length
    else (part + GPadding(64 - |part|))[..56] + length
  }

  /** The padding depends only on the part of the message after the whole blocks. */
  lemma PartPadding(part: seq<Byte>, length: seq<Byte>)
    requires |part| < 64 && |length| == 8
    ensures Tail(part, length) == part + [0x80] + Zeros((55 - |part|) % 64) + length
  {
    var k := |part|;
    if k > 55 {
      assert (55 - k) % 64 == 119 - k;
      assert [0x80] + Zeros(119 - k) == GPadding(64 - k) + Zeros(56);
    } else {
      assert [0x80] + Zeros(55 - k) == GPadding(64 - k)[..56 - k];
      assert (part + GPadding(64 - k))[..56] == part + GPadding(64 - k)[..56 - k];
    }
  }

  /** The tail is what padding per RFC 1321 adds to the whole blocks. */
  lemma TailIsPadding(msg: seq<Byte>, length: seq<Byte>)
    requires |length| == 8
    ensures PaddedWith(msg, length) == msg[..FullLen(|msg|)] + Tail(msg[FullLen(|msg|)..], length)
  {
    var whole, part := msg[..FullLen(|msg|)], msg[FullLen(|msg|)..];
    assert (55 - |msg|) % 64 == (55 - |part|) % 64;
    PartPadding(part, length);
    assert msg == whole + part;
  }

  /** Fills the last blocks in place and feeds them; both variants do this, one in the words, one in a byte buffer. */
  method FeedTail<H>(f: (seq<nat>, H) -> H, h0: H, part: seq<Byte>, length: seq<Byte>) returns (h: H)
    requires |part| < 64 && |length| == 8
    ensures |Tail(part, length)| % 64 == 0 && h == Digest(f, h0, Tail(part, length))
  {
    h := h0;
    var block := new Byte[64](_ => 0);
    Memcpy(block, 0, part);
    Memcpy(block, |part|, GPadding(64 - |part|));
    ghost var first := part + GPadding(64 - |part|);
    assert block[..] == first;
    if |part| > 55 {
      var words := CopyBytesToBlock(block[..]);
      h := f(words, h);
      Memcpy(block, 0, Zeros(64));
      assert block[..] == Zeros(64);
    }
    ghost var before := block[..];
    Memcpy(block, 56, length);
    ghost var last := before[..56] + length;
    assert block[..] == last;
    var words := CopyBytesToBlock(block[..]);
    TwoBlocks(f, h0, part, length);
    h := f(words, h);
  }

  /** Feeding the tail is feeding its one or two blocks. */
  lemma TwoBlocks<H>(f: (seq<nat>, H) -> H, h: H, part: seq<Byte>, length: seq<Byte>)
    requires |part| < 64 && |length| == 8
    ensures |Tail(part, length)| % 64 == 0
    ensures var first := part + GPadding(64 - |part|);
            Digest(f, h, Tail(part, length))
            == if |part| > 55 then f(Words(Zeros(64)[..56] + length), f(Words(first), h))
               else f(Words(first[..56] + length), h)
  {
    var first := part + GPadding(64 - |part|);
    if |part| > 55 {
      var last := Zeros(64)[..56] + length;
      assert Zeros(64)[..56] == Zeros(56);
      assert Tail(part, length) == first + last;
      DigestConcat(f, h, first, last);
      DigestOne(f, h, first);
      DigestOne(f, f(Words(first), h), last);
    } else {
      DigestOne(f, h, first[..56] + length);
    }
  }

  /** The loop over whole blocks; its counter i is a uint32_t. */
  method FeedWhole<H>(f: (seq<nat>, H) -> H, h0: H, pool: seq<Byte>) returns (h: H, i: nat)
    requires |pool| < 0x1_0000_0000
    ensures i == FullLen(|pool|) && h == Digest(f, h0, pool[..i])
  {
    h := h0;
    i := 0;
    while i < FullLen(|pool|)
      invariant i <= FullLen(|pool|) && i % 64 == 0
      invariant h == Digest(f, h0, pool[..i])
      decreases FullLen(|pool|) - i
    {
      var words := CopyBytesToBlock(pool[i..i + 64]);
      DigestOne(f, h, pool[i..i + 64]);
      DigestConcat(f, h0, pool[..i], pool[i..i + 64]);
      assert pool[..i + 64] == pool[..i] + pool[i..i + 64];
      h := f(words, h);
      i := (i + 64) % 0x1_0000_0000;
    }
  }

  /** Whole blocks and tail together are the padded message with the given length bytes. */
  method FeedAll<H>(f: (seq<nat>, H) -> H, h0: H, pool: seq<Byte>, length: seq<Byte>) returns (h: H)
    requires |pool| < 0x1_0000_0000 && |length| == 8
    ensures |PaddedWith(pool, length)| % 64 == 0 && h == Digest(f, h0, PaddedWith(pool, length))
  {
    var i;
    h, i := FeedWhole(f, h0, pool);
    h := FeedTail(f, h, pool[i..], length);
    TailIsPadding(pool, length);
    DigestConcat(f, h0, pool[..i], Tail(pool[i..], length));
  }

  /** DoMd5Little, on the little-endian machines it is chosen for, is the digest of RFC 1321 over every message
      its loop terminates for. */
  method DoMd5Little(f: (seq<nat>, Hash) -> Hash, pool: seq<Byte>) returns (hash: seq<Byte>)
    requires |pool| < 0x1_0000_0000
    ensures hash == Md5Of(f, pool)
  {
    var h := FeedAll(f, INITIAL, pool, Native8(LittleEndian, Bits(|pool|)));
    hash := Output(LittleEndian, h);
  }

  /** The digest with the length and the hash words in the machine's byte order. */
  function Md5On(m: Machine, f: (seq<nat>, Hash) -> Hash, msg: seq<Byte>): seq<Byte> {
    PaddedIsBlocks(msg, Native8(m, Bits(|msg|)));
    Output(m, Digest(f, INITIAL, PaddedWith(msg, Native8(m, Bits(|msg|)))))
  }

  /** DoMd5Big converts the words of a block itself but copies the length and the hash in the machine's order. */
  method DoMd5Big(f: (seq<nat>, Hash) -> Hash, pool: seq<Byte>, m: Machine) returns (hash: seq<Byte>)
    requires |pool| < 0x1_0000_0000
    ensures hash == Md5On(m, f, pool)
    ensures m == LittleEndian ==> hash == Md5Of(f, pool)
  {
    var h := FeedAll(f, INITIAL, pool, Native8(m, Bits(|pool|)));
    hash := Output(m, h);
  }

  /** DoMd5 looks at the first byte of the integer 1 to choose. */
  method DoMd5(f: (seq<nat>, Hash) -> Hash, pool: seq<Byte>, m: Machine) returns (hash: seq<Byte>)
    requires |pool| < 0x1_0000_0000
    ensures hash == Md5On(m, f, pool)
    ensures m == LittleEndian ==> hash == Md5Of(f, pool)
  {
    if Native4(m, 1)[0] == 1 {
      hash := DoMd5Little(f, pool);
    } else {
      hash := DoMd5Big(f, pool, m);
    }
  }

  // ----- where the implementation is not MD5 -----

  /** From 2^32 bytes on, the 32-bit loop counter never reaches the end of the whole blocks: after any number
      of rounds the loop goes on. */
  lemma CounterNeverReachesEnd(n: nat, rounds: nat)
    ensures n >= 0x1_0000_0000 ==> (64 * rounds) % 0x1_0000_0000 < FullLen(n)
    ensures n < 0x1_0000_0000 && rounds == n / 64 ==> (64 * rounds) % 0x1_0000_0000 == FullLen(n)
  {
  }

  /** The compression function that records the blocks it is given. */
  function Record(words: seq<nat>, h: seq<seq<nat>>): seq<seq<nat>> {
    h + [words]
  }

  lemma WordsInjective(a: seq<Byte>, b: seq<Byte>)
    requires |a| == |b| == 64 && Words(a) == Words(b)
    ensures a == b
  {
    forall i | 0 <= i < 16
      ensures a[4 * i..4 * i + 4] == b[4 * i..4 * i + 4]
    {
      assert Words(a)[i] == Words(b)[i];
      WordInjective(a[4 * i..4 * i + 4], b[4 * i..4 * i + 4]);
    }
    forall k | 0 <= k < 64
      ensures a[k] == b[k]
    {
      var i := k / 4;
      assert a[4 * i..4 * i + 4][k % 4] == a[k] && b[4 * i..4 * i + 4][k % 4] == b[k];
    }
  }

  lemma WordBytes(b: seq<Byte>)
    requires |b| == 4
    ensures Word(b) % 0x100 == b[0] && Word(b) / 0x100 % 0x100 == b[1]
    ensures Word(b) / 0x1_0000 % 0x100 == b[2] && Word(b) / 0x100_0000 == b[3]
  {
    var y2 := b[2] as int + 0x100 * (b[3] as int);
    var y1 := b[1] as int + 0x100 * y2;
    assert Word(b) == b[0] as int + 0x100 * y1;
    Digit(b[0], y1);
    Digit(b[1], y2);
    Digit(b[2], b[3]);
    assert Word(b) / 0x1_0000 == y2 && Word(b) / 0x100_0000 == b[3] as int;
  }

  lemma Digit(d: Byte, rest: nat)
    ensures (d as int + 0x100 * rest) % 0x100 == d && (d as int + 0x100 * rest) / 0x100 == rest
  {
  }

  lemma WordInjective(a: seq<Byte>, b: seq<Byte>)
    requires |a| == |b| == 4 && Word(a) == Word(b)
    ensures a == b
  {
    WordBytes(a);
    WordBytes(b);
  }

  lemma {:induction false} RecordGrows(h: seq<seq<nat>>, bytes: seq<Byte>)
    requires |bytes| % 64 == 0
    ensures h <= Digest(Record, h, bytes)
    decreases |bytes|
  {
    if bytes != [] {
      RecordGrows(Record(Words(bytes[..64]), h), bytes[64..]);
    }
  }

  lemma {:induction false} RecordInjective(h: seq<seq<nat>>, a: seq<Byte>, b: seq<Byte>)
    requires |a| == |b| && |a| % 64 == 0 && Digest(Record, h, a) == Digest(Record, h, b)
    ensures a == b
    decreases |a|
  {
    if a != [] {
      var x, y := Record(Words(a[..64]), h), Record(Words(b[..64]), h);
      RecordGrows(x, a[64..]);
      RecordGrows(y, b[64..]);
      assert x[|h|] == y[|h|];
      WordsInjective(a[..64], b[..64]);
      RecordInjective(x, a[64..], b[64..]);
      assert a == a[..64] + a[64..] && b == b[..64] + b[64..];
    }
  }

  predicate Palindrome(b: seq<Byte>)
    requires |b| == 8
  {
    b[0] == b[7] && b[1] == b[6] && b[2] == b[5] && b[3] == b[4]
  }

  /** DoMd5Big on a big-endian machine feeds the blocks of RFC 1321 if and only if the eight length bytes read
      the same in both directions. */
  lemma BigEndianBlocks(msg: seq<Byte>)
    ensures |Padded(msg)| % 64 == 0 && |PaddedWith(msg, Native8(BigEndian, Bits(|msg|)))| % 64 == 0
    ensures Digest(Record, [], PaddedWith(msg, Native8(BigEndian, Bits(|msg|)))) == Digest(Record, [], Padded(msg))
            <==> Palindrome(Low8(Bits(|msg|)))
  {
    var big, little := Native8(BigEndian, Bits(|msg|)), Low8(Bits(|msg|));
    SameBlocks(msg, big, little);
    if Palindrome(little) {
      assert big == little;
    }
  }

  lemma SameBlocks(msg: seq<Byte>, x: seq<Byte>, y: seq<Byte>)
    requires |x| == |y| == 8
    ensures |PaddedWith(msg, x)| % 64 == 0 && |PaddedWith(msg, y)| % 64 == 0
    ensures Digest(Record, [], PaddedWith(msg, x)) == Digest(Record, [], PaddedWith(msg, y)) <==> x == y
  {
    var a, b := PaddedWith(msg, x), PaddedWith(msg, y);
    if Digest(Record, [], a) == Digest(Record, [], b) {
      RecordInjective([], a, b);
      assert a[|a| - 8..] == x && b[|b| - 8..] == y;
    }
  }

  /** It does not for a message of a single byte. */
  lemma BigEndianOneByte(x: Byte)
    ensures !Palindrome(Low8(Bits(|[x]|)))
  {
    assert Low8(8) == [8, 0, 0, 0, 0, 0, 0, 0];
  }

  /** A word whose four bytes read the same in both directions. */
  predicate Symmetric(v: Word32) {
    Low4(v)[0] == Low4(v)[3] && Low4(v)[1] == Low4(v)[2]
  }

  lemma SameWord(v: Word32)
    ensures Native4(BigEndian, v) == Low4(v) <==> Symmetric(v)
  {
    var l := Low4(v);
    if Native4(BigEndian, v) == l {
      assert Native4(BigEndian, v)[0] == l[0] && Native4(BigEndian, v)[1] == l[1];
    }
  }

  lemma FourParts(a: seq<Byte>, b: seq<Byte>, c: seq<Byte>, d: seq<Byte>, s: seq<Byte>)
    requires |a| == |b| == |c| == |d| == 4 && s == a + b + c + d
    ensures s[..4] == a && s[4..8] == b && s[8..12] == c && s[12..] == d
  {
  }

  lemma SameOutput(h: Hash)
    ensures Output(BigEndian, h) == Output(LittleEndian, h)
            <==> Symmetric(h.a) && Symmetric(h.b) && Symmetric(h.c) && Symmetric(h.d)
  {
    SameWord(h.a);
    SameWord(h.b);
    SameWord(h.c);
    SameWord(h.d);
    var big, little := Output(BigEndian, h), Output(LittleEndian, h);
    FourParts(Native4(BigEndian, h.a), Native4(BigEndian, h.b), Native4(BigEndian, h.c), Native4(BigEndian, h.d), big);
    FourParts(Low4(h.a), Low4(h.b), Low4(h.c), Low4(h.d), little);
  }

  /** On a big-endian machine, for a message whose blocks are right, the digest is right if and only if every word
      of the hash reads the same in both directions. */
  lemma BigEndianDigest(f: (seq<nat>, Hash) -> Hash, msg: seq<Byte>)
    requires Palindrome(Low8(Bits(|msg|)))
    ensures |Padded(msg)| % 64 == 0
    ensures var h := Digest(f, INITIAL, Padded(msg));
            Md5On(BigEndian, f, msg) == Md5Of(f, msg)
            <==> Symmetric(h.a) && Symmetric(h.b) && Symmetric(h.c) && Symmetric(h.d)
  {
    PaddedIsBlocks(msg, Low8(Bits(|msg|)));
    assert Native8(BigEndian, Bits(|msg|)) == Low8(Bits(|msg|));
    SameOutput(Digest(f, INITIAL, Padded(msg)));
  }

  lemma {:induction false} ConstantDigest(f: (seq<nat>, Hash) -> Hash, h: Hash, start: Hash, bytes: seq<Byte>)
    requires |bytes| % 64 == 0 && forall w, x :: f(w, x) == h
    ensures Digest(f, start, bytes) == if bytes == [] then start else h
    decreases |bytes|
  {
    if bytes != [] {
      ConstantDigest(f, h, h, bytes[64..]);
    }
  }

  ghost predicate RightFor(m: Machine, f: (seq<nat>, Hash) -> Hash, msg: seq<Byte>) {
    Md5On(m, f, msg) == Md5Of(f, msg)
  }

  lemma ConstantMd5(f: (seq<nat>, Hash) -> Hash, h: Hash, msg: seq<Byte>, m: Machine)
    requires forall w, x :: f(w, x) == h
    ensures Md5Of(f, msg) == Output(LittleEndian, h) && Md5On(m, f, msg) == Output(m, h)
  {
    PaddedIsBlocks(msg, Low8(Bits(|msg|)));
    PaddedIsBlocks(msg, Native8(m, Bits(|msg|)));
    ConstantDigest(f, h, INITIAL, Padded(msg));
    ConstantDigest(f, h, INITIAL, PaddedWith(msg, Native8(m, Bits(|msg|))));
  }

  /** The digest of a message, even the empty one, is right for every compression function if and only if the
      machine is little-endian. */
  lemma RightExactlyOnLittleEndian(m: Machine, msg: seq<Byte>)
    ensures (forall f: (seq<nat>, Hash) -> Hash :: RightFor(m, f, msg)) <==> m == LittleEndian
  {
    if m == BigEndian {
      var h := Hash(1, 0, 0, 0);
      var f: (seq<nat>, Hash) -> Hash := (_, _) => h;
      ConstantMd5(f, h, msg, m);
      assert !Symmetric(1);
      SameOutput(h);
      assert !RightFor(m, f, msg);
    } else {
      forall f: (seq<nat>, Hash) -> Hash
        ensures RightFor(m, f, msg)
      {
      }
    }
  }

  // ----- what the bytes stand for -----

  /** Four bytes of a word stand for it, low-order byte first. */
  lemma WordOfLow4(v: Word32)
    ensures Word(Low4(v)) == v
  {
  }

  lemma LowHalf(v: nat, low: Word32, high: Word32)
    requires v == high * 0x1_0000_0000 + low
    ensures Low8(v)[0] == Low4(low)[0] && Low8(v)[1] == Low4(low)[1]
    ensures Low8(v)[2] == Low4(low)[2] && Low8(v)[3] == Low4(low)[3]
  {
    FirstByte(v, low, high);
    SecondByte(v, low, high);
    ThirdByte(v, low, high);
    FourthByte(v, low, high);
    SameLowBytes(v, low);
  }

  lemma SameLowBytes(v: nat, low: Word32)
    requires v % 0x100 == low % 0x100 && v / 0x100 % 0x100 == low / 0x100 % 0x100
    requires v / 0x1_0000 % 0x100 == low / 0x1_0000 % 0x100 && v / 0x100_0000 % 0x100 == low / 0x100_0000
    ensures Low8(v)[0] == Low4(low)[0] && Low8(v)[1] == Low4(low)[1]
    ensures Low8(v)[2] == Low4(low)[2] && Low8(v)[3] == Low4(low)[3]
  {
  }

  lemma FirstByte(v: nat, low: Word32, high: Word32)
    requires v == high * 0x1_0000_0000 + low
    ensures v % 0x100 == low % 0x100
  {
  }

  lemma SecondByte(v: nat, low: Word32, high: Word32)
    requires v == high * 0x1_0000_0000 + low
    ensures v / 0x100 % 0x100 == low / 0x100 % 0x100
  {
    assert v / 0x100 == high * 0x100_0000 + low / 0x100;
  }

  lemma ThirdByte(v: nat, low: Word32, high: Word32)
    requires v == high * 0x1_0000_0000 + low
    ensures v / 0x1_0000 % 0x100 == low / 0x1_0000 % 0x100
  {
    assert v / 0x1_0000 == high * 0x1_0000 + low / 0x1_0000;
  }

  lemma FourthByte(v: nat, low: Word32, high: Word32)
    requires v == high * 0x1_0000_0000 + low
    ensures v / 0x100_0000 % 0x100 == low / 0x100_0000
  {
    assert v / 0x100_0000 == high * 0x100 + low / 0x100_0000;
  }

  lemma HighHalf(v: nat, low: Word32, high: Word32)
    requires v == high * 0x1_0000_0000 + low
    ensures Low8(v)[4] == Low4(high)[0] && Low8(v)[5] == Low4(high)[1]
    ensures Low8(v)[6] == Low4(high)[2] && Low8(v)[7] == Low4(high)[3]
  {
    assert v / 0x1_0000_0000 == high;
    assert v / 0x100_0000_0000 == high / 0x100;
    assert v / 0x1_0000_0000_0000 == high / 0x1_0000;
    assert v / 0x100_0000_0000_0000 == high / 0x100_0000;
  }

  /** The eight bytes of the length stand for it: the low word comes first. */
  lemma WordsOfLow8(low: Word32, high: Word32)
    ensures var bytes := Low8(high * 0x1_0000_0000 + low); Word(bytes[..4]) == low && Word(bytes[4..]) == high
  {
    var v := high * 0x1_0000_0000 + low;
    LowHalf(v, low, high);
    HighHalf(v, low, high);
    WordOfLow4(low);
    WordOfLow4(high);
    SameBytes(Low8(v), Low4(low), Low4(high));
  }

  lemma SameBytes(b: seq<Byte>, l: seq<Byte>, h: seq<Byte>)
    requires |b| == 8 && |l| == |h| == 4
    requires b[0] == l[0] && b[1] == l[1] && b[2] == l[2] && b[3] == l[3]
    requires b[4] == h[0] && b[5] == h[1] && b[6] == h[2] && b[7] == h[3]
    ensures b[..4] == l && b[4..] == h
  {
  }

  /** The initial value is the one of section 3.3 of RFC 1321, given there byte by byte. */
  lemma InitialBytes()
    ensures Low4(INITIAL.a) == [0x01, 0x23, 0x45, 0x67] && Low4(INITIAL.b) == [0x89, 0xAB, 0xCD, 0xEF]
    ensures Low4(INITIAL.c) == [0xFE, 0xDC, 0xBA, 0x98] && Low4(INITIAL.d) == [0x76, 0x54, 0x32, 0x10]
  {
  }
}
