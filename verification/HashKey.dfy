/**
  GenerateHashKey: spreads keys over buckets by overwriting the leading bits of a hexadecimal base key
  with the bucket index.  Shifts and masks of size_t are written as division, multiplication and
  remainder by powers of two.
*/
module HashKey {
  import opened Modular

  const WORD_BITS: nat := 64

  /** Shifts of an unbounded value; size_t cuts the left shift to its low bits. */
  function Shl(v: nat, n: nat): nat {
    v * Pow2(n)
  }

  function Shr(v: nat, n: nat): nat {
    DivNat(v, Pow2(n));
    v / Pow2(n)
  }

  // ----- hexadecimal -----

  predicate IsHex(c: char) {
    '0' <= c <= '9' || 'A' <= c <= 'F'
  }

  predicate AllHex(s: string) {
    forall i :: 0 <= i < |s| ==> IsHex(s[i])
  }

  function HexToVal(c: char): (v: nat)
    requires IsHex(c)
    ensures v < 16
  {
    if c >= 'A' then 10 + (c - 'A') as int else (c - '0') as int
  }

  function ValToHex(v: nat): (c: char)
    requires v < 16
    ensures IsHex(c) && HexToVal(c) == v
  {
    if v < 10 then '0' + v as char else 'A' + (v - 10) as char
  }

  /** The number a hexadecimal string stands for. */
  function Value(s: string): nat
    requires AllHex(s)
  {
    if s == [] then 0 else 16 * Value(s[..|s| - 1]) + HexToVal(s[|s| - 1])
  }

  lemma Pow2Step4(n: nat)
    ensures Pow2(n + 4) == 16 * Pow2(n)
  {
    assert Pow2(n + 4) == 2 * Pow2(n + 3);
    assert Pow2(n + 2) == 2 * Pow2(n + 1);
  }

  lemma {:induction false} ValueAppend(a: string, b: string)
    requires AllHex(a) && AllHex(b)
    ensures AllHex(a + b) && Value(a + b) == Value(a) * Pow2(4 * |b|) + Value(b)
  {
    if b == [] {
      assert a + b == a;
    } else {
      var b' := b[..|b| - 1];
      ValueAppend(a, b');
      assert (a + b)[..|a + b| - 1] == a + b';
      Pow2Step4(4 * |b'|);
      OneMoreDigit(Value(a), Pow2(4 * |b'|), Value(b'), HexToVal(b[|b| - 1]));
    }
  }

  lemma OneMoreDigit(x: nat, p: nat, y: nat, h: nat)
    ensures 16 * (x * p + y) + h == x * (16 * p) + (16 * y + h)
  {
    Regroup(x, 16, p);
    Regroup(16, x, p);
    assert x * 16 == 16 * x;
  }

  lemma {:induction false} ValueBound(s: string)
    requires AllHex(s)
    ensures Value(s) < Pow2(4 * |s|)
  {
    if s != [] {
      ValueBound(s[..|s| - 1]);
      Pow2Step4(4 * (|s| - 1));
    }
  }

  // ----- bit size -----

  function BitSize(v: nat): (b: nat)
    ensures b >= 1
  {
    if v <= 1 then 1 else 1 + BitSize(v / 2)
  }

  /** The bit size is the least number of bits that can hold the value, and at least one. */
  lemma {:induction false} BitSizeBounds(v: nat)
    ensures v < Pow2(BitSize(v))
    ensures v >= 2 ==> Pow2(BitSize(v) - 1) <= v
  {
    if v > 1 {
      BitSizeBounds(v / 2);
    }
  }

  lemma {:induction false} BitSizeMonotone(v: nat, n: nat)
    requires v < Pow2(n) && n >= 1
    ensures BitSize(v) <= n
  {
    if v > 1 {
      BitSizeMonotone(v / 2, n - 1);
    }
  }

  method CountBitSize(maxVal: nat) returns (count: nat)
    ensures count == BitSize(maxVal)
  {
    if maxVal == 0 {
      return 1;
    }
    var v := maxVal;
    count := 0;
    while v != 0
      invariant v != 0 ==> count + BitSize(v) == BitSize(maxVal)
      invariant v == 0 ==> count == BitSize(maxVal)
    {
      count := count + 1;
      v := v / 2;
    }
  }

  // ----- the key -----

  /** Bits taken by the bucket index; bucketNum - 1 wraps round at zero. */
  function BucketBits(bucketNum: nat): (b: nat)
    ensures b >= 1
  {
    BitSize((bucketNum - 1) % Pow2(WORD_BITS))
  }

  function HexCount(bits: nat): (r: nat)
    ensures bits <= 4 * r < bits + 4
  {
    bits / 4 + if bits % 4 != 0 then 1 else 0
  }

  /** The leading bits of the base replaced by the bucket index. */
  function KeyValue(base: string, bucketIndex: nat, bucketNum: nat): nat
    requires AllHex(base) && 4 * |base| >= BucketBits(bucketNum)
  {
    var rest := Pow2(4 * |base| - BucketBits(bucketNum));
    (bucketIndex % Pow2(BucketBits(bucketNum))) * rest + Value(base) % rest
  }

  /** The low b + s bits of the shifted index are the index modulo 2^b, shifted. */
  lemma LowBits(index: nat, b: nat, s: nat)
    requires b + s <= WORD_BITS
    ensures ((index * Pow2(s)) % Pow2(WORD_BITS)) % Pow2(b + s) == (index % Pow2(b)) * Pow2(s)
  {
    Pow2Add(b + s, WORD_BITS - (b + s));
    ModOfMod(index * Pow2(s), Pow2(b + s), Pow2(WORD_BITS - (b + s)));
    Pow2Add(b, s);
    ModScaled(index, Pow2(s), Pow2(b));
  }

  lemma SplitDigit(low: nat, p: nat)
    requires p > 0
    ensures low / p == 16 * (low / (p * 16)) + (low / p) % 16
  {
    var u, v := low / p, low % p;
    var r := p * (u % 16) + v;
    assert low == (p * 16) * (u / 16) + r by {
      Regroup(p, 16, u / 16);
      assert p * (16 * (u / 16) + u % 16) == p * (16 * (u / 16)) + p * (u % 16);
    }
    MulMonotone(p, u % 16, 15);
    DivModUnique(low, p * 16, u / 16, r);
  }

  /** One more hexadecimal digit of the low bits of v, most significant first. */
  lemma NextDigit(v: nat, total: nat, move: nat)
    requires move + 4 <= total
    ensures (v % Pow2(total)) / Pow2(move) == 16 * ((v % Pow2(total)) / Pow2(move + 4)) + (v / Pow2(move)) % 16
  {
    var p, m := Pow2(move), Pow2(total - move - 4);
    assert Pow2(total) == p * (16 * m) by {
      Pow2Add(move, total - move);
      Pow2Step4(total - move - 4);
    }
    Pow2Step4(move);
    DigitOfLow(v, p, m);
  }

  lemma DigitOfLow(v: nat, p: nat, m: nat)
    requires p > 0 && m > 0
    ensures p * (16 * m) > 0
    ensures (v % (p * (16 * m))) / p == 16 * ((v % (p * (16 * m))) / (16 * p)) + (v / p) % 16
  {
    DivOfMod(v, p, 16 * m);
    ModOfMod(v / p, 16, m);
    SplitDigit(v % (p * (16 * m)), p);
  }

  /** Keeping the low s bits of a digit by shifting the others out and back. */
  lemma KeepLowBits(h: nat, s: nat)
    requires h < 16 && 1 <= s <= 3
    ensures Shr(Shl(h, 4 - s) % 16, 4 - s) == h % Pow2(s)
  {
    assert Pow2(1) == 2 && Pow2(2) == 4 && Pow2(3) == 8;
    if s == 1 {
      assert (h * 8) % 16 / 8 == h % 2;
    } else if s == 2 {
      assert (h * 4) % 16 / 4 == h % 4;
    } else {
      assert (h * 2) % 16 / 2 == h % 8;
    }
  }

  /** The low s bits of the last digit of the shifted index are free. */
  lemma LastDigitFree(index: nat, s: nat)
    requires 1 <= s <= 3
    ensures ((index * Pow2(s)) % Pow2(WORD_BITS)) % 16 % Pow2(s) == 0
  {
    Pow2Add(4, WORD_BITS - 4);
    Pow2Add(4 - s, s);
    assert Pow2(4) == 16;
    FreeBits(index, Pow2(s), Pow2(4 - s), Pow2(WORD_BITS - 4));
  }

  lemma FreeBits(index: nat, p: nat, q: nat, w: nat)
    requires p > 0 && q > 0 && w > 0 && q * p == 16
    ensures ((index * p) % (16 * w)) % 16 % p == 0
  {
    ModOfMod(index * p, 16, w);
    ModScaled(index, p, q);
    MultipleIsFree(index % q, p);
  }

  lemma MultipleIsFree(k: nat, p: nat)
    requires p > 0
    ensures (k * p) % p == 0
  {
    assert k * p == p * k;
    DivModUnique(k * p, p, k, 0);
  }

  lemma LeadingBits(top: nat, p: nat, kept: nat, v: nat, x: nat, tail: nat)
    requires p > 0 && tail < x && v % p == kept
    ensures p * x > 0 && (top * p + kept) * x + tail == top * (p * x) + (v * x + tail) % (p * x)
  {
    ModWithTail(v, p, x, tail);
    Distribute(top * p, kept, x);
    Regroup(top, p, x);
  }

  lemma LowBitsOfValue(s: string, bits: nat)
    requires AllHex(s) && s != [] && bits < 4
    ensures Value(s) % Pow2(bits) == HexToVal(s[|s| - 1]) % Pow2(bits)
  {
    var v, h := Value(s[..|s| - 1]), HexToVal(s[|s| - 1]);
    assert Pow2(bits) * Pow2(4 - bits) == 16 by {
      Pow2Add(bits, 4 - bits);
      assert Pow2(4) == 16;
    }
    Regroup(Pow2(bits), Pow2(4 - bits), v);
    ModShift(h, Pow2(4 - bits) * v, Pow2(bits));
  }

  lemma ValueCut(s: string, r: nat)
    requires AllHex(s) && r <= |s|
    ensures Value(s) == Value(s[..r]) * Pow2(4 * (|s| - r)) + Value(s[r..])
  {
    var a, b := s[..r], s[r..];
    assert s == a + b && |b| == |s| - r;
    ValueAppend(a, b);
  }

  /** Replacing the first r digits of the base, of which the last keeps its low s bits. */
  lemma OverwrittenValue(base: string, key: string, r: nat, b: nat, s: nat, index: nat)
    requires AllHex(base) && AllHex(key) && |key| == |base| && 1 <= r <= |base|
    requires 4 * r == b + s && s < 4 && key[r..] == base[r..]
    requires Value(key[..r]) == (index % Pow2(b)) * Pow2(s) + HexToVal(base[r - 1]) % Pow2(s)
    ensures var rest := Pow2(4 * |base| - b); Value(key) == (index % Pow2(b)) * rest + Value(base) % rest
  {
    var n := 4 * (|base| - r);
    ValueCut(key, r);
    ValueCut(base, r);
    ValueBound(base[r..]);
    LowBitsOfValue(base[..r], s);
    LeadingBits(index % Pow2(b), Pow2(s), HexToVal(base[r - 1]) % Pow2(s), Value(base[..r]), Pow2(n), Value(base[r..]));
    Pow2Add(s, n);
  }

  lemma PrefixValue(before: string, idx: nat, c: char)
    requires AllHex(before) && idx < |before| && IsHex(c)
    ensures AllHex(before[idx := c])
    ensures Value(before[idx := c][..idx + 1]) == 16 * Value(before[..idx]) + HexToVal(c)
  {
    assert before[idx := c][..idx + 1][..idx] == before[..idx];
  }

  /** The digit written at position idx: bits of the index, then bits kept from the base. */
  function NewDigit(baseVal: nat, old_: char, idx: nat, bitSize: nat): nat
    requires IsHex(old_) && 4 * idx < bitSize
  {
    var val := Shr(baseVal, (HexCount(bitSize) - idx - 1) * 4) % 16;
    var maskBitSize := bitSize - idx * 4;
    if maskBitSize >= 4 then val else val + Shr(Shl(HexToVal(old_), maskBitSize) % 16, maskBitSize)
  }

  lemma LastDigit(index: nat, h: nat, s: nat)
    requires h < 16 && 1 <= s <= 3
    ensures var val := ((index * Pow2(s)) % Pow2(WORD_BITS)) % 16;
            val + Shr(Shl(h, 4 - s) % 16, 4 - s) == val + h % Pow2(s) < 16
  {
    KeepLowBits(h, s);
    LastDigitFree(index, s);
    NoCarry(((index * Pow2(s)) % Pow2(WORD_BITS)) % 16, h % Pow2(s), s);
  }

  /** What the first idx of r digits written for the low bits are worth; the last also keeps bits of h. */
  function Written(low: nat, idx: nat, r: nat, s: nat, h: nat): nat
    requires idx <= r
  {
    if idx < r then Shr(low, 4 * (r - idx)) else low + h % Pow2(s)
  }

  lemma InnerDigitValue(baseVal: nat, old_: char, idx: nat, bitSize: nat, h: nat)
    requires IsHex(old_) && idx + 1 < HexCount(bitSize)
    ensures var r, s := HexCount(bitSize), 4 * HexCount(bitSize) - bitSize;
            var low := baseVal % Pow2(4 * r);
            && 4 * idx < bitSize && NewDigit(baseVal, old_, idx, bitSize) < 16
            && 16 * Written(low, idx, r, s, h) + NewDigit(baseVal, old_, idx, bitSize) == Written(low, idx + 1, r, s, h)
  {
    var r := HexCount(bitSize);
    NextDigit(baseVal, 4 * r, (r - idx - 1) * 4);
  }

  /** The last digit when it holds index bits only. */
  lemma WholeLastDigit(old_: char, bitSize: nat, baseVal: nat)
    requires IsHex(old_) && 1 <= bitSize == 4 * HexCount(bitSize)
    ensures NewDigit(baseVal, old_, HexCount(bitSize) - 1, bitSize) == baseVal % 16
  {
    assert Pow2(0) == 1;
  }

  /** The last digit when it also keeps s bits of the base. */
  lemma SharedLastDigit(index: nat, old_: char, bitSize: nat, s: nat, baseVal: nat)
    requires IsHex(old_) && 1 <= bitSize <= WORD_BITS && s == 4 * HexCount(bitSize) - bitSize > 0
    requires baseVal == (index * Pow2(s)) % Pow2(WORD_BITS)
    ensures NewDigit(baseVal, old_, HexCount(bitSize) - 1, bitSize) == baseVal % 16 + HexToVal(old_) % Pow2(s) < 16
  {
    assert Pow2(0) == 1;
    LastDigit(index, HexToVal(old_), s);
  }

  lemma LastDigitValue(index: nat, old_: char, bitSize: nat, s: nat, baseVal: nat)
    requires IsHex(old_) && 1 <= bitSize <= WORD_BITS && s == 4 * HexCount(bitSize) - bitSize
    requires baseVal == (index * Pow2(s)) % Pow2(WORD_BITS)
    ensures var r := HexCount(bitSize);
            var low := baseVal % Pow2(4 * r);
            && r >= 1 && NewDigit(baseVal, old_, r - 1, bitSize) < 16
            && 16 * Written(low, r - 1, r, s, HexToVal(old_)) + NewDigit(baseVal, old_, r - 1, bitSize)
               == low + HexToVal(old_) % Pow2(s)
  {
    LowestDigit(baseVal, HexCount(bitSize));
    if s > 0 {
      SharedLastDigit(index, old_, bitSize, s, baseVal);
    } else {
      WholeLastDigit(old_, bitSize, baseVal);
      assert HexToVal(old_) % Pow2(0) == 0;
    }
  }

  lemma LowestDigit(v: nat, r: nat)
    requires r >= 1
    ensures var low := v % Pow2(4 * r); low == 16 * Shr(low, 4) + v % 16
  {
    NextDigit(v, 4 * r, 0);
    assert Pow2(0) == 1;
  }

  /** Each digit written makes the digits so far worth what they should be. */
  lemma DigitValue(index: nat, old_: char, idx: nat, bitSize: nat, s: nat, baseVal: nat, h: nat)
    requires IsHex(old_) && 1 <= bitSize <= WORD_BITS && s == 4 * HexCount(bitSize) - bitSize
    requires baseVal == (index * Pow2(s)) % Pow2(WORD_BITS)
    requires idx < HexCount(bitSize) && (idx + 1 == HexCount(bitSize) ==> h == HexToVal(old_))
    ensures var r := HexCount(bitSize);
            var low := baseVal % Pow2(4 * r);
            && NewDigit(baseVal, old_, idx, bitSize) < 16
            && 16 * Written(low, idx, r, s, h) + NewDigit(baseVal, old_, idx, bitSize) == Written(low, idx + 1, r, s, h)
  {
    if idx + 1 < HexCount(bitSize) {
      InnerDigitValue(baseVal, old_, idx, bitSize, h);
    } else {
      LastDigitValue(index, old_, bitSize, s, baseVal);
    }
  }

  lemma NothingWritten(v: nat, r: nat)
    ensures Shr(v % Pow2(4 * r), 4 * r) == 0
  {
    DivModUnique(v % Pow2(4 * r), Pow2(4 * r), 0, v % Pow2(4 * r));
  }

  lemma RestAfter(key: string, base: string, idx: nat, c: char)
    requires idx < |key| == |base| && key[idx..] == base[idx..]
    ensures key[idx := c][idx + 1..] == base[idx + 1..]
  {
    forall j | idx < j < |key|
      ensures key[idx := c][j] == base[j]
    {
      assert key[idx..][j - idx] == base[idx..][j - idx];
    }
  }

  /** The loop over the leading digits: together they are worth the low bits of baseVal plus the kept bits. */
  method WriteDigits(base: string, bitSize: nat, baseVal: nat, ghost index: nat, ghost s: nat) returns (key: string)
    requires AllHex(base) && 1 <= bitSize <= WORD_BITS && HexCount(bitSize) <= |base|
    requires s == 4 * HexCount(bitSize) - bitSize && baseVal == (index * Pow2(s)) % Pow2(WORD_BITS)
    ensures var r := HexCount(bitSize);
            && |key| == |base| && AllHex(key) && key[r..] == base[r..]
            && Value(key[..r]) == baseVal % Pow2(4 * r) + HexToVal(base[r - 1]) % Pow2(s)
  {
    var required := HexCount(bitSize);
    ghost var low, h := baseVal % Pow2(4 * required), HexToVal(base[required - 1]);
    key := base;
    NothingWritten(baseVal, required);
    for idx := 0 to required
      invariant |key| == |base| && AllHex(key) && key[idx..] == base[idx..]
      invariant Value(key[..idx]) == Written(low, idx, required, s, h)
    {
      assert key[idx] == base[idx];
      DigitValue(index, key[idx], idx, bitSize, s, baseVal, h);
      var c := ValToHex(NewDigit(baseVal, key[idx], idx, bitSize));
      PrefixValue(key, idx, c);
      RestAfter(key, base, idx, c);
      key := key[idx := c];
    }
  }

  /** The key has the length of the base, is hexadecimal, and carries the bucket index in its leading bits. */
  method GenerateHashKey(base: string, bucketIndex: nat, bucketNum: nat) returns (key: string)
    requires AllHex(base) && |base| >= HexCount(BucketBits(bucketNum))
    ensures |key| == |base| && AllHex(key)
    ensures Value(key) == KeyValue(base, bucketIndex, bucketNum)
  {
    var bitSize := CountBitSize((bucketNum - 1) % Pow2(WORD_BITS));
    BitsFitWord((bucketNum - 1) % Pow2(WORD_BITS));
    key := WriteKey(base, bucketIndex, bitSize);
  }

  lemma BitsFitWord(v: nat)
    requires v < Pow2(WORD_BITS)
    ensures 1 <= BitSize(v) <= WORD_BITS
  {
    BitSizeMonotone(v, WORD_BITS);
  }

  /** The key for an index that takes the given number of bits. */
  method WriteKey(base: string, bucketIndex: nat, bitSize: nat) returns (key: string)
    requires AllHex(base) && HexCount(bitSize) <= |base| && 1 <= bitSize <= WORD_BITS
    ensures |key| == |base| && AllHex(key)
    ensures var rest := Pow2(4 * |base| - bitSize);
            Value(key) == (bucketIndex % Pow2(bitSize)) * rest + Value(base) % rest
  {
    var shift := HexCount(bitSize) * 4 - bitSize;
    var baseVal := Shl(bucketIndex, shift) % Pow2(WORD_BITS);
    key := WriteDigits(base, bitSize, baseVal, bucketIndex, shift);
    KeyIsRight(base, key, bitSize, shift, bucketIndex);
  }

  /** The digits written are the leading bits of the key. */
  lemma KeyIsRight(base: string, key: string, b: nat, s: nat, index: nat)
    requires AllHex(base) && AllHex(key) && |key| == |base| && HexCount(b) <= |base| && 1 <= b <= WORD_BITS
    requires s == 4 * HexCount(b) - b && key[HexCount(b)..] == base[HexCount(b)..]
    requires Value(key[..HexCount(b)])
             == ((index * Pow2(s)) % Pow2(WORD_BITS)) % Pow2(4 * HexCount(b))
                 + HexToVal(base[HexCount(b) - 1]) % Pow2(s)
    ensures var rest := Pow2(4 * |base| - b); Value(key) == (index % Pow2(b)) * rest + Value(base) % rest
  {
    var r := HexCount(b);
    assert 4 * r == b + s;
    LowBits(index, b, s);
    OverwrittenValue(base, key, r, b, s, index);
  }

  lemma NoCarry(val: nat, kept: nat, s: nat)
    requires val < 16 && 1 <= s <= 3 && val % Pow2(s) == 0 && kept < Pow2(s)
    ensures val + kept < 16
  {
    assert Pow2(1) == 2 && Pow2(2) == 4 && Pow2(3) == 8;
  }

  /** The bucket can be read back from a key, whatever the base was. */
  lemma BucketFromKey(base: string, bucketIndex: nat, bucketNum: nat)
    requires AllHex(base) && 4 * |base| >= BucketBits(bucketNum) && bucketIndex < bucketNum <= Pow2(WORD_BITS)
    ensures KeyValue(base, bucketIndex, bucketNum) / Pow2(4 * |base| - BucketBits(bucketNum)) == bucketIndex
  {
    var rest := Pow2(4 * |base| - BucketBits(bucketNum));
    IndexFits(bucketIndex, bucketNum);
    var kept := Value(base) % rest;
    assert bucketIndex * rest + kept == rest * bucketIndex + kept;
    DivModUnique(bucketIndex * rest + kept, rest, bucketIndex, kept);
  }

  lemma IndexFits(bucketIndex: nat, bucketNum: nat)
    requires bucketIndex < bucketNum <= Pow2(WORD_BITS)
    ensures bucketIndex % Pow2(BucketBits(bucketNum)) == bucketIndex
  {
    DivModUnique(bucketNum - 1, Pow2(WORD_BITS), 0, bucketNum - 1);
    BitSizeBounds(bucketNum - 1);
    DivModUnique(bucketIndex, Pow2(BucketBits(bucketNum)), 0, bucketIndex);
  }

  lemma SeparateBlocks(i: nat, j: nat, m: nat, x: nat, y: nat)
    requires i < j && x < m
    ensures i * m + x < j * m + y
  {
    MulMonotone(m, i + 1, j);
    Distribute(i, 1, m);
  }

  /** Different buckets occupy disjoint ranges of keys, in the order of their indices. */
  lemma BucketsOrdered(base: string, other: string, i: nat, j: nat, bucketNum: nat)
    requires AllHex(base) && AllHex(other) && |base| == |other| && 4 * |base| >= BucketBits(bucketNum)
    requires i < j < bucketNum <= Pow2(WORD_BITS)
    ensures KeyValue(base, i, bucketNum) < KeyValue(other, j, bucketNum)
  {
    var rest := Pow2(4 * |base| - BucketBits(bucketNum));
    IndexFits(i, bucketNum);
    IndexFits(j, bucketNum);
    SeparateBlocks(i, j, rest, Value(base) % rest, Value(other) % rest);
  }

  // ----- keys as strings -----

  /** Digits are ordered as the characters are. */
  lemma DigitsInOrder(c: char, d: char)
    requires IsHex(c) && IsHex(d)
    ensures c < d <==> HexToVal(c) < HexToVal(d)
  {
  }

  /** The first string comes before the second of the same length: at their first difference it has the smaller
      character. */
  ghost predicate Below(a: string, b: string) {
    exists k :: 0 <= k < |a| && k < |b| && a[..k] == b[..k] && a[k] < b[k]
  }

  /** What comes first outweighs all that follows. */
  lemma AppendOrder(p: string, r: string, q: string, s: string)
    requires AllHex(p) && AllHex(r) && AllHex(q) && AllHex(s) && |r| == |s| && Value(p) < Value(q)
    ensures AllHex(p + r) && AllHex(q + s) && Value(p + r) < Value(q + s)
  {
    ValueAppend(p, r);
    ValueAppend(q, s);
    ValueBound(r);
    SeparateBlocks(Value(p), Value(q), Pow2(4 * |r|), Value(r), Value(s));
  }

  lemma DigitOrder(a: string, b: string, k: nat)
    requires AllHex(a) && AllHex(b) && k < |a| && k < |b| && a[..k] == b[..k] && a[k] < b[k]
    ensures AllHex(a[..k + 1]) && AllHex(b[..k + 1]) && Value(a[..k + 1]) < Value(b[..k + 1])
  {
    DigitsInOrder(a[k], b[k]);
    assert a[..k + 1][..k] == a[..k] && b[..k + 1][..k] == b[..k];
  }

  lemma BelowMeansLess(a: string, b: string)
    requires AllHex(a) && AllHex(b) && |a| == |b| && Below(a, b)
    ensures Value(a) < Value(b)
  {
    var k :| 0 <= k < |a| && a[..k] == b[..k] && a[k] < b[k];
    DigitOrder(a, b, k);
    assert a == a[..k + 1] + a[k + 1..] && b == b[..k + 1] + b[k + 1..];
    AppendOrder(a[..k + 1], a[k + 1..], b[..k + 1], b[k + 1..]);
  }

  lemma {:induction false} SomeDifference(a: string, b: string, k: nat)
    requires |a| == |b| && a != b && k <= |a| && a[..k] == b[..k]
    ensures Below(a, b) || Below(b, a)
    decreases |a| - k
  {
    assert a == a[..k] + a[k..] && b == b[..k] + b[k..];
    if a[k] == b[k] {
      assert a[..k + 1] == a[..k] + [a[k]] && b[..k + 1] == b[..k] + [b[k]];
      SomeDifference(a, b, k + 1);
    }
  }

  /** Keys of one length are ordered as strings exactly as their values are. */
  lemma StringOrder(a: string, b: string)
    requires AllHex(a) && AllHex(b) && |a| == |b|
    ensures Below(a, b) <==> Value(a) < Value(b)
  {
    if Below(a, b) {
      BelowMeansLess(a, b);
    } else if a != b {
      SomeDifference(a, b, 0);
      BelowMeansLess(b, a);
    }
  }

  /** Whatever the bases, the keys of a bucket come before those of the next ones as strings. */
  method KeysOrdered(base: string, other: string, i: nat, j: nat, bucketNum: nat) returns (a: string, b: string)
    requires AllHex(base) && AllHex(other) && |base| == |other| && 4 * |base| >= BucketBits(bucketNum)
    requires i < j < bucketNum <= Pow2(WORD_BITS)
    ensures |a| == |b| == |base| && Below(a, b)
  {
    a := GenerateHashKey(base, i, bucketNum);
    b := GenerateHashKey(other, j, bucketNum);
    BucketsOrdered(base, other, i, j, bucketNum);
    StringOrder(a, b);
  }
}
