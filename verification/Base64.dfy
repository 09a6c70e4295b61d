/**
  Base64 encoding as the agent writes it, a decoder after section 4 of RFC 4648, and process execution ids.
*/
module Base64 {

  type byte = x: int | 0 <= x < 256
  type sextet = x: int | 0 <= x < 64

  datatype Option<T> = Some(value: T) | None

  const UPPER := "ABCDEFGHIJKLMNOPQRSTUVWXYZ"
  const LOWER := "abcdefghijklmnopqrstuvwxyz"
  const DIGITS := "0123456789"
  const ALPHABET: string := UPPER + LOWER + DIGITS + "+/"
  const PAD := '='

  // ----- encoding -----

  /** The four 6-bit values of three bytes. */
  function Sextets(b1: byte, b2: byte, b3: byte): (sextet, sextet, sextet, sextet) {
    (b1 / 4, b1 % 4 * 16 + b2 / 16, b2 % 16 * 4 + b3 / 64, b3 % 64)
  }

  /** Four values written in an alphabet; the last ones are padding when the group is short. */
  function Written(v: (sextet, sextet, sextet, sextet), size: nat, pad: char, alphabet: string): (r: string)
    requires 1 <= size <= 3 && |alphabet| == 64
    ensures |r| == 4
  {
    [alphabet[v.0], alphabet[v.1], if size == 1 then pad else alphabet[v.2], if size < 3 then pad else alphabet[v.3]]
  }

  /** The four characters of a group of one, two or three bytes. */
  function Quad(b1: byte, b2: byte, b3: byte, size: nat, pad: char, alphabet: string): (r: string)
    requires 1 <= size <= 3 && |alphabet| == 64
    ensures |r| == 4
  {
    Written(Sextets(b1, b2, b3), size, pad, alphabet)
  }

  function Encode(m: seq<byte>, pad: char, alphabet: string): string
    requires |alphabet| == 64
  {
    if m == [] then []
    else if |m| == 1 then Quad(m[0], 0, 0, 1, pad, alphabet)
    else if |m| == 2 then Quad(m[0], m[1], 0, 2, pad, alphabet)
    else Quad(m[0], m[1], m[2], 3, pad, alphabet) + Encode(m[3..], pad, alphabet)
  }

  /** istream::get. */
  function Get(m: seq<byte>, pos: nat): int {
    if pos < |m| then m[pos] else -1
  }

  lemma EncodeGroup(m: seq<byte>, pos: nat, pad: char, alphabet: string)
    requires |alphabet| == 64 && pos < |m|
    ensures var left := |m| - pos;
            Encode(m[pos..], pad, alphabet)
            == if left == 1 then Quad(m[pos], 0, 0, 1, pad, alphabet)
               else if left == 2 then Quad(m[pos], m[pos + 1], 0, 2, pad, alphabet)
               else Quad(m[pos], m[pos + 1], m[pos + 2], 3, pad, alphabet) + Encode(m[pos + 3..], pad, alphabet)
  {
    if |m| - pos >= 3 {
      assert m[pos..][3..] == m[pos + 3..];
    }
  }

  /** The read loop; bit operations on non-negative integers are written as division and remainder. */
  method Base64Encoding(m: seq<byte>, makeupChar: char, alphabet: string) returns (os: string)
    requires |alphabet| == 64
    ensures os == Encode(m, makeupChar, alphabet)
  {
    os := [];
    var pos: nat, eof := 0, false;
    var remain := 0;
    assert m[0..] == m;
    while !eof
      invariant pos <= |m| && (!eof ==> remain == 0)
      invariant if eof then os == Encode(m, makeupChar, alphabet)
                else os + Encode(m[pos..], makeupChar, alphabet) == Encode(m, makeupChar, alphabet)
      decreases !eof, |m| - pos
    {
      var byte1 := Get(m, pos);
      if byte1 < 0 {
        break;
      }
      EncodeGroup(m, pos, makeupChar, alphabet);
      var byte2, byte3 := Get(m, pos + 1), 0;
      if byte2 < 0 {
        byte2, remain, eof := 0, 1, true;
      } else {
        byte3 := Get(m, pos + 2);
        if byte3 < 0 {
          byte3, remain, eof := 0, 2, true;
        }
      }
      var quad := PutGroup(byte1, byte2, byte3, remain, makeupChar, alphabet);
      os := os + quad;
      if remain == 0 {
        pos := pos + 3;
      }
    }
  }

  /** What one round of the loop puts out; remain is 0 when all three bytes were read. */
  method PutGroup(byte1: byte, byte2: byte, byte3: byte, remain: nat, makeupChar: char, alphabet: string)
    returns (quad: string)
    requires |alphabet| == 64 && remain <= 2
    ensures quad == Quad(byte1, byte2, byte3, if remain == 0 then 3 else remain, makeupChar, alphabet)
  {
    var out0 := byte1 / 4;
    var out1 := byte1 % 4 * 16 + byte2 / 16;
    var out2 := byte2 % 16 * 4 + byte3 / 64;
    var out3 := byte3 % 64;
    if remain == 1 {
      quad := [alphabet[out0], alphabet[out1], makeupChar, makeupChar];
    } else if remain == 2 {
      quad := [alphabet[out0], alphabet[out1], alphabet[out2], makeupChar];
    } else {
      quad := [alphabet[out0], alphabet[out1], alphabet[out2], alphabet[out3]];
    }
  }

  method Base64Encode(m: seq<byte>) returns (s: string)
    ensures s == Encoded(m)
  {
    AlphabetSize();
    s := Base64Encoding(m, PAD, ALPHABET);
  }

  lemma AlphabetSize()
    ensures |ALPHABET| == 64
  {
  }

  function Encoded(m: seq<byte>): string {
    AlphabetSize();
    Encode(m, PAD, ALPHABET)
  }

  // ----- decoding -----

  /** The value of a character, from table 1 of RFC 4648. */
  function Value(c: char): Option<sextet> {
    if 'A' <= c <= 'Z' then Some(c as int - 'A' as int)
    else if 'a' <= c <= 'z' then Some(c as int - 'a' as int + 26)
    else if '0' <= c <= '9' then Some(c as int - '0' as int + 52)
    else if c == '+' then Some(62)
    else if c == '/' then Some(63)
    else None
  }

  /** The bytes of four values; the bits under padding must be zero. */
  function Bytes(v: (sextet, sextet, sextet, sextet), size: nat): Option<seq<byte>>
    requires 1 <= size <= 3
  {
    var b1: byte := v.0 * 4 + v.1 / 16;
    var b2: byte := v.1 % 16 * 16 + v.2 / 4;
    var b3: byte := v.2 % 4 * 64 + v.3;
    if size == 1 then (if v.1 % 16 == 0 then Some([b1]) else None)
    else if size == 2 then (if v.2 % 4 == 0 then Some([b1, b2]) else None)
    else Some([b1, b2, b3])
  }

  /** How many bytes a group of four characters stands for, and its values; padding may only stand at its end. */
  function Values(q: string, value: char -> Option<sextet>): Option<((sextet, sextet, sextet, sextet), nat)>
    requires |q| == 4
  {
    var size := if q[2] == PAD && q[3] == PAD then 1 else if q[3] == PAD then 2 else 3;
    if value(q[0]) == None || value(q[1]) == None || (size > 1 && value(q[2]) == None)
        || (size > 2 && value(q[3]) == None) then None
    else
      Some(((value(q[0]).value, value(q[1]).value,
             if size > 1 then value(q[2]).value else 0, if size > 2 then value(q[3]).value else 0), size))
  }

  function DecodeQuad(q: string, value: char -> Option<sextet>): Option<seq<byte>>
    requires |q| == 4
  {
    match Values(q, value)
    case None => None
    case Some((v, size)) => Bytes(v, size)
  }

  /** A decoder: groups of four, padding in the last one only. */
  function DecodeWith(s: string, value: char -> Option<sextet>): Option<seq<byte>> {
    if s == [] then Some([])
    else if |s| < 4 then None
    else
      match DecodeQuad(s[..4], value)
      case None => None
      case Some(g) =>
        if |s| == 4 then Some(g)
        else if |g| < 3 then None
        else
          match DecodeWith(s[4..], value)
          case None => None
          case Some(rest) => Some(g + rest)
  }

  function Decode(s: string): Option<seq<byte>> {
    DecodeWith(s, Value)
  }

  // ----- each undoes the other -----

  lemma UpperAt(v: nat)
    requires v < 26
    ensures UPPER[v] as int == 'A' as int + v
  {
  }

  lemma LowerAt(v: nat)
    requires v < 26
    ensures LOWER[v] as int == 'a' as int + v
  {
  }

  lemma AlphabetAt(v: nat)
    requires v < 64
    ensures |ALPHABET| == 64 && Value(ALPHABET[v]) == Some(v)
  {
    if v < 26 {
      UpperAt(v);
      assert ALPHABET[v] == UPPER[v];
    } else if v < 52 {
      LowerAt(v - 26);
      assert ALPHABET[v] == LOWER[v - 26];
    } else if v < 62 {
      assert ALPHABET[v] == DIGITS[v - 52];
    } else {
      assert ALPHABET[v] == "+/"[v - 62];
    }
  }

  /** Writing with the alphabet and reading with the table undo each other, and padding has no value. */
  ghost predicate Match(alphabet: string, value: char -> Option<sextet>) {
    && |alphabet| == 64 && value(PAD) == None
    && (forall v :: 0 <= v < 64 ==> value(alphabet[v]) == Some(v))
    && (forall c :: value(c).Some? ==> alphabet[value(c).value] == c)
  }

  lemma ValueInjective(c: char, d: char)
    requires Value(c).Some? && Value(c) == Value(d)
    ensures c == d
  {
  }

  lemma AlphabetMatches()
    ensures Match(ALPHABET, Value)
  {
    AlphabetSize();
    forall v | 0 <= v < 64
      ensures Value(ALPHABET[v]) == Some(v)
    {
      AlphabetAt(v);
    }
    forall c | Value(c).Some?
      ensures ALPHABET[Value(c).value] == c
    {
      AlphabetAt(Value(c).value);
      ValueInjective(c, ALPHABET[Value(c).value]);
    }
  }

  /** The values under padding are not written. */
  function Masked(v: (sextet, sextet, sextet, sextet), size: nat): (sextet, sextet, sextet, sextet) {
    (v.0, v.1, if size > 1 then v.2 else 0, if size > 2 then v.3 else 0)
  }

  /** Reading what was written. */
  lemma WrittenValues(v: (sextet, sextet, sextet, sextet), size: nat, alphabet: string, value: char -> Option<sextet>)
    requires 1 <= size <= 3 && Match(alphabet, value)
    ensures Values(Written(v, size, PAD, alphabet), value) == Some((Masked(v, size), size))
  {
    assert value(alphabet[v.2]) == Some(v.2) && value(alphabet[v.3]) == Some(v.3);
  }

  /** Writing what was read. */
  lemma ValuesWritten(q: string, alphabet: string, value: char -> Option<sextet>)
    requires |q| == 4 && Match(alphabet, value) && Values(q, value).Some?
    ensures var (v, size) := Values(q, value).value;
            1 <= size <= 3 && Written(v, size, PAD, alphabet) == q && v == Masked(v, size)
  {
  }

  lemma JoinFirst(b1: byte, b2: byte)
    ensures var v := b1 % 4 * 16 + b2 / 16; v / 16 == b1 % 4 && v % 16 == b2 / 16
  {
  }

  lemma JoinSecond(b2: byte, b3: byte)
    ensures var v := b2 % 16 * 4 + b3 / 64; v / 4 == b2 % 16 && v % 4 == b3 / 64
  {
  }

  /** The 6-bit values give the bytes back. */
  lemma BytesOfSextets(b1: byte, b2: byte, b3: byte, size: nat)
    requires 1 <= size <= 3 && (size < 3 ==> b3 == 0) && (size < 2 ==> b2 == 0)
    ensures Bytes(Masked(Sextets(b1, b2, b3), size), size) == Some(Group(b1, b2, b3, size))
  {
    JoinFirst(b1, b2);
    JoinSecond(b2, b3);
  }

  function ByteOr0(g: seq<byte>, i: nat): byte {
    if i < |g| then g[i] else 0
  }

  lemma SplitFirst(v0: sextet, v1: sextet)
    ensures var b := v0 * 4 + v1 / 16; b / 4 == v0 && b % 4 * 16 == v1 - v1 % 16
  {
  }

  lemma SplitSecond(v1: sextet, v2: sextet)
    ensures var b := v1 % 16 * 16 + v2 / 4; b / 16 == v1 % 16 && b % 16 * 4 == v2 - v2 % 4
  {
  }

  lemma SplitThird(v2: sextet, v3: sextet)
    ensures var b := v2 % 4 * 64 + v3; b / 64 == v2 % 4 && b % 64 == v3
  {
  }

  /** The bytes give the 6-bit values back. */
  lemma SextetsOfBytes(v: (sextet, sextet, sextet, sextet), size: nat)
    requires 1 <= size <= 3 && v == Masked(v, size) && Bytes(v, size).Some?
    ensures var g := Bytes(v, size).value; |g| == size && Sextets(ByteOr0(g, 0), ByteOr0(g, 1), ByteOr0(g, 2)) == v
  {
    SplitFirst(v.0, v.1);
    SplitSecond(v.1, v.2);
    SplitThird(v.2, v.3);
  }

  function Group(b1: byte, b2: byte, b3: byte, size: nat): seq<byte> {
    if size == 1 then [b1] else if size == 2 then [b1, b2] else [b1, b2, b3]
  }

  lemma PaddedQuadDecodes(b1: byte, b2: byte, b3: byte, size: nat, alphabet: string, value: char -> Option<sextet>)
    requires 1 <= size <= 3 && (size < 3 ==> b3 == 0) && (size < 2 ==> b2 == 0) && Match(alphabet, value)
    ensures DecodeQuad(Quad(b1, b2, b3, size, PAD, alphabet), value) == Some(Group(b1, b2, b3, size))
  {
    WrittenValues(Sextets(b1, b2, b3), size, alphabet, value);
    BytesOfSextets(b1, b2, b3, size);
  }

  lemma QuadDecodes(g: seq<byte>, alphabet: string, value: char -> Option<sextet>)
    requires 1 <= |g| <= 3 && Match(alphabet, value)
    ensures DecodeQuad(Quad(ByteOr0(g, 0), ByteOr0(g, 1), ByteOr0(g, 2), |g|, PAD, alphabet), value) == Some(g)
  {
    PaddedQuadDecodes(ByteOr0(g, 0), ByteOr0(g, 1), ByteOr0(g, 2), |g|, alphabet, value);
    assert g == Group(ByteOr0(g, 0), ByteOr0(g, 1), ByteOr0(g, 2), |g|);
  }

  lemma DecodeCons(q: string, rest: string, g: seq<byte>, m: seq<byte>, value: char -> Option<sextet>)
    requires |q| == 4 && DecodeQuad(q, value) == Some(g)
    requires if rest == [] then m == [] else |g| == 3 && DecodeWith(rest, value) == Some(m)
    ensures DecodeWith(q + rest, value) == Some(g + m)
  {
    assert (q + rest)[..4] == q && (q + rest)[4..] == rest;
    if rest == [] {
      assert g + m == g;
    }
  }

  lemma {:induction false} DecodeEncoding(m: seq<byte>, alphabet: string, value: char -> Option<sextet>)
    requires Match(alphabet, value)
    ensures DecodeWith(Encode(m, PAD, alphabet), value) == Some(m)
  {
    if 1 <= |m| <= 3 {
      EncodeOne(m, alphabet);
      QuadDecodes(m, alphabet, value);
      DecodeCons(Encode(m, PAD, alphabet), [], m, [], value);
    } else if |m| > 3 {
      var g, rest := m[..3], m[3..];
      DecodeEncoding(rest, alphabet, value);
      EncodeEmpty(rest, alphabet);
      QuadDecodes(g, alphabet, value);
      assert m == g + rest;
      EncodeCons(g, rest, alphabet);
      DecodeCons(Quad(g[0], g[1], g[2], 3, PAD, alphabet), Encode(rest, PAD, alphabet), g, rest, value);
    }
  }

  lemma EncodeEmpty(m: seq<byte>, alphabet: string)
    requires |alphabet| == 64
    ensures Encode(m, PAD, alphabet) == [] <==> m == []
  {
  }

  lemma {:induction false} EncodingLength(m: seq<byte>, alphabet: string)
    requires |alphabet| == 64
    ensures |Encode(m, PAD, alphabet)| == 4 * ((|m| + 2) / 3)
  {
    if |m| >= 3 {
      EncodingLength(m[3..], alphabet);
    }
  }

  /** The decoded bytes are what the four characters encode. */
  lemma QuadEncodes(q: string, alphabet: string, value: char -> Option<sextet>)
    requires |q| == 4 && Match(alphabet, value) && DecodeQuad(q, value).Some?
    ensures var g := DecodeQuad(q, value).value;
            1 <= |g| <= 3 && q == Quad(ByteOr0(g, 0), ByteOr0(g, 1), ByteOr0(g, 2), |g|, PAD, alphabet)
  {
    ValuesWritten(q, alphabet, value);
    var (v, size) := Values(q, value).value;
    SextetsOfBytes(v, size);
  }

  lemma EncodeOne(g: seq<byte>, alphabet: string)
    requires |alphabet| == 64 && 1 <= |g| <= 3
    ensures Encode(g, PAD, alphabet) == Quad(ByteOr0(g, 0), ByteOr0(g, 1), ByteOr0(g, 2), |g|, PAD, alphabet)
  {
    if |g| == 3 {
      assert g[3..] == [];
    }
  }

  lemma EncodeCons(g: seq<byte>, rest: seq<byte>, alphabet: string)
    requires |alphabet| == 64 && |g| == 3
    ensures Encode(g + rest, PAD, alphabet) == Quad(g[0], g[1], g[2], 3, PAD, alphabet) + Encode(rest, PAD, alphabet)
  {
    var m := g + rest;
    assert m[3..] == rest && m[0] == g[0] && m[1] == g[1] && m[2] == g[2];
  }

  lemma {:induction false} EncodeDecoded(s: string, alphabet: string, value: char -> Option<sextet>)
    requires Match(alphabet, value) && DecodeWith(s, value).Some?
    ensures Encode(DecodeWith(s, value).value, PAD, alphabet) == s
    decreases |s|
  {
    if s != [] {
      QuadEncodes(s[..4], alphabet, value);
      var g := DecodeQuad(s[..4], value).value;
      if |s| == 4 {
        EncodeOne(g, alphabet);
        assert s == s[..4];
      } else {
        EncodeDecoded(s[4..], alphabet, value);
        EncodeCons(g, DecodeWith(s[4..], value).value, alphabet);
        assert s == s[..4] + s[4..];
      }
    }
  }

  lemma DecodeEncode(m: seq<byte>)
    ensures Decode(Encoded(m)) == Some(m)
  {
    AlphabetMatches();
    DecodeEncoding(m, ALPHABET, Value);
  }

  lemma EncodedLength(m: seq<byte>)
    ensures |Encoded(m)| == 4 * ((|m| + 2) / 3)
  {
    AlphabetSize();
    EncodingLength(m, ALPHABET);
  }

  /** A text decodes to a message exactly when it is that message's encoding. */
  lemma DecodeExactly(s: string, m: seq<byte>)
    ensures Decode(s) == Some(m) <==> s == Encoded(m)
  {
    DecodeEncode(m);
    if Decode(s).Some? {
      AlphabetMatches();
      EncodeDecoded(s, ALPHABET, Value);
    }
  }

  /** How many characters of padding end the encoding of a message. */
  function Padding(m: seq<byte>): nat {
    if |m| % 3 == 1 then 2 else if |m| % 3 == 2 then 1 else 0
  }

  lemma QuadPadding(b1: byte, b2: byte, b3: byte, size: nat, alphabet: string, i: nat)
    requires 1 <= size <= 3 && i < 4 && |alphabet| == 64 && '=' !in alphabet
    ensures Quad(b1, b2, b3, size, '=', alphabet)[i] == '=' <==> i > size
  {
  }

  /** The first group of a longer message has no padding, and the rest is encoded on its own. */
  lemma {:induction false} PaddingOf(m: seq<byte>, alphabet: string, i: nat)
    requires |alphabet| == 64 && '=' !in alphabet && i < |Encode(m, '=', alphabet)|
    ensures Encode(m, '=', alphabet)[i] == '=' <==> i >= |Encode(m, '=', alphabet)| - Padding(m)
    decreases |m|
  {
    if |m| <= 2 {
      QuadPadding(ByteOr0(m, 0), ByteOr0(m, 1), 0, |m|, alphabet, i);
    } else {
      var quad, rest := Quad(m[0], m[1], m[2], 3, '=', alphabet), Encode(m[3..], '=', alphabet);
      assert Padding(m[3..]) == Padding(m);
      EncodingLength(m[3..], alphabet);
      if i < 4 {
        QuadPadding(m[0], m[1], m[2], 3, alphabet, i);
      } else {
        PaddingOf(m[3..], alphabet, i - 4);
      }
    }
  }

  lemma AlphabetHasNoPad()
    ensures |ALPHABET| == 64 && '=' !in ALPHABET
  {
    AlphabetSize();
    forall v | 0 <= v < 64
      ensures ALPHABET[v] != '='
    {
      AlphabetAt(v);
    }
  }

  /** The encoding ends in two '=' when one byte is left over, in one when two are, and has none elsewhere. */
  lemma PaddingAtTheEnd(m: seq<byte>, i: nat)
    requires i < |Encoded(m)|
    ensures Encoded(m)[i] == '=' <==> i >= |Encoded(m)| - Padding(m)
  {
    AlphabetHasNoPad();
    PaddingOf(m, ALPHABET, i);
  }

  // ----- execution ids -----

  const COLON: byte := 58

  /** std::to_string of an unsigned number. */
  function Decimal(n: nat): (d: seq<byte>)
    ensures d != []
  {
    if n < 10 then [48 + n] else Decimal(n / 10) + [48 + n % 10]
  }

  lemma {:induction false} DecimalHasNoColon(n: nat)
    ensures COLON !in Decimal(n)
  {
    if n >= 10 {
      DecimalHasNoColon(n / 10);
    }
  }

  function ReadDecimal(d: seq<byte>): int {
    if d == [] then 0 else ReadDecimal(d[..|d| - 1]) * 10 + (d[|d| - 1] as int - 48)
  }

  lemma {:induction false} ReadsBack(n: nat)
    ensures ReadDecimal(Decimal(n)) == n
  {
    var d := Decimal(n);
    if n < 10 {
      assert d[..0] == [];
    } else {
      ReadsBack(n / 10);
      assert d[..|d| - 1] == Decimal(n / 10);
    }
  }

  function ExecText(hostname: seq<byte>, pid: nat, ktime: nat): seq<byte> {
    hostname + [COLON] + Decimal(ktime) + [COLON] + Decimal(pid)
  }

  method GenerateExecId(hostname: seq<byte>, pid: nat, ktime: nat) returns (id: string)
    requires pid < 0x1_0000_0000 && ktime < 0x1_0000_0000_0000_0000
    ensures id == Encoded(ExecText(hostname, pid, ktime))
  {
    var execid := hostname;
    execid := execid + [COLON] + Decimal(ktime) + [COLON] + Decimal(pid);
    id := Base64Encode(execid);
  }

  lemma LastColon(a: seq<byte>, d: seq<byte>)
    requires COLON !in d
    ensures var s := a + [COLON] + d; s[|a|] == COLON && forall i :: |a| < i < |s| ==> s[i] != COLON
  {
  }

  /** The last colon separates the last field, whatever stands before it. */
  lemma LastField(a: seq<byte>, d: seq<byte>, a': seq<byte>, d': seq<byte>)
    requires COLON !in d && COLON !in d' && a + [COLON] + d == a' + [COLON] + d'
    ensures a == a' && d == d'
  {
    LastColon(a, d);
    LastColon(a', d');
    var s := a + [COLON] + d;
    assert a == s[..|a|] && d == s[|a| + 1..];
    assert a' == s[..|a'|] && d' == s[|a'| + 1..];
  }

  /** Execution ids tell processes apart, also when host names contain colons. */
  lemma ExecIdInjective(host: seq<byte>, pid: nat, ktime: nat, host': seq<byte>, pid': nat, ktime': nat)
    requires Encoded(ExecText(host, pid, ktime)) == Encoded(ExecText(host', pid', ktime'))
    ensures host == host' && pid == pid' && ktime == ktime'
  {
    DecodeEncode(ExecText(host, pid, ktime));
    DecodeEncode(ExecText(host', pid', ktime'));
    DecimalHasNoColon(pid);
    DecimalHasNoColon(pid');
    DecimalHasNoColon(ktime);
    DecimalHasNoColon(ktime');
    LastField(host + [COLON] + Decimal(ktime), Decimal(pid), host' + [COLON] + Decimal(ktime'), Decimal(pid'));
    LastField(host, Decimal(ktime), host', Decimal(ktime'));
    ReadsBack(pid);
    ReadsBack(pid');
    ReadsBack(ktime);
    ReadsBack(ktime');
  }

  /** The place of the last colon, or -1. */
  function LastColonIn(s: seq<byte>): (i: int)
    ensures -1 <= i < |s|
  {
    if s == [] then -1 else if s[|s| - 1] == ':' as int then |s| - 1 else LastColonIn(s[..|s| - 1])
  }

  lemma {:induction false} LastColonFound(a: seq<byte>, d: seq<byte>)
    requires COLON !in d
    ensures LastColonIn(a + [COLON] + d) == |a|
  {
    var s := a + [COLON] + d;
    if d == [] {
      assert s == a + [COLON];
    } else {
      assert s[..|s| - 1] == a + [COLON] + d[..|d| - 1];
      LastColonFound(a, d[..|d| - 1]);
    }
  }

  datatype ExecId = ExecId(hostname: seq<byte>, ktime: int, pid: int)

  /** What a reader makes of an id: the host name up to the last colon but one, then the start time, then the pid. */
  function ReadExecId(id: string): Option<ExecId> {
    match Decode(id)
    case None => None
    case Some(text) =>
      var last := LastColonIn(text);
      if last < 0 then None
      else
        var head := text[..last];
        var first := LastColonIn(head);
        if first < 0 then None
        else Some(ExecId(head[..first], ReadDecimal(head[first + 1..]), ReadDecimal(text[last + 1..])))
  }

  /** The three fields of an id read back. */
  lemma ExecIdReadsBack(hostname: seq<byte>, pid: nat, ktime: nat)
    ensures ReadExecId(Encoded(ExecText(hostname, pid, ktime))) == Some(ExecId(hostname, ktime, pid))
  {
    var text := ExecText(hostname, pid, ktime);
    var head := hostname + [COLON] + Decimal(ktime);
    DecodeEncode(text);
    DecimalHasNoColon(pid);
    DecimalHasNoColon(ktime);
    LastColonFound(head, Decimal(pid));
    LastColonFound(hostname, Decimal(ktime));
    assert text[..|head|] == head && text[|head| + 1..] == Decimal(pid);
    assert head[..|hostname|] == hostname && head[|hostname| + 1..] == Decimal(ktime);
    ReadsBack(pid);
    ReadsBack(ktime);
  }
}
