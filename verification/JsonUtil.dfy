/**
  The JSON compactor and the JSON checker.  Both scan once, with a quote flag, and skip what follows a
  backslash; here they are proved against one automaton that reads a character at a time.
*/
module JsonUtil {

  predicate Blank(c: char) {
    c == ' ' || c == '\n' || c == '\t'
  }

  /** What has been read so far: whether a quote is open, and whether the next character is escaped. */
  datatype Mode = Mode(inQuote: bool, escaped: bool)

  const OUTSIDE := Mode(false, false)

  function Next(m: Mode, c: char): Mode {
    if m.escaped then m.(escaped := false)
    else if c == '\\' then m.(escaped := true)
    else if c == '"' then m.(inQuote := !m.inQuote)
    else m
  }

  function ModeAfter(s: string, m: Mode): Mode {
    if s == [] then m else ModeAfter(s[1..], Next(m, s[0]))
  }

  // ----- compaction -----

  predicate Dropped(m: Mode, c: char) {
    m == OUTSIDE && Blank(c)
  }

  /** The text without the blanks that are neither quoted nor escaped. */
  function Compact(s: string, m: Mode): string {
    if s == [] then []
    else if Dropped(m, s[0]) then Compact(s[1..], m)
    else [s[0]] + Compact(s[1..], Next(m, s[0]))
  }

  /** Nothing in the text is left to be dropped. */
  predicate IsCompact(s: string, m: Mode) {
    forall i :: 0 <= i < |s| ==> !Dropped(ModeAfter(s[..i], m), s[i])
  }

  lemma IsCompactTail(s: string, m: Mode)
    requires s != []
    ensures IsCompact(s, m) <==> !Dropped(m, s[0]) && IsCompact(s[1..], Next(m, s[0]))
  {
    var rest := s[1..];
    assert s[..0] == [];
    forall i | 0 <= i < |rest|
      ensures ModeAfter(s[..i + 1], m) == ModeAfter(rest[..i], Next(m, s[0])) && s[i + 1] == rest[i]
    {
      assert s[..i + 1][1..] == rest[..i];
    }
    if !IsCompact(s, m) && !Dropped(m, s[0]) {
      var i :| 0 <= i < |s| && Dropped(ModeAfter(s[..i], m), s[i]);
      assert Dropped(ModeAfter(rest[..i - 1], Next(m, s[0])), rest[i - 1]);
    }
  }

  /** Compaction leaves nothing to drop. */
  lemma {:induction false} CompactIsCompact(s: string, m: Mode)
    ensures IsCompact(Compact(s, m), m)
  {
    if s != [] {
      if Dropped(m, s[0]) {
        CompactIsCompact(s[1..], m);
      } else {
        var r := Compact(s, m);
        CompactIsCompact(s[1..], Next(m, s[0]));
        assert r[0] == s[0] && r[1..] == Compact(s[1..], Next(m, s[0]));
        IsCompactTail(r, m);
      }
    }
  }

  /** A text is left as it is exactly when there is nothing to drop. */
  lemma {:induction false} CompactFixes(s: string, m: Mode)
    ensures Compact(s, m) == s <==> IsCompact(s, m)
  {
    if s != [] {
      IsCompactTail(s, m);
      if Dropped(m, s[0]) {
        CompactNotLonger(s[1..], m);
      } else {
        CompactFixes(s[1..], Next(m, s[0]));
        assert s == [s[0]] + s[1..];
      }
    }
  }

  lemma {:induction false} CompactNotLonger(s: string, m: Mode)
    ensures |Compact(s, m)| <= |s|
  {
    if s != [] {
      CompactNotLonger(s[1..], if Dropped(m, s[0]) then m else Next(m, s[0]));
    }
  }

  /** The text without its spaces, newlines and tabs. */
  function Others(s: string): string {
    if s == [] then []
    else if s[0] == ' ' || s[0] == '\n' || s[0] == '\t' then Others(s[1..])
    else [s[0]] + Others(s[1..])
  }

  /** Every other character is kept, in order. */
  lemma {:induction false} CompactKeepsOthers(s: string, m: Mode)
    ensures Others(Compact(s, m)) == Others(s)
  {
    if s != [] {
      if Dropped(m, s[0]) {
        CompactKeepsOthers(s[1..], m);
      } else {
        CompactKeepsOthers(s[1..], Next(m, s[0]));
        assert Compact(s, m)[1..] == Compact(s[1..], Next(m, s[0]));
      }
    }
  }

  /** Of a text outside quotes and without backslashes only the spaces, newlines and tabs go, and all of them. */
  lemma {:induction false} CompactOfPlain(s: string)
    requires '"' !in s && '\\' !in s
    ensures Compact(s, OUTSIDE) == Others(s)
  {
    if s != [] {
      CompactOfPlain(s[1..]);
    }
  }

  lemma CompactIdempotent(s: string)
    ensures Compact(Compact(s, OUTSIDE), OUTSIDE) == Compact(s, OUTSIDE)
  {
    CompactIsCompact(s, OUTSIDE);
    CompactFixes(Compact(s, OUTSIDE), OUTSIDE);
  }

  /** One round of the compacting loop: a blank is dropped, a pair of a backslash and a character is copied whole. */
  lemma CompactDrop(s: string, i: nat)
    requires i < |s| && Blank(s[i])
    ensures Compact(s[i..], OUTSIDE) == Compact(s[i + 1..], OUTSIDE)
  {
    assert s[i..][1..] == s[i + 1..];
  }

  lemma CompactCopy(s: string, i: nat, m: Mode, out: string)
    requires i < |s| && !Dropped(m, s[i])
    ensures out + Compact(s[i..], m) == (out + [s[i]]) + Compact(s[i + 1..], Next(m, s[i]))
  {
    assert s[i..][1..] == s[i + 1..];
  }

  lemma CompactEscape(s: string, i: nat, m: Mode, out: string)
    requires i + 1 < |s| && !m.escaped && s[i] == '\\'
    ensures out + Compact(s[i..], m) == (out + ['\\'] + [s[i + 1]]) + Compact(s[i + 2..], m)
  {
    CompactCopy(s, i, m, out);
    CompactCopy(s, i + 1, Next(m, s[i]), out + [s[i]]);
  }

  method CompactJson(s: string) returns (out: string)
    ensures out == Compact(s, OUTSIDE)
  {
    out := [];
    var inQuote := false;
    var i := 0;
    ghost var all := Compact(s, OUTSIDE);
    assert s[0..] == s;
    while i < |s|
      invariant 0 <= i <= |s|
      invariant i < |s| ==> out + Compact(s[i..], Mode(inQuote, false)) == all
      invariant i == |s| ==> out == all
    {
      var ch := s[i];
      ghost var m := Mode(inQuote, false);
      if Blank(ch) && !inQuote {
        CompactDrop(s, i);
        i := i + 1;
        CompactEnd(s, i, OUTSIDE);
        continue;
      }
      CompactCopy(s, i, m, out);
      if ch == '"' {
        inQuote := !inQuote;
      } else if ch == '\\' {
        i := i + 1;
        if i == |s| {
          i := i - 1;
        } else {
          CompactEscape(s, i - 1, m, out);
          out := out + ['\\'];
        }
      }
      out := out + [s[i]];
      i := i + 1;
      CompactEnd(s, i, m);
      CompactEnd(s, i, Next(m, ch));
    }
  }

  lemma CompactEnd(s: string, i: nat, m: Mode)
    requires i <= |s|
    ensures i == |s| ==> Compact(s[i..], m) == []
  {
  }

  // ----- checking -----

  /** How a character changes the depth of braces. */
  function Change(m: Mode, c: char): int {
    if m != OUTSIDE then 0 else if c == '{' then 1 else if c == '}' then -1 else 0
  }

  function Depth(s: string, m: Mode): int {
    if s == [] then 0 else Change(m, s[0]) + Depth(s[1..], Next(m, s[0]))
  }

  /** Braces that are neither quoted nor escaped are balanced: no prefix closes more than it opens. */
  predicate Balanced(s: string, m: Mode, n: int) {
    n + Depth(s, m) == 0 && forall i :: 0 <= i <= |s| ==> n + Depth(s[..i], m) >= 0
  }

  function SkipBlanks(s: string): string {
    if s != [] && Blank(s[0]) then SkipBlanks(s[1..]) else s
  }

  /** The text starts with an object or an array after blanks, and its braces are balanced. */
  predicate Valid(s: string) {
    var t := SkipBlanks(s);
    t != [] && (t[0] == '{' || t[0] == '[') && Balanced(t, OUTSIDE, 0)
  }

  lemma DepthOfPrefix(s: string, m: Mode, i: nat)
    requires s != [] && i < |s|
    ensures Depth(s[..i + 1], m) == Change(m, s[0]) + Depth(s[1..][..i], Next(m, s[0]))
  {
    assert s[..i + 1][1..] == s[1..][..i];
  }

  /** Balance, a character at a time. */
  lemma BalancedTail(s: string, m: Mode, n: int)
    requires s != []
    ensures Balanced(s, m, n) <==> n >= 0 && Balanced(s[1..], Next(m, s[0]), n + Change(m, s[0]))
  {
    var rest, k := s[1..], n + Change(m, s[0]);
    assert s[..0] == [];
    forall i | 0 <= i < |s|
      ensures n + Depth(s[..i + 1], m) == k + Depth(rest[..i], Next(m, s[0]))
    {
      DepthOfPrefix(s, m, i);
    }
    if n >= 0 && Balanced(rest, Next(m, s[0]), k) {
      forall i | 0 <= i <= |s|
        ensures n + Depth(s[..i], m) >= 0
      {
        if i > 0 {
          assert k + Depth(rest[..i - 1], Next(m, s[0])) >= 0;
        }
      }
    }
    if Balanced(s, m, n) {
      forall i | 0 <= i <= |rest|
        ensures k + Depth(rest[..i], Next(m, s[0])) >= 0
      {
        assert n + Depth(s[..i + 1], m) >= 0;
      }
    }
  }

  lemma BalancedNow(s: string, m: Mode, n: int)
    ensures Balanced(s, m, n) ==> n >= 0
    ensures s == [] ==> (Balanced(s, m, n) <==> n == 0)
  {
    assert s[..0] == [];
  }

  lemma BalancedEscape(s: string, m: Mode, n: int)
    requires !m.escaped && s != [] && s[0] == '\\' && n >= 0
    ensures Balanced(s, m, n) <==> if |s| == 1 then n == 0 else Balanced(s[2..], m, n)
  {
    BalancedTail(s, m, n);
    var e := Next(m, s[0]);
    if |s| == 1 {
      BalancedNow(s[1..], e, n);
    } else {
      BalancedTail(s[1..], e, n);
      assert s[1..][1..] == s[2..];
    }
  }

  method IsValidJson(s: string) returns (valid: bool)
    ensures valid <==> Valid(s)
  {
    var i := 0;
    while i < |s| && Blank(s[i])
      invariant 0 <= i <= |s| && SkipBlanks(s[i..]) == SkipBlanks(s)
    {
      assert s[i..][1..] == s[i + 1..];
      i := i + 1;
    }
    assert SkipBlanks(s) == s[i..];
    if i == |s| || (s[i] != '{' && s[i] != '[') {
      return false;
    }
    valid := ScanBraces(s, i);
  }

  /** The second loop of IsValidJson. */
  method ScanBraces(s: string, start: nat) returns (valid: bool)
    requires start <= |s|
    ensures valid <==> Balanced(s[start..], OUTSIDE, 0)
  {
    var i := start;
    var braceCount := 0;
    var inQuote := false;
    while i < |s|
      invariant start <= i <= |s| + 1 && braceCount >= 0
      invariant i <= |s| ==> (Balanced(s[start..], OUTSIDE, 0) <==> Balanced(s[i..], Mode(inQuote, false), braceCount))
      invariant i > |s| ==> (Balanced(s[start..], OUTSIDE, 0) <==> braceCount == 0)
    {
      var ch := s[i];
      var m := Mode(inQuote, false);
      assert s[i..][1..] == s[i + 1..];
      BalancedTail(s[i..], m, braceCount);
      if ch == '{' {
        if !inQuote {
          braceCount := braceCount + 1;
        }
      } else if ch == '}' {
        if !inQuote {
          braceCount := braceCount - 1;
        }
        if braceCount < 0 {
          BalancedNow(s[i + 1..], m, braceCount);
          return false;
        }
      } else if ch == '"' {
        inQuote := !inQuote;
      } else if ch == '\\' {
        BalancedEscape(s[i..], m, braceCount);
        assert i + 1 < |s| ==> s[i..][2..] == s[i + 2..];
        i := i + 1;
      }
      i := i + 1;
    }
    valid := braceCount == 0;
    if i == |s| {
      BalancedNow(s[i..], Mode(inQuote, false), braceCount);
    }
  }

  // ----- checking what was compacted -----

  lemma {:induction false} BalancedCompact(s: string, m: Mode, n: int)
    ensures Balanced(Compact(s, m), m, n) <==> Balanced(s, m, n)
  {
    if s != [] {
      BalancedTail(s, m, n);
      if Dropped(m, s[0]) {
        BalancedCompact(s[1..], m, n);
        BalancedNow(s[1..], m, n);
      } else {
        var r, k := Compact(s, m), Next(m, s[0]);
        BalancedCompact(s[1..], k, n + Change(m, s[0]));
        assert r[0] == s[0] && r[1..] == Compact(s[1..], k);
        BalancedTail(r, m, n);
      }
    }
  }

  lemma {:induction false} CompactSkips(s: string)
    ensures Compact(SkipBlanks(s), OUTSIDE) == Compact(s, OUTSIDE)
    ensures SkipBlanks(Compact(s, OUTSIDE)) == Compact(s, OUTSIDE)
    ensures SkipBlanks(s) == [] <==> Compact(s, OUTSIDE) == []
    ensures SkipBlanks(s) != [] ==> SkipBlanks(s)[0] == Compact(s, OUTSIDE)[0]
  {
    if s != [] && Blank(s[0]) {
      CompactSkips(s[1..]);
    }
  }

  /** The checker gives the same answer before and after compaction. */
  lemma CompactKeepsValidity(s: string)
    ensures Valid(Compact(s, OUTSIDE)) <==> Valid(s)
  {
    CompactSkips(s);
    BalancedCompact(SkipBlanks(s), OUTSIDE, 0);
  }

  /** Compaction does not touch quoted text: the mode reached, and the braces counted, are the same. */
  lemma {:induction false} CompactKeepsReading(s: string, m: Mode)
    ensures ModeAfter(Compact(s, m), m) == ModeAfter(s, m)
    ensures Depth(Compact(s, m), m) == Depth(s, m)
  {
    if s != [] {
      if Dropped(m, s[0]) {
        CompactKeepsReading(s[1..], m);
      } else {
        var r := Compact(s, m);
        CompactKeepsReading(s[1..], Next(m, s[0]));
        assert r[0] == s[0] && r[1..] == Compact(s[1..], Next(m, s[0]));
      }
    }
  }

  /** The characters that are quoted or escaped. */
  function Protected(s: string, m: Mode): string {
    if s == [] then []
    else (if m == OUTSIDE then [] else [s[0]]) + Protected(s[1..], Next(m, s[0]))
  }

  lemma {:induction false} CompactKeepsProtected(s: string, m: Mode)
    ensures Protected(Compact(s, m), m) == Protected(s, m)
  {
    if s != [] {
      if Dropped(m, s[0]) {
        CompactKeepsProtected(s[1..], m);
      } else {
        var r := Compact(s, m);
        CompactKeepsProtected(s[1..], Next(m, s[0]));
        assert r[0] == s[0] && r[1..] == Compact(s[1..], Next(m, s[0]));
      }
    }
  }
}
