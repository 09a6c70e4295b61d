/**
  Splitting and replacing: the splitter iterator in its plain and skipping modes, StringSpliter and ReplaceString.
  All are proved against one definition of the fields of a string, and that definition against Join.
*/
module StringTools {
  import opened Search
  import opened Sequences

  // ----- fields -----

  /** The fields of s separated by d, from position p on. */
  function SplitFrom(s: string, d: string, p: nat): (fs: seq<string>)
    requires d != [] && p <= |s|
    ensures fs != []
    decreases |s| - p
  {
    match FindFrom(s, d, p)
    case Npos => [s[p..]]
    case At(e) => [s[p..e]] + SplitFrom(s, d, e + |d|)
  }

  function Split(s: string, d: string): seq<string>
    requires d != []
  {
    SplitFrom(s, d, 0)
  }

  function Join(fs: seq<string>, d: string): string
    requires fs != []
  {
    if |fs| == 1 then fs[0] else fs[0] + d + Join(fs[1..], d)
  }

  function Token(f: string): seq<string> {
    if f == [] then [] else [f]
  }

  function NonEmpty(fs: seq<string>): seq<string> {
    if fs == [] then [] else Token(fs[0]) + NonEmpty(fs[1..])
  }

  /** The non-empty fields from position p on. */
  function TokensFrom(s: string, d: string, p: nat): seq<string>
    requires d != [] && p <= |s|
  {
    NonEmpty(SplitFrom(s, d, p))
  }

  lemma NonEmptyCons(f: string, fs: seq<string>)
    ensures NonEmpty([f] + fs) == Token(f) + NonEmpty(fs)
  {
    assert ([f] + fs)[1..] == fs;
  }

  lemma LastToken(s: string, d: string, p: nat)
    requires d != [] && p <= |s| && FindFrom(s, d, p) == Npos
    ensures TokensFrom(s, d, p) == Token(s[p..])
  {
    NonEmptyCons(s[p..], []);
    assert [s[p..]] + [] == [s[p..]];
  }

  lemma NextToken(s: string, d: string, p: nat, e: nat)
    requires d != [] && p <= |s| && FindFrom(s, d, p) == At(e)
    ensures TokensFrom(s, d, p) == Token(s[p..e]) + TokensFrom(s, d, e + |d|)
  {
    NonEmptyCons(s[p..e], SplitFrom(s, d, e + |d|));
  }

  lemma NoTokensAtEnd(s: string, d: string)
    requires d != []
    ensures TokensFrom(s, d, |s|) == []
  {
    FindNone(s, d, |s|);
    LastToken(s, d, |s|);
  }

  /** A delimiter at the current position only adds an empty field. */
  lemma SkippedIsEmpty(s: string, d: string, p: nat)
    requires d != [] && OccursAt(s, d, p)
    ensures TokensFrom(s, d, p) == TokensFrom(s, d, p + |d|)
  {
    FindIs(s, d, p, p);
    NextToken(s, d, p, p);
  }

  lemma JoinCons(f: string, fs: seq<string>, d: string)
    requires fs != []
    ensures Join([f] + fs, d) == f + d + Join(fs, d)
  {
    assert ([f] + fs)[1..] == fs;
  }

  lemma {:induction false} JoinSplitFrom(s: string, d: string, p: nat)
    requires d != [] && p <= |s|
    ensures Join(SplitFrom(s, d, p), d) == s[p..]
    decreases |s| - p
  {
    match FindFrom(s, d, p)
    case Npos =>
    case At(e) =>
      JoinSplitFrom(s, d, e + |d|);
      JoinCons(s[p..e], SplitFrom(s, d, e + |d|), d);
      CutAtDelimiter(s, d, p, e);
  }

  lemma CutAtDelimiter(s: string, d: string, p: nat, e: nat)
    requires p <= |s| && FindFrom(s, d, p) == At(e)
    ensures s[p..] == s[p..e] + d + s[e + |d|..]
  {
    FindFirst(s, d, p);
    assert s[e..e + |d|] == d;
    assert s[p..] == s[p..e] + s[e..e + |d|] + s[e + |d|..];
  }

  /** Joining the fields gives back the string. */
  lemma JoinSplit(s: string, d: string)
    requires d != []
    ensures Join(Split(s, d), d) == s
  {
    JoinSplitFrom(s, d, 0);
  }

  /** No field contains the delimiter. */
  lemma {:induction false} FieldsFree(s: string, d: string, p: nat, k: nat, j: nat)
    requires d != [] && p <= |s| && k < |SplitFrom(s, d, p)|
    ensures !OccursAt(SplitFrom(s, d, p)[k], d, j)
    decreases |s| - p
  {
    FindFirst(s, d, p);
    match FindFrom(s, d, p)
    case Npos =>
      assert SplitFrom(s, d, p)[k] == s[p..|s|];
      if OccursAt(s[p..|s|], d, j) {
        OccursInside(s, p, |s|, d, j);
      }
    case At(e) =>
      if k > 0 {
        FieldsFree(s, d, e + |d|, k - 1, j);
      } else if OccursAt(s[p..e], d, j) {
        OccursInside(s, p, e, d, j);
      }
  }

  /** The fields after a position depend only on what comes after it. */
  lemma {:induction false} SplitSuffix(a: string, b: string, d: string, p: nat)
    requires d != [] && p <= |b|
    ensures SplitFrom(a + b, d, |a| + p) == SplitFrom(b, d, p)
    decreases |b| - p
  {
    FindInSuffix(a, b, d, p);
    match FindFrom(b, d, p)
    case Npos =>
      assert (a + b)[|a| + p..] == b[p..];
    case At(e) =>
      SplitSuffix(a, b, d, e + |d|);
      assert (a + b)[|a| + p..|a| + e] == b[p..e];
  }

  /** Read one field at a time, the delimiter after a field is the first one there is, also when delimiters overlap. */
  predicate LeftmostFields(fs: seq<string>, d: string) {
    fs != []
    && if |fs| == 1 then FindFrom(fs[0], d, 0) == Npos
       else FindFrom(fs[0] + d, d, 0) == At(|fs[0]|) && LeftmostFields(fs[1..], d)
  }

  lemma FirstInPrefix(f: string, d: string, rest: string)
    ensures FindFrom(f + d, d, 0) == At(|f|) <==> FindFrom(f + d + rest, d, 0) == At(|f|)
  {
    FindFirst(f + d, d, 0);
    FindFirst(f + d + rest, d, 0);
    forall j: nat | j <= |f|
      ensures OccursAt(f + d + rest, d, j) <==> OccursAt(f + d, d, j)
    {
      OccursInPrefix(f + d, rest, d, j);
    }
    assert OccursAt(f + d, d, |f|);
  }

  lemma {:induction false} SplitJoin(fs: seq<string>, d: string)
    requires d != [] && LeftmostFields(fs, d)
    ensures Split(Join(fs, d), d) == fs
    decreases |fs|
  {
    if |fs| == 1 {
      assert fs[0][0..] == fs[0];
    } else {
      SplitJoin(fs[1..], d);
      FirstFieldOf(fs[0], d, Join(fs[1..], d));
      assert fs == [fs[0]] + fs[1..];
    }
  }

  lemma FirstFieldOf(f: string, d: string, rest: string)
    requires d != [] && FindFrom(f + d, d, 0) == At(|f|)
    ensures Split(f + d + rest, d) == [f] + Split(rest, d)
  {
    FirstInPrefix(f, d, rest);
    SplitSuffix(f + d, rest, d, 0);
    FirstFieldIs(f + d + rest, d, f, Split(rest, d));
  }

  lemma FirstFieldIs(s: string, d: string, f: string, fs: seq<string>)
    requires d != [] && FindFrom(s, d, 0) == At(|f|) && f <= s && SplitFrom(s, d, |f| + |d|) == fs
    ensures Split(s, d) == [f] + fs
  {
    assert s[0..|f|] == f;
  }

  lemma FieldIsLeftmost(s: string, d: string, p: nat, e: nat)
    requires p <= |s| && FindFrom(s, d, p) == At(e)
    ensures FindFrom(s[p..e] + d, d, 0) == At(e - p)
  {
    FindInRest(s, p, d);
    FindFirst(s, d, p);
    assert s[p..] == s[p..e] + d + s[e + |d|..];
    FirstInPrefix(s[p..e], d, s[e + |d|..]);
  }

  lemma LeftmostCons(f: string, fs: seq<string>, d: string)
    requires LeftmostFields(fs, d) && FindFrom(f + d, d, 0) == At(|f|)
    ensures LeftmostFields([f] + fs, d)
  {
    assert ([f] + fs)[1..] == fs;
  }

  lemma {:induction false} SplitIsLeftmost(s: string, d: string, p: nat)
    requires d != [] && p <= |s|
    ensures LeftmostFields(SplitFrom(s, d, p), d)
    decreases |s| - p
  {
    match FindFrom(s, d, p)
    case Npos =>
      FindInRest(s, p, d);
    case At(e) =>
      SplitIsLeftmost(s, d, e + |d|);
      FieldIsLeftmost(s, d, p, e);
      LeftmostCons(s[p..e], SplitFrom(s, d, e + |d|), d);
  }

  /** Splitting is the one way to write a string as fields joined by leftmost delimiters. */
  lemma SplitCharacterised(s: string, d: string, fs: seq<string>)
    requires d != []
    ensures fs == Split(s, d) <==> LeftmostFields(fs, d) && Join(fs, d) == s
  {
    JoinSplit(s, d);
    SplitIsLeftmost(s, d, 0);
    if LeftmostFields(fs, d) {
      SplitJoin(fs, d);
    }
  }

  // ----- the iterator -----

  /** skipDelimiters, with its separate loop for a delimiter of one character; what it passes is empty fields. */
  method SkipFrom(str: string, delimiter: string, from: nat) returns (p: nat)
    requires delimiter != [] && from <= |str|
    ensures from <= p <= |str| && !OccursAt(str, delimiter, p)
    ensures TokensFrom(str, delimiter, p) == TokensFrom(str, delimiter, from)
  {
    p := from;
    if |delimiter| == 1 {
      while p < |str| && str[p] == delimiter[0]
        invariant from <= p <= |str|
        invariant TokensFrom(str, delimiter, p) == TokensFrom(str, delimiter, from)
      {
        CharOccurs(str, delimiter[0], p);
        assert delimiter == [delimiter[0]];
        SkippedIsEmpty(str, delimiter, p);
        p := p + 1;
      }
      CharOccurs(str, delimiter[0], p);
      assert delimiter == [delimiter[0]];
    } else {
      while p < |str| && p + |delimiter| <= |str| && str[p..p + |delimiter|] == delimiter
        invariant from <= p <= |str|
        invariant TokensFrom(str, delimiter, p) == TokensFrom(str, delimiter, from)
      {
        SkippedIsEmpty(str, delimiter, p);
        p := p + |delimiter|;
      }
    }
  }

  /** The fields ahead of a position: the one that starts there, and the rest. */
  function FieldsFrom(str: string, delimiter: string, skip: bool, p: nat): seq<string>
    requires delimiter != [] && p <= |str|
  {
    if skip then TokensFrom(str, delimiter, p) else SplitFrom(str, delimiter, p)
  }

  lemma AheadOf(str: string, delimiter: string, skip: bool, p: nat)
    requires delimiter != [] && p <= |str| && (skip ==> p < |str| && !OccursAt(str, delimiter, p))
    ensures FindFrom(str, delimiter, p) == Npos ==> FieldsFrom(str, delimiter, skip, p) == [str[p..]]
    ensures FindFrom(str, delimiter, p).At? ==>
              var e := FindFrom(str, delimiter, p).index;
              FieldsFrom(str, delimiter, skip, p) == [str[p..e]] + FieldsFrom(str, delimiter, skip, e + |delimiter|)
  {
    match FindFrom(str, delimiter, p)
    case Npos => LastToken(str, delimiter, p);
    case At(e) =>
      NextToken(str, delimiter, p, e);
      FindFirst(str, delimiter, p);
  }

  /** The field at a position, and where the next one starts; past the end there is none. */
  method FieldAt(str: string, delimiter: string, skip: bool, start: nat) returns (field: string, pos: Position)
    requires delimiter != [] && start <= |str| && (skip ==> start < |str| && !OccursAt(str, delimiter, start))
    ensures pos.At? && pos.index <= |str| + 1
    ensures FieldsFrom(str, delimiter, skip, start)
            == [field] + if pos.index <= |str| then FieldsFrom(str, delimiter, skip, pos.index) else []
  {
    var end := FindFrom(str, delimiter, start);
    AheadOf(str, delimiter, skip, start);
    if end == Npos {
      return str[start..], At(|str| + 1);
    }
    field, pos := str[start..end.index], At(end.index + |delimiter|);
    if skip {
      var p := SkipFrom(str, delimiter, pos.index);
      pos := At(p);
    }
  }

  class Splitter {
    const str: string
    const delimiter: string
    const skip: bool
    var field: string
    var pos: Position

    ghost predicate Valid()
      reads this
    {
      delimiter != [] && (pos.At? ==> pos.index <= |str| + 1)
    }

    /** The fields the iterator has not reached yet. */
    ghost function Ahead(): seq<string>
      reads this
      requires Valid()
    {
      if pos == Npos || pos.index > |str| then [] else FieldsFrom(str, delimiter, skip, pos.index)
    }

    constructor (str: string, delimiter: string, skip: bool)
      requires delimiter != []
      ensures Valid() && this.str == str && this.delimiter == delimiter && this.skip == skip
      ensures var all := if skip then NonEmpty(Split(str, delimiter)) else Split(str, delimiter);
              if all == [] then pos == Npos && field == [] else pos != Npos && all == [field] + Ahead()
    {
      this.str, this.delimiter, this.skip := str, delimiter, skip;
      this.field, this.pos := [], At(0);
      new;
      FindNext();
    }

    method SkipDelimiters()
      requires Valid() && pos.At? && skip
      modifies this`pos
      ensures pos.At? && pos.index <= |str| + 1
      ensures if old(pos.index) <= |str| then
                pos.index <= |str| && !OccursAt(str, delimiter, pos.index)
                && TokensFrom(str, delimiter, pos.index) == TokensFrom(str, delimiter, old(pos.index))
              else pos == old(pos)
    {
      if pos.index <= |str| {
        var p := SkipFrom(str, delimiter, pos.index);
        pos := At(p);
      }
    }

    /** Moves to the next field, or to the end when there is none. */
    method FindNext()
      requires Valid()
      modifies this
      ensures Valid()
      ensures old(Ahead()) == [] ==> pos == Npos && field == []
      ensures old(Ahead()) != [] ==> pos != Npos && old(Ahead()) == [field] + Ahead()
    {
      if pos == Npos {
        field := [];
        return;
      }
      if skip {
        SkipDelimiters();
        if pos.index >= |str| {
          NoTokensAtEnd(str, delimiter);
          field, pos := [], Npos;
          return;
        }
      }
      TakeField();
    }

    /** The second half of findNext: the field that starts at the current position. */
    method TakeField()
      requires Valid() && pos.At?
      requires skip ==> pos.index < |str| && !OccursAt(str, delimiter, pos.index)
      modifies this
      ensures Valid()
      ensures old(Ahead()) == [] ==> pos == Npos && field == []
      ensures old(Ahead()) != [] ==> pos != Npos && old(Ahead()) == [field] + Ahead()
    {
      if pos.index <= |str| {
        field, pos := FieldAt(str, delimiter, skip, pos.index);
      } else {
        field, pos := [], Npos;
      }
    }
  }

  /** A loop over the iterator: it visits the current field and everything ahead of it. */
  method Visit(it: Splitter, ghost all: seq<string>) returns (fields: seq<string>)
    requires it.Valid() && all == if it.pos == Npos then [] else [it.field] + it.Ahead()
    modifies it
    ensures fields == all
  {
    fields := [];
    while it.pos != Npos
      invariant it.Valid()
      invariant all == fields + if it.pos == Npos then [] else [it.field] + it.Ahead()
      decreases it.pos != Npos, |all| - |fields|
    {
      Associate(fields, [it.field], it.Ahead());
      fields := fields + [it.field];
      it.FindNext();
    }
  }

  /** Iterating to the end visits all fields in order, or in skipping mode the non-empty ones. */
  method Collect(str: string, delimiter: string, skip: bool) returns (fields: seq<string>)
    requires delimiter != []
    ensures fields == if skip then NonEmpty(Split(str, delimiter)) else Split(str, delimiter)
  {
    var it := new Splitter(str, delimiter, skip);
    fields := Visit(it, if skip then NonEmpty(Split(str, delimiter)) else Split(str, delimiter));
  }

  // ----- StringSpliter and ReplaceString -----

  /** What is left after the field that starts at p. */
  lemma TokenAndRest(s: string, d: string, p: nat, found: Position, e: nat) returns (rest: seq<string>)
    requires d != [] && p <= |s| && found == FindFrom(s, d, p)
    requires e == if found == Npos then |s| else found.index
    ensures TokensFrom(s, d, p) == Token(s[p..e]) + rest
    ensures if e < |s| && e + |d| < |s| then rest == TokensFrom(s, d, e + |d|) else rest == []
  {
    match found
    case Npos =>
      LastToken(s, d, p);
      assert s[p..|s|] == s[p..];
      rest := [];
    case At(_) =>
      NextToken(s, d, p, e);
      NoTokensAtEnd(s, d);
      rest := TokensFrom(s, d, e + |d|);
  }

  lemma PushToken(tokens: seq<string>, token: string, rest: seq<string>, all: seq<string>)
    requires tokens + (Token(token) + rest) == all
    ensures (if token != [] then tokens + [token] else tokens) + rest == all
  {
  }

  /** StringSpliter returns the non-empty fields. */
  method StringSpliter(str: string, delim: string) returns (tokens: seq<string>)
    requires delim != []
    ensures tokens == NonEmpty(Split(str, delim))
  {
    tokens := [];
    var prev: nat, pos: nat := 0, 0;
    ghost var all := TokensFrom(str, delim, 0);
    while true
      invariant prev <= |str|
      invariant tokens + TokensFrom(str, delim, prev) == all
      decreases |str| - prev
    {
      var found := FindFrom(str, delim, prev);
      pos := if found == Npos then |str| else found.index;
      var token := str[prev..pos];
      ghost var rest := TokenAndRest(str, delim, prev, found, pos);
      PushToken(tokens, token, rest, all);
      if token != [] {
        tokens := tokens + [token];
      }
      prev := pos + |delim|;
      if !(pos < |str| && prev < |str|) {
        return;
      }
    }
  }

  /** One replacement: the fields after the first occurrence are joined as before. */
  lemma JoinStep(s: string, p: nat, src: string, dst: string, e: nat)
    requires src != [] && p <= |s| && FindFrom(s, src, p) == At(e)
    ensures Join(SplitFrom(s, src, p), dst) == s[p..e] + dst + Join(SplitFrom(s, src, e + |src|), dst)
  {
    JoinCons(s[p..e], SplitFrom(s, src, e + |src|), dst);
  }

  /** Replacing what comes before a position leaves the fields after it. */
  lemma SameFieldsAfter(r: string, p: nat, s: string, q: nat, d: string)
    requires d != [] && p <= |r| && q <= |s| && r[p..] == s[q..]
    ensures SplitFrom(r, d, p) == SplitFrom(s, d, q)
  {
    SplitSuffix(r[..p], r[p..], d, 0);
    SplitSuffix(s[..q], s[q..], d, 0);
    assert r == r[..p] + r[p..] && s == s[..q] + s[q..];
  }

  /** s.replace(at, n, dst). */
  function Replaced(s: string, at: nat, n: nat, dst: string): string
    requires at + n <= |s|
  {
    s[..at] + dst + s[at + n..]
  }

  /** What the string will be when replacing has got to position p. */
  function Rewritten(s: string, p: nat, src: string, dst: string): string
    requires src != [] && p <= |s|
  {
    s[..p] + Join(SplitFrom(s, src, p), dst)
  }

  lemma FromStart(s: string, src: string, dst: string)
    requires src != []
    ensures Rewritten(s, 0, src, dst) == Join(Split(s, src), dst)
  {
  }

  lemma WholeAtEnd(s: string, p: nat, src: string, dst: string)
    requires src != [] && p <= |s| && FindFrom(s, src, p) == Npos
    ensures Rewritten(s, p, src, dst) == s
  {
    assert s == s[..p] + s[p..];
  }

  /** What one call of replace does to the string under the loop's invariant. */
  lemma ReplaceStep(s: string, p: nat, at: nat, src: string, dst: string)
    requires src != [] && p <= |s| && FindFrom(s, src, p) == At(at)
    ensures var r := Replaced(s, at, |src|, dst);
            at + |dst| <= |r| && |r| - (at + |dst|) < |s| - p
            && Rewritten(r, at + |dst|, src, dst) == Rewritten(s, p, src, dst)
  {
    JoinStep(s, p, src, dst, at);
    var r, q := Replaced(s, at, |src|, dst), at + |dst|;
    assert r[q..] == s[at + |src|..];
    SameFieldsAfter(r, q, s, at + |src|, src);
    KeptPrefix(s, p, at, dst, Join(SplitFrom(r, src, q), dst));
    assert r[..q] == s[..at] + dst;
  }

  lemma KeptPrefix(s: string, p: nat, at: nat, dst: string, rest: string)
    requires p <= at <= |s|
    ensures (s[..at] + dst) + rest == s[..p] + (s[p..at] + dst + rest)
  {
    assert s[..at] == s[..p] + s[p..at];
  }

  method ReplaceOnce(s: string, p: nat, at: nat, src: string, dst: string) returns (r: string)
    requires src != [] && p <= |s| && FindFrom(s, src, p) == At(at)
    ensures at + |dst| <= |r| && |r| - (at + |dst|) < |s| - p
    ensures Rewritten(r, at + |dst|, src, dst) == Rewritten(s, p, src, dst)
  {
    ReplaceStep(s, p, at, src, dst);
    r := s[..at] + dst + s[at + |src|..];
  }

  /** The loop of ReplaceString, from a position on. */
  method ReplaceFrom(raw: string, start: nat, src: string, dst: string) returns (r: string)
    requires src != [] && start <= |raw|
    ensures r == Rewritten(raw, start, src, dst)
  {
    r := raw;
    var pos: nat := start;
    var found := FindFrom(r, src, pos);
    while found != Npos
      invariant pos <= |r| && found == FindFrom(r, src, pos)
      invariant Rewritten(r, pos, src, dst) == Rewritten(raw, start, src, dst)
      decreases |r| - pos
    {
      r := ReplaceOnce(r, pos, found.index, src, dst);
      pos := found.index + |dst|;
      found := FindFrom(r, src, pos);
    }
    WholeAtEnd(r, pos, src, dst);
  }

  /** ReplaceString puts dst between the fields separated by src, and terminates whatever dst contains. */
  method ReplaceString(raw: string, src: string, dst: string) returns (r: string)
    requires src != []
    ensures r == Join(Split(raw, src), dst)
  {
    r := ReplaceFrom(raw, 0, src, dst);
    FromStart(raw, src, dst);
  }
}
