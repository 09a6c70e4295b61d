/** Expansion of ${NAME} in a format string, before the template is parsed. */
module EnvPlaceholders {
  import opened Search
  import opened Sequences

  const OPEN: string := "${"
  const CLOSE: string := "}"

  /** The next mark from a position on: none, one that is not closed, or one from start to end. */
  datatype Mark = NoMark | Unclosed(start: nat) | Closed(start: nat, end: nat)

  function NextMark(s: string, p: nat): (m: Mark)
    ensures m.Unclosed? ==> p <= m.start && m.start + 2 <= |s|
    ensures m.Closed? ==> p <= m.start && m.start + 2 <= m.end < |s|
  {
    match FindFrom(s, OPEN, p)
    case Npos => NoMark
    case At(b) =>
      match FindFrom(s, CLOSE, b + 2) {
        case Npos => Unclosed(b)
        case At(e) => Closed(b, e)
      }
  }

  /** What a closed mark becomes: the value of the name, or the mark itself if the name is empty. */
  function Meaning(name: string, value: string -> string): string {
    if name == [] then OPEN + CLOSE else value(name)
  }

  /** The text cut at its closed marks. */
  datatype Pieces = Rest(text: string) | Piece(text: string, name: string, rest: Pieces)

  function CutFrom(s: string, p: nat): Pieces
    requires p <= |s|
    decreases |s| - p
  {
    match NextMark(s, p)
    case NoMark => Rest(s[p..])
    case Unclosed(_) => Rest(s[p..])
    case Closed(b, e) => Piece(s[p..b], s[b + 2..e], CutFrom(s, e + 1))
  }

  function Filled(ps: Pieces, value: string -> string): string {
    match ps
    case Rest(t) => t
    case Piece(t, n, rest) => t + (Meaning(n, value) + Filled(rest, value))
  }

  function Expand(s: string, value: string -> string): string {
    Filled(CutFrom(s, 0), value)
  }

  /** getenv, with nothing for a variable that is not set. */
  function Getenv(env: map<string, string>): string -> string {
    n => if n in env then env[n] else []
  }

  // ----- the loop -----

  lemma MarkText(s: string, p: nat, b: nat, e: nat)
    requires NextMark(s, p) == Closed(b, e)
    ensures s[b..e + 1] == OPEN + s[b + 2..e] + CLOSE
  {
    FindFirst(s, OPEN, p);
    FindFirst(s, CLOSE, b + 2);
    assert s[b..e + 1] == s[b..b + 2] + s[b + 2..e] + s[e..e + 1];
  }

  /** A mark without a name is left as it is. */
  lemma EmptyMark(s: string, p: nat, b: nat, value: string -> string)
    requires NextMark(s, p) == Closed(b, b + 2)
    ensures s[b..b + 3] == Meaning(s[b + 2..b + 2], value)
  {
    MarkText(s, p, b, b + 2);
    assert s[b + 2..b + 2] == [];
  }

  lemma CutAtMark(s: string, p: nat, b: nat, e: nat)
    requires p <= |s| && NextMark(s, p) == Closed(b, e)
    ensures CutFrom(s, p) == Piece(s[p..b], s[b + 2..e], CutFrom(s, e + 1))
  {
  }

  lemma CutRest(s: string, p: nat)
    requires p <= |s| && !NextMark(s, p).Closed?
    ensures CutFrom(s, p) == Rest(s[p..])
  {
  }

  lemma AtEnd(s: string)
    ensures CutFrom(s, |s|) == Rest([])
  {
    FindNone(s, OPEN, |s|);
    CutRest(s, |s|);
  }

  /** What one round of the loop puts out, and where the next one starts. */
  function RoundText(s: string, p: nat, m: Mark, value: string -> string): string
    requires p <= |s| && (m.Closed? ==> p <= m.start && m.start + 2 <= m.end < |s|)
  {
    if m.Closed? then s[p..m.start] + Meaning(s[m.start + 2..m.end], value) else s[p..]
  }

  function RoundEnd(s: string, m: Mark): nat {
    if m.Closed? then m.end + 1 else |s|
  }

  lemma FilledStep(s: string, p: nat, value: string -> string)
    requires p <= |s|
    ensures var m := NextMark(s, p);
            Filled(CutFrom(s, p), value) == RoundText(s, p, m, value) + Filled(CutFrom(s, RoundEnd(s, m)), value)
  {
    match NextMark(s, p)
    case Closed(b, e) =>
      CutAtMark(s, p, b, e);
      Associate(s[p..b], Meaning(s[b + 2..e], value), Filled(CutFrom(s, e + 1), value));
    case NoMark =>
      CutRest(s, p);
      AtEnd(s);
    case Unclosed(_) =>
      CutRest(s, p);
      AtEnd(s);
  }

  method ExpandNext(input: string, pos: nat, env: map<string, string>) returns (text: string, next: nat)
    requires pos < |input|
    ensures var m := NextMark(input, pos);
            text == RoundText(input, pos, m, Getenv(env)) && next == RoundEnd(input, m)
  {
    var start := FindFrom(input, OPEN, pos);
    if start == Npos {
      return input[pos..], |input|;
    }
    text := input[pos..start.index];
    var end := FindFrom(input, CLOSE, start.index + 2);
    if end == Npos {
      assert input[pos..] == text + input[start.index..];
      return text + input[start.index..], |input|;
    }
    next := end.index + 1;
    if start.index + 2 >= end.index {
      EmptyMark(input, pos, start.index, Getenv(env));
      text := text + input[start.index..next];
    } else {
      var name := input[start.index + 2..end.index];
      text := text + if name in env then env[name] else [];
    }
  }

  method ExpandEnvPlaceholders(input: string, env: map<string, string>) returns (out: string)
    ensures out == Expand(input, Getenv(env))
  {
    out := [];
    var pos: nat := 0;
    ghost var value, all := Getenv(env), Expand(input, Getenv(env));
    AtEnd(input);
    while pos < |input|
      invariant pos <= |input|
      invariant out + Filled(CutFrom(input, pos), value) == all
    {
      FilledStep(input, pos, value);
      var text;
      text, pos := ExpandNext(input, pos, env);
      Associate(out, text, Filled(CutFrom(input, pos), value));
      out := out + text;
    }
  }

  // ----- what expansion means -----

  lemma MeaningOfMark(name: string, value: string -> string)
    requires value(name) == OPEN + name + CLOSE
    ensures Meaning(name, value) == OPEN + name + CLOSE
  {
    if name == [] {
      assert OPEN + name + CLOSE == OPEN + CLOSE;
    }
  }

  lemma Recombine(s: string, p: nat, b: nat, e: nat)
    requires p <= b <= e <= |s|
    ensures s[p..] == s[p..b] + (s[b..e] + s[e..])
  {
  }

  /** Values that write the mark again give the text back. */
  lemma {:induction false} ExpandIdentity(s: string, p: nat, value: string -> string)
    requires p <= |s| && forall n :: value(n) == OPEN + n + CLOSE
    ensures Filled(CutFrom(s, p), value) == s[p..]
    decreases |s| - p
  {
    match NextMark(s, p)
    case NoMark =>
    case Unclosed(_) =>
    case Closed(b, e) =>
      ExpandIdentity(s, e + 1, value);
      MarkText(s, p, b, e);
      MeaningOfMark(s[b + 2..e], value);
      CutAtMark(s, p, b, e);
      Recombine(s, p, b, e + 1);
  }

  /** Text without a mark is left as it is. */
  lemma PlainText(s: string, value: string -> string)
    requires FindFrom(s, OPEN, 0) == Npos
    ensures Expand(s, value) == s
  {
    CutRest(s, 0);
    assert s[0..] == s;
  }

  lemma FirstMark(a: string, tail: string)
    requires FindFrom(a, OPEN, 0) == Npos
    ensures var s := a + (OPEN + tail);
            NextMark(s, 0) == match FindFrom(tail, CLOSE, 0)
                              case Npos => Unclosed(|a|)
                              case At(e) => Closed(|a|, |a| + 2 + e)
  {
    var s := a + (OPEN + tail);
    FirstAfter(a, OPEN, tail);
    assert s[|a| + 2..] == tail;
    FindInRest(s, |a| + 2, CLOSE);
  }

  /** A mark that is not closed is left as it is, with all that follows. */
  lemma UnclosedText(a: string, rest: string, value: string -> string)
    requires FindFrom(a, OPEN, 0) == Npos && FindFrom(rest, CLOSE, 0) == Npos
    ensures Expand(a + (OPEN + rest), value) == a + (OPEN + rest)
  {
    var s := a + (OPEN + rest);
    FirstMark(a, rest);
    CutRest(s, 0);
    assert s[0..] == s;
  }

  function ShiftMark(m: Mark, n: nat): Mark {
    match m
    case NoMark => NoMark
    case Unclosed(b) => Unclosed(b + n)
    case Closed(b, e) => Closed(b + n, e + n)
  }

  lemma MarkShifted(t: string, k: nat, b: string, p: nat)
    requires EndsWith(t, k, b)
    ensures NextMark(t, k + p) == ShiftMark(NextMark(b, p), k)
  {
    EndsWithRest(t, k, b);
    FindInSuffix(t[..k], b, OPEN, p);
    match FindFrom(b, OPEN, p)
    case Npos =>
    case At(n) => FindInSuffix(t[..k], b, CLOSE, n + 2);
  }

  /** These are the pieces of s from p on. */
  predicate IsCut(s: string, p: nat, ps: Pieces)
    requires p <= |s|
    decreases ps
  {
    var m := NextMark(s, p);
    match ps
    case Rest(text) => !m.Closed? && text == s[p..]
    case Piece(text, name, rest) =>
      m.Closed? && text == s[p..m.start] && name == s[m.start + 2..m.end] && IsCut(s, m.end + 1, rest)
  }

  lemma {:induction false} SomeCut(s: string, p: nat) returns (ps: Pieces)
    requires p <= |s|
    ensures IsCut(s, p, ps)
    decreases |s| - p
  {
    var m := NextMark(s, p);
    if m.Closed? {
      var rest := SomeCut(s, m.end + 1);
      ps := Piece(s[p..m.start], s[m.start + 2..m.end], rest);
    } else {
      ps := Rest(s[p..]);
    }
  }

  lemma {:induction false} OnlyCut(s: string, p: nat, ps: Pieces)
    requires p <= |s| && IsCut(s, p, ps)
    ensures ps == CutFrom(s, p)
    decreases ps
  {
    if ps.Piece? {
      OnlyCut(s, NextMark(s, p).end + 1, ps.rest);
    }
  }

  lemma {:induction false} IsCutShifted(t: string, k: nat, b: string, p: nat, ps: Pieces)
    requires EndsWith(t, k, b) && p <= |b| && IsCut(b, p, ps)
    ensures IsCut(t, k + p, ps)
    decreases ps
  {
    MarkShifted(t, k, b, p);
    var m := NextMark(b, p);
    if ps.Piece? {
      SliceOfRest(t, k, b, p, m.start);
      SliceOfRest(t, k, b, m.start + 2, m.end);
      IsCutShifted(t, k, b, m.end + 1, ps.rest);
    } else {
      SliceOfRest(t, k, b, p, |b|);
      assert t[k + p..] == t[k + p..k + |b|] && b[p..] == b[p..|b|];
    }
  }

  /** Cutting from a position on depends only on what comes after it. */
  lemma CutShifted(t: string, k: nat, b: string, p: nat)
    requires EndsWith(t, k, b) && p <= |b|
    ensures CutFrom(t, k + p) == CutFrom(b, p)
  {
    var ps := SomeCut(b, p);
    OnlyCut(b, p, ps);
    IsCutShifted(t, k, b, p, ps);
    OnlyCut(t, k + p, ps);
  }

  lemma FirstPiece(s: string, b: nat, e: nat)
    requires NextMark(s, 0) == Closed(b, e)
    ensures CutFrom(s, 0) == Piece(s[0..b], s[b + 2..e], CutFrom(s[e + 1..], 0))
  {
    CutAtMark(s, 0, b, e);
    CutOfRest(s, e + 1);
  }

  lemma CutOfRest(s: string, k: nat)
    requires k <= |s|
    ensures CutFrom(s, k) == CutFrom(s[k..], 0)
  {
    CutShifted(s, k, s[k..], 0);
  }

  lemma SlicesOfFirst(a: string, name: string, rest: string)
    ensures var s := a + (OPEN + (name + (CLOSE + rest)));
            && |s| == |a| + 3 + |name| + |rest|
            && s[0..|a|] == a && s[|a| + 2..|a| + 2 + |name|] == name && s[|a| + 3 + |name|..] == rest
  {
  }

  /** A mark with a name is replaced by the name's value, once: what the value contains is not expanded again, and
      the text after it is expanded on its own.  A mark without a name stays. */
  lemma MarkIsReplaced(a: string, name: string, rest: string, value: string -> string)
    requires FindFrom(a, OPEN, 0) == Npos && FindFrom(name, CLOSE, 0) == Npos
    ensures Expand(a + (OPEN + (name + (CLOSE + rest))), value)
            == a + ((if name == [] then OPEN + CLOSE else value(name)) + Expand(rest, value))
  {
    FirstMark(a, name + (CLOSE + rest));
    FirstAfter(name, CLOSE, rest);
    SlicesOfFirst(a, name, rest);
    FirstPiece(a + (OPEN + (name + (CLOSE + rest))), |a|, |a| + 2 + |name|);
  }

  lemma NoBrace(name: string)
    requires '}' !in name
    ensures FindFrom(name, "}", 0) == Npos
  {
    forall j: nat
      ensures !OccursAt(name, "}", j)
    {
      CharOccurs(name, '}', j);
    }
    FindNone(name, "}", 0);
  }

  lemma NothingInEmpty(value: string -> string)
    ensures FindFrom("", "${", 0) == Npos && Expand("", value) == ""
  {
    FindNone("", "${", 0);
    PlainText("", value);
  }

  lemma OneMark(name: string)
    ensures "" + ("${" + (name + ("}" + ""))) == "${" + name + "}"
  {
  }

  /** ${NAME} alone becomes the value of the variable, or nothing when it is not set. */
  lemma OneVariable(name: string, env: map<string, string>)
    requires name != "" && '}' !in name
    ensures Expand("${" + name + "}", Getenv(env)) == if name in env then env[name] else ""
  {
    NoBrace(name);
    NothingInEmpty(Getenv(env));
    MarkIsReplaced("", name, "", Getenv(env));
    OneMark(name);
  }
}
