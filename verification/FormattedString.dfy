/**
  Templates with %{name} placeholders: the parser, the printer that is its inverse, and Format as substitution.
*/
module FormattedStrings {
  import opened Search
  import opened Sequences
  import Env = EnvPlaceholders

  const OPEN: string := "%{"
  const CLOSE: string := "}"

  // ----- printing -----

  /** A template cut into parts; Wrong ends one whose next placeholder is empty or not closed. */
  datatype Parts = End(text: string) | Wrong(text: string) | Part(text: string, name: string, rest: Parts)

  function Placeholder(name: string): string {
    OPEN + name + CLOSE
  }

  /** The template with these parts. */
  function Print(ps: Parts): string {
    match ps
    case End(s) => s
    case Wrong(s) => s
    case Part(s, n, rest) => s + (Placeholder(n) + Print(rest))
  }

  predicate GoodStatic(s: string) {
    FindFrom(s, OPEN, 0) == Npos
  }

  predicate GoodName(n: string) {
    n != [] && FindFrom(n, CLOSE, 0) == Npos
  }

  predicate WellFormed(ps: Parts) {
    GoodStatic(ps.text)
    && match ps
       case End(_) => true
       case Wrong(_) => false
       case Part(_, n, rest) => GoodName(n) && WellFormed(rest)
  }

  // ----- parsing -----

  /** What the scan finds next: no placeholder, a wrong one, or one whose name ends at closing. */
  datatype Next = None | Bad(opening: nat) | Good(opening: nat, closing: nat)

  function NextFrom(t: string, p: nat): (x: Next)
    ensures x.Bad? ==> p <= x.opening < |t|
    ensures x.Good? ==> p <= x.opening && x.opening + 2 < x.closing < |t|
  {
    match FindFrom(t, OPEN, p)
    case Npos => None
    case At(n) =>
      var closing := FindFrom(t, CLOSE, n);
      if closing == Npos || n + 2 >= closing.index then Bad(n) else Good(n, closing.index)
  }

  function ParseFrom(t: string, p: nat): Parts
    requires p <= |t|
    decreases |t| - p
  {
    match NextFrom(t, p)
    case None => End(t[p..])
    case Bad(n) => Wrong(t[p..n])
    case Good(n, c) => Part(t[p..n], t[n + 2..c], ParseFrom(t, c + 1))
  }

  predicate Complete(ps: Parts) {
    match ps
    case End(_) => true
    case Wrong(_) => false
    case Part(_, _, rest) => Complete(rest)
  }

  /** A closed placeholder as it stands in the template. */
  lemma PlaceholderIn(t: string, n: nat, c: nat)
    requires OccursAt(t, OPEN, n) && OccursAt(t, CLOSE, c) && n + 2 <= c
    ensures t[n..c + 1] == Placeholder(t[n + 2..c])
  {
    assert t[n..c + 1] == t[n..n + 2] + t[n + 2..c] + t[c..c + 1];
  }

  /** The brace that closes a placeholder comes after the two characters that open it. */
  lemma BraceAfterOpen(t: string, n: nat)
    requires OccursAt(t, OPEN, n)
    ensures FindFrom(t, CLOSE, n) == FindFrom(t, CLOSE, n + 2)
  {
    PairOccurs(t, OPEN, n);
    forall j | n <= j < n + 2
      ensures !OccursAt(t, CLOSE, j)
    {
      CharOccurs(t, '}', j);
    }
    FindFirst(t, CLOSE, n + 2);
    FindFirst(t, CLOSE, n);
    if FindFrom(t, CLOSE, n + 2).At? {
      FindIs(t, CLOSE, n, FindFrom(t, CLOSE, n + 2).index);
    }
  }

  /** How far the printed parts reach: to the end, or to the placeholder that is wrong. */
  function Reach(t: string, p: nat): (e: nat)
    requires p <= |t|
    ensures p <= e <= |t|
    decreases |t| - p
  {
    match NextFrom(t, p)
    case None => |t|
    case Bad(n) => n
    case Good(_, c) => Reach(t, c + 1)
  }

  /** A good placeholder as it stands in the template. */
  lemma GoodOne(t: string, p: nat, n: nat, c: nat)
    requires NextFrom(t, p) == Good(n, c)
    ensures t[n..c + 1] == Placeholder(t[n + 2..c])
  {
    FindFirst(t, OPEN, p);
    FindFirst(t, CLOSE, n);
    PlaceholderIn(t, n, c);
  }

  lemma BadOne(t: string, p: nat)
    requires NextFrom(t, p).Bad?
    ensures BadAt(t, NextFrom(t, p).opening)
  {
    FindFirst(t, OPEN, p);
    BraceAfterOpen(t, NextFrom(t, p).opening);
    FindFirst(t, CLOSE, NextFrom(t, p).opening);
  }

  /** Interleaving the parts gives the template back, up to the wrong placeholder if there is one. */
  lemma {:induction false} PrintParse(t: string, p: nat)
    requires p <= |t|
    ensures Print(ParseFrom(t, p)) == t[p..Reach(t, p)]
    decreases |t| - p
  {
    match NextFrom(t, p)
    case None =>
      assert t[p..] == t[p..|t|];
    case Bad(n) =>
    case Good(n, c) =>
      PrintParse(t, c + 1);
      PrintGood(t, p, n, c, Reach(t, c + 1));
  }

  lemma PrintGood(t: string, p: nat, n: nat, c: nat, e: nat)
    requires p <= |t| && NextFrom(t, p) == Good(n, c) && c + 1 <= e <= |t| && Print(ParseFrom(t, c + 1)) == t[c + 1..e]
    ensures Print(ParseFrom(t, p)) == t[p..e]
  {
    GoodOne(t, p, n, c);
    PartIs(t, p, n, c);
    PrintPart(t, p, n, c + 1, e, t[n + 2..c], ParseFrom(t, c + 1));
  }

  lemma PartIs(t: string, p: nat, n: nat, c: nat)
    requires p <= |t| && NextFrom(t, p) == Good(n, c)
    ensures ParseFrom(t, p) == Part(t[p..n], t[n + 2..c], ParseFrom(t, c + 1))
  {
  }

  lemma PrintPart(t: string, p: nat, n: nat, c: nat, e: nat, name: string, rest: Parts)
    requires p <= n <= c <= e <= |t| && t[n..c] == Placeholder(name) && Print(rest) == t[c..e]
    ensures Print(Part(t[p..n], name, rest)) == t[p..e]
  {
    CutTwice(t, p, n, c, e);
  }

  lemma CutTwice(t: string, a: nat, b: nat, c: nat, d: nat)
    requires a <= b <= c <= d <= |t|
    ensures t[a..d] == t[a..b] + (t[b..c] + t[c..d])
  {
  }

  /** A placeholder that is empty or not closed. */
  predicate BadAt(t: string, e: nat) {
    OccursAt(t, OPEN, e) && (FindFrom(t, CLOSE, e + 2) == Npos || OccursAt(t, CLOSE, e + 2))
  }

  lemma ReachStep(t: string, p: nat)
    requires p <= |t|
    ensures match NextFrom(t, p)
            case None => Reach(t, p) == |t| && Complete(ParseFrom(t, p))
            case Bad(n) => Reach(t, p) == n && !Complete(ParseFrom(t, p))
            case Good(_, c) =>
              Reach(t, p) == Reach(t, c + 1) && (Complete(ParseFrom(t, p)) <==> Complete(ParseFrom(t, c + 1)))
  {
  }

  /** The whole template is printed exactly when the parse succeeds; otherwise a bad placeholder follows. */
  lemma {:induction false} ReachEnd(t: string, p: nat)
    requires p <= |t|
    ensures if Complete(ParseFrom(t, p)) then Reach(t, p) == |t| else BadAt(t, Reach(t, p))
    decreases |t| - p
  {
    ReachStep(t, p);
    match NextFrom(t, p)
    case None =>
    case Bad(_) => BadOne(t, p);
    case Good(_, c) => ReachEnd(t, c + 1);
  }

  // ----- parsing what was printed -----

  lemma AbsentInside(s: string, d: string, a: nat, b: nat)
    requires a <= b <= |s|
    requires forall j :: a <= j && j + |d| <= b ==> !OccursAt(s, d, j)
    ensures FindFrom(s[a..b], d, 0) == Npos
  {
    var f := s[a..b];
    FindFirst(f, d, 0);
    if FindFrom(f, d, 0).At? {
      OccursInside(s, a, b, d, FindFrom(f, d, 0).index);
    }
  }

  lemma LastPart(t: string, p: nat)
    requires p <= |t| && NextFrom(t, p) == None
    ensures GoodStatic(t[p..])
  {
    FindInRest(t, p, OPEN);
  }

  lemma GoodParts(t: string, p: nat, n: nat, c: nat)
    requires p <= |t| && NextFrom(t, p) == Good(n, c)
    ensures GoodStatic(t[p..n]) && GoodName(t[n + 2..c])
  {
    FindFirst(t, OPEN, p);
    AbsentInside(t, OPEN, p, n);
    FindFirst(t, CLOSE, n);
    AbsentInside(t, CLOSE, n + 2, c);
  }

  lemma {:induction false} ParseWellFormed(t: string, p: nat)
    requires p <= |t| && Complete(ParseFrom(t, p))
    ensures WellFormed(ParseFrom(t, p))
    decreases |t| - p
  {
    match NextFrom(t, p)
    case None =>
      LastPart(t, p);
    case Good(n, c) =>
      ParseWellFormed(t, c + 1);
      GoodParts(t, p, n, c);
  }

  function ShiftNext(x: Next, n: nat): Next {
    match x
    case None => None
    case Bad(o) => Bad(o + n)
    case Good(o, c) => Good(o + n, c + n)
  }

  lemma NextSuffix(a: string, b: string, p: nat)
    ensures NextFrom(a + b, |a| + p) == ShiftNext(NextFrom(b, p), |a|)
  {
    FindInSuffix(a, b, OPEN, p);
    match FindFrom(b, OPEN, p)
    case Npos =>
    case At(n) => FindInSuffix(a, b, CLOSE, n);
  }

  lemma NextShifted(t: string, k: nat, b: string, p: nat)
    requires EndsWith(t, k, b)
    ensures NextFrom(t, k + p) == ShiftNext(NextFrom(b, p), k)
  {
    EndsWithRest(t, k, b);
    NextSuffix(t[..k], b, p);
  }

  /** These are the parts of t from p on. */
  predicate IsParse(t: string, p: nat, ps: Parts)
    requires p <= |t|
    decreases ps
  {
    var x := NextFrom(t, p);
    match ps
    case End(s) => x == None && s == t[p..]
    case Wrong(s) => x.Bad? && s == t[p..x.opening]
    case Part(s, name, rest) =>
      x.Good? && s == t[p..x.opening] && name == t[x.opening + 2..x.closing] && IsParse(t, x.closing + 1, rest)
  }

  lemma {:induction false} SomeParse(t: string, p: nat) returns (ps: Parts)
    requires p <= |t|
    ensures IsParse(t, p, ps)
    decreases |t| - p
  {
    match NextFrom(t, p)
    case None => ps := End(t[p..]);
    case Bad(n) => ps := Wrong(t[p..n]);
    case Good(n, c) =>
      var rest := SomeParse(t, c + 1);
      ps := Part(t[p..n], t[n + 2..c], rest);
  }

  lemma {:induction false} OnlyParse(t: string, p: nat, ps: Parts)
    requires p <= |t| && IsParse(t, p, ps)
    ensures ps == ParseFrom(t, p)
    decreases ps
  {
    if ps.Part? {
      OnlyParse(t, NextFrom(t, p).closing + 1, ps.rest);
    }
  }

  lemma {:induction false} IsParseShifted(t: string, k: nat, b: string, p: nat, ps: Parts)
    requires EndsWith(t, k, b) && p <= |b| && IsParse(b, p, ps)
    ensures IsParse(t, k + p, ps)
    decreases ps
  {
    NextShifted(t, k, b, p);
    var x := NextFrom(b, p);
    match ps
    case End(_) =>
      SliceOfRest(t, k, b, p, |b|);
      assert t[k + p..] == t[k + p..k + |b|] && b[p..] == b[p..|b|];
    case Wrong(_) =>
      SliceOfRest(t, k, b, p, x.opening);
    case Part(_, _, rest) =>
      SliceOfRest(t, k, b, p, x.opening);
      SliceOfRest(t, k, b, x.opening + 2, x.closing);
      IsParseShifted(t, k, b, x.closing + 1, rest);
  }

  /** Parsing from a position on depends only on what comes after it. */
  lemma ParseShifted(t: string, k: nat, b: string, p: nat)
    requires EndsWith(t, k, b) && p <= |b|
    ensures ParseFrom(t, k + p) == ParseFrom(b, p)
  {
    var ps := SomeParse(b, p);
    OnlyParse(b, p, ps);
    IsParseShifted(t, k, b, p, ps);
    OnlyParse(t, k + p, ps);
  }

  lemma BraceInTail(s: string, tail: string)
    ensures FindFrom(s + (OPEN + tail), CLOSE, |s| + 2) == Shift(FindFrom(tail, CLOSE, 0), |s| + 2)
  {
    assert s + (OPEN + tail) == (s + OPEN) + tail;
    FindInSuffix(s + OPEN, tail, CLOSE, 0);
  }

  lemma FirstOpening(s: string, tail: string)
    requires GoodStatic(s)
    ensures var t := s + (OPEN + tail);
            FindFrom(t, OPEN, 0) == At(|s|) && FindFrom(t, CLOSE, |s|) == Shift(FindFrom(tail, CLOSE, 0), |s| + 2)
  {
    var t := s + (OPEN + tail);
    FirstAfter(s, OPEN, tail);
    FindFirst(t, OPEN, 0);
    BraceAfterOpen(t, |s|);
    BraceInTail(s, tail);
  }

  /** The first placeholder of a printed template. */
  lemma FirstGood(s: string, n: string, rest: string)
    requires GoodStatic(s) && GoodName(n)
    ensures NextFrom(s + (Placeholder(n) + rest), 0) == Good(|s|, |s| + 2 + |n|)
  {
    var tail := n + (CLOSE + rest);
    assert Placeholder(n) + rest == OPEN + tail;
    FirstOpening(s, tail);
    FirstAfter(n, CLOSE, rest);
  }

  lemma ParseFirstPart(t: string, a: nat, c: nat)
    requires NextFrom(t, 0) == Good(a, c)
    ensures ParseFrom(t, 0) == Part(t[0..a], t[a + 2..c], ParseFrom(t[c + 1..], 0))
  {
    PartIs(t, 0, a, c);
    ParseOfRest(t, c + 1);
  }

  lemma ParseOfRest(t: string, k: nat)
    requires k <= |t|
    ensures ParseFrom(t, k) == ParseFrom(t[k..], 0)
  {
    ParseShifted(t, k, t[k..], 0);
  }

  lemma ParseFirst(s: string, n: string, rest: string)
    requires GoodStatic(s) && GoodName(n)
    ensures ParseFrom(s + (Placeholder(n) + rest), 0) == Part(s, n, ParseFrom(rest, 0))
  {
    var t := s + (Placeholder(n) + rest);
    FirstGood(s, n, rest);
    PiecesOfFirst(s, n, rest);
    ParseFirstPart(t, |s|, |s| + 2 + |n|);
  }

  lemma PiecesOfFirst(s: string, n: string, rest: string)
    ensures var t := s + (Placeholder(n) + rest);
            t[0..|s|] == s && t[|s| + 2..|s| + 2 + |n|] == n && t[|s| + 3 + |n|..] == rest
  {
  }

  lemma {:induction false} ParsePrint(ps: Parts)
    requires WellFormed(ps)
    ensures ParseFrom(Print(ps), 0) == ps && Complete(ps)
  {
    match ps
    case End(s) =>
      assert s[0..] == s;
    case Part(s, n, rest) =>
      ParsePrint(rest);
      ParseFirst(s, n, Print(rest));
  }

  /** A template parses into these parts exactly when they are well formed and print as the template. */
  lemma ParseCharacterised(t: string, ps: Parts)
    ensures ParseFrom(t, 0) == ps && Complete(ps) <==> WellFormed(ps) && Print(ps) == t
  {
    PrintParse(t, 0);
    ReachEnd(t, 0);
    if Complete(ParseFrom(t, 0)) {
      ParseWellFormed(t, 0);
      assert t[0..|t|] == t;
    }
    if WellFormed(ps) {
      ParsePrint(ps);
    }
  }

  // ----- the keys a template requires -----

  /** The names in the order of their first occurrence, each once. */
  function Distinct(names: seq<string>): seq<string> {
    if names == [] then []
    else
      var before := Distinct(names[..|names| - 1]);
      var n := names[|names| - 1];
      if n in before then before else before + [n]
  }

  lemma {:induction false} DistinctHolds(names: seq<string>, n: string)
    ensures n in Distinct(names) <==> n in names
  {
    if names != [] {
      var init := names[..|names| - 1];
      assert names == init + [names[|names| - 1]];
      DistinctHolds(init, n);
    }
  }

  /** Key i stands where it first occurs among the names, and keys keep that order, so none is repeated. */
  lemma {:induction false} DistinctInOrder(names: seq<string>) returns (first: seq<nat>)
    ensures |first| == |Distinct(names)|
    ensures forall i :: 0 <= i < |first| ==>
              first[i] < |names| && names[first[i]] == Distinct(names)[i] && Distinct(names)[i] !in names[..first[i]]
    ensures forall i, j :: 0 <= i < j < |first| ==> first[i] < first[j]
  {
    if names == [] {
      first := [];
    } else {
      var init, n := names[..|names| - 1], names[|names| - 1];
      first := DistinctInOrder(init);
      forall i | 0 <= i < |first|
        ensures names[..first[i]] == init[..first[i]]
      {
      }
      DistinctHolds(init, n);
      if n !in init {
        first := first + [|names| - 1];
      }
    }
  }

  // ----- Format -----

  /** The fillings put between the static parts. */
  function Fill(statics: seq<string>, fillings: seq<string>): string
    requires |statics| == |fillings| + 1
  {
    FillFrom(statics, fillings, 0)
  }

  function FillFrom(statics: seq<string>, fillings: seq<string>, i: nat): string
    requires |statics| == |fillings| + 1 && i <= |fillings|
    decreases |fillings| - i
  {
    if i == |fillings| then statics[i] else statics[i] + (fillings[i] + FillFrom(statics, fillings, i + 1))
  }

  /** An event: a log with its contents, or one of another type. */
  datatype Event = Log(contents: map<string, string>) | OtherEvent

  datatype Lookup = Found(text: string) | Missing

  function Nonempty(m: map<string, string>, key: string): Lookup {
    if key in m && m[key] != [] then Found(m[key]) else Missing
  }

  predicate StartsWith(s: string, prefix: string) {
    |s| >= |prefix| && s[..|prefix|] == prefix
  }

  /** What a name stands for: a content field, a group tag, or nothing at all for any other name. */
  function Meaning(event: Event, tags: map<string, string>, name: string): Lookup {
    if StartsWith(name, "content.") then
      if event.Log? then Nonempty(event.contents, name[8..]) else Missing
    else if StartsWith(name, "tag.") then Nonempty(tags, name[4..])
    else Found([])
  }

  function Text(l: Lookup): string {
    if l.Found? then l.text else []
  }

  function Meanings(event: Event, tags: map<string, string>, names: seq<string>): (ms: seq<string>)
    ensures |ms| == |names|
  {
    seq(|names|, i requires 0 <= i < |names| => Text(Meaning(event, tags, names[i])))
  }

  /** The first i static parts, each with its filling. */
  function FillUpTo(statics: seq<string>, fillings: seq<string>, i: nat): string
    requires |statics| == |fillings| + 1 && i <= |fillings|
  {
    if i == 0 then [] else FillUpTo(statics, fillings, i - 1) + statics[i - 1] + fillings[i - 1]
  }

  /** Name i is the first one without a meaning. */
  ghost predicate MissingAt(names: seq<string>, event: Event, tags: map<string, string>, i: nat) {
    && i < |names| && Meaning(event, tags, names[i]) == Missing
    && forall j :: 0 <= j < i ==> Meaning(event, tags, names[j]).Found?
  }

  /** The text before the first name without a meaning. */
  ghost predicate StoppedShort(
      statics: seq<string>, names: seq<string>, event: Event, tags: map<string, string>, text: string)
    requires |statics| == |names| + 1
  {
    exists i: nat :: MissingAt(names, event, tags, i)
                     && text == FillUpTo(statics, Meanings(event, tags, names), i) + statics[i]
  }

  lemma FillStep(statics: seq<string>, fillings: seq<string>, i: nat, soFar: string)
    requires |statics| == |fillings| + 1 && i < |fillings|
    ensures soFar + FillFrom(statics, fillings, i)
            == (soFar + statics[i] + fillings[i]) + FillFrom(statics, fillings, i + 1)
  {
    var rest := FillFrom(statics, fillings, i + 1);
    Associate(soFar, statics[i], fillings[i] + rest);
    Associate(soFar + statics[i], fillings[i], rest);
  }

  lemma {:induction false} FillSplit(statics: seq<string>, fillings: seq<string>, i: nat)
    requires |statics| == |fillings| + 1 && i <= |fillings|
    ensures Fill(statics, fillings) == FillUpTo(statics, fillings, i) + FillFrom(statics, fillings, i)
  {
    if i > 0 {
      FillSplit(statics, fillings, i - 1);
      FillStep(statics, fillings, i - 1, FillUpTo(statics, fillings, i - 1));
    } else {
      assert [] + FillFrom(statics, fillings, 0) == FillFrom(statics, fillings, 0);
    }
  }

  // ----- the parts as the object keeps them -----

  function Statics(ps: Parts): seq<string> {
    match ps
    case End(s) => [s]
    case Wrong(s) => [s]
    case Part(s, _, rest) => [s] + Statics(rest)
  }

  function Names(ps: Parts): seq<string> {
    match ps
    case End(_) => []
    case Wrong(_) => []
    case Part(_, n, rest) => [n] + Names(rest)
  }

  /** There is one static part more than there are names, whether the parse succeeded or not. */
  lemma {:induction false} OneMoreStatic(ps: Parts)
    ensures |Statics(ps)| == |Names(ps)| + 1
  {
    if ps.Part? {
      OneMoreStatic(ps.rest);
    }
  }

  /** The parts with each placeholder replaced by what its name means. */
  function Substituted(ps: Parts, event: Event, tags: map<string, string>): string {
    match ps
    case End(s) => s
    case Wrong(s) => s
    case Part(s, n, rest) => s + (Text(Meaning(event, tags, n)) + Substituted(rest, event, tags))
  }

  lemma {:induction false} FillShifted(s: string, ss: seq<string>, f: string, fs: seq<string>, i: nat)
    requires |ss| == |fs| + 1 && i <= |fs|
    ensures FillFrom([s] + ss, [f] + fs, i + 1) == FillFrom(ss, fs, i)
    decreases |fs| - i
  {
    assert ([s] + ss)[i + 1] == ss[i];
    if i < |fs| {
      assert ([f] + fs)[i + 1] == fs[i];
      FillShifted(s, ss, f, fs, i + 1);
    }
  }

  lemma FillCons(s: string, ss: seq<string>, f: string, fs: seq<string>)
    requires |ss| == |fs| + 1
    ensures Fill([s] + ss, [f] + fs) == s + (f + Fill(ss, fs))
  {
    FillShifted(s, ss, f, fs, 0);
  }

  lemma {:induction false} FillIsSubstitution(ps: Parts, event: Event, tags: map<string, string>)
    ensures |Statics(ps)| == |Names(ps)| + 1
    ensures Fill(Statics(ps), Meanings(event, tags, Names(ps))) == Substituted(ps, event, tags)
  {
    OneMoreStatic(ps);
    if ps.Part? {
      FillIsSubstitution(ps.rest, event, tags);
      var m := Text(Meaning(event, tags, ps.name));
      assert Meanings(event, tags, Names(ps)) == [m] + Meanings(event, tags, Names(ps.rest));
      FillCons(ps.text, Statics(ps.rest), m, Meanings(event, tags, Names(ps.rest)));
    }
  }

  /** The two lists after adding the parts to them from left to right. */
  function Pushed(ss: seq<string>, ns: seq<string>, ps: Parts): (seq<string>, seq<string>)
    decreases ps
  {
    match ps
    case End(s) => (ss + [s], ns)
    case Wrong(s) => (ss + [s], ns)
    case Part(s, n, rest) => Pushed(ss + [s], ns + [n], rest)
  }

  lemma {:induction false} PushedAll(ss: seq<string>, ns: seq<string>, ps: Parts)
    ensures Pushed(ss, ns, ps) == (ss + Statics(ps), ns + Names(ps))
    decreases ps
  {
    if ps.Part? {
      PushedAll(ss + [ps.text], ns + [ps.name], ps.rest);
      assert ss + [ps.text] + Statics(ps.rest) == ss + ([ps.text] + Statics(ps.rest));
      assert ns + [ps.name] + Names(ps.rest) == ns + ([ps.name] + Names(ps.rest));
    } else {
      assert ns + [] == ns;
    }
  }

  /** What one round of the parsing loop finds: the text before the next placeholder, and its name. */
  method NextPart(t: string, p: nat) returns (next: Next, part: string, name: string)
    requires p <= |t|
    ensures next == NextFrom(t, p)
    ensures part == if next == None then t[p..] else t[p..next.opening]
    ensures next.Good? ==> name == t[next.opening + 2..next.closing]
  {
    part, name := [], [];
    var opening := FindFrom(t, OPEN, p);
    if opening == Npos {
      return None, t[p..], name;
    }
    part := t[p..opening.index];
    var closing := FindFrom(t, CLOSE, opening.index);
    if closing == Npos || opening.index + 2 >= closing.index {
      return Bad(opening.index), part, name;
    }
    name := t[opening.index + 2..closing.index];
    next := Good(opening.index, closing.index);
  }

  lemma AtEnd(t: string)
    ensures ParseFrom(t, |t|) == End([])
  {
    FindNone(t, OPEN, |t|);
  }

  /** One round of the loop of ParseFormatString; it returns when there is no further placeholder or a wrong one. */
  method ScanOnce(t: string, p: nat, ss: seq<string>, ns: seq<string>, ks: seq<string>)
    returns (done: bool, ok: bool, statics: seq<string>, names: seq<string>, keys: seq<string>, next: nat)
    requires p < |t| && ks == Distinct(ns)
    ensures keys == Distinct(names)
    ensures done ==> ok == Complete(ParseFrom(t, p)) && (statics, names) == Pushed(ss, ns, ParseFrom(t, p))
    ensures !done ==> p < next <= |t| && (Complete(ParseFrom(t, p)) <==> Complete(ParseFrom(t, next)))
    ensures !done ==> Pushed(statics, names, ParseFrom(t, next)) == Pushed(ss, ns, ParseFrom(t, p))
  {
    ScanStep(t, p, ss, ns);
    var found, part, name := NextPart(t, p);
    statics, names, keys, next := ss + [part], ns, ks, 0;
    if !found.Good? {
      return true, found == None, statics, names, keys, next;
    }
    keys := AddKey(ks, ns, name);
    return false, true, statics, ns + [name], keys, found.closing + 1;
  }

  /** The loop of ParseFormatString; the lists are the ones the object keeps, empty at first. */
  method ScanParts(t: string) returns (ok: bool, statics: seq<string>, names: seq<string>, keys: seq<string>)
    ensures ok == Complete(ParseFrom(t, 0)) && (statics, names) == Pushed([], [], ParseFrom(t, 0))
    ensures keys == Distinct(names)
  {
    statics, names, keys := [], [], [];
    var position: nat := 0;
    while position < |t|
      invariant position <= |t| && keys == Distinct(names)
      invariant Complete(ParseFrom(t, position)) == Complete(ParseFrom(t, 0))
      invariant Pushed(statics, names, ParseFrom(t, position)) == Pushed([], [], ParseFrom(t, 0))
      decreases |t| - position
    {
      var done;
      done, ok, statics, names, keys, position := ScanOnce(t, position, statics, names, keys);
      if done {
        return;
      }
    }
    AtEnd(t);
    return true, statics + [t[position..]], names, keys;
  }

  lemma ScanStep(t: string, p: nat, ss: seq<string>, ns: seq<string>)
    requires p <= |t|
    ensures match NextFrom(t, p)
            case None => Complete(ParseFrom(t, p)) && Pushed(ss, ns, ParseFrom(t, p)) == (ss + [t[p..]], ns)
            case Bad(n) => !Complete(ParseFrom(t, p)) && Pushed(ss, ns, ParseFrom(t, p)) == (ss + [t[p..n]], ns)
            case Good(n, c) =>
              && (Complete(ParseFrom(t, p)) <==> Complete(ParseFrom(t, c + 1)))
              && Pushed(ss, ns, ParseFrom(t, p)) == Pushed(ss + [t[p..n]], ns + [t[n + 2..c]], ParseFrom(t, c + 1))
  {
    match NextFrom(t, p)
    case None =>
    case Bad(n) =>
    case Good(n, c) => PartIs(t, p, n, c);
  }

  class FormattedString {
    var template: string
    var statics: seq<string>
    var names: seq<string>
    var requiredKeys: seq<string>

    /** The template is the format string with the environment expanded once; a failed parse leaves the parts before
        the wrong placeholder. */
    method Init(formatString: string, env: map<string, string>) returns (ok: bool)
      modifies this
      ensures template == Env.Expand(formatString, Env.Getenv(env))
      ensures var ps := ParseFrom(template, 0);
              ok == Complete(ps) && statics == Statics(ps) && names == Names(ps) && requiredKeys == Distinct(Names(ps))
    {
      template := Env.ExpandEnvPlaceholders(formatString, env);
      statics, names, requiredKeys := [], [], [];
      ok := ParseFormatString(template);
      PushedAll([], [], ParseFrom(template, 0));
    }

    method ParseFormatString(t: string) returns (ok: bool)
      requires statics == [] && names == [] && requiredKeys == []
      modifies this`statics, this`names, this`requiredKeys
      ensures ok == Complete(ParseFrom(t, 0)) && (statics, names) == Pushed([], [], ParseFrom(t, 0))
      ensures requiredKeys == Distinct(names)
    {
      ok, statics, names, requiredKeys := ScanParts(t);
    }

    predicate IsDynamic()
      reads this
    {
      names != []
    }

    /** Succeeds exactly when every name has a meaning; the result is the static parts with the meanings between
        them.  On failure it is left with the text before the first name without a meaning. */
    method Format(event: Event, tags: map<string, string>, given: string) returns (ok: bool, result: string)
      ensures names == [] ==> ok && result == template
      ensures names != [] && |statics| != |names| + 1 ==> result == given
      ensures names != [] && |statics| == |names| + 1 && !ok ==> StoppedShort(statics, names, event, tags, result)
      ensures names != [] ==>
                (ok <==> |statics| == |names| + 1
                         && forall i :: 0 <= i < |names| ==> Meaning(event, tags, names[i]).Found?)
      ensures names != [] && ok ==> result == Fill(statics, Meanings(event, tags, names))
    {
      if !IsDynamic() {
        return true, template;
      }
      if |statics| != |names| + 1 {
        return false, given;
      }
      ok, result := Assemble(statics, names, event, tags);
    }
  }

  /** The loop of Format. */
  method Assemble(statics: seq<string>, names: seq<string>, event: Event, tags: map<string, string>)
    returns (ok: bool, result: string)
    requires |statics| == |names| + 1
    ensures ok <==> forall i :: 0 <= i < |names| ==> Meaning(event, tags, names[i]).Found?
    ensures ok ==> result == Fill(statics, Meanings(event, tags, names))
    ensures !ok ==> StoppedShort(statics, names, event, tags, result)
  {
    result := [];
    ghost var values := Meanings(event, tags, names);
    var i := 0;
    while i < |names|
      invariant 0 <= i <= |names|
      invariant forall j :: 0 <= j < i ==> Meaning(event, tags, names[j]).Found?
      invariant result == FillUpTo(statics, values, i)
    {
      result := result + statics[i];
      var found, text := FindValue(event, tags, names[i]);
      if !found {
        assert MissingAt(names, event, tags, i);
        return false, result;
      }
      result := result + text;
      i := i + 1;
    }
    FillSplit(statics, values, |names|);
    result := result + statics[|statics| - 1];
    ok := true;
  }

  /** The set of names seen so far decides whether a name is a new key. */
  method AddKey(keys: seq<string>, names: seq<string>, name: string) returns (r: seq<string>)
    requires keys == Distinct(names)
    ensures r == Distinct(names + [name])
  {
    assert (names + [name])[..|names|] == names;
    r := if name in keys then keys else keys + [name];
  }

  /** The two branches of Format's loop body. */
  method FindValue(event: Event, tags: map<string, string>, key: string) returns (found: bool, text: string)
    ensures found == Meaning(event, tags, key).Found? && text == Text(Meaning(event, tags, key))
  {
    text := [];
    if |key| >= 8 && key[..8] == "content." {
      if !event.Log? {
        return false, text;
      }
      var field := key[8..];
      var value := if field in event.contents then event.contents[field] else [];
      return value != [], value;
    }
    if |key| >= 4 && key[..4] == "tag." {
      if |tags| == 0 {
        return false, text;
      }
      var field := key[4..];
      if field !in tags || tags[field] == [] {
        return false, text;
      }
      return true, tags[field];
    }
    found := true;
  }

  // ----- the whole -----

  /** What Format returns after a successful Init is the template with its placeholders replaced. */
  lemma FormatSubstitutes(t: string, event: Event, tags: map<string, string>)
    requires Complete(ParseFrom(t, 0))
    ensures var ps := ParseFrom(t, 0);
            && WellFormed(ps) && t == Print(ps)
            && |Statics(ps)| == |Names(ps)| + 1
            && Fill(Statics(ps), Meanings(event, tags, Names(ps))) == Substituted(ps, event, tags)
            && (Names(ps) == [] ==> Substituted(ps, event, tags) == t)
  {
    ParseCharacterised(t, ParseFrom(t, 0));
    FillIsSubstitution(ParseFrom(t, 0), event, tags);
  }

  /** After a failed Init the parts are those of the template before the wrong placeholder; when there is a name among
      them, Format works on these parts. */
  lemma FailedInitTruncates(t: string)
    requires !Complete(ParseFrom(t, 0))
    ensures var ps, e := ParseFrom(t, 0), Reach(t, 0);
            && |Statics(ps)| == |Names(ps)| + 1
            && Print(ps) == t[..e] && e < |t| && BadAt(t, e)
  {
    PrintParse(t, 0);
    ReachEnd(t, 0);
    OneMoreStatic(ParseFrom(t, 0));
  }

  /** An unclosed placeholder after a good one: Init fails, and the parts left are the text up to it. */
  lemma UnclosedAfterGood(s: string, n: string, u: string, rest: string)
    requires GoodStatic(s) && GoodName(n) && GoodStatic(u) && FindFrom(rest, CLOSE, 0) == Npos
    ensures ParseFrom(s + (Placeholder(n) + (u + (OPEN + rest))), 0) == Part(s, n, Wrong(u))
  {
    ParseFirst(s, n, u + (OPEN + rest));
    UnclosedIsWrong(u, rest);
  }

  lemma UnclosedIsWrong(u: string, rest: string)
    requires GoodStatic(u) && FindFrom(rest, CLOSE, 0) == Npos
    ensures ParseFrom(u + (OPEN + rest), 0) == Wrong(u)
  {
    FirstOpening(u, rest);
    assert (u + (OPEN + rest))[0..|u|] == u;
  }

  lemma PlainPieces()
    ensures GoodStatic("") && GoodName("a") && GoodStatic("x") && FindFrom("", CLOSE, 0) == Npos
  {
    FindNone("", OPEN, 0);
    FindNone("", CLOSE, 0);
    FindNone("x", OPEN, 0);
    CharOccurs("a", '}', 0);
    FindNone("a", CLOSE, 0);
  }

  /** For instance: Format then writes the value of a and x, and drops the rest. */
  lemma TruncatedTemplate()
    ensures ParseFrom("%{a}x%{", 0) == Part("", "a", Wrong("x"))
  {
    PlainPieces();
    UnclosedAfterGood("", "a", "x", "");
    SamplePieces();
  }

  lemma SamplePieces()
    ensures "" + (Placeholder("a") + ("x" + (OPEN + ""))) == "%{a}x%{"
  {
  }

  // ----- one placeholder -----

  /** A template that is one placeholder, as Init leaves it and cuts it. */
  lemma OnePlaceholder(name: string, value: string -> string)
    requires name != [] && '}' !in name && FindFrom(name, "${", 0) == Npos
    ensures var t := "%{" + name + "}";
            && Env.Expand(t, value) == t
            && ParseFrom(t, 0) == Part("", name, End(""))
  {
    var t := "%{" + name + "}";
    forall j: nat
      ensures !OccursAt(t, "${", j) && !OccursAt(name, "}", j)
    {
      CharOccurs(name, '}', j);
      PairOccurs(t, "${", j);
      FindNone(name, "${", 0);
      if 2 <= j {
        PairOccurs(name, "${", j - 2);
      }
    }
    FindNone(t, "${", 0);
    Env.PlainText(t, value);
    FindNone(name, "}", 0);
    PlainPieces();
    ParseFirst("", name, "");
    assert "" + (Placeholder(name) + "") == t;
    ParsePrint(End(""));
  }

  lemma FillOne(m: string)
    ensures Fill(["", ""], [m]) == m
  {
    FillCons("", [""], m, []);
    assert Fill([""], []) == "";
    assert "" + (m + "") == m && [""] + [""] == ["", ""] && [m] + [] == [m];
  }

  /** Init and Format on one placeholder. */
  method FormatOne(name: string, event: Event, tags: map<string, string>, env: map<string, string>)
    returns (ok: bool, out: string)
    requires name != [] && '}' !in name && FindFrom(name, "${", 0) == Npos
    ensures ok <==> Meaning(event, tags, name).Found?
    ensures out == Text(Meaning(event, tags, name))
  {
    OnePlaceholder(name, Env.Getenv(env));
    var f := new FormattedString;
    var parsed := f.Init("%{" + name + "}", env);
    assert Statics(End("")) == [""] && Names(End("")) == [];
    assert f.names == [name] && f.statics == ["", ""];
    ok, out := f.Format(event, tags, "");
    var m := Text(Meaning(event, tags, name));
    assert Meanings(event, tags, [name]) == [m];
    FillOne(m);
    assert MissingAt([name], event, tags, 0) ==> !ok;
    assert FillUpTo(["", ""], [m], 0) + "" == "";
  }

  /** %{content.k} is the content k of a log, and fails when the event is no log or its content is missing or empty. */
  method FormatContent(k: string, event: Event, tags: map<string, string>, env: map<string, string>)
    returns (ok: bool, out: string)
    requires '}' !in k && FindFrom("content." + k, "${", 0) == Npos
    ensures ok <==> event.Log? && k in event.contents && event.contents[k] != ""
    ensures out == if ok then event.contents[k] else ""
  {
    assert ("content." + k)[..8] == "content." && ("content." + k)[8..] == k;
    ok, out := FormatOne("content." + k, event, tags, env);
  }

  /** %{tag.k} is the tag k of the group, and fails when it is missing or empty. */
  method FormatTag(k: string, event: Event, tags: map<string, string>, env: map<string, string>)
    returns (ok: bool, out: string)
    requires '}' !in k && FindFrom("tag." + k, "${", 0) == Npos
    ensures ok <==> k in tags && tags[k] != ""
    ensures out == if ok then tags[k] else ""
  {
    assert ("tag." + k)[..4] == "tag." && ("tag." + k)[4..] == k && ("tag." + k)[0] == 't';
    ok, out := FormatOne("tag." + k, event, tags, env);
  }
}
