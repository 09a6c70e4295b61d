/** First occurrences in strings, shared by the splitters, ReplaceString and the template parser. */
module Search {

  /** A position, or std::string::npos. */
  datatype Position = At(index: nat) | Npos

  predicate OccursAt(s: string, d: string, i: nat) {
    i + |d| <= |s| && forall k :: 0 <= k < |d| ==> s[i + k] == d[k]
  }

  predicate FirstAt(s: string, d: string, from: nat, i: nat) {
    from <= i && OccursAt(s, d, i) && forall j :: from <= j < i ==> !OccursAt(s, d, j)
  }

  /** s.find(d, from). */
  function FindFrom(s: string, d: string, from: nat): (p: Position)
    ensures p.At? ==> from <= p.index && p.index + |d| <= |s|
  {
    if exists i: nat | i <= |s| :: FirstAt(s, d, from, i) then
      var i: nat :| i <= |s| && FirstAt(s, d, from, i);
      At(i)
    else Npos
  }

  /** When there is an occurrence there is a first one. */
  lemma {:induction false} SomeFirst(s: string, d: string, from: nat, j: nat) returns (i: nat)
    requires from <= j && OccursAt(s, d, j)
    ensures i <= j && FirstAt(s, d, from, i)
    decreases j
  {
    if k :| from <= k < j && OccursAt(s, d, k) {
      i := SomeFirst(s, d, from, k);
    } else {
      i := j;
    }
  }

  /** find returns npos exactly when there is no occurrence. */
  lemma FindNone(s: string, d: string, from: nat)
    ensures FindFrom(s, d, from) == Npos <==> forall j: nat :: from <= j ==> !OccursAt(s, d, j)
  {
    if j: nat :| from <= j && OccursAt(s, d, j) {
      var i := SomeFirst(s, d, from, j);
    }
  }

  /** find returns the first occurrence. */
  lemma FindIs(s: string, d: string, from: nat, i: nat)
    ensures FindFrom(s, d, from) == At(i) <==> FirstAt(s, d, from, i)
  {
    if FirstAt(s, d, from, i) {
      assert i <= |s|;
    }
  }

  lemma FindFirst(s: string, d: string, from: nat)
    ensures FindFrom(s, d, from).At? ==> FirstAt(s, d, from, FindFrom(s, d, from).index)
    ensures FindFrom(s, d, from) == Npos ==> forall j: nat :: from <= j ==> !OccursAt(s, d, j)
  {
    FindNone(s, d, from);
  }

  function Shift(p: Position, n: nat): Position {
    if p == Npos then Npos else At(p.index + n)
  }

  lemma OccursInSuffix(a: string, b: string, d: string, i: nat)
    ensures OccursAt(a + b, d, |a| + i) <==> OccursAt(b, d, i)
  {
    if i + |d| <= |b| {
      forall k | 0 <= k < |d|
        ensures (a + b)[|a| + i + k] == d[k] <==> b[i + k] == d[k]
      {
      }
    }
  }

  lemma FirstInSuffix(a: string, b: string, d: string, from: nat, i: nat)
    requires FirstAt(b, d, from, i)
    ensures FirstAt(a + b, d, |a| + from, |a| + i)
  {
    OccursInSuffix(a, b, d, i);
    forall j | |a| + from <= j < |a| + i
      ensures !OccursAt(a + b, d, j)
    {
      OccursInSuffix(a, b, d, j - |a|);
    }
  }

  /** Searching a suffix is searching the whole from where the suffix starts. */
  lemma FindInSuffix(a: string, b: string, d: string, from: nat)
    ensures FindFrom(a + b, d, |a| + from) == Shift(FindFrom(b, d, from), |a|)
  {
    match FindFrom(b, d, from)
    case Npos =>
      FindNone(b, d, from);
      forall j: nat | |a| + from <= j
        ensures !OccursAt(a + b, d, j)
      {
        OccursInSuffix(a, b, d, j - |a|);
      }
      FindNone(a + b, d, |a| + from);
    case At(i) =>
      FirstInSuffix(a, b, d, from, i);
      FindIs(a + b, d, |a| + from, |a| + i);
  }

  lemma FindInRest(s: string, p: nat, d: string)
    requires p <= |s|
    ensures FindFrom(s, d, p) == Shift(FindFrom(s[p..], d, 0), p)
  {
    assert s == s[..p] + s[p..];
    FindInSuffix(s[..p], s[p..], d, 0);
  }

  lemma OccursInside(s: string, p: nat, e: nat, d: string, j: nat)
    requires p <= e <= |s| && OccursAt(s[p..e], d, j)
    ensures OccursAt(s, d, p + j) && p + j + |d| <= e
  {
    forall k | 0 <= k < |d|
      ensures s[p + j + k] == d[k]
    {
      assert s[p..e][j + k] == d[k];
    }
  }

  lemma CharOccurs(s: string, c: char, j: nat)
    ensures OccursAt(s, [c], j) <==> j < |s| && s[j] == c
  {
    if j < |s| {
      assert s[j + 0] == s[j] && [c][0] == c;
    }
  }

  /** An occurrence that ends inside the first part of a string is one of that part. */
  lemma OccursInPrefix(a: string, b: string, d: string, j: nat)
    requires j + |d| <= |a|
    ensures OccursAt(a + b, d, j) <==> OccursAt(a, d, j)
  {
    forall k | 0 <= k < |d|
      ensures (a + b)[j + k] == d[k] <==> a[j + k] == d[k]
    {
    }
  }

  lemma PairOccurs(s: string, d: string, j: nat)
    requires |d| == 2
    ensures OccursAt(s, d, j) <==> j + 1 < |s| && s[j] == d[0] && s[j + 1] == d[1]
  {
    if j + 1 < |s| {
      assert s[j + 0] == s[j];
    }
  }

  /** A mark that does not overlap itself, right after text without it, is the first one. */
  lemma FirstAfter(s: string, d: string, rest: string)
    requires |d| == 1 || (|d| == 2 && d[0] != d[1])
    requires FindFrom(s, d, 0) == Npos
    ensures FindFrom(s + (d + rest), d, 0) == At(|s|)
  {
    var t := s + (d + rest);
    FindNone(s, d, 0);
    assert t[|s|] == d[0];
    forall j | 0 <= j < |s|
      ensures !OccursAt(t, d, j)
    {
      if j + |d| <= |s| {
        OccursInPrefix(s, d + rest, d, j);
      } else {
        PairOccurs(t, d, j);
      }
    }
    assert t[|s|..|s| + |d|] == d;
    FindIs(t, d, 0, |s|);
  }

  /** From position k on, t is b. */
  ghost predicate EndsWith(t: string, k: nat, b: string) {
    k + |b| == |t| && forall i :: 0 <= i < |b| ==> t[k + i] == b[i]
  }

  lemma EndsWithRest(t: string, k: nat, b: string)
    requires EndsWith(t, k, b)
    ensures t == t[..k] + b && t[k..] == b
  {
  }

  lemma SliceOfRest(t: string, k: nat, b: string, i: nat, j: nat)
    requires EndsWith(t, k, b) && i <= j <= |b|
    ensures t[k + i..k + j] == b[i..j]
  {
    forall x | 0 <= x < j - i
      ensures t[k + i..k + j][x] == b[i..j][x]
    {
      assert b[i + x] == t[k + (i + x)];
    }
  }
}
