/** Substring search as `str.find` and `RegExp` give it, and the facts the scanners rest on. */
module Text {
  import opened Options

  predicate Occurs(s: string, pat: string, i: nat) {
    i + |pat| <= |s| && s[i..i + |pat|] == pat
  }

  /** The first occurrence at or after `from`. */
  function Find(s: string, pat: string, from: nat): (r: Option<nat>)
    ensures r.Some? ==> from <= r.value && Occurs(s, pat, r.value)
    ensures r.Some? ==> forall i :: from <= i < r.value ==> !Occurs(s, pat, i)
    ensures r.None? ==> forall i :: from <= i ==> !Occurs(s, pat, i)
    decreases |s| - from
  {
    if |s| < from + |pat| then None
    else if Occurs(s, pat, from) then Some(from)
    else Find(s, pat, from + 1)
  }

  predicate Contains(s: string, pat: string) { Find(s, pat, 0).Some? }

  lemma FindIs(s: string, pat: string, from: nat, i: nat)
    requires from <= i && Occurs(s, pat, i)
    requires forall j :: from <= j < i ==> !Occurs(s, pat, j)
    ensures Find(s, pat, from) == Some(i)
  {
  }

  /** No proper prefix of `pat` is also a suffix: two occurrences never overlap. */
  ghost predicate NoBorder(pat: string) {
    forall d :: 0 < d < |pat| ==> pat[d..] != pat[..|pat| - d]
  }

  lemma Overlapping(s: string, pat: string, i: nat, j: nat)
    requires Occurs(s, pat, i) && Occurs(s, pat, j) && i < j < i + |pat|
    ensures pat[j - i..] == pat[..|pat| - (j - i)]
  {
    assert pat[j - i..] == s[j..i + |pat|];
    assert pat[..|pat| - (j - i)] == s[j..i + |pat|];
  }

  lemma NoOverlap(s: string, pat: string, i: nat, j: nat)
    requires NoBorder(pat) && Occurs(s, pat, i) && Occurs(s, pat, j) && i < j
    ensures i + |pat| <= j
  {
    if j < i + |pat| {
      Overlapping(s, pat, i, j);
    }
  }

  /** An occurrence that ends within the first part of a concatenation is an occurrence in it. */
  lemma OccursInFirst(a: string, b: string, pat: string, i: nat)
    requires i + |pat| <= |a|
    ensures Occurs(a + b, pat, i) <==> Occurs(a, pat, i)
  {
    assert (a + b)[i..i + |pat|] == a[i..i + |pat|];
  }

  lemma OccursWithin(s: string, pat: string, i: nat)
    requires Occurs(s, pat, i)
    ensures i + |pat| <= |s|
  {
  }

  lemma OccursNested(s: string, pat: string, i: nat, inner: string, j: nat)
    requires Occurs(s, pat, i) && j + |inner| <= |pat|
    ensures Occurs(s, inner, i + j) <==> Occurs(pat, inner, j)
  {
    var here, there := s[i + j..i + j + |inner|], pat[j..j + |inner|];
    forall k | 0 <= k < |inner| ensures here[k] == there[k] { OccursAt(s, pat, i, j + k); }
    assert here == there;
  }

  lemma OccursShifted(a: string, b: string, pat: string, i: nat)
    ensures Occurs(a + b, pat, |a| + i) <==> Occurs(b, pat, i)
  {
    if i + |pat| <= |b| { assert (a + b)[|a| + i..|a| + i + |pat|] == b[i..i + |pat|]; }
  }

  lemma OccursAt(s: string, pat: string, i: nat, k: nat)
    requires Occurs(s, pat, i) && k < |pat|
    ensures s[i + k] == pat[k]
  {
    assert s[i + k] == s[i..i + |pat|][k];
  }

  lemma PartsAt(s: string, pat: string, i: nat, k: nat)
    requires k < |pat| && i + k < |s| && s[i + k] != pat[k]
    ensures !Occurs(s, pat, i)
  {
    hide Occurs;
    if Occurs(s, pat, i) { OccursAt(s, pat, i, k); }
  }

  lemma Regroup<T>(a: seq<T>, b: seq<T>, c: seq<T>)
    ensures a + b + c == a + (b + c)
  {
  }

  lemma Middle<T>(a: seq<T>, b: seq<T>, c: seq<T>)
    ensures (a + (b + c))[|a|..|a| + |b|] == b && (a + (b + c))[|a| + |b|..] == c
  {
  }

  /** Only what follows a position matters to a search from there on. */
  lemma FindShifted(a: string, s: string, pat: string, from: nat)
    ensures Find(a + s, pat, |a| + from) ==
      match Find(s, pat, from) case None => None case Some(i) => Some(|a| + i)
  {
    hide Find, Occurs;
    forall j: nat | j >= |a| + from ensures Occurs(a + s, pat, j) <==> Occurs(s, pat, j - |a|) {
      OccursShifted(a, s, pat, j - |a|);
    }
    var here, there := Find(a + s, pat, |a| + from), Find(s, pat, from);
    if there.Some? { assert Occurs(a + s, pat, |a| + there.value); }
    if here.Some? { assert Occurs(s, pat, here.value - |a|); }
  }
}
