/** Strings in their language's default order: code points in Python, UTF-16 code units in JavaScript. */
module KeyOrder {
  /** A string as its sequence of ordering units. */
  type Name = seq<int>

  predicate Less(a: Name, b: Name) {
    b != [] && (a == [] || a[0] < b[0] || (a[0] == b[0] && Less(a[1..], b[1..])))
  }

  lemma {:induction false} Trichotomy(a: Name, b: Name)
    ensures a == b || Less(a, b) || Less(b, a)
    ensures !(Less(a, b) && Less(b, a)) && !Less(a, a)
  {
    if a != [] && b != [] && a[0] == b[0] {
      Trichotomy(a[1..], b[1..]);
      assert a == [a[0]] + a[1..] && b == [b[0]] + b[1..];
    }
    if a != [] { Irreflexive(a); }
  }

  lemma {:induction false} Irreflexive(a: Name)
    ensures !Less(a, a)
  {
    if a != [] { Irreflexive(a[1..]); }
  }

  lemma {:induction false} Transitive(a: Name, b: Name, c: Name)
    requires Less(a, b) && Less(b, c)
    ensures Less(a, c)
  {
    if a != [] && a[0] == b[0] == c[0] { Transitive(a[1..], b[1..], c[1..]); }
  }

  ghost predicate Ascending(s: seq<Name>) { forall i, j :: 0 <= i < j < |s| ==> Less(s[i], s[j]) }

  function Insert(k: Name, s: seq<Name>): seq<Name> {
    if s == [] || Less(k, s[0]) then [k] + s else if k == s[0] then s else [s[0]] + Insert(k, s[1..])
  }

  /** `sorted(set(s))`. */
  function SortedSet(s: seq<Name>): seq<Name> { if s == [] then [] else Insert(s[0], SortedSet(s[1..])) }

  lemma {:induction false} InsertSorted(k: Name, s: seq<Name>)
    requires Ascending(s)
    ensures Ascending(Insert(k, s)) && forall x :: x in Insert(k, s) <==> x == k || x in s
  {
    if s != [] {
      Trichotomy(k, s[0]);
      if Less(k, s[0]) {
        forall j | 0 <= j < |s| ensures Less(k, s[j]) { if j > 0 { Transitive(k, s[0], s[j]); } }
      } else if k != s[0] {
        var rest := Insert(k, s[1..]);
        assert forall x :: x in s <==> x == s[0] || x in s[1..];
        InsertSorted(k, s[1..]);
        forall j | 0 <= j < |rest| ensures Less(s[0], rest[j]) {
          assert rest[j] in rest;
          if rest[j] != k {
            var i :| 0 <= i < |s[1..]| && s[1..][i] == rest[j];
            assert s[1..][i] == s[i + 1];
          }
        }
      }
    }
  }

  lemma {:induction false} SortedSetSorts(s: seq<Name>)
    ensures Ascending(SortedSet(s)) && forall x :: x in SortedSet(s) <==> x in s
  {
    if s != [] {
      SortedSetSorts(s[1..]);
      InsertSorted(s[0], SortedSet(s[1..]));
    }
  }

  // ---- One listing only ------------------------------------------------------------------------

  ghost predicate AscendingBy(s: seq<Name>, before: (Name, Name) -> bool) {
    forall i, j :: 0 <= i < j < |s| ==> before(s[i], s[j])
  }

  ghost predicate Asymmetric(before: (Name, Name) -> bool) {
    forall a, b :: before(a, b) ==> !before(b, a)
  }

  /** Under any strict order, a set of names has one ascending listing. */
  lemma {:induction false} AscendingUnique(s: seq<Name>, t: seq<Name>, before: (Name, Name) -> bool)
    requires Asymmetric(before) && AscendingBy(s, before) && AscendingBy(t, before)
    requires forall x :: x in s <==> x in t
    ensures s == t
    decreases |s|
  {
    assert t != [] ==> t[0] in t;
    if s != [] {
      assert s[0] in t && (t != [] ==> t[0] in s);
      forall x ensures x in s[1..] <==> x in t[1..] {
        TailMembers(s, x, before);
        TailMembers(t, x, before);
      }
      AscendingUnique(s[1..], t[1..], before);
    }
  }

  lemma TailMembers(s: seq<Name>, x: Name, before: (Name, Name) -> bool)
    requires s != [] && Asymmetric(before) && AscendingBy(s, before)
    ensures x in s[1..] <==> x in s && x != s[0]
  {
    if x in s[1..] {
      var i :| 0 <= i < |s[1..]| && s[1..][i] == x;
      assert before(s[0], s[i + 1]);
    }
  }

  /** The order itself: a proper prefix comes first, and otherwise the first unit that differs decides. */
  lemma {:induction false} LessExactly(a: Name, b: Name)
    ensures Less(a, b)
      <==> || (a <= b && a != b)
           || exists i :: DiffersAt(a, b, i) && a[i] < b[i]
  {
    if a != [] && b != [] && a[0] == b[0] {
      LessExactly(a[1..], b[1..]);
      assert a <= b <==> a[1..] <= b[1..] by {
        assert a == [a[0]] + a[1..] && b == [b[0]] + b[1..];
      }
      assert a == b <==> a[1..] == b[1..] by {
        assert a == [a[0]] + a[1..] && b == [b[0]] + b[1..];
      }
      assert forall i :: DiffersAt(a, b, i) ==> i > 0;
      forall i | DiffersAt(a, b, i) ensures DiffersAt(a[1..], b[1..], i - 1) { DiffersNext(a, b, i); }
      if i :| DiffersAt(a[1..], b[1..], i) && a[1..][i] < b[1..][i] {
        DiffersNext(a, b, i + 1);
        assert DiffersAt(a, b, i + 1);
      }
    } else if a != [] && b != [] {
      assert DiffersAt(a, b, 0);
      assert forall i :: DiffersAt(a, b, i) ==> i == 0 || a[..i][0] == b[..i][0];
    }
  }

  /** The first index at which the two differ. */
  ghost predicate DiffersAt(a: Name, b: Name, i: int) { 0 <= i < |a| && i < |b| && a[..i] == b[..i] && a[i] != b[i] }

  lemma DiffersNext(a: Name, b: Name, i: int)
    requires a != [] && b != [] && a[0] == b[0] && i > 0
    ensures DiffersAt(a, b, i) <==> DiffersAt(a[1..], b[1..], i - 1)
  {
    if i < |a| && i < |b| {
      assert a[..i] == [a[0]] + a[1..][..i - 1] && b[..i] == [b[0]] + b[1..][..i - 1];
      assert a[1..][..i - 1] == a[..i][1..] && b[1..][..i - 1] == b[..i][1..];
    }
  }
}
