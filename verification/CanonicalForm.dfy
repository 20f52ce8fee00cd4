/** Sorting keys at every depth, as the engine's serialiser does before writing JSON. */
module CanonicalForm {
  import opened KeyOrder

  /** A JSON value. `members` is an object's own enumerable properties in enumeration order. */
  datatype Value =
    | Null
    | Bool(b: bool)
    | Number(n: int)
    | Text(s: Name)
    | Array(items: seq<Value>)
    | Object(members: seq<(Name, Value)>)

  type Members = seq<(Name, Value)>

  function KeysOf(m: Members): seq<Name> { seq(|m|, i requires 0 <= i < |m| => m[i].0) }

  function Lookup(m: Members, k: Name): Value {
    if m == [] then Null else if m[0].0 == k then m[0].1 else Lookup(m[1..], k)
  }

  // ---- Own-property order (section 10.1.11.1 of ECMA-262) ----------------------------------------

  predicate Digits(k: Name) { forall c :: c in k ==> 48 <= c <= 57 }

  function Numeral(k: Name): int { if k == [] then 0 else 10 * Numeral(k[..|k| - 1]) + (k[|k| - 1] - 48) }

  /** An array index: a canonical numeral below 2^32 - 1. */
  predicate IsIndex(k: Name) {
    k != [] && Digits(k) && (k[0] == 48 ==> |k| == 1) && Numeral(k) < 0xFFFF_FFFF
  }

  /** Array indices come first, by value. */
  function InsertIndex(m: Members, k: Name, v: Value): Members {
    if m == [] || !IsIndex(m[0].0) || Numeral(k) < Numeral(m[0].0) then [(k, v)] + m
    else [m[0]] + InsertIndex(m[1..], k, v)
  }

  function Replace(m: Members, k: Name, v: Value): Members {
    if m == [] then [] else if m[0].0 == k then [(k, v)] + m[1..] else [m[0]] + Replace(m[1..], k, v)
  }

  /** `record[k] = v` on an object without a prototype: every key is an ordinary one. */
  function Put(m: Members, k: Name, v: Value): Members {
    if k in KeysOf(m) then Replace(m, k, v)
    else if IsIndex(k) then InsertIndex(m, k, v)
    else m + [(k, v)]
  }

  /** Filling a fresh record from `source`, key by key. */
  function Filled(keys: seq<Name>, source: Members): Members {
    if keys == [] then []
    else
      var last := keys[|keys| - 1];
      Put(Filled(keys[..|keys| - 1], source), last, Lookup(source, last))
  }

  function SortKeys(v: Value): Value {
    match v
    case Array(items) => Array(seq(|items|, i requires 0 <= i < |items| => SortKeys(items[i])))
    case Object(members) =>
      var sorted := seq(|members|, i requires 0 <= i < |members| => (members[i].0, SortKeys(members[i].1)));
      Object(Filled(SortedSet(KeysOf(members)), sorted))
    case _ => v
  }

  /** Where a key stands among the enumerated ones after sorting. */
  predicate Before(a: Name, b: Name) {
    if IsIndex(a) then IsIndex(b) ==> Numeral(a) < Numeral(b) else !IsIndex(b) && Less(a, b)
  }

  lemma BeforeIsStrict()
    ensures Asymmetric(Before)
  {
    forall a, b | Before(a, b) ensures !Before(b, a) { Trichotomy(a, b); }
  }

  // ---- Canonical numerals name their values ----------------------------------------------------------

  predicate Canonical(k: Name) { k != [] && Digits(k) && (k[0] == 48 ==> |k| == 1) }

  lemma {:induction false} NumeralPositive(k: Name)
    requires Digits(k)
    ensures Numeral(k) >= 0 && (Canonical(k) && |k| > 1 ==> Numeral(k) >= 10)
  {
    if k != [] {
      var front := k[..|k| - 1];
      assert forall c :: c in front ==> c in k;
      assert k[|k| - 1] in k;
      NumeralPositive(front);
      if |k| == 2 { assert Numeral(front) == k[0] - 48 by { assert front[..0] == []; } assert k[0] in k; }
    }
  }

  lemma {:induction false} NumeralUnique(a: Name, b: Name)
    requires Canonical(a) && Canonical(b) && Numeral(a) == Numeral(b)
    ensures a == b
  {
    var a', b' := a[..|a| - 1], b[..|b| - 1];
    assert forall c :: c in a' ==> c in a;
    assert forall c :: c in b' ==> c in b;
    assert a[|a| - 1] in a && b[|b| - 1] in b && a[0] in a && b[0] in b;
    NumeralPositive(a);
    NumeralPositive(b);
    NumeralPositive(a');
    NumeralPositive(b');
    if |a| > 1 && |b| > 1 { NumeralUnique(a', b'); }
    assert a == a' + [a[|a| - 1]] && b == b' + [b[|b| - 1]];
  }

  // ---- Filling a record --------------------------------------------------------------------------------

  ghost predicate InOrder(m: Members) { AscendingBy(KeysOf(m), Before) }

  lemma {:induction false} LookupAt(m: Members, i: nat)
    requires i < |m| && forall j :: 0 <= j < i ==> m[j].0 != m[i].0
    ensures Lookup(m, m[i].0) == m[i].1
  {
    if i > 0 {
      assert m[1..][i - 1] == m[i];
      assert forall j :: 0 <= j < i - 1 ==> m[1..][j] == m[j + 1];
      LookupAt(m[1..], i - 1);
    }
  }

  lemma HasKey(m: Members, k: Name) returns (i: nat)
    requires k in KeysOf(m)
    ensures i < |m| && m[i].0 == k
  {
    i :| 0 <= i < |m| && KeysOf(m)[i] == k;
  }

  lemma {:induction false} InsertIndexInOrder(m: Members, k: Name, v: Value)
    requires InOrder(m) && IsIndex(k) && k !in KeysOf(m)
    ensures InOrder(InsertIndex(m, k, v))
    ensures forall x :: x in KeysOf(InsertIndex(m, k, v)) <==> x == k || x in KeysOf(m)
    ensures forall x :: Lookup(InsertIndex(m, k, v), x) == if x == k then v else Lookup(m, x)
  {
    var r := InsertIndex(m, k, v);
    if m == [] || !IsIndex(m[0].0) || Numeral(k) < Numeral(m[0].0) {
      assert r[1..] == m;
      KeysOfCons((k, v), m);
      forall j | 0 <= j < |m| ensures Before(k, m[j].0) { if j > 0 { assert Before(KeysOf(m)[0], KeysOf(m)[j]); } }
    } else {
      var rest := InsertIndex(m[1..], k, v);
      assert m == [m[0]] + m[1..] && r[1..] == rest;
      KeysOfCons(m[0], m[1..]);
      KeysOfCons(m[0], rest);
      assert KeysOf(m[1..]) == KeysOf(m)[1..];
      InsertIndexInOrder(m[1..], k, v);
      assert m[0].0 == KeysOf(m)[0];
      if Numeral(k) == Numeral(m[0].0) { NumeralUnique(k, m[0].0); }
      forall j | 0 <= j < |rest| ensures Before(m[0].0, rest[j].0) {
        assert KeysOf(rest)[j] in KeysOf(rest);
        if rest[j].0 != k {
          var i := HasKey(m[1..], rest[j].0);
          assert Before(KeysOf(m)[0], KeysOf(m)[i + 1]);
        }
      }
      OrderedCons(m[0], rest);
    }
  }

  lemma KeysOfCons(e: (Name, Value), m: Members)
    ensures KeysOf([e] + m) == [e.0] + KeysOf(m)
  {
  }

  lemma OrderedCons(e: (Name, Value), m: Members)
    requires InOrder(m) && forall j :: 0 <= j < |m| ==> Before(e.0, m[j].0)
    ensures InOrder([e] + m)
  {
    KeysOfCons(e, m);
    var keys := [e.0] + KeysOf(m);
    forall i, j | 0 <= i < j < |keys| ensures Before(keys[i], keys[j]) {
      if i > 0 { assert Before(KeysOf(m)[i - 1], KeysOf(m)[j - 1]); }
    }
  }

  lemma {:induction false} LookupAppended(m: Members, k: Name, v: Value, x: Name)
    requires k !in KeysOf(m)
    ensures Lookup(m + [(k, v)], x) == if x == k then v else Lookup(m, x)
  {
    if m == [] {
      assert m + [(k, v)] == [(k, v)];
    } else {
      KeysOfCons(m[0], m[1..]);
      assert m == [m[0]] + m[1..] && (m + [(k, v)])[1..] == m[1..] + [(k, v)];
      LookupAppended(m[1..], k, v, x);
    }
  }

  /** Filled from ascending keys, a record enumerates indices by value and then the other keys in order;
      it has exactly those keys, each with the value its source has. */
  lemma {:induction false} FilledInOrder(keys: seq<Name>, source: Members)
    requires Ascending(keys)
    ensures var r := Filled(keys, source);
      && InOrder(r) && (forall k :: k in KeysOf(r) <==> k in keys)
      && (forall k :: k in keys ==> Lookup(r, k) == Lookup(source, k))
    decreases |keys|
  {
    if keys != [] {
      var front, last := keys[..|keys| - 1], keys[|keys| - 1];
      var acc := Filled(front, source);
      assert keys == front + [last];
      FilledInOrder(front, source);
      assert last !in KeysOf(acc) by { LastIsNew(keys); }
      if IsIndex(last) {
        InsertIndexInOrder(acc, last, Lookup(source, last));
      } else {
        forall k
          ensures Lookup(acc + [(last, Lookup(source, last))], k)
            == if k == last then Lookup(source, last) else Lookup(acc, k)
        {
          LookupAppended(acc, last, Lookup(source, last), k);
        }
        AppendedInOrder(keys, acc, Lookup(source, last));
      }
    }
  }

  lemma LastIsNew(keys: seq<Name>)
    requires keys != [] && Ascending(keys)
    ensures keys[|keys| - 1] !in keys[..|keys| - 1]
  {
    forall i | 0 <= i < |keys| - 1 ensures keys[i] != keys[|keys| - 1] { Trichotomy(keys[i], keys[|keys| - 1]); }
  }

  lemma AppendedInOrder(keys: seq<Name>, acc: Members, v: Value)
    requires keys != [] && Ascending(keys) && !IsIndex(keys[|keys| - 1])
    requires InOrder(acc) && forall k :: k in KeysOf(acc) <==> k in keys[..|keys| - 1]
    ensures var r := acc + [(keys[|keys| - 1], v)];
      InOrder(r) && forall k :: k in KeysOf(r) <==> k in keys
  {
    var last := keys[|keys| - 1];
    assert KeysOf(acc + [(last, v)]) == KeysOf(acc) + [last];
    assert keys == keys[..|keys| - 1] + [last];
    forall i | 0 <= i < |acc| ensures Before(acc[i].0, last) {
      assert KeysOf(acc)[i] in KeysOf(acc);
      var j :| 0 <= j < |keys| - 1 && keys[j] == acc[i].0;
      assert Less(keys[j], last);
    }
  }

  // ---- What sorting means --------------------------------------------------------------------------------

  /** Equal but for the order in which properties were created, at any depth. */
  ghost predicate Same(v: Value, w: Value) {
    match v
    case Array(items) =>
      && w.Array? && |w.items| == |items|
      && forall i :: 0 <= i < |items| ==> Same(items[i], w.items[i])
    case Object(members) =>
      && w.Object? && (forall k :: k in KeysOf(members) <==> k in KeysOf(w.members))
      && forall i, j :: 0 <= i < |members| && 0 <= j < |w.members| && members[i].0 == w.members[j].0
           ==> Same(members[i].1, w.members[j].1)
    case _ => v == w
  }

  ghost predicate DistinctKeys(m: Members) { forall i, j :: 0 <= i < j < |m| ==> m[i].0 != m[j].0 }

  /** No object has two properties of one name. */
  ghost predicate WellFormed(v: Value) {
    match v
    case Array(items) => forall i :: 0 <= i < |items| ==> WellFormed(items[i])
    case Object(members) => DistinctKeys(members) && forall i :: 0 <= i < |members| ==> WellFormed(members[i].1)
    case _ => true
  }

  /** Every object enumerates its keys in the sorted order. */
  ghost predicate Ordered(v: Value) {
    match v
    case Array(items) => forall i :: 0 <= i < |items| ==> Ordered(items[i])
    case Object(members) => InOrder(members) && forall i :: 0 <= i < |members| ==> Ordered(members[i].1)
    case _ => true
  }

  lemma InOrderDistinct(m: Members)
    requires InOrder(m)
    ensures DistinctKeys(m)
  {
    BeforeIsStrict();
    forall i, j | 0 <= i < j < |m| ensures m[i].0 != m[j].0 { assert Before(KeysOf(m)[i], KeysOf(m)[j]); }
  }

  function SortedValues(m: Members): Members { seq(|m|, i requires 0 <= i < |m| => (m[i].0, SortKeys(m[i].1))) }

  /** Member by member: the sorted object has the same keys, each with its value sorted. */
  lemma SortedMembers(m: Members)
    requires DistinctKeys(m)
    ensures var r := SortKeys(Object(m));
      && r.Object? && InOrder(r.members) && (forall k :: k in KeysOf(m) <==> k in KeysOf(r.members))
      && (forall i, j :: 0 <= i < |m| && 0 <= j < |r.members| && m[i].0 == r.members[j].0 ==>
           r.members[j].1 == SortKeys(m[i].1))
  {
    var keys, source := SortedSet(KeysOf(m)), SortedValues(m);
    var r := Filled(keys, source);
    SortedSetSorts(KeysOf(m));
    FilledInOrder(keys, source);
    assert SortKeys(Object(m)) == Object(r);
    InOrderDistinct(r);
    forall i, j | 0 <= i < |m| && 0 <= j < |r| && m[i].0 == r[j].0 ensures r[j].1 == SortKeys(m[i].1) {
      LookupAt(r, j);
      LookupAt(source, i);
      assert KeysOf(r)[j] in KeysOf(r);
    }
  }

  /** Every result member is the sorted value of some source member. */
  lemma ResultMember(m: Members, j: nat) returns (i: nat)
    requires DistinctKeys(m) && SortKeys(Object(m)).Object? && j < |SortKeys(Object(m)).members|
    ensures i < |m| && m[i].0 == SortKeys(Object(m)).members[j].0
      && SortKeys(Object(m)).members[j].1 == SortKeys(m[i].1)
  {
    SortedMembers(m);
    var r := SortKeys(Object(m)).members;
    assert KeysOf(r)[j] in KeysOf(r);
    i := HasKey(m, r[j].0);
  }

  /** Main result: sorting loses no member and adds none, at any depth, whatever the keys are called. */
  lemma {:induction false} NothingLost(v: Value)
    requires WellFormed(v)
    ensures Same(v, SortKeys(v))
  {
    match v {
      case Array(items) =>
        forall i | 0 <= i < |items| ensures Same(items[i], SortKeys(items[i])) { NothingLost(items[i]); }
      case Object(members) =>
        SortedMembers(members);
        forall i | 0 <= i < |members| ensures Same(members[i].1, SortKeys(members[i].1)) { NothingLost(members[i].1); }
      case _ =>
    }
  }

  /** Sorted at every depth: indices by value, then the other keys by code unit. */
  lemma {:induction false} ResultOrdered(v: Value)
    requires WellFormed(v)
    ensures Ordered(SortKeys(v))
  {
    match v {
      case Array(items) =>
        forall i | 0 <= i < |items| ensures Ordered(SortKeys(items[i])) { ResultOrdered(items[i]); }
      case Object(members) =>
        SortedMembers(members);
        forall j | 0 <= j < |SortKeys(v).members| ensures Ordered(SortKeys(v).members[j].1) {
          var i := ResultMember(members, j);
          ResultOrdered(members[i].1);
        }
      case _ =>
    }
  }

  /** Two ordered values that are the same but for creation order are the same. */
  lemma {:induction false} OrderedUnique(v: Value, w: Value)
    requires Ordered(v) && Ordered(w) && Same(v, w)
    ensures v == w
  {
    match v {
      case Array(items) =>
        forall i | 0 <= i < |items| ensures items[i] == w.items[i] { OrderedUnique(items[i], w.items[i]); }
      case Object(members) =>
        BeforeIsStrict();
        AscendingUnique(KeysOf(members), KeysOf(w.members), Before);
        forall i | 0 <= i < |members| ensures members[i] == w.members[i] {
          assert KeysOf(members)[i] == KeysOf(w.members)[i];
          OrderedUnique(members[i].1, w.members[i].1);
        }
      case _ =>
    }
  }

  lemma {:induction false} SameThrough(u: Value, v: Value, w: Value)
    requires Same(u, v) && Same(u, w)
    ensures Same(v, w)
    decreases u
  {
    match u {
      case Array(items) =>
        forall i | 0 <= i < |items| ensures Same(v.items[i], w.items[i]) {
          SameThrough(items[i], v.items[i], w.items[i]);
        }
      case Object(members) =>
        forall i, j | 0 <= i < |v.members| && 0 <= j < |w.members| && v.members[i].0 == w.members[j].0
          ensures Same(v.members[i].1, w.members[j].1) {
          assert KeysOf(v.members)[i] in KeysOf(v.members);
          var k := HasKey(members, v.members[i].0);
          SameThrough(members[k].1, v.members[i].1, w.members[j].1);
        }
      case _ =>
    }
  }

  /** Main result: the canonical form is the one ordered value that has the given members. */
  lemma CanonicalExactly(v: Value, w: Value)
    requires WellFormed(v)
    ensures w == SortKeys(v) <==> Ordered(w) && Same(v, w)
  {
    NothingLost(v);
    ResultOrdered(v);
    if Ordered(w) && Same(v, w) {
      SameThrough(v, w, SortKeys(v));
      OrderedUnique(w, SortKeys(v));
    }
  }

  lemma {:induction false} SameSelf(v: Value)
    requires WellFormed(v)
    ensures Same(v, v)
  {
    match v {
      case Array(items) => forall i | 0 <= i < |items| ensures Same(items[i], items[i]) { SameSelf(items[i]); }
      case Object(members) =>
        forall i, j | 0 <= i < |members| && 0 <= j < |members| && members[i].0 == members[j].0
          ensures Same(members[i].1, members[j].1) { SameSelf(members[i].1); }
      case _ =>
    }
  }

  /** Sorting twice is sorting once, and values that differ in creation order alone sort alike. */
  lemma SortsAlike(v: Value, w: Value)
    requires WellFormed(v) && WellFormed(w) && Same(v, w)
    ensures SortKeys(v) == SortKeys(w)
  {
    NothingLost(w);
    ResultOrdered(w);
    SameSelf(v);
    SameThrough(v, w, v);
    SameThrough(w, v, SortKeys(w));
    CanonicalExactly(v, SortKeys(w));
  }

  lemma {:induction false} OrderedWellFormed(v: Value)
    requires Ordered(v)
    ensures WellFormed(v)
  {
    match v {
      case Array(items) => forall i | 0 <= i < |items| ensures WellFormed(items[i]) { OrderedWellFormed(items[i]); }
      case Object(members) =>
        InOrderDistinct(members);
        forall i | 0 <= i < |members| ensures WellFormed(members[i].1) { OrderedWellFormed(members[i].1); }
      case _ =>
    }
  }

  lemma SortsOnce(v: Value)
    requires WellFormed(v)
    ensures SortKeys(SortKeys(v)) == SortKeys(v)
  {
    NothingLost(v);
    ResultOrdered(v);
    OrderedWellFormed(SortKeys(v));
    SortsAlike(v, SortKeys(v));
  }

  /** The keys of a sorted object enumerate in code-unit order exactly when each array index among them
      stands, in that order, before every larger index and every other key. */
  lemma LexicographicExactly(m: Members)
    requires DistinctKeys(m)
    ensures Ascending(KeysOf(SortKeys(Object(m)).members))
      <==> forall a, b ::
             a in KeysOf(m) && b in KeysOf(m) && IsIndex(a) && (IsIndex(b) ==> Numeral(a) < Numeral(b)) ==> Less(a, b)
  {
    hide *;
    SortedMembers(m);
    OrderedKeysAscend(SortKeys(Object(m)).members);
  }

  lemma OrderedKeysAscend(r: Members)
    requires InOrder(r)
    ensures Ascending(KeysOf(r))
      <==> forall a, b ::
             a in KeysOf(r) && b in KeysOf(r) && IsIndex(a) && (IsIndex(b) ==> Numeral(a) < Numeral(b)) ==> Less(a, b)
  {
    hide IsIndex, Numeral, Less;
    BeforeIsStrict();
    var keys := KeysOf(r);
    if Ascending(keys) {
      forall a, b | a in keys && b in keys && IsIndex(a) && (IsIndex(b) ==> Numeral(a) < Numeral(b))
        ensures Less(a, b)
      {
        assert Before(a, b) && !Before(b, a);
      }
    }
  }

  /** "10" sorts before "9", but both are array indices and enumerate by value: no claim about
      lexicographic order can cover such keys. */
  lemma IndicesAreNotLexicographic(x: Value, y: Value)
    ensures var ten, nine := [49, 48], [57];
      && Less(ten, nine)
      && KeysOf(Filled([ten, nine], [(ten, x), (nine, y)])) == [nine, ten]
  {
    var ten, nine: Name := [49, 48], [57];
    var source: Members := [(ten, x), (nine, y)];
    assert ten[..1] == [49] && [49][..0] == [] && nine[..0] == [];
    assert Numeral([49]) == 1;
    assert Numeral(ten) == 10 && Numeral(nine) == 9 && IsIndex(ten) && IsIndex(nine);
    FilledInOrder([ten, nine], source);
    BeforeIsStrict();
    AscendingUnique(KeysOf(Filled([ten, nine], source)), [nine, ten], Before);
  }

  // ---- The loops ------------------------------------------------------------------------------------------

  method IndexOfKey(m: Members, k: Name) returns (i: nat)
    requires k in KeysOf(m)
    ensures i < |m| && m[i].0 == k && forall j :: 0 <= j < i ==> m[j].0 != k
  {
    i := 0;
    while m[i].0 != k
      invariant i < |m| && forall j :: 0 <= j < i ==> m[j].0 != k
      decreases |m| - i
    {
      assert exists j :: 0 <= j < |m| && KeysOf(m)[j] == k;
      i := i + 1;
    }
  }

  method SortKeysInto(v: Value) returns (r: Value)
    ensures r == SortKeys(v)
    decreases v
  {
    match v {
      case Array(items) =>
        var mapped: seq<Value> := [];
        for i := 0 to |items|
          invariant |mapped| == i && forall j :: 0 <= j < i ==> mapped[j] == SortKeys(items[j])
        {
          var entry := SortKeysInto(items[i]);
          mapped := mapped + [entry];
        }
        r := Array(mapped);
      case Object(members) =>
        var keys := SortedSet(KeysOf(members));
        SortedSetSorts(KeysOf(members));
        var record: Members := [];
        for n := 0 to |keys|
          invariant record == Filled(keys[..n], SortedValues(members))
        {
          assert keys[n] in keys && keys[..n + 1][..n] == keys[..n];
          var i := IndexOfKey(members, keys[n]);
          var value := SortKeysInto(members[i].1);
          LookupAt(SortedValues(members), i);
          record := Put(record, keys[n], value);
        }
        assert keys[..|keys|] == keys;
        r := Object(record);
      case _ => r := v;
    }
  }

  // ---- Which keys are array indices -----------------------------------------------------------------------

  /** The decimal numeral of a number. */
  function Decimal(n: nat): Name { if n < 10 then [48 + n] else Decimal(n / 10) + [48 + n % 10] }

  lemma {:induction false} DecimalReads(n: nat)
    ensures Canonical(Decimal(n)) && Numeral(Decimal(n)) == n && (n > 0 ==> Decimal(n)[0] != 48)
  {
    var d := Decimal(n);
    if n < 10 {
      assert d[..0] == [];
    } else {
      DecimalReads(n / 10);
      assert d[..|d| - 1] == Decimal(n / 10);
      assert d[0] == Decimal(n / 10)[0];
    }
  }

  /** The array indices are the decimal numerals of the numbers below 2^32 - 1, and they enumerate as numbers. */
  lemma IndexExactly(k: Name)
    ensures IsIndex(k) <==> exists n: nat :: n < 4294967295 && k == Decimal(n)
    ensures forall n: nat :: k == Decimal(n) ==> Numeral(k) == n
  {
    forall n: nat ensures k == Decimal(n) ==> Canonical(k) && Numeral(k) == n { DecimalReads(n); }
    if Canonical(k) {
      NumeralPositive(k);
      DecimalReads(Numeral(k));
      NumeralUnique(k, Decimal(Numeral(k)));
    }
  }
}
