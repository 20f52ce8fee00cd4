/** Which source directories a build product really links: a worklist over a possibly cyclic manifest. */
module DependencyClosure {
  import opened KeyOrder

  /** A target of the package: its source path, and the names it depends on. */
  datatype Target = Target(path: Name, dependencies: seq<Name>)

  type Manifest = map<Name, Target>

  const SLASH := 47

  /** `os.path.join`. */
  function JoinPath(dir: Name, path: Name): Name {
    if path != [] && path[0] == SLASH then path
    else if dir == [] || dir[|dir| - 1] == SLASH then dir + path
    else dir + [SLASH] + path
  }

  // ---- Reachability -------------------------------------------------------------------------------

  predicate Edge(m: Manifest, a: Name, b: Name) { a in m && b in m[a].dependencies }

  ghost predicate Path(m: Manifest, p: seq<Name>) {
    p != [] && forall i :: 0 <= i < |p| - 1 ==> Edge(m, p[i], p[i + 1])
  }

  ghost predicate Reachable(m: Manifest, start: Name, end: Name) {
    exists p :: Path(m, p) && p[0] == start && p[|p| - 1] == end
  }

  lemma ReachableSelf(m: Manifest, start: Name)
    ensures Reachable(m, start, start)
  {
    assert Path(m, [start]);
  }

  lemma ReachableNext(m: Manifest, start: Name, a: Name, b: Name)
    requires Reachable(m, start, a) && Edge(m, a, b)
    ensures Reachable(m, start, b)
  {
    var p :| Path(m, p) && p[0] == start && p[|p| - 1] == a;
    var q := p + [b];
    assert forall i :: 0 <= i < |q| - 1 ==> Edge(m, q[i], q[i + 1]);
    assert Path(m, q);
  }

  ghost predicate Closed(m: Manifest, s: set<Name>) {
    forall a, b :: a in s && Edge(m, a, b) ==> b in s
  }

  /** A closed set holding the start of a path holds all of it. */
  lemma {:induction false} PathStays(m: Manifest, s: set<Name>, p: seq<Name>, i: nat)
    requires Closed(m, s) && Path(m, p) && p[0] in s && i < |p|
    ensures p[i] in s
  {
    if i > 0 {
      PathStays(m, s, p, i - 1);
      assert Edge(m, p[i - 1], p[i]);
    }
  }

  lemma ClosedHoldsReachable(m: Manifest, s: set<Name>, start: Name)
    requires Closed(m, s) && start in s
    ensures forall x :: Reachable(m, start, x) ==> x in s
  {
    forall x | Reachable(m, start, x) ensures x in s {
      var p :| Path(m, p) && p[0] == start && p[|p| - 1] == x;
      PathStays(m, s, p, |p| - 1);
    }
  }

  /** Every name the manifest mentions. */
  function Names(m: Manifest): set<Name> {
    m.Keys + set a, i | a in m && 0 <= i < |m[a].dependencies| :: m[a].dependencies[i]
  }

  // ---- The worklist -----------------------------------------------------------------------------------

  /** Main result: the search ends on every manifest, cycles included; it lists the directories of exactly
      the declared targets reachable from the start, and exactly the reachable names not declared. */
  method TargetSourceRoots(m: Manifest, packageDir: Name, target: Name) returns (roots: seq<Name>, external: seq<Name>)
    ensures target !in m ==> roots == [] && external == []
    ensures Ascending(roots) && Ascending(external)
    ensures target in m ==>
      forall r :: r in roots <==> exists t :: Reachable(m, target, t) && t in m && r == JoinPath(packageDir, m[t].path)
    ensures target in m ==> forall x :: x in external <==> Reachable(m, target, x) && x !in m
  {
    if target !in m {
      return [], [];
    }
    roots, external := [], [];
    var pending, seen := [target], {};
    ReachableSelf(m, target);
    while pending != []
      invariant forall x :: x in seen || x in pending ==> Reachable(m, target, x) && x in Names(m)
      invariant target in seen || target in pending
      invariant forall a, b :: a in seen && Edge(m, a, b) ==> b in seen || b in pending
      invariant forall r :: r in roots <==> exists t :: t in seen && t in m && r == JoinPath(packageDir, m[t].path)
      invariant forall x :: x in external <==> x in seen && x !in m
      decreases Names(m) - seen, |pending|
    {
      var current := pending[0];
      assert current in pending && forall x :: x in pending <==> x == current || x in pending[1..];
      pending := pending[1..];
      if current in seen {
        continue;
      }
      seen := seen + {current};
      if current !in m {
        external := external + [current];
      } else {
        roots := roots + [JoinPath(packageDir, m[current].path)];
        forall b | b in m[current].dependencies ensures Reachable(m, target, b) && b in Names(m) {
          ReachableNext(m, target, current, b);
        }
        pending := pending + m[current].dependencies;
      }
    }
    ClosedHoldsReachable(m, seen, target);
    SortedSetSorts(roots);
    SortedSetSorts(external);
    roots, external := SortedSet(roots), SortedSet(external);
  }

  /** An absolute path stands for itself; any other one stands behind the directory, one slash apart. */
  lemma JoinedPath(dir: Name, path: Name)
    ensures var joined := JoinPath(dir, path);
      if path != [] && path[0] == SLASH then joined == path
      else
        && dir <= joined && |joined| >= |path| && joined[|joined| - |path|..] == path
        && |dir| + |path| <= |joined| <= |dir| + |path| + 1
        && (dir != [] ==> joined[|joined| - |path| - 1] == SLASH)
        && (|joined| > |dir| + |path| ==> dir != [] && dir[|dir| - 1] != SLASH)
  {
  }

  /** Joining is associative: directories may be joined first or last. */
  lemma JoinAssociates(a: Name, b: Name, c: Name)
    requires b != []
    ensures JoinPath(JoinPath(a, b), c) == JoinPath(a, JoinPath(b, c))
  {
  }
}
