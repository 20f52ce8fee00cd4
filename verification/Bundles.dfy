/** Replacing installed app bundles so that a fault at any operation leaves a complete bundle. */
module Bundles {
  import opened Options

  type Path = string

  /** A directory tree: a whole bundle, or one an interrupted copy or removal left behind. */
  datatype Node = Complete(contents: int) | Partial

  type Disk = map<Path, Node>

  /** How one operation of the file system comes out; `Breaks` fails half-way where that is possible. */
  datatype Answer = Succeeds | Fails | Breaks

  function At(disk: Disk, p: Path): Option<Node> { if p in disk then Some(disk[p]) else None }

  // ---- One operation: the disk after it, and whether it succeeded --------------------------------------

  /** Recursive and forced: a missing path is no error; a failure may leave half a tree. */
  function Removal(disk: Disk, p: Path, a: Answer): (Disk, bool) {
    if a == Succeeds then (disk - {p}, true)
    else if a == Breaks && p in disk then (disk[p := Partial], false)
    else (disk, false)
  }

  function Copied(disk: Disk, from: Path, to: Path, a: Answer): (Disk, bool) {
    if a == Fails || from !in disk then (disk, false)
    else if a == Succeeds then (disk[to := disk[from]], true)
    else (disk[to := Partial], false)
  }

  /** Atomic within one directory: it happens or it does not. It does not replace what exists. */
  function Renamed(disk: Disk, from: Path, to: Path, a: Answer): (Disk, bool) {
    if a == Succeeds && from in disk && to !in disk then ((disk - {from})[to := disk[from]], true) else (disk, false)
  }

  /** The file system: any answers at all, and a record of every state a run passes through. */
  class FileSystem {
    var disk: Disk
    const answers: nat -> Answer
    var operations: nat
    ghost var history: seq<Disk>

    constructor (disk: Disk, answers: nat -> Answer)
      ensures this.disk == disk && this.answers == answers && history == []
    {
      this.disk, this.answers, operations, history := disk, answers, 0, [];
    }

    /** No operation fails of itself. */
    ghost predicate Reliable() { forall n :: answers(n) == Succeeds }

    method Next() returns (a: Answer)
      modifies this`operations
      ensures a == answers(old(operations)) && operations == old(operations) + 1
      ensures Reliable() ==> a == Succeeds
    {
      a := answers(operations);
      operations := operations + 1;
    }

    method Mkdir() returns (ok: bool)
      modifies this`operations
      ensures Reliable() ==> ok
    {
      var a := Next();
      ok := a == Succeeds;
    }

    method Remove(p: Path) returns (ok: bool)
      modifies this
      ensures Reliable() ==> ok
      ensures disk ==
        if ok then old(disk) - {p}
        else if p in old(disk) && disk != old(disk) then old(disk)[p := Partial]
        else old(disk)
      ensures (disk, ok) == Removal(old(disk), p, answers(old(operations))) && operations == old(operations) + 1
      ensures history == old(history) + [disk]
    {
      var a := Next();
      if a == Succeeds {
        disk := disk - {p};
      } else if a == Breaks && p in disk {
        disk := disk[p := Partial];
      }
      history := history + [disk];
      ok := a == Succeeds;
    }

    /** Not atomic: the copy is partial while it is being made, and stays so if it fails half-way. */
    method Copy(from: Path, to: Path) returns (ok: bool)
      modifies this
      ensures Reliable() ==> (ok <==> from in old(disk))
      ensures (disk, ok) == Copied(old(disk), from, to, answers(old(operations))) && operations == old(operations) + 1
      ensures ok ==> from in old(disk) && disk == old(disk)[to := old(disk)[from]]
      ensures !ok ==> disk == old(disk) || disk == old(disk)[to := Partial]
      ensures history == old(history) + [old(disk)[to := Partial], disk] || history == old(history) + [disk]
    {
      var a := Next();
      if a == Fails || from !in disk {
        history := history + [disk];
        return false;
      }
      var node := disk[from];
      disk := disk[to := Partial];
      history := history + [disk];
      if a == Succeeds {
        disk := disk[to := node];
        assert disk == old(disk)[to := node];
      }
      history := history + [disk];
      ok := a == Succeeds;
    }

    method Rename(from: Path, to: Path) returns (ok: bool)
      modifies this
      ensures Reliable() ==> (ok <==> from in old(disk) && to !in old(disk))
      ensures (disk, ok) == Renamed(old(disk), from, to, answers(old(operations))) && operations == old(operations) + 1
      ensures ok ==> from in old(disk) && to !in old(disk) && disk == (old(disk) - {from})[to := old(disk)[from]]
      ensures !ok ==> disk == old(disk)
      ensures history == old(history) + [disk]
    {
      var a := Next();
      ok := a == Succeeds && from in disk && to !in disk;
      if ok {
        var node := disk[from];
        disk := (disk - {from})[to := node];
      }
      history := history + [disk];
    }
  }

  // ---- The replacement protocol ---------------------------------------------------------------------

  datatype Pair = Pair(source: Path, target: Path)

  /** A pair the plan names on both sides. */
  predicate Live(pair: Pair) { pair.source != "" && pair.target != "" }

  function Staged(target: Path, token: string): Path { target + ".tmp-" + token }
  function Retired(target: Path, token: string): Path { target + ".old-" + token }

  function Touched(pair: Pair, token: string): set<Path> {
    {pair.target, Staged(pair.target, token), Retired(pair.target, token)}
  }

  datatype Step = Copying | Retiring | Placing | Restoring

  /** What became of one pair; `stagedRemoved` is what a failure message says about the staged copy. */
  datatype PairOutcome =
    | Skipped
    | Declined
    | Installed(leftover: bool)
    | Failed(step: Step, stagedRemoved: bool)

  /** Whole old, whole new, never there, or parked with the new one ready beside it. */
  ghost predicate Safe(start: Disk, disk: Disk, pair: Pair, token: string) {
    || At(disk, pair.target) == At(start, pair.target)
    || (pair.source in start && At(disk, pair.target) == At(start, pair.source))
    || (&& pair.target !in disk && pair.target in start && pair.source in start
        && At(disk, Retired(pair.target, token)) == At(start, pair.target)
        && At(disk, Staged(pair.target, token)) == At(start, pair.source))
  }

  ghost predicate SameOutside(start: Disk, disk: Disk, touched: set<Path>) {
    forall p :: p !in touched ==> At(disk, p) == At(start, p)
  }

  lemma NamesDiffer(target: Path, token: string)
    ensures Staged(target, token) != target && Retired(target, token) != target
    ensures Staged(target, token) != Retired(target, token)
  {
    assert Staged(target, token)[|target| + 1] == 't' && Retired(target, token)[|target| + 1] == 'o';
  }

  /** What a pair's outcome says about the disk it leaves. */
  ghost predicate Tells(start: Disk, disk: Disk, pair: Pair, token: string, outcome: PairOutcome) {
    match outcome
    case Skipped => disk == start
    case Declined => disk == start && pair.target in start
    case Installed(leftover) =>
      && pair.source in start && At(disk, pair.target) == At(start, pair.source)
      && Staged(pair.target, token) !in disk && (!leftover ==> Retired(pair.target, token) !in disk)
    case Failed(Copying, removed) =>
      At(disk, pair.target) == At(start, pair.target) && (removed ==> Staged(pair.target, token) !in disk)
    case Failed(Retiring, _) =>
      && At(disk, pair.target) == At(start, pair.target) && pair.target in start
      && At(disk, Staged(pair.target, token)) == At(start, pair.source)
    case Failed(Placing, _) =>
      At(disk, pair.target) == At(start, pair.target) && At(disk, Staged(pair.target, token)) == At(start, pair.source)
    case Failed(Restoring, _) =>
      && pair.target !in disk && pair.target in start
      && At(disk, Retired(pair.target, token)) == At(start, pair.target)
      && At(disk, Staged(pair.target, token)) == At(start, pair.source)
  }

  /** A state of a run: the pair is safe, and nothing else on the disk has changed. */
  ghost predicate Sound(start: Disk, disk: Disk, pair: Pair, token: string) {
    Safe(start, disk, pair, token) && SameOutside(start, disk, Touched(pair, token))
  }

  ghost predicate SoundSince(start: Disk, before: seq<Disk>, history: seq<Disk>, pair: Pair, token: string) {
    before <= history && forall k :: |before| <= k < |history| ==> Sound(start, history[k], pair, token)
  }

  lemma OnlyStagedChanged(start: Disk, disk: Disk, pair: Pair, token: string)
    requires SameOutside(start, disk, {Staged(pair.target, token)})
    ensures Sound(start, disk, pair, token)
  {
    NamesDiffer(pair.target, token);
  }

  // ---- The protocol as a function of the answers --------------------------------------------------------

  type Answers = nat -> Answer

  /** The disk after staging, the operations used, whether it worked, whether the staged path was cleared. */
  function StageRun(answers: Answers, n: nat, disk: Disk, pair: Pair, token: string): (Disk, nat, bool, bool) {
    var staged := Staged(pair.target, token);
    var (swept, m, clear) :=
      if staged in disk then
        var r := Removal(disk, staged, answers(n));
        (r.0, n + 1, r.1)
      else (disk, n, true);
    var (copied, m', ok) :=
      if clear then
        var r := Copied(swept, pair.source, staged, answers(m));
        (r.0, m + 1, r.1)
      else (swept, m, false);
    if ok then (copied, m', true, false)
    else
      var r := Removal(copied, staged, answers(m'));
      (r.0, m' + 1, false, r.1)
  }

  function SwapRun(answers: Answers, n: nat, disk: Disk, pair: Pair, token: string): (Disk, nat, PairOutcome) {
    var staged, retired := Staged(pair.target, token), Retired(pair.target, token);
    var (aside, m, clear) :=
      if pair.target in disk then
        var r := Renamed(disk, pair.target, retired, answers(n));
        (r.0, n + 1, r.1)
      else (disk, n, true);
    if !clear then GivenUp(answers, m, aside, pair, token, Retiring)
    else
      var (placed, ok) := Renamed(aside, staged, pair.target, answers(m));
      if !ok then GivenUp(answers, m + 1, placed, pair, token, Placing)
      else
        var (cleaned, gone) := Removal(placed, retired, answers(m + 1));
        (cleaned, m + 2, Installed(!gone))
  }

  function GivenUp(answers: Answers, n: nat, disk: Disk, pair: Pair, token: string, step: Step)
    : (Disk, nat, PairOutcome)
  {
    var retired := Retired(pair.target, token);
    if retired in disk && pair.target !in disk then
      var (back, restored) := Renamed(disk, retired, pair.target, answers(n));
      (back, n + 1, Failed(if restored then step else Restoring, true))
    else (disk, n, Failed(step, true))
  }

  function PlaceRun(answers: Answers, n: nat, disk: Disk, pair: Pair, token: string, allowReplace: bool)
    : (Disk, nat, PairOutcome)
  {
    if !Present(disk, pair) then (disk, n, Skipped)
    else if pair.target in disk && !allowReplace then (disk, n, Declined)
    else
      var (staged, m, ok, removed) := StageRun(answers, n, disk, pair, token);
      if !ok then (staged, m, Failed(Copying, removed)) else SwapRun(answers, m, staged, pair, token)
  }

  /** Brings the new bundle next to its target; a stale staged copy goes first. */
  method Stage(fs: FileSystem, pair: Pair, token: string) returns (ok: bool, removed: bool)
    requires pair.source !in Touched(pair, token) && pair.source in fs.disk
    modifies fs
    ensures SameOutside(old(fs.disk), fs.disk, {Staged(pair.target, token)})
    ensures (fs.disk, fs.operations, ok, removed)
      == StageRun(fs.answers, old(fs.operations), old(fs.disk), pair, token)
    ensures ok ==> At(fs.disk, Staged(pair.target, token)) == At(old(fs.disk), pair.source)
    ensures !ok && removed ==> Staged(pair.target, token) !in fs.disk
    ensures fs.Reliable() ==> ok
    ensures SoundSince(old(fs.disk), old(fs.history), fs.history, pair, token)
  {
    hide Safe, Touched;
    ghost var start := fs.disk;
    var staged := Staged(pair.target, token);
    assert pair.source != staged by { SourceApart(pair, token); }
    ok := true;
    if staged in fs.disk {
      ok := fs.Remove(staged);
      OnlyStagedChanged(start, fs.disk, pair, token);
    }
    if ok {
      ghost var before := fs.disk;
      ok := fs.Copy(pair.source, staged);
      OnlyStagedChanged(start, before[staged := Partial], pair, token);
      OnlyStagedChanged(start, fs.disk, pair, token);
    }
    if !ok {
      removed := fs.Remove(staged);
      OnlyStagedChanged(start, fs.disk, pair, token);
    } else {
      removed := false;
    }
  }

  lemma SourceApart(pair: Pair, token: string)
    requires pair.source !in Touched(pair, token)
    ensures pair.source != Staged(pair.target, token) && pair.source != Retired(pair.target, token)
      && pair.source != pair.target
  {
  }

  /** After a failed renaming: puts the old bundle back if it was moved aside. */
  method PutBack(fs: FileSystem, pair: Pair, token: string, step: Step) returns (outcome: PairOutcome)
    modifies fs
    ensures (fs.disk, fs.operations, outcome)
      == GivenUp(fs.answers, old(fs.operations), old(fs.disk), pair, token, step)
    ensures fs.history == old(fs.history) || fs.history == old(fs.history) + [fs.disk]
  {
    var retired := Retired(pair.target, token);
    outcome := Failed(step, true);
    if retired in fs.disk && pair.target !in fs.disk {
      var restored := fs.Rename(retired, pair.target);
      if !restored {
        outcome := Failed(Restoring, true);
      }
    }
  }

  /** A disk on which the pair is staged and nothing else has changed. */
  ghost predicate Ready(start: Disk, disk: Disk, pair: Pair, token: string) {
    && pair.source !in Touched(pair, token) && pair.source in start && Retired(pair.target, token) !in start
    && SameOutside(start, disk, {Staged(pair.target, token)})
    && At(disk, Staged(pair.target, token)) == At(start, pair.source)
  }

  /** The disk with the old bundle moved aside, if there was one. */
  ghost predicate Aside(start: Disk, disk: Disk, pair: Pair, token: string) {
    && pair.target !in disk && pair.source in start && SameOutside(start, disk, Touched(pair, token))
    && At(disk, Retired(pair.target, token)) == At(start, pair.target)
    && At(disk, Staged(pair.target, token)) == At(start, pair.source)
  }

  lemma MovedAside(start: Disk, disk: Disk, pair: Pair, token: string, a: Answer)
    requires Ready(start, disk, pair, token)
    ensures var (aside, ok) := Renamed(disk, pair.target, Retired(pair.target, token), a);
      if pair.target in disk && ok then Aside(start, aside, pair, token) else aside == disk
    ensures pair.target !in disk ==> Aside(start, disk, pair, token)
    ensures Sound(start, disk, pair, token) && Retired(pair.target, token) !in disk
  {
    NamesDiffer(pair.target, token);
    assert At(disk, Retired(pair.target, token)) == At(start, Retired(pair.target, token));
  }

  /** The new bundle in place, the old one perhaps still beside it. */
  ghost predicate Placed(start: Disk, disk: Disk, pair: Pair, token: string) {
    && pair.source in start && SameOutside(start, disk, Touched(pair, token))
    && At(disk, pair.target) == At(start, pair.source) && Staged(pair.target, token) !in disk
  }

  lemma PutInPlace(start: Disk, disk: Disk, pair: Pair, token: string, a: Answer)
    requires Aside(start, disk, pair, token)
    ensures var (placed, ok) := Renamed(disk, Staged(pair.target, token), pair.target, a);
      if ok then Placed(start, placed, pair, token) else placed == disk
    ensures Sound(start, disk, pair, token) && Staged(pair.target, token) in disk && pair.target !in disk
  {
    NamesDiffer(pair.target, token);
  }

  lemma CleanedUp(start: Disk, disk: Disk, pair: Pair, token: string, a: Answer)
    requires Placed(start, disk, pair, token)
    ensures var (cleaned, gone) := Removal(disk, Retired(pair.target, token), a);
      Sound(start, cleaned, pair, token) && Tells(start, cleaned, pair, token, Installed(!gone))
    ensures Sound(start, disk, pair, token)
  {
    NamesDiffer(pair.target, token);
  }

  lemma BackInPlace(answers: Answers, n: nat, start: Disk, disk: Disk, pair: Pair, token: string, step: Step)
    requires || (step == Retiring && Ready(start, disk, pair, token) && pair.target in disk)
             || (step == Placing && Aside(start, disk, pair, token))
    ensures var (back, _, outcome) := GivenUp(answers, n, disk, pair, token, step);
      Sound(start, back, pair, token) && Tells(start, back, pair, token, outcome)
  {
    NamesDiffer(pair.target, token);
  }

  /** Swaps the staged bundle in by renaming, and puts the old one back if that fails. */
  method SwapIn(fs: FileSystem, pair: Pair, token: string, ghost start: Disk) returns (outcome: PairOutcome)
    requires Ready(start, fs.disk, pair, token)
    modifies fs
    ensures (fs.disk, fs.operations, outcome) == SwapRun(fs.answers, old(fs.operations), old(fs.disk), pair, token)
    ensures Tells(start, fs.disk, pair, token, outcome) && outcome != Skipped && outcome != Declined
    ensures fs.Reliable() ==> outcome == Installed(false)
    ensures Sound(start, fs.disk, pair, token)
    ensures SoundSince(start, old(fs.history), fs.history, pair, token)
  {
    hide Ready, Aside, Placed, Sound, Tells, Removal, Renamed;
    var staged, retired := Staged(pair.target, token), Retired(pair.target, token);
    MovedAside(start, fs.disk, pair, token, fs.answers(fs.operations));
    if pair.target in fs.disk {
      var ok := fs.Rename(pair.target, retired);
      if !ok {
        BackInPlace(fs.answers, fs.operations, start, fs.disk, pair, token, Retiring);
        outcome := PutBack(fs, pair, token, Retiring);
        return;
      }
    }
    PutInPlace(start, fs.disk, pair, token, fs.answers(fs.operations));
    var ok := fs.Rename(staged, pair.target);
    if !ok {
      BackInPlace(fs.answers, fs.operations, start, fs.disk, pair, token, Placing);
      outcome := PutBack(fs, pair, token, Placing);
      return;
    }
    CleanedUp(start, fs.disk, pair, token, fs.answers(fs.operations));
    var cleaned := fs.Remove(retired);
    outcome := Installed(!cleaned);
  }

  // ---- How a pair ends, operation by operation ----------------------------------------------------------

  /** The operations a pair's staging takes: one more if an older staged copy is in the way. */
  function StagingCalls(disk: Disk, pair: Pair, token: string): nat {
    if Staged(pair.target, token) in disk then 2 else 1
  }

  /** Main result: the outcome of a pair, read off the answers alone. Staging comes first, then the moving aside
      of the old bundle if there is one, then the placing, then the clean-up; the way back is one more call. */
  lemma OutcomeExactly(answers: Answers, n: nat, disk: Disk, pair: Pair, token: string, allowReplace: bool)
    requires Present(disk, pair) && (pair.target in disk ==> allowReplace)
    requires pair.source !in Touched(pair, token) && Retired(pair.target, token) !in disk
    ensures var outcome := PlaceRun(answers, n, disk, pair, token, allowReplace).2;
      var k := n + StagingCalls(disk, pair, token); var present := pair.target in disk;
      var staged := forall i :: n <= i < k ==> answers(i) == Succeeds;
      var aside := present ==> answers(k) == Succeeds;
      var place := if present then k + 1 else k;
      && (outcome.Failed? && outcome.step == Copying <==> !staged)
      && (!staged ==> (outcome.stagedRemoved <==> answers(if answers(n) != Succeeds then n + 1 else k) == Succeeds))
      && (outcome.Failed? && outcome.step == Retiring <==> staged && !aside)
      && (outcome.Failed? && outcome.step == Restoring
          <==> staged && aside && present && answers(place) != Succeeds && answers(place + 1) != Succeeds)
      && (outcome.Failed? && outcome.step == Placing
          <==> staged && aside && answers(place) != Succeeds && (present ==> answers(place + 1) == Succeeds))
      && (outcome.Installed? <==> staged && aside && answers(place) == Succeeds)
      && (outcome.Installed? ==> (outcome.leftover <==> answers(place + 1) != Succeeds))
  {
    StagingExactly(answers, n, disk, pair, token);
    var (staged, m, ok, _) := StageRun(answers, n, disk, pair, token);
    if ok { SwapExactly(answers, m, staged, pair, token); }
  }

  lemma StagingExactly(answers: Answers, n: nat, disk: Disk, pair: Pair, token: string)
    requires pair.source in disk && pair.source !in Touched(pair, token)
    ensures var (staged, m, ok, _) := StageRun(answers, n, disk, pair, token);
      var k := n + StagingCalls(disk, pair, token);
      && (ok <==> forall i :: n <= i < k ==> answers(i) == Succeeds)
      && (!ok ==> (StageRun(answers, n, disk, pair, token).3
                   <==> answers(if answers(n) != Succeeds then n + 1 else k) == Succeeds))
      && (ok ==> m == k && Staged(pair.target, token) in staged)
      && (ok ==> (pair.target in staged <==> pair.target in disk))
      && (ok ==> (Retired(pair.target, token) in staged <==> Retired(pair.target, token) in disk))
  {
    NamesDiffer(pair.target, token);
  }

  lemma SwapExactly(answers: Answers, k: nat, disk: Disk, pair: Pair, token: string)
    requires Staged(pair.target, token) in disk && Retired(pair.target, token) !in disk
    ensures var outcome := SwapRun(answers, k, disk, pair, token).2;
      var present := pair.target in disk; var aside := present ==> answers(k) == Succeeds;
      var place := if present then k + 1 else k;
      && (outcome == Failed(Retiring, true) <==> !aside)
      && (outcome == Failed(Restoring, true)
          <==> aside && present && answers(place) != Succeeds && answers(place + 1) != Succeeds)
      && (outcome == Failed(Placing, true)
          <==> aside && answers(place) != Succeeds && (present ==> answers(place + 1) == Succeeds))
      && (outcome.Installed? <==> aside && answers(place) == Succeeds)
      && (outcome.Installed? ==> (outcome.leftover <==> answers(place + 1) != Succeeds))
      && outcome != Skipped && outcome != Declined
      && (outcome.Failed? ==> outcome.stagedRemoved && outcome.step != Copying)
  {
    NamesDiffer(pair.target, token);
  }

  /** At most one operation does not succeed. */
  ghost predicate OneFault(answers: Answers) {
    forall i, j :: answers(i) != Succeeds && answers(j) != Succeeds ==> i == j
  }

  lemma OneFaultRestores(answers: Answers, n: nat, disk: Disk, pair: Pair, token: string, allowReplace: bool)
    requires Live(pair) ==> pair.source !in Touched(pair, token) && Retired(pair.target, token) !in disk
    ensures var outcome := PlaceRun(answers, n, disk, pair, token, allowReplace).2;
      OneFault(answers) ==> !(outcome.Failed? && outcome.step == Restoring)
  {
    hide StageRun, SwapRun, Touched;
    if Present(disk, pair) && (pair.target in disk ==> allowReplace) {
      OutcomeExactly(answers, n, disk, pair, token, allowReplace);
    }
  }

  /** One pair of the loop: every state it passes through is safe for the pair. */
  method PlacePair(fs: FileSystem, pair: Pair, token: string, allowReplace: bool) returns (outcome: PairOutcome)
    requires Live(pair) ==> pair.source !in Touched(pair, token) && Retired(pair.target, token) !in fs.disk
    modifies fs
    ensures (fs.disk, fs.operations, outcome)
      == PlaceRun(fs.answers, old(fs.operations), old(fs.disk), pair, token, allowReplace)
    ensures Tells(old(fs.disk), fs.disk, pair, token, outcome)
    ensures Sound(old(fs.disk), fs.disk, pair, token)
    ensures SoundSince(old(fs.disk), old(fs.history), fs.history, pair, token)
    ensures outcome == Skipped <==> !Present(old(fs.disk), pair)
    ensures outcome == Skipped ==> fs.disk == old(fs.disk)
    ensures !Live(pair) ==> fs.disk == old(fs.disk) && fs.history == old(fs.history)
    ensures outcome == Declined <==> Replaces(old(fs.disk), pair) && !allowReplace
    ensures OneFault(fs.answers) ==> !(outcome.Failed? && outcome.step == Restoring)
    ensures fs.Reliable() && outcome != Skipped && outcome != Declined ==> outcome == Installed(false)
  {
    OneFaultRestores(fs.answers, fs.operations, fs.disk, pair, token, allowReplace);
    if !Live(pair) || pair.source !in fs.disk {
      return Skipped;
    }
    if pair.target in fs.disk && !allowReplace {
      return Declined;
    }
    NamesDiffer(pair.target, token);
    var staged, removed := Stage(fs, pair, token);
    OnlyStagedChanged(old(fs.disk), fs.disk, pair, token);
    if !staged {
      return Failed(Copying, removed);
    }
    outcome := SwapIn(fs, pair, token, old(fs.disk));
  }

  /** There is a bundle to install for the pair. */
  predicate Present(disk: Disk, pair: Pair) { Live(pair) && pair.source in disk }

  predicate Replaces(disk: Disk, pair: Pair) { Present(disk, pair) && pair.target in disk }

  /** What the confirmation question lists: the targets this run would overwrite. */
  function BundlesToReplace(disk: Disk, pairs: seq<Pair>): seq<Path> {
    if pairs == [] then []
    else
      var last := pairs[|pairs| - 1];
      BundlesToReplace(disk, pairs[..|pairs| - 1]) + (if Replaces(disk, last) then [last.target] else [])
  }

  // ---- The whole loop -------------------------------------------------------------------------------

  /** The names of different pairs do not collide, nothing touched is a source, and the retired names are new. */
  ghost predicate Fresh(start: Disk, pairs: seq<Pair>, token: string) {
    && (forall i :: 0 <= i < |pairs| && Live(pairs[i]) ==> Retired(pairs[i].target, token) !in start)
    && (forall i, j :: 0 <= i < |pairs| && 0 <= j < |pairs| && Live(pairs[i]) && Live(pairs[j]) ==>
          && pairs[i].source !in Touched(pairs[j], token)
          && (i != j ==> Touched(pairs[i], token) !! Touched(pairs[j], token)))
  }

  ghost predicate AllSafe(start: Disk, disk: Disk, pairs: seq<Pair>, token: string) {
    forall i :: 0 <= i < |pairs| && Live(pairs[i]) ==> Safe(start, disk, pairs[i], token)
  }

  /** The pairs from `from` on have not been touched, and no source has. */
  ghost predicate Untouched(start: Disk, disk: Disk, pairs: seq<Pair>, token: string, from: nat) {
    && (forall i, p :: from <= i < |pairs| && Live(pairs[i]) && p in Touched(pairs[i], token) ==>
         At(disk, p) == At(start, p))
    && (forall i :: 0 <= i < |pairs| && Live(pairs[i]) ==> At(disk, pairs[i].source) == At(start, pairs[i].source))
  }

  ghost predicate AllTell(start: Disk, disk: Disk, pairs: seq<Pair>, token: string, outcomes: seq<PairOutcome>)
    requires |outcomes| <= |pairs|
  {
    forall i :: 0 <= i < |outcomes| && Live(pairs[i]) ==> Kept(start, disk, pairs[i], token, outcomes[i])
  }

  /** `Tells`, of the pair's own paths only: what later pairs cannot change. */
  ghost predicate Kept(start: Disk, disk: Disk, pair: Pair, token: string, outcome: PairOutcome) {
    match outcome
    case Skipped => At(disk, pair.target) == At(start, pair.target)
    case Declined => At(disk, pair.target) == At(start, pair.target) && pair.target in start
    case _ => Tells(start, disk, pair, token, outcome)
  }

  /** A state of pair `n`'s own steps, seen from the start of the whole loop. */
  lemma StepIsSafe(start: Disk, before: Disk, disk: Disk, pairs: seq<Pair>, token: string, n: nat)
    requires n < |pairs| && Fresh(start, pairs, token) && Live(pairs[n])
    requires Untouched(start, before, pairs, token, n) && AllSafe(start, before, pairs, token)
    requires Sound(before, disk, pairs[n], token)
    ensures AllSafe(start, disk, pairs, token) && Untouched(start, disk, pairs, token, n + 1)
  {
    forall i | 0 <= i < |pairs| && Live(pairs[i]) ensures Safe(start, disk, pairs[i], token) {
      if i != n { assert forall p :: p in Touched(pairs[i], token) ==> At(disk, p) == At(before, p); }
    }
  }

  /** Earlier outcomes stand, and the new one joins them. */
  lemma ToldStays(start: Disk, before: Disk, disk: Disk, pairs: seq<Pair>, token: string,
                  outcomes: seq<PairOutcome>, outcome: PairOutcome)
    requires |outcomes| < |pairs| && Fresh(start, pairs, token) && Untouched(start, before, pairs, token, |outcomes|)
    requires AllTell(start, before, pairs, token, outcomes)
    requires var pair := pairs[|outcomes|];
      if Live(pair) then Sound(before, disk, pair, token) && Tells(before, disk, pair, token, outcome)
      else disk == before
    ensures AllTell(start, disk, pairs, token, outcomes + [outcome])
  {
    var n := |outcomes|;
    forall i | 0 <= i <= n && Live(pairs[i]) ensures Kept(start, disk, pairs[i], token, (outcomes + [outcome])[i]) {
      if i < n {
        assert forall p :: p in Touched(pairs[i], token) ==> At(disk, p) == At(before, p);
      } else {
        assert forall p :: p in Touched(pairs[n], token) ==> At(before, p) == At(start, p);
      }
    }
  }

  lemma StillFresh(start: Disk, before: Disk, pairs: seq<Pair>, token: string, n: nat)
    requires n < |pairs| && Fresh(start, pairs, token) && Untouched(start, before, pairs, token, n)
    ensures Live(pairs[n]) ==>
      pairs[n].source !in Touched(pairs[n], token) && Retired(pairs[n].target, token) !in before
    ensures !Live(pairs[n]) ==> Untouched(start, before, pairs, token, n + 1)
    ensures Replaces(before, pairs[n]) <==> Replaces(start, pairs[n])
    ensures Present(before, pairs[n]) <==> Present(start, pairs[n])
  {
    if Live(pairs[n]) {
      assert At(before, Retired(pairs[n].target, token)) == At(start, Retired(pairs[n].target, token));
      assert At(before, pairs[n].target) == At(start, pairs[n].target)
        && At(before, pairs[n].source) == At(start, pairs[n].source);
    }
  }

  /** Every state since `from` kept every target whole. */
  ghost predicate SafeSince(start: Disk, from: nat, history: seq<Disk>, pairs: seq<Pair>, token: string) {
    from <= |history| && forall k :: from <= k < |history| ==> AllSafe(start, history[k], pairs, token)
  }

  /** One pair's steps, seen from the start of the whole loop. */
  lemma PairPlaced(start: Disk, before: Disk, disk: Disk, from: nat, past: seq<Disk>, history: seq<Disk>,
                   pairs: seq<Pair>, token: string, outcomes: seq<PairOutcome>, outcome: PairOutcome)
    requires |outcomes| < |pairs| && Fresh(start, pairs, token)
    requires AllTell(start, before, pairs, token, outcomes) && Untouched(start, before, pairs, token, |outcomes|)
    requires AllSafe(start, before, pairs, token) && SafeSince(start, from, past, pairs, token)
    requires var pair := pairs[|outcomes|];
      if Live(pair) then
        Sound(before, disk, pair, token) && Tells(before, disk, pair, token, outcome)
          && SoundSince(before, past, history, pair, token)
      else disk == before && history == past
    ensures AllTell(start, disk, pairs, token, outcomes + [outcome])
      && Untouched(start, disk, pairs, token, |outcomes| + 1)
    ensures AllSafe(start, disk, pairs, token) && SafeSince(start, from, history, pairs, token)
  {
    hide Tells, Safe, Sound, Kept, Touched, Fresh, Untouched, AllSafe, AllTell;
    var n := |outcomes|;
    StillFresh(start, before, pairs, token, n);
    ToldStays(start, before, disk, pairs, token, outcomes, outcome);
    if Live(pairs[n]) {
      StepIsSafe(start, before, disk, pairs, token, n);
      forall k | from <= k < |history| ensures AllSafe(start, history[k], pairs, token) {
        if k >= |past| { StepIsSafe(start, before, history[k], pairs, token, n); }
      }
    }
  }

  /** The pairs passed over are exactly those without a bundle to install. */
  ghost predicate OthersSkipped(start: Disk, pairs: seq<Pair>, outcomes: seq<PairOutcome>)
    requires |outcomes| <= |pairs|
  {
    forall i :: 0 <= i < |outcomes| ==> (outcomes[i] == Skipped <==> !Present(start, pairs[i]))
  }

  /** The targets reported as installed, or as declined, in order. */
  function Chosen(pairs: seq<Pair>, outcomes: seq<PairOutcome>, placed: bool): seq<Path>
    requires |pairs| == |outcomes|
  {
    if pairs == [] then []
    else
      var n := |pairs| - 1;
      var picked := if placed then outcomes[n].Installed? else outcomes[n].Declined?;
      Chosen(pairs[..n], outcomes[..n], placed) + (if picked then [pairs[n].target] else [])
  }

  /** The lists a run reports: what it placed, what it declined, which pairs it passed over. */
  ghost predicate Reported(start: Disk, pairs: seq<Pair>, outcomes: seq<PairOutcome>, installed: seq<Path>,
                           declined: seq<Path>, allowReplace: bool)
    requires |outcomes| <= |pairs|
  {
    && installed == Chosen(pairs[..|outcomes|], outcomes, true)
    && declined == Chosen(pairs[..|outcomes|], outcomes, false)
    && declined == (if allowReplace then [] else BundlesToReplace(start, pairs[..|outcomes|]))
    && OthersSkipped(start, pairs, outcomes)
  }

  lemma PairReported(start: Disk, pairs: seq<Pair>, outcomes: seq<PairOutcome>, outcome: PairOutcome,
                     installed: seq<Path>, declined: seq<Path>, allowReplace: bool)
    requires |outcomes| < |pairs| && Reported(start, pairs, outcomes, installed, declined, allowReplace)
    requires outcome == Skipped <==> !Present(start, pairs[|outcomes|])
    requires outcome == Declined <==> Replaces(start, pairs[|outcomes|]) && !allowReplace
    ensures var target := pairs[|outcomes|].target;
      Reported(start, pairs, outcomes + [outcome],
               if outcome.Installed? then installed + [target] else installed,
               if outcome.Declined? then declined + [target] else declined, allowReplace)
  {
    var n := |outcomes|;
    assert pairs[..n + 1][..n] == pairs[..n] && (outcomes + [outcome])[..n] == outcomes;
  }

  lemma AtTheStart(start: Disk, history: seq<Disk>, pairs: seq<Pair>, token: string, allowReplace: bool)
    ensures AllSafe(start, start, pairs, token) && Untouched(start, start, pairs, token, 0)
      && AllTell(start, start, pairs, token, [])
    ensures SafeSince(start, |history|, history, pairs, token) && Reported(start, pairs, [], [], [], allowReplace)
  {
  }

  /** Every target that was there is there. */
  ghost predicate TargetsThere(start: Disk, disk: Disk, pairs: seq<Pair>) {
    forall i :: 0 <= i < |pairs| && Live(pairs[i]) && pairs[i].target in start ==> pairs[i].target in disk
  }

  /** Some pair ended with its old bundle parked under the retired name. */
  ghost predicate Parked(outcomes: seq<PairOutcome>) {
    exists i :: 0 <= i < |outcomes| && outcomes[i].Failed? && outcomes[i].step == Restoring
  }

  lemma ParkedOnce(outcomes: seq<PairOutcome>, outcome: PairOutcome)
    ensures Parked(outcomes + [outcome]) <==> Parked(outcomes) || (outcome.Failed? && outcome.step == Restoring)
  {
    var all := outcomes + [outcome];
    assert all[|outcomes|] == outcome;
    if i :| 0 <= i < |outcomes| && outcomes[i].Failed? && outcomes[i].step == Restoring {
      assert all[i] == outcomes[i];
    }
  }

  lemma NoneParked(start: Disk, disk: Disk, pairs: seq<Pair>, token: string, outcomes: seq<PairOutcome>)
    requires |outcomes| <= |pairs| && AllTell(start, disk, pairs, token, outcomes)
    requires Untouched(start, disk, pairs, token, |outcomes|)
    ensures !Parked(outcomes) ==> TargetsThere(start, disk, pairs)
    ensures outcomes == [] ==> !Parked(outcomes)
  {
    if !Parked(outcomes) {
      forall i | 0 <= i < |pairs| && Live(pairs[i]) && pairs[i].target in start ensures pairs[i].target in disk {
        if i < |outcomes| {
          assert Kept(start, disk, pairs[i], token, outcomes[i]);
        } else {
          assert pairs[i].target in Touched(pairs[i], token);
          assert At(disk, pairs[i].target) == At(start, pairs[i].target);
        }
      }
    }
  }

  /** Main result: whatever the file system answers, every state of the run keeps every target whole;
      pairs before a failure are as their outcomes say, and pairs after it have not been touched. */
  method InstallBundles(fs: FileSystem, pairs: seq<Pair>, token: string, allowReplace: bool)
    returns (outcomes: seq<PairOutcome>, thrown: bool, installed: seq<Path>, declined: seq<Path>)
    requires Fresh(fs.disk, pairs, token)
    modifies fs
    ensures |outcomes| <= |pairs| && (!thrown ==> |outcomes| == |pairs| && forall o :: o in outcomes ==> !o.Failed?)
    ensures thrown && outcomes != [] ==> outcomes[|outcomes| - 1].Failed?
    ensures forall i :: 0 <= i < |outcomes| - 1 ==> !outcomes[i].Failed?
    ensures Reported(old(fs.disk), pairs, outcomes, installed, declined, allowReplace)
    ensures thrown || Installed(true) in outcomes ==> !fs.Reliable()
    ensures AllTell(old(fs.disk), fs.disk, pairs, token, outcomes)
    ensures Untouched(old(fs.disk), fs.disk, pairs, token, |outcomes|)
    ensures SafeSince(old(fs.disk), |old(fs.history)|, fs.history, pairs, token)
    ensures AllSafe(old(fs.disk), fs.disk, pairs, token)
    ensures OneFault(fs.answers) ==> TargetsThere(old(fs.disk), fs.disk, pairs)
  {
    hide TargetsThere, Parked, Tells, Sound, SoundSince, Touched, Fresh, Untouched, AllSafe, AllTell, SafeSince,
      Replaces, Present, Reported;
    outcomes, thrown, installed, declined := [], false, [], [];
    ghost var start, from := fs.disk, |fs.history|;
    AtTheStart(start, fs.history, pairs, token, allowReplace);
    var made := fs.Mkdir();
    NoneParked(start, fs.disk, pairs, token, outcomes);
    if !made {
      return [], true, [], [];
    }
    for n := 0 to |pairs|
      invariant |outcomes| == n && !thrown && forall o :: o in outcomes ==> !o.Failed?
      invariant Reported(start, pairs, outcomes, installed, declined, allowReplace)
      invariant Installed(true) in outcomes ==> !fs.Reliable()
      invariant AllTell(start, fs.disk, pairs, token, outcomes) && Untouched(start, fs.disk, pairs, token, n)
      invariant AllSafe(start, fs.disk, pairs, token) && SafeSince(start, from, fs.history, pairs, token)
      invariant OneFault(fs.answers) ==> !Parked(outcomes)
      invariant !Parked(outcomes) ==> TargetsThere(start, fs.disk, pairs)
    {
      ghost var before, past := fs.disk, fs.history;
      StillFresh(start, before, pairs, token, n);
      var outcome := PlacePair(fs, pairs[n], token, allowReplace);
      PairPlaced(start, before, fs.disk, from, past, fs.history, pairs, token, outcomes, outcome);
      PairReported(start, pairs, outcomes, outcome, installed, declined, allowReplace);
      ParkedOnce(outcomes, outcome);
      outcomes := outcomes + [outcome];
      NoneParked(start, fs.disk, pairs, token, outcomes);
      if outcome.Failed? {
        thrown := true;
        return;
      }
      if outcome.Installed? {
        installed := installed + [pairs[n].target];
      } else if outcome.Declined? {
        declined := declined + [pairs[n].target];
      }
    }
  }

  // ---- What the failure texts say --------------------------------------------------------------------------

  /** The claims of the message for a failed step. Those about last round's bundle need there to be one. */
  ghost predicate TextTrue(start: Disk, disk: Disk, pair: Pair, token: string, step: Step, stagedRemoved: bool) {
    var staged, before := Staged(pair.target, token), At(start, pair.target);
    && before.Some?
    && match step
       case Copying => At(disk, pair.target) == before && (stagedRemoved ==> staged !in disk)
       case Retiring => At(disk, pair.target) == before && (stagedRemoved ==> staged !in disk)
       case Placing => At(disk, pair.target) == before && At(disk, staged) == At(start, pair.source)
       case Restoring =>
         && pair.target !in disk && At(disk, Retired(pair.target, token)) == before
         && At(disk, staged) == At(start, pair.source)
  }

  /** Main result: the message of a failed pair is true exactly when there was a bundle to replace and the
      failing step is not the moving aside of that bundle. */
  lemma TextTrueExactly(answers: Answers, n: nat, start: Disk, pair: Pair, token: string, allowReplace: bool)
    requires Live(pair) ==> pair.source !in Touched(pair, token) && Retired(pair.target, token) !in start
    ensures var (disk, _, outcome) := PlaceRun(answers, n, start, pair, token, allowReplace);
      outcome.Failed? ==>
        (TextTrue(start, disk, pair, token, outcome.step, outcome.stagedRemoved)
         <==> pair.target in start && outcome.step != Retiring)
  {
  }

  /** Everything succeeds but one operation. */
  function FailingAt(k: nat): Answers { n => if n == k then Fails else Succeeds }

  /** A pair whose message for one fault, at operation `k` of its steps, names `step` and is untrue. */
  ghost predicate Misreports(k: nat, start: Disk, pair: Pair, token: string, step: Step) {
    var (disk, _, outcome) := PlaceRun(FailingAt(k), 0, start, pair, token, true);
    outcome == Failed(step, true) && !TextTrue(start, disk, pair, token, step, true)
  }

  /** Each kind of untrue message is reached: both of a first install, and that of a refused moving aside. */
  lemma UntrueTexts(start: Disk, pair: Pair, token: string)
    requires Present(start, pair) && pair.source !in Touched(pair, token)
    requires Staged(pair.target, token) !in start && Retired(pair.target, token) !in start
    ensures pair.target !in start ==>
      Misreports(0, start, pair, token, Copying) && Misreports(1, start, pair, token, Placing)
    ensures pair.target in start ==> Misreports(1, start, pair, token, Retiring)
  {
    NamesDiffer(pair.target, token);
  }
}
