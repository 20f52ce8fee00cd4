/** Restoring the daemon's launch agent: what is done to launchd, and on whose word. */
module LaunchdRestore {
  import opened Options
  import Plist

  /** What happens in a run, with the answer each step got. */
  datatype Event =
    | AskedUid(known: bool)
    | Printed(loaded: bool, program: Option<string>)   // launchctl print, and the program it names
    | ReadPlist(program: Option<string>)
    | BootedOut(ok: bool)
    | Bootstrapped(ok: bool, status: Option<int>, saysAlready: bool)   // its verdict, and what it rests on
    | Kickstarted(ok: bool)
    | Confirmed(yes: bool)
    | Waited(served: bool)
    | Hello(answered: bool, access: Option<string>)    // accessibility as the daemon reports it

  predicate Mutates(e: Event) { e.BootedOut? || e.Bootstrapped? || e.Kickstarted? }

  /** Answers of the outside world, by the number of events before the question. */
  datatype World = World(
    uid: nat -> bool, probe: nat -> (bool, string), plist: nat -> Option<string>,
    bootout: nat -> bool, bootstrap: nat -> (Option<int>, bool), kickstart: nat -> bool,
    human: nat -> bool, served: nat -> bool, hello: nat -> (bool, Option<string>))

  function PrintEvent(w: World, n: nat): Event { Printed(w.probe(n).0, Plist.LoadedProgram(w.probe(n).1)) }

  /** The program the file on disk names; None if it cannot be read. */
  function PlistEvent(w: World, n: nat): Event {
    ReadPlist(if w.plist(n).None? then None else Plist.ProgramFromPlist(w.plist(n).value))
  }

  /** Exit status 0, exit status 5 and "already loaded" all count as done. */
  function BootEvent(w: World, n: nat): Event {
    var (status, saysAlready) := w.bootstrap(n);
    Bootstrapped(status == Some(0) || status == Some(5) || saysAlready, status, saysAlready)
  }

  function HelloEvent(w: World, n: nat): Event { Hello(w.hello(n).0, if w.hello(n).0 then w.hello(n).1 else None) }

  class Session {
    const world: World
    var log: seq<Event>

    constructor (world: World)
      ensures this.world == world && log == []
    {
      this.world, log := world, [];
    }

    method Record(e: Event)
      modifies this
      ensures log == old(log) + [e]
    {
      log := log + [e];
    }

    method Uid() returns (known: bool)
      modifies this
      ensures log == old(log) + [AskedUid(known)] && known == world.uid(|old(log)|)
    {
      known := world.uid(|log|);
      Record(AskedUid(known));
    }

    method Probe() returns (loaded: bool, program: Option<string>)
      modifies this
      ensures log == old(log) + [Printed(loaded, program)]
      ensures Printed(loaded, program) == PrintEvent(world, |old(log)|)
    {
      var (ok, text) := world.probe(|log|);
      loaded, program := ok, Plist.LoadedProgram(text);
      Record(Printed(loaded, program));
    }

    method ProgramOnDisk() returns (program: Option<string>)
      modifies this
      ensures log == old(log) + [ReadPlist(program)] && ReadPlist(program) == PlistEvent(world, |old(log)|)
    {
      var text := world.plist(|log|);
      program := if text.None? then None else Plist.ProgramFromPlist(text.value);
      Record(ReadPlist(program));
    }

    method Bootout() returns (ok: bool)
      modifies this
      ensures log == old(log) + [BootedOut(ok)] && ok == world.bootout(|old(log)|)
    {
      ok := world.bootout(|log|);
      Record(BootedOut(ok));
    }

    method Bootstrap() returns (ok: bool, already: bool)
      modifies this
      ensures log == old(log) + [BootEvent(world, |old(log)|)]
      ensures |log| == |old(log)| + 1 && old(log) <= log && log[|old(log)|].Bootstrapped? && log[|old(log)|].ok == ok
      ensures already == (ok && log[|old(log)|].status != Some(0))
    {
      var (status, saysAlready) := world.bootstrap(|log|);
      ok := status == Some(0) || status == Some(5) || saysAlready;
      already := ok && status != Some(0);
      Record(Bootstrapped(ok, status, saysAlready));
    }

    method Kickstart() returns (ok: bool)
      modifies this
      ensures log == old(log) + [Kickstarted(ok)] && ok == world.kickstart(|old(log)|)
    {
      ok := world.kickstart(|log|);
      Record(Kickstarted(ok));
    }

    /** A flag on the command line is a yes; otherwise the human, or nobody, answers. */
    method Confirm(autoYes: bool) returns (yes: bool)
      modifies this
      ensures log == old(log) + [Confirmed(yes)] && yes == (autoYes || world.human(|old(log)|))
    {
      yes := autoYes || world.human(|log|);
      Record(Confirmed(yes));
    }

    method Wait() returns (served: bool)
      modifies this
      ensures log == old(log) + [Waited(served)] && served == world.served(|old(log)|)
    {
      served := world.served(|log|);
      Record(Waited(served));
    }

    method SayHello() returns (answered: bool, access: Option<string>)
      modifies this
      ensures log == old(log) + [Hello(answered, access)] && (access.Some? ==> answered)
      ensures Hello(answered, access) == HelloEvent(world, |old(log)|)
    {
      var (reply, reported) := world.hello(|log|);
      answered, access := reply, if reply then reported else None;
      Record(Hello(answered, access));
    }
  }

  datatype BootResult = BootResult(ok: bool, already: bool, declined: bool, bootoutFailed: bool)

  /** The job is loaded with the definition the file on disk has. */
  predicate Matching(loaded: bool, program: Option<string>, wanted: Option<string>) {
    loaded && !Plist.NeedsReregister(loaded, program, wanted)
  }

  // ---- The run as a function of the answers ----------------------------------------------------------------

  function Attempted(w: World, log: seq<Event>, allowBootout: bool): (seq<Event>, BootResult) {
    if !w.uid(|log|) then (log + [AskedUid(false)], BootResult(false, false, false, false))
    else
      var printed, file := PrintEvent(w, |log| + 1), PlistEvent(w, |log| + 2);
      var l3 := log + [AskedUid(true), printed, file];
      if Matching(printed.loaded, printed.program, file.program) then (l3, BootResult(true, true, false, false))
      else if printed.loaded && !allowBootout then (l3, BootResult(false, false, true, false))
      else if printed.loaded && !w.bootout(|l3|) then (l3 + [BootedOut(false)], BootResult(false, false, false, true))
      else
        var l4 := if printed.loaded then l3 + [BootedOut(true)] else l3;
        var boot := BootEvent(w, |l4|);
        (l4 + [boot], BootResult(boot.ok, boot.ok && boot.status != Some(0), false, false))
  }

  function Registered(w: World, log: seq<Event>, autoYes: bool): (seq<Event>, BootResult, bool) {
    var (l1, boot) := Attempted(w, log, false);
    if boot.ok || !boot.declined then (l1, boot, false)
    else
      var yes := autoYes || w.human(|l1|);
      var l2 := l1 + [Confirmed(yes)];
      if !yes then (l2, boot, true)
      else
        var (l3, again) := Attempted(w, l2, true);
        (l3, again, false)
  }

  function Verified(w: World, log: seq<Event>): (seq<Event>, Check) {
    if !w.served(|log|) then (log + [Waited(false)], Check(false, None))
    else
      var hello := HelloEvent(w, |log| + 1);
      (log + [Waited(true), hello], Check(hello.answered, hello.access))
  }

  function Settled(w: World, log: seq<Event>, already: bool): (seq<Event>, Action, Check) {
    var (l1, check) := Verified(w, log);
    if !check.reachable then (l1, Unreachable(already), check)
    else if check.access == Some("granted") || !already then (l1, if already then AlreadyLoaded else Started, check)
    else if !w.kickstart(|l1|) then (l1 + [Kickstarted(false)], AlreadyLoaded, check)
    else
      var (l2, again) := Verified(w, l1 + [Kickstarted(true)]);
      (l2, RestartedForGrant, again)
  }

  function Restored(w: World, log: seq<Event>, autoYes: bool): (seq<Event>, Action, Check) {
    var (l1, boot, declined) := Registered(w, log, autoYes);
    if boot.ok then Settled(w, l1, boot.already)
    else
      (l1, if declined then BootoutDeclined else if boot.bootoutFailed then BootoutFailed else BootstrapFailed,
       Check(false, None))
  }

  /** The command's own verdict on itself. */
  function Ok(action: Action): bool { action == RestartedForGrant || action == AlreadyLoaded || action == Started }

  /** A job is loaded and names a program, and the file names the same one. */
  ghost predicate SameProgram(printed: Event, file: Event) {
    && printed.Printed? && printed.loaded && printed.program.Some? && printed.program.value != ""
    && file == ReadPlist(printed.program)
  }

  /** Three reads that find that. */
  ghost predicate FoundMatching(log: seq<Event>, from: nat) {
    from + 3 <= |log| && log[from] == AskedUid(true) && SameProgram(log[from + 1], log[from + 2])
  }

  ghost predicate NoMutation(log: seq<Event>, from: nat) {
    forall k :: from <= k < |log| ==> !Mutates(log[k])
  }

  /** launchd took the job in during this run. */
  ghost predicate NewlyLoaded(log: seq<Event>, from: nat) {
    exists k :: from <= k < |log| && log[k].Bootstrapped? && log[k].status == Some(0)
  }

  ghost predicate Restarted(log: seq<Event>, from: nat) {
    exists k :: from <= k < |log| && log[k] == Kickstarted(true)
  }

  /** launchd could not be asked, or would not take the job. */
  ghost predicate NotTaken(log: seq<Event>) {
    log != [] && (log[|log| - 1] == AskedUid(false) || (log[|log| - 1].Bootstrapped? && !log[|log| - 1].ok))
  }

  /** What one bootstrap attempt may do, and what its result says. */
  ghost predicate Attempt(log: seq<Event>, from: nat, allowBootout: bool, r: BootResult) {
    && (forall k :: from <= k < |log| ==> !log[k].Confirmed? && !log[k].Kickstarted? && !log[k].Hello?)
    && (forall k :: from < k < |log| ==> !log[k].AskedUid?) && (forall k :: from <= k < |log| ==> TakenRightly(log[k]))
    && (forall k :: from <= k < |log| && log[k].BootedOut? ==> allowBootout)
    && (forall k :: from <= k < |log| && log[k] == BootedOut(false) ==>
         k == |log| - 1 && r == BootResult(false, false, false, true))
    && (r.declined ==> !allowBootout && !r.ok && NoMutation(log, from))
    && (r.declined ==> |log| == from + 3 && log[from + 1].Printed? && log[from + 1].loaded && !FoundMatching(log, from))
    && (!r.ok && !r.declined && !r.bootoutFailed ==> NotTaken(log))
    && (r.bootoutFailed ==> !r.ok && log != [] && log[|log| - 1] == BootedOut(false))
    && (if r.ok then r.already <==> !NewlyLoaded(log, from) else !NewlyLoaded(log, from))
    && (r.ok ==> !r.declined && !r.bootoutFailed && |log| >= from + 3)
    && (FoundMatching(log, from) ==> |log| == from + 3 && r == BootResult(true, true, false, false))
    && (FoundMatching(log, from) <==> r.ok && NoMutation(log, from))
  }

  /** A bootstrap counts as done with exit status 0 or 5, or when launchd says "already", and only then. */
  ghost predicate TakenRightly(e: Event) {
    e.Bootstrapped? ==> (e.ok <==> e.status == Some(0) || e.status == Some(5) || e.saysAlready)
  }

  ghost predicate Loads(e: Event, r: BootResult) {
    && e.Bootstrapped? && !r.declined && !r.bootoutFailed && r.ok == e.ok && (r.already ==> r.ok)
    && (r.ok && !r.already <==> e.status == Some(0)) && TakenRightly(e)
  }

  /** The attempts there are. */
  ghost predicate Script(did: seq<Event>, allowBootout: bool, r: BootResult) {
    if |did| < 3 then did == [AskedUid(false)] && r == BootResult(false, false, false, false)
    else
      && did[0] == AskedUid(true) && did[1].Printed? && did[2].ReadPlist?
      && var loaded := did[1].loaded;
         if SameProgram(did[1], did[2]) then
           |did| == 3 && r == BootResult(true, true, false, false)
         else if !loaded then |did| == 4 && Loads(did[3], r)
         else if !allowBootout then |did| == 3 && r == BootResult(false, false, true, false)
         else if |did| == 4 then did[3] == BootedOut(false) && r == BootResult(false, false, false, true)
         else |did| == 5 && did[3] == BootedOut(true) && Loads(did[4], r)
  }

  lemma ScriptedAttempt(log: seq<Event>, did: seq<Event>, allowBootout: bool, r: BootResult)
    requires Script(did, allowBootout, r)
    ensures Attempt(log + did, |log|, allowBootout, r)
  {
    hide SameProgram;
    var all := log + did;
    assert forall k :: 0 <= k < |did| ==> all[|log| + k] == did[k];
    assert forall k :: |log| <= k < |all| ==> all[k] == did[k - |log|];
    assert |did| > 3 ==> Mutates(all[|log| + |did| - 1]);
  }

  lemma AttemptedKeeps(w: World, log: seq<Event>, allowBootout: bool)
    ensures var (after, r) := Attempted(w, log, allowBootout);
      log <= after && |after| > |log| && Attempt(after, |log|, allowBootout, r)
  {
    hide Attempt, Plist.NeedsReregister;
    var (after, r) := Attempted(w, log, allowBootout);
    var did := after[|log|..];
    assert after == log + did;
    var printed, file := PrintEvent(w, |log| + 1), PlistEvent(w, |log| + 2);
    Plist.KeptExactly(printed.loaded, printed.program, file.program);
    assert Script(did, allowBootout, r);
    ScriptedAttempt(log, did, allowBootout, r);
  }

  method LaunchctlBootstrap(s: Session, allowBootout: bool) returns (r: BootResult)
    modifies s
    ensures old(s.log) <= s.log && |s.log| > |old(s.log)|
    ensures Attempt(s.log, |old(s.log)|, allowBootout, r)
    ensures (s.log, r) == Attempted(s.world, old(s.log), allowBootout)
  {
    hide Matching, Attempt, PrintEvent, PlistEvent;
    AttemptedKeeps(s.world, s.log, allowBootout);
    ghost var start := s.log;
    var known := s.Uid();
    if !known {
      return BootResult(false, false, false, false);
    }
    var loaded, program := s.Probe();
    var wanted := s.ProgramOnDisk();
    assert s.log == start + [AskedUid(true), Printed(loaded, program), ReadPlist(wanted)];
    if Matching(loaded, program, wanted) {
      return BootResult(true, true, false, false);
    }
    if loaded {
      if !allowBootout {
        return BootResult(false, false, true, false);
      }
      var out := s.Bootout();
      if !out {
        return BootResult(false, false, false, true);
      }
    }
    var ok, already := s.Bootstrap();
    r := BootResult(ok, already, false, false);
  }

  // ---- Restoring -----------------------------------------------------------------------------------------

  datatype Action =
    | BadHome | MissingPlist | BootoutDeclined | BootoutFailed | BootstrapFailed
    | Unreachable(already: bool) | RestartedForGrant | AlreadyLoaded | Started

  datatype Check = Check(reachable: bool, access: Option<string>)

  ghost predicate Consented(log: seq<Event>, from: nat, k: nat)
    requires k <= |log|
  {
    exists j :: from <= j < k && log[j] == Confirmed(true)
  }

  /** A booted-out job had a yes in front of it, and a failed bootout is the last thing done to launchd. */
  ghost predicate BootoutWithConsent(log: seq<Event>, from: nat) {
    && (forall k :: from <= k < |log| && log[k].BootedOut? ==> Consented(log, from, k))
    && (forall k, m :: from <= k < m < |log| && log[k] == BootedOut(false) ==> !Mutates(log[m]))
  }

  /** A no anywhere in the run means nothing was done to launchd in it. */
  ghost predicate NoMeansNo(log: seq<Event>, from: nat) {
    (exists j :: from <= j < |log| && log[j] == Confirmed(false)) ==> NoMutation(log, from)
  }

  /** A job found loaded and matching the file, at the first look or at a later one, is neither booted out
      nor bootstrapped from then on. */
  ghost predicate MatchLeftAlone(log: seq<Event>, from: nat) {
    forall p, k :: from <= p <= k < |log| && FoundMatching(log, p) ==> !log[k].BootedOut? && !log[k].Bootstrapped?
  }

  /** At most one kickstart, and only after a hello that answered without reporting "granted". */
  ghost predicate KickedOnce(log: seq<Event>, from: nat) {
    && (forall k, m :: from <= k < m < |log| ==> !(log[k].Kickstarted? && log[m].Kickstarted?))
    && (forall k :: from <= k < |log| && log[k].Kickstarted? ==>
          k > from && log[k - 1].Hello? && log[k - 1].answered && log[k - 1].access != Some("granted"))
  }

  ghost predicate RestoredWithCare(log: seq<Event>, from: nat) {
    && BootoutWithConsent(log, from) && NoMeansNo(log, from) && MatchLeftAlone(log, from) && KickedOnce(log, from)
    && (forall k :: from <= k < |log| ==> TakenRightly(log[k]))
  }

  lemma LeftAloneOnce(log: seq<Event>, from: nat, allowBootout: bool, r: BootResult)
    requires from < |log| && Attempt(log, from, allowBootout, r)
    ensures MatchLeftAlone(log, from)
  {
    forall p, k | from <= p <= k < |log| && FoundMatching(log, p) ensures !log[k].BootedOut? && !log[k].Bootstrapped? {
      assert log[p].AskedUid?;
    }
  }

  /** A look that found no match, then an answer, then an attempt. */
  lemma LeftAloneTwice(first: seq<Event>, log: seq<Event>, from: nat)
    requires first <= log && |first| == from + 4 && first[from + 3].Confirmed? && !FoundMatching(first, from)
    requires first[from + 1].Printed? && (forall k :: from < k < |first| ==> !first[k].AskedUid?)
    requires MatchLeftAlone(log, |first|)
    ensures MatchLeftAlone(log, from)
  {
    assert forall k :: 0 <= k < |first| ==> log[k] == first[k];
    forall p, k | from <= p <= k < |log| && FoundMatching(log, p) ensures !log[k].BootedOut? && !log[k].Bootstrapped? {
      assert log[p].AskedUid? && p + 3 <= |log|;
      assert p == from ==> FoundMatching(first, from);
    }
  }

  /** What a registration keeps, and what its outcome says. */
  ghost predicate RegisterKeeps(log: seq<Event>, from: nat, boot: BootResult, declined: bool) {
    && |log| > from && RestoredWithCare(log, from)
    && (forall k :: from <= k < |log| ==> !log[k].Kickstarted? && !log[k].Hello?)
    && (boot.ok ==> |log| >= from + 3 && !declined)
    && (boot.ok ==> forall k :: from <= k < |log| ==> log[k] != BootedOut(false) && log[k] != Confirmed(false))
    && (declined ==> NoMutation(log, from) && !boot.ok && log[|log| - 1] == Confirmed(false))
    && (if boot.ok then boot.already <==> !NewlyLoaded(log, from) else !NewlyLoaded(log, from))
    && (!boot.ok && !declined && !boot.bootoutFailed ==> NotTaken(log))
    && (boot.bootoutFailed ==> !boot.ok && (declined || log[|log| - 1] == BootedOut(false)))
  }

  lemma AfterOne(log: seq<Event>, from: nat, boot: BootResult)
    requires from < |log| && Attempt(log, from, false, boot) && !boot.declined
    ensures RegisterKeeps(log, from, boot, false)
  {
    LeftAloneOnce(log, from, false, boot);
  }

  lemma AfterNo(first: seq<Event>, from: nat, boot: BootResult)
    requires from < |first| && Attempt(first, from, false, boot) && boot.declined
    ensures RegisterKeeps(first + [Confirmed(false)], from, boot, true)
  {
    var log := first + [Confirmed(false)];
    assert forall k :: 0 <= k < |first| ==> log[k] == first[k];
    assert forall k :: from <= k < |log| ==> !Mutates(log[k]);
  }

  lemma AfterYes(first: seq<Event>, log: seq<Event>, from: nat, declined: BootResult, boot: BootResult)
    requires from < |first| && Attempt(first, from, false, declined) && declined.declined
    requires first + [Confirmed(true)] <= log && |first| + 1 < |log| && Attempt(log, |first| + 1, true, boot)
    ensures RegisterKeeps(log, from, boot, false)
  {
    hide Matching;
    var asked := first + [Confirmed(true)];
    assert forall k :: 0 <= k < |asked| ==> log[k] == asked[k];
    assert log[|first|] == Confirmed(true);
    LeftAloneOnce(log, |first| + 1, true, boot);
    LeftAloneTwice(asked, log, from);
    assert NewlyLoaded(log, from) <==> NewlyLoaded(log, |first| + 1);
    forall k | from <= k < |log| && log[k].BootedOut? ensures Consented(log, from, k) { assert k > |first|; }
  }

  /** One attempt without leave, then perhaps a question, then perhaps an attempt with leave. */
  method Register(s: Session, autoYes: bool) returns (boot: BootResult, declined: bool)
    modifies s
    ensures old(s.log) <= s.log
    ensures (s.log, boot, declined) == Registered(s.world, old(s.log), autoYes)
    ensures RegisterKeeps(s.log, |old(s.log)|, boot, declined)
  {
    hide Attempt, Attempted, RegisterKeeps;
    declined := false;
    ghost var from := |s.log|;
    boot := LaunchctlBootstrap(s, false);
    AttemptOutcome(s.log, from, boot);
    if boot.ok || !boot.declined {
      AfterOne(s.log, from, boot);
      return;
    }
    ghost var first, refused := s.log, boot;
    var allowed := s.Confirm(autoYes);
    if !allowed {
      AfterNo(first, from, boot);
      declined := true;
      return;
    }
    boot := LaunchctlBootstrap(s, true);
    AfterYes(first, s.log, from, refused, boot);
  }

  lemma AttemptOutcome(log: seq<Event>, from: nat, r: BootResult)
    requires Attempt(log, from, false, r)
    ensures r.ok ==> !r.declined
  {
  }

  ghost predicate FollowsUp(before: seq<Event>, log: seq<Event>) {
    && before <= log && KickedOnce(log, |before|)
    && (forall k :: |before| <= k < |log| ==> log[k].Kickstarted? || log[k].Waited? || log[k].Hello?)
  }

  /** What may follow a registration that worked. */
  lemma Continues(before: seq<Event>, log: seq<Event>, from: nat)
    requires before <= log && from + 3 <= |before| && RestoredWithCare(before, from)
    requires forall k :: from <= k < |before| ==>
      !before[k].Kickstarted? && before[k] != BootedOut(false) && before[k] != Confirmed(false)
    requires FollowsUp(before, log)
    ensures RestoredWithCare(log, from)
  {
    assert forall k :: 0 <= k < |before| ==> log[k] == before[k];
    forall p | from <= p && FoundMatching(log, p) ensures FoundMatching(before, p) {
      assert log[p + 2].ReadPlist?;
    }
    forall k | from <= k < |log| && log[k].BootedOut? ensures Consented(log, from, k) {
      assert Consented(before, from, k);
      var j :| from <= j < k && before[j] == Confirmed(true);
      assert log[j] == Confirmed(true);
    }
  }

  /** The last thing that happened is that the daemon did not answer. */
  ghost predicate Silent(log: seq<Event>) {
    log != [] && (log[|log| - 1] == Waited(false) || (log[|log| - 1].Hello? && !log[|log| - 1].answered))
  }

  method Verify(s: Session) returns (c: Check)
    modifies s
    ensures old(s.log) <= s.log && |s.log| > |old(s.log)|
    ensures forall k :: |old(s.log)| <= k < |s.log| ==> s.log[k].Waited? || s.log[k].Hello?
    ensures (s.log, c) == Verified(s.world, old(s.log))
    ensures if c.reachable then s.log[|s.log| - 1] == Hello(true, c.access) else Silent(s.log)
  {
    var served := s.Wait();
    if !served {
      return Check(false, None);
    }
    var answered, access := s.SayHello();
    assert s.log == old(s.log) + [Waited(true), Hello(answered, access)];
    c := Check(answered, access);
  }

  /** The daemon answered in this run, with that accessibility. */
  ghost predicate Heard(log: seq<Event>, from: nat, c: Check) {
    exists k :: from <= k < |log| && log[k] == Hello(true, c.access)
  }

  /** The daemon answered a hello of this run. */
  ghost predicate Answered(log: seq<Event>, from: nat) {
    exists k :: from <= k < |log| && log[k].Hello? && log[k].answered
  }

  /** Only a job that was loaded before this run is restarted. */
  ghost predicate RestartsOnlyOld(log: seq<Event>, from: nat) {
    forall k :: from <= k < |log| && log[k].Kickstarted? ==> !NewlyLoaded(log, from)
  }

  /** What the reported action says about the run. */
  ghost predicate Reports(log: seq<Event>, from: nat, action: Action, verified: Check)
    requires from <= |log|
  {
    && (verified.reachable ==> Heard(log, from, verified)) && RestartsOnlyOld(log, from)
    && match action
       case Started => NewlyLoaded(log, from) && !Restarted(log, from) && verified.reachable
       case AlreadyLoaded =>
         && from < |log| && !NewlyLoaded(log, from) && !Restarted(log, from) && verified.reachable
         && (verified.access == Some("granted") || log[|log| - 1] == Kickstarted(false))
       case RestartedForGrant => Restarted(log, from)
       case Unreachable(already) =>
         (already <==> !NewlyLoaded(log, from)) && !Restarted(log, from) && !verified.reachable
       case BootoutDeclined => from < |log| && log[|log| - 1] == Confirmed(false)
       case BootoutFailed => from < |log| && log[|log| - 1] == BootedOut(false)
       case BootstrapFailed => from < |log| && NotTaken(log) && !NewlyLoaded(log, from)
       case _ => |log| == from
  }

  /** Reads the daemon's own word, and restarts a job that was already there if it has no grant yet. */
  method Settle(s: Session, already: bool) returns (action: Action, verified: Check)
    modifies s
    ensures FollowsUp(old(s.log), s.log) && |s.log| > |old(s.log)|
    ensures (s.log, action, verified) == Settled(s.world, old(s.log), already)
    ensures action == RestartedForGrant ==> (verified.reachable <==> !Silent(s.log))
    ensures Ok(action) <==> Answered(s.log, |old(s.log)|)
    ensures action == RestartedForGrant <==> Restarted(s.log, |old(s.log)|)
    ensures action == AlreadyLoaded ==> verified.access == Some("granted") || s.log[|s.log| - 1] == Kickstarted(false)
    ensures action != RestartedForGrant ==>
      action == if !verified.reachable then Unreachable(already) else if already then AlreadyLoaded else Started
    ensures verified.reachable ==> Heard(s.log, |old(s.log)|, verified)
    ensures forall k :: |old(s.log)| <= k < |s.log| && s.log[k].Kickstarted? ==> already
  {
    verified := Verify(s);
    ghost var first := s.log;
    assert verified.reachable ==> first[|first| - 1] == Hello(true, verified.access);
    if !verified.reachable {
      return Unreachable(already), verified;
    }
    if verified.access != Some("granted") && already {
      var kicked := s.Kickstart();
      assert s.log[|first|] == Kickstarted(kicked) && s.log[|first| - 1] == first[|first| - 1];
      if kicked {
        ghost var second := s.log;
        verified := Verify(s);
        assert s.log[|first|] == second[|first|];
        return RestartedForGrant, verified;
      }
    }
    action := if already then AlreadyLoaded else Started;
  }

  /** Main result: every run of the restore command keeps to what the user allowed. */
  method RestoreLaunchd(s: Session, pathsKnown: bool, plistExists: bool, autoYes: bool)
    returns (action: Action, verified: Check, ok: bool)
    modifies s
    ensures pathsKnown && plistExists ==> (s.log, action, verified) == Restored(s.world, old(s.log), autoYes)
    ensures ok == Ok(action) && (ok <==> Answered(s.log, |old(s.log)|))
    ensures ok ==> (verified.reachable <==> !(Restarted(s.log, |old(s.log)|) && Silent(s.log)))
    ensures old(s.log) <= s.log
    ensures RestoredWithCare(s.log, |old(s.log)|)
    ensures Reports(s.log, |old(s.log)|, action, verified)
    ensures action == BadHome <==> !pathsKnown
    ensures action == MissingPlist <==> pathsKnown && !plistExists
  {
    hide Settled, Registered, FollowsUp, RestoredWithCare;
    NothingDone(s.log);
    verified, ok := Check(false, None), false;
    if !pathsKnown {
      action := BadHome;
      return;
    }
    if !plistExists {
      action := MissingPlist;
      return;
    }
    var boot, declined := Register(s, autoYes);
    if !boot.ok {
      action :=
        if declined then BootoutDeclined else if boot.bootoutFailed then BootoutFailed else BootstrapFailed;
      return;
    }
    ghost var before := s.log;
    action, verified := Settle(s, boot.already);
    ok := Ok(action);
    Continues(before, s.log, |old(s.log)|);
    Told(before, s.log, |old(s.log)|, boot.already, action, verified);
  }

  lemma NothingDone(log: seq<Event>)
    ensures RestoredWithCare(log, |log|)
  {
  }

  /** What settling found out, as a statement about the whole run. */
  lemma Told(before: seq<Event>, log: seq<Event>, from: nat, already: bool, action: Action, verified: Check)
    requires from < |before| && before <= log && FollowsUp(before, log)
    requires already <==> !NewlyLoaded(before, from)
    requires forall k :: from <= k < |before| ==> !before[k].Kickstarted?
    requires action == RestartedForGrant <==> Restarted(log, |before|)
    requires action == AlreadyLoaded ==>
      log != [] && (verified.access == Some("granted") || log[|log| - 1] == Kickstarted(false))
    requires action != RestartedForGrant ==>
      action == if !verified.reachable then Unreachable(already) else if already then AlreadyLoaded else Started
    requires verified.reachable ==> Heard(log, |before|, verified)
    requires forall k :: |before| <= k < |log| && log[k].Kickstarted? ==> already
    ensures Reports(log, from, action, verified)
  {
    assert forall k :: 0 <= k < |before| ==> log[k] == before[k];
    assert NewlyLoaded(log, from) <==> NewlyLoaded(before, from);
    assert Restarted(log, from) <==> Restarted(log, |before|);
  }

  /** A job launchd already had, which answers without a grant, is restarted, and then answers no more. */
  function LostAfterRestart(): World {
    World(_ => true, _ => (false, ""), _ => None, _ => false, _ => (Some(5), false), _ => true, _ => false,
          n => n < 7, _ => (true, Some("denied")))
  }

  /** Such a run reports success with nobody there. */
  lemma OkWithoutDaemon()
    ensures var (log, action, verified) := Restored(LostAfterRestart(), [], false);
      Ok(action) && !verified.reachable
  {
    hide Plist.LoadedProgram, Plist.ProgramFromPlist, Plist.NeedsReregister;
    var w := LostAfterRestart();
    var (l1, boot) := Attempted(w, [], false);
    assert |l1| == 4 && boot == BootResult(true, true, false, false);
    var (l2, check) := Verified(w, l1);
    assert |l2| == 6 && check == Check(true, Some("denied"));
  }
}
