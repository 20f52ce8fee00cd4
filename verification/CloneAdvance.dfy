/** Moving an existing clone to the pinned ref: what is asked of git, and what is done about the answers. */
module CloneAdvance {
  import opened Options
  import opened JsText

  datatype Command =
    | ShowToplevel
    | Status
    | IsShallow
    | ResolveRef        // rev-parse --verify <ref>^{commit}
    | ResolveFetchHead  // rev-parse --verify FETCH_HEAD^{commit}
    | ResolveHead       // rev-parse --verify HEAD
    | Remotes
    | Fetch(shallow: bool, remote: string)
    | Checkout(commit: string)

  /** `ok` is exit status 0. */
  datatype Reply = Reply(ok: bool, output: string)
  datatype Exchange = Exchange(command: Command, reply: Reply)

  /** The latest reply to a command. */
  function Latest(log: seq<Exchange>, c: Command): Option<Reply> {
    if log == [] then None
    else if log[|log| - 1].command == c then Some(log[|log| - 1].reply)
    else Latest(log[..|log| - 1], c)
  }

  /** `log` continues `past` without changing anything in the repository. */
  ghost predicate ReadsSince(past: seq<Exchange>, log: seq<Exchange>) {
    past <= log && forall k :: |past| <= k < |log| ==> !log[k].command.Fetch? && !log[k].command.Checkout?
  }

  /** Git, answering as it likes; `log` is the conversation so far. */
  class Git {
    const answers: (nat, Command) -> Reply
    var log: seq<Exchange>

    constructor (answers: (nat, Command) -> Reply)
      ensures this.answers == answers && log == []
    {
      this.answers, log := answers, [];
    }

    method Ask(c: Command) returns (r: Reply)
      modifies this
      ensures r == answers(|old(log)|, c) && log == old(log) + [Exchange(c, r)]
      ensures forall c' :: Latest(log, c') == if c' == c then Some(r) else Latest(old(log), c')
    {
      r := answers(|log|, c);
      log := log + [Exchange(c, r)];
      assert log[..|log| - 1] == old(log);
    }

    method Read(c: Command, ghost past: seq<Exchange>) returns (r: Reply)
      requires !c.Fetch? && !c.Checkout? && ReadsSince(past, log)
      modifies this
      ensures r == answers(|old(log)|, c) && log == old(log) + [Exchange(c, r)] && ReadsSince(past, log)
      ensures forall c' :: Latest(log, c') == if c' == c then Some(r) else Latest(old(log), c')
    {
      r := Ask(c);
    }
  }

  datatype Problem = Unreadable | Outside(toplevel: string)

  /** `head`, `tagCommit` and `shallow` are None where git did not answer. */
  datatype Facts = Facts(
    head: Option<string>, tagCommit: Option<string>, blocking: seq<string>, shallow: Option<bool>,
    problem: Option<Problem>)

  datatype Decision = Refuse | Use(head: string) | Advance(target: Option<string>)

  predicate Truthy(s: Option<string>) { s.Some? && s.value != "" }

  /** A commit as `rev-parse` names it. */
  function Sha(r: Option<Reply>): Option<string> { if r.Some? && r.value.ok then Some(Trim(r.value.output)) else None }

  /** The changed paths that count: lines that are not blank. */
  function Dirty(blocking: seq<string>): seq<string> {
    if blocking == [] then []
    else (if Trim(blocking[0]) == "" then [] else [Trim(blocking[0])]) + Dirty(blocking[1..])
  }

  function Decide(f: Facts): Decision {
    if f.problem.Some? then Refuse
    else if Dirty(f.blocking) != [] then Refuse
    else if !Truthy(f.head) then Refuse
    else if Truthy(f.tagCommit) && f.head == f.tagCommit then Use(f.head.value)
    else if !Truthy(f.tagCommit) then Advance(None)
    else Advance(f.tagCommit)
  }

  function RemoteName(names: seq<string>): Option<string> {
    var trimmed := Dirty(names);
    if "origin" in trimmed then Some("origin") else if |trimmed| == 1 then Some(trimmed[0]) else None
  }

  function ToplevelProblem(dir: string, canonical: string -> string, r: Reply): Option<Problem> {
    if !r.ok || Trim(r.output) == "" then Some(Unreadable)
    else if canonical(Trim(r.output)) == canonical(dir) then None
    else Some(Outside(Trim(r.output)))
  }

  /** The last toplevel git reported is the directory in question. */
  ghost predicate Ours(log: seq<Exchange>, dir: string, canonical: string -> string) {
    Latest(log, ShowToplevel).Some? && ToplevelProblem(dir, canonical, Latest(log, ShowToplevel).value).None?
  }

  function Resolved(log: seq<Exchange>, afterFetch: bool): Option<string> {
    if Sha(Latest(log, ResolveRef)).Some? || !afterFetch then Sha(Latest(log, ResolveRef))
    else Sha(Latest(log, ResolveFetchHead))
  }

  /** The facts are the latest answers, and those of a failed status read as "nothing changed". */
  ghost predicate Reflect(f: Facts, log: seq<Exchange>, afterFetch: bool) {
    && f.head == Sha(Latest(log, ResolveHead))
    && f.tagCommit == Resolved(log, afterFetch)
    && Latest(log, Status).Some?
    && f.blocking == (if Latest(log, Status).value.ok then Lines(Latest(log, Status).value.output) else [])
    && Latest(log, IsShallow).Some?
    && f.shallow ==
         (if Latest(log, IsShallow).value.ok then Some(Trim(Latest(log, IsShallow).value.output) == "true") else None)
  }

  /** A failed `status` comes with an unreadable HEAD, in the reads that follow it. */
  ghost predicate Consistent(git: Git) {
    forall i, j :: 0 <= i < j <= i + 4 && !git.answers(i, Status).ok ==> !git.answers(j, ResolveHead).ok
  }

  /** The commit the ref names or, after a fetch of our own, the one that fetch left. */
  method ResolveTag(git: Git, ghost past: seq<Exchange>, afterFetch: bool) returns (tagCommit: Option<string>)
    requires ReadsSince(past, git.log)
    modifies git
    ensures ReadsSince(past, git.log) && |old(git.log)| < |git.log| <= |old(git.log)| + 2
    ensures forall c :: c != ResolveRef && c != ResolveFetchHead ==> Latest(git.log, c) == Latest(old(git.log), c)
    ensures tagCommit == Resolved(git.log, afterFetch)
    ensures (git.log, tagCommit) == TagLooked(git.answers, old(git.log), afterFetch)
  {
    hide Latest, Sha, ReadsSince;
    var resolved := git.Read(ResolveRef, past);
    tagCommit := Sha(Some(resolved));
    if tagCommit.None? && afterFetch {
      var fetched := git.Read(ResolveFetchHead, past);
      tagCommit := Sha(Some(fetched));
    }
  }

  type Answers = (nat, Command) -> Reply

  /** The conversation after one more question. */
  function Asked(answers: Answers, log: seq<Exchange>, c: Command): seq<Exchange> {
    log + [Exchange(c, answers(|log|, c))]
  }

  /** A reading of the facts, and the conversation after it. */
  function Looked(answers: Answers, log: seq<Exchange>, dir: string, canonical: string -> string, afterFetch: bool)
    : (seq<Exchange>, Facts)
  {
    var l1 := Asked(answers, log, ShowToplevel);
    var problem := ToplevelProblem(dir, canonical, answers(|log|, ShowToplevel));
    if problem.Some? then (l1, Facts(None, None, [], None, problem))
    else
      var status, shallow := answers(|l1|, Status), answers(|l1| + 1, IsShallow);
      var l3 := Asked(answers, Asked(answers, l1, Status), IsShallow);
      var (l5, tagCommit) := TagLooked(answers, l3, afterFetch);
      (Asked(answers, l5, ResolveHead),
       Facts(Sha(Some(answers(|l5|, ResolveHead))), tagCommit,
             if status.ok then Lines(status.output) else [],
             if shallow.ok then Some(Trim(shallow.output) == "true") else None, None))
  }

  function TagLooked(answers: Answers, log: seq<Exchange>, afterFetch: bool): (seq<Exchange>, Option<string>) {
    var l1 := Asked(answers, log, ResolveRef);
    var named := Sha(Some(answers(|log|, ResolveRef)));
    if named.None? && afterFetch then
      (Asked(answers, l1, ResolveFetchHead), Sha(Some(answers(|l1|, ResolveFetchHead))))
    else (l1, named)
  }

  method ReadFacts(git: Git, dir: string, canonical: string -> string, afterFetch: bool) returns (f: Facts)
    modifies git
    ensures ReadsSince(old(git.log), git.log)
    ensures (git.log, f) == Looked(git.answers, old(git.log), dir, canonical, afterFetch)
    ensures f.problem.None? ==> Ours(git.log, dir, canonical) && Reflect(f, git.log, afterFetch)
    ensures f.problem.None? && Consistent(git) && f.head.Some? ==> Latest(git.log, Status).value.ok
    ensures f.problem.Some? ==>
      !Ours(git.log, dir, canonical) && f.head.None? && f.tagCommit.None? && f.blocking == [] && f.shallow.None?
  {
    hide Latest, Trim, Lines, ReadsSince, ToplevelProblem, Consistent, Sha;
    ghost var past := git.log;
    NoReads(past);
    var top := git.Read(ShowToplevel, past);
    var problem := ToplevelProblem(dir, canonical, top);
    if problem.Some? {
      return Facts(None, None, [], None, problem);
    }
    ghost var at := |git.log|;
    var status := git.Read(Status, past);
    var shallow := git.Read(IsShallow, past);
    var tagCommit := ResolveTag(git, past, afterFetch);
    var head := git.Read(ResolveHead, past);
    StatusAnswered(git, at, |git.log| - 1);
    f := Facts(Sha(Some(head)), tagCommit,
               if status.ok then Lines(status.output) else [],
               if shallow.ok then Some(Trim(shallow.output) == "true") else None, None);
  }

  lemma StatusAnswered(git: Git, i: nat, j: nat)
    requires i < j <= i + 4
    ensures Consistent(git) && Sha(Some(git.answers(j, ResolveHead))).Some? ==> git.answers(i, Status).ok
  {
  }

  lemma NoReads(past: seq<Exchange>)
    ensures ReadsSince(past, past)
  {
  }

  // ---- Advancing -----------------------------------------------------------------------------------------

  /** This run's own fetch succeeded somewhere between `from` and `to`. */
  ghost predicate Fetched(log: seq<Exchange>, from: nat, to: nat)
    requires to <= |log|
  {
    exists i :: from <= i < to && log[i].command.Fetch? && log[i].reply.ok
  }

  /** The latest read says: this directory, nothing uncommitted, a readable HEAD. */
  ghost predicate ReadClean(log: seq<Exchange>, dir: string, canonical: string -> string, consistent: bool) {
    && Ours(log, dir, canonical)
    && Latest(log, Status).Some?
    && (Latest(log, Status).value.ok ==> Dirty(Lines(Latest(log, Status).value.output)) == [])
    && (consistent ==> Latest(log, Status).value.ok)
    && Truthy(Sha(Latest(log, ResolveHead)))
  }

  /** Why exchange `k` of a run that began at `from` may be a checkout. */
  ghost predicate CheckoutJustified(log: seq<Exchange>, from: nat, k: nat, dir: string, canonical: string -> string,
                                    consistent: bool)
    requires k < |log| && log[k].command.Checkout?
  {
    var before := log[..k];
    var commit := Some(log[k].command.commit);
    && ReadClean(before, dir, canonical, consistent) && Truthy(commit) && commit != Sha(Latest(before, ResolveHead))
    && (commit == Sha(Latest(before, ResolveRef))
        || (Sha(Latest(before, ResolveRef)).None? && Fetched(log, from, k)
            && commit == Sha(Latest(before, ResolveFetchHead))))
  }

  /** Why exchange `k` may be a fetch: a clean tree of ours without the ref; shallow only if git said so. */
  ghost predicate FetchJustified(log: seq<Exchange>, k: nat, dir: string, canonical: string -> string, consistent: bool)
    requires k < |log| && log[k].command.Fetch?
  {
    var before := log[..k];
    && ReadClean(before, dir, canonical, consistent) && !Truthy(Sha(Latest(before, ResolveRef)))
    && Latest(before, Remotes).Some? && Latest(before, Remotes).value.ok
    && Some(log[k].command.remote) == RemoteName(Lines(Latest(before, Remotes).value.output))
    && (log[k].command.shallow <==>
          Latest(before, IsShallow).Some? && Latest(before, IsShallow).value.ok
            && Trim(Latest(before, IsShallow).value.output) == "true")
  }

  ghost predicate Justified(log: seq<Exchange>, from: nat, dir: string, canonical: string -> string, consistent: bool) {
    && (forall k :: from <= k < |log| && log[k].command.Checkout? ==>
         CheckoutJustified(log, from, k, dir, canonical, consistent))
    && (forall k :: from <= k < |log| && log[k].command.Fetch? ==> FetchJustified(log, k, dir, canonical, consistent))
  }

  /** Reads after a justified conversation leave it justified. */
  lemma ReadsKeepJustified(before: seq<Exchange>, log: seq<Exchange>, from: nat, dir: string,
                           canonical: string -> string, consistent: bool)
    requires from <= |before| && ReadsSince(before, log) && Justified(before, from, dir, canonical, consistent)
    ensures Justified(log, from, dir, canonical, consistent)
  {
    hide CheckoutJustified, FetchJustified;
    forall k | from <= k < |log| && log[k].command.Checkout?
      ensures CheckoutJustified(log, from, k, dir, canonical, consistent)
    {
      assert log[k] == before[k];
      EarlierCheckout(before, log, from, k, dir, canonical, consistent);
    }
    forall k | from <= k < |log| && log[k].command.Fetch? ensures FetchJustified(log, k, dir, canonical, consistent) {
      assert log[k] == before[k];
      EarlierFetch(before, log, k, dir, canonical, consistent);
    }
  }

  lemma OneMore(log: seq<Exchange>, e: Exchange, from: nat, dir: string, canonical: string -> string, consistent: bool)
    requires from <= |log| && Justified(log, from, dir, canonical, consistent)
    requires e.command.Checkout? ==> CheckoutJustified(log + [e], from, |log|, dir, canonical, consistent)
    requires e.command.Fetch? ==> FetchJustified(log + [e], |log|, dir, canonical, consistent)
    ensures Justified(log + [e], from, dir, canonical, consistent)
  {
    hide CheckoutJustified, FetchJustified;
    var after := log + [e];
    forall k | from <= k < |after| && after[k].command.Checkout?
      ensures CheckoutJustified(after, from, k, dir, canonical, consistent)
    {
      if k < |log| { EarlierCheckout(log, after, from, k, dir, canonical, consistent); }
    }
    forall k | from <= k < |after| && after[k].command.Fetch?
      ensures FetchJustified(after, k, dir, canonical, consistent)
    {
      if k < |log| { EarlierFetch(log, after, k, dir, canonical, consistent); }
    }
  }

  lemma EarlierCheckout(log: seq<Exchange>, after: seq<Exchange>, from: nat, k: nat, dir: string,
                        canonical: string -> string, consistent: bool)
    requires log <= after && k < |log| && log[k].command.Checkout?
      && CheckoutJustified(log, from, k, dir, canonical, consistent)
    ensures CheckoutJustified(after, from, k, dir, canonical, consistent)
  {
    hide ReadClean, Latest, Sha;
    assert after[..k] == log[..k] && after[k] == log[k];
    if Fetched(log, from, k) {
      var i :| from <= i < k && log[i].command.Fetch? && log[i].reply.ok;
      assert after[i] == log[i];
    }
  }

  lemma EarlierFetch(log: seq<Exchange>, after: seq<Exchange>, k: nat, dir: string, canonical: string -> string,
                     consistent: bool)
    requires log <= after && k < |log| && log[k].command.Fetch? && FetchJustified(log, k, dir, canonical, consistent)
    ensures FetchJustified(after, k, dir, canonical, consistent)
  {
    hide ReadClean, Latest, Sha;
    assert after[..k] == log[..k] && after[k] == log[k];
  }

  // ---- The procedure ---------------------------------------------------------------------------------------

  /** `Ready` is the action `use`; `Unfinished` hands back an `advance` that had no commit to go to. */
  datatype Result = Refused | Ready(head: string, advanced: bool) | Unfinished

  /** The latest answers say: this directory is at the resolved commit, with nothing uncommitted. */
  ghost predicate AtResolved(log: seq<Exchange>, dir: string, canonical: string -> string, head: string,
                             consistent: bool)
  {
    && ReadClean(log, dir, canonical, consistent) && Sha(Latest(log, ResolveHead)) == Some(head)
    && (Sha(Latest(log, ResolveRef)) == Some(head)
        || (Sha(Latest(log, ResolveRef)).None? && Sha(Latest(log, ResolveFetchHead)) == Some(head)))
  }

  // ---- The decisions over the text of the replies ------------------------------------------------------------

  lemma {:induction false} DirtyLines(lines: seq<string>)
    ensures Dirty(lines) == [] <==> forall l :: l in lines ==> Blank(l)
  {
    if lines != [] {
      BlankExactly(lines[0]);
      DirtyLines(lines[1..]);
      assert forall l :: l in lines <==> l == lines[0] || l in lines[1..];
    }
  }

  /** Status output counts as clean exactly when it is nothing but white space. */
  lemma DirtyExactly(output: string)
    ensures Dirty(Lines(output)) == [] <==> Blank(output)
  {
    DirtyLines(Lines(output));
    BlankLines(output);
  }

  /** Git answered with something other than white space: something uncommitted, a commit, a path. */
  predicate Says(r: Option<Reply>) { r.Some? && r.value.ok && !Blank(r.value.output) }

  /** Git says that this directory is the root of the repository. */
  predicate SaysRoot(r: Option<Reply>, dir: string, canonical: string -> string) {
    Says(r) && canonical(Trim(r.value.output)) == canonical(dir)
  }

  lemma OursExactly(log: seq<Exchange>, dir: string, canonical: string -> string)
    ensures Ours(log, dir, canonical) <==> SaysRoot(Latest(log, ShowToplevel), dir, canonical)
  {
    if Latest(log, ShowToplevel).Some? { BlankExactly(Latest(log, ShowToplevel).value.output); }
  }

  lemma ReadableExactly(r: Option<Reply>)
    ensures Truthy(Sha(r)) <==> Says(r)
    ensures Says(r) ==> Sha(r) == Some(Trim(r.value.output))
  {
    if r.Some? { BlankExactly(r.value.output); }
  }

  /** Main result: what is decided on a reading, over the replies it rests on. A reading of ours with a HEAD is
      refused exactly for a tree with something uncommitted; it is used exactly when ref and HEAD name the same
      commit, and otherwise advanced, to the ref's commit if there is one. */
  lemma DecisionExactly(f: Facts, log: seq<Exchange>, dir: string, canonical: string -> string, afterFetch: bool)
    requires if f.problem.None? then Ours(log, dir, canonical) && Reflect(f, log, afterFetch)
             else !Ours(log, dir, canonical)
    ensures var ours := SaysRoot(Latest(log, ShowToplevel), dir, canonical);
      var head := Latest(log, ResolveHead);
      var fit := ours && !Says(Latest(log, Status)) && Says(head);
      var named := if Sha(Latest(log, ResolveRef)).Some? || !afterFetch then Latest(log, ResolveRef)
                   else Latest(log, ResolveFetchHead);
      && (Decide(f).Refuse? <==> !fit)
      && (Decide(f).Use? <==> fit && Says(named) && Trim(named.value.output) == Trim(head.value.output))
      && (Decide(f) == Advance(None) <==> fit && !Says(named))
      && (Decide(f).Advance? && Decide(f).target.Some? ==> Decide(f).target.value == Trim(named.value.output))
      && (Decide(f).Use? ==> Decide(f).head == Trim(head.value.output))
  {
    hide Latest, Trim, Lines, Blank;
    OursExactly(log, dir, canonical);
    ReadableExactly(Latest(log, ResolveHead));
    ReadableExactly(Latest(log, ResolveRef));
    ReadableExactly(Latest(log, ResolveFetchHead));
    if Latest(log, Status).Some? { DirtyExactly(Latest(log, Status).value.output); }
    assert Dirty([]) == [];
  }

  lemma {:induction false} DirtyTrims(names: seq<string>)
    ensures forall i :: 0 <= i < |names| && Trim(names[i]) != "" ==> Trim(names[i]) in Dirty(names)
    ensures forall x :: x in Dirty(names) ==> exists i :: 0 <= i < |names| && Trim(names[i]) == x
  {
    hide Trim;
    if names != [] {
      var rest := names[1..];
      DirtyTrims(rest);
      assert forall i :: 0 < i < |names| ==> names[i] == rest[i - 1];
      forall x | x in Dirty(names) ensures exists i :: 0 <= i < |names| && Trim(names[i]) == x {
        if x in Dirty(rest) {
          var i :| 0 <= i < |rest| && Trim(rest[i]) == x;
          assert names[i + 1] == rest[i];
        } else {
          assert Trim(names[0]) == x;
        }
      }
    }
  }

  /** One name that is not blank, and no other. */
  ghost predicate Only(names: seq<string>, i: int) {
    0 <= i < |names| && !Blank(names[i]) && forall j :: 0 <= j < |names| && j != i ==> Blank(names[j])
  }

  lemma {:induction false} DirtyOne(names: seq<string>)
    ensures |Dirty(names)| == 1 <==> exists i :: Only(names, i)
    ensures forall i :: Only(names, i) ==> Dirty(names) == [Trim(names[i])]
  {
    hide Trim, Blank;
    if names != [] {
      var rest := names[1..];
      BlankExactly(names[0]);
      DirtyOne(rest);
      DirtyLines(rest);
      assert forall i :: 0 < i < |names| ==> names[i] == rest[i - 1];
      forall i | Only(names, i) ensures Dirty(names) == [Trim(names[i])] {
        if i > 0 {
          OnlyRest(names, i);
        } else {
          forall l | l in rest ensures Blank(l) {
            var j :| 0 <= j < |rest| && rest[j] == l;
            assert names[j + 1] == l;
          }
        }
      }
      if |Dirty(names)| == 1 {
        if Trim(names[0]) == "" {
          var i :| Only(rest, i);
          assert Only(names, i + 1);
        } else {
          assert forall j :: 0 < j < |names| ==> names[j] in rest;
          assert Only(names, 0);
        }
      }
    }
  }

  lemma OnlyRest(names: seq<string>, i: int)
    requires Only(names, i) && i > 0
    ensures Only(names[1..], i - 1)
  {
    hide Blank;
    assert forall j :: 0 <= j < |names| - 1 ==> names[1..][j] == names[j + 1];
  }

  /** The remote to fetch from: `origin` if it is listed, else the only one there is. */
  lemma RemoteExactly(names: seq<string>)
    ensures (exists i :: 0 <= i < |names| && Trim(names[i]) == "origin") ==> RemoteName(names) == Some("origin")
    ensures (forall i :: 0 <= i < |names| ==> Trim(names[i]) != "origin") ==>
      && (RemoteName(names).Some? <==> exists i :: Only(names, i))
      && forall i :: Only(names, i) ==> RemoteName(names) == Some(Trim(names[i]))
  {
    hide Trim;
    DirtyTrims(names);
    DirtyOne(names);
  }

  /** A clean tree of ours with a HEAD, in the words of the latest replies. */
  ghost predicate FitToMove(log: seq<Exchange>, dir: string, canonical: string -> string) {
    && SaysRoot(Latest(log, ShowToplevel), dir, canonical)
    && Latest(log, Status).Some? && !Says(Latest(log, Status)) && Says(Latest(log, ResolveHead))
  }

  lemma CleanIsFit(log: seq<Exchange>, dir: string, canonical: string -> string, consistent: bool)
    requires ReadClean(log, dir, canonical, consistent)
    ensures FitToMove(log, dir, canonical)
  {
    hide Latest, Trim, Lines, Blank;
    OursExactly(log, dir, canonical);
    ReadableExactly(Latest(log, ResolveHead));
    DirtyExactly(Latest(log, Status).value.output);
  }

  /** Every checkout and every fetch since `from` found the clone fit to move. */
  ghost predicate MovesFit(log: seq<Exchange>, from: nat, dir: string, canonical: string -> string) {
    forall k :: from <= k < |log| && (log[k].command.Checkout? || log[k].command.Fetch?) ==>
      FitToMove(log[..k], dir, canonical)
  }

  lemma JustifiedIsFit(log: seq<Exchange>, from: nat, dir: string, canonical: string -> string, consistent: bool)
    requires Justified(log, from, dir, canonical, consistent)
    ensures MovesFit(log, from, dir, canonical)
  {
    hide ReadClean, FitToMove;
    forall k | from <= k < |log| && (log[k].command.Checkout? || log[k].command.Fetch?)
      ensures FitToMove(log[..k], dir, canonical)
    {
      if log[k].command.Checkout? {
        assert CheckoutJustified(log, from, k, dir, canonical, consistent);
      } else {
        assert FetchJustified(log, k, dir, canonical, consistent);
      }
      CleanIsFit(log[..k], dir, canonical, consistent);
    }
  }

  lemma EndsFit(log: seq<Exchange>, from: nat, dir: string, canonical: string -> string, consistent: bool,
                result: Result)
    requires Justified(log, from, dir, canonical, consistent)
    requires result.Ready? ==> AtResolved(log, dir, canonical, result.head, consistent)
    ensures MovesFit(log, from, dir, canonical) && (result.Ready? ==> FitToMove(log, dir, canonical))
  {
    hide ReadClean, FitToMove, MovesFit, Justified;
    JustifiedIsFit(log, from, dir, canonical, consistent);
    if result.Ready? { CleanIsFit(log, dir, canonical, consistent); }
  }

  // ---- The run as a function of the answers ------------------------------------------------------------------

  function FetchAsked(answers: Answers, log: seq<Exchange>, f: Facts): (seq<Exchange>, bool) {
    var remotes := answers(|log|, Remotes);
    var l1 := Asked(answers, log, Remotes);
    var remote := if remotes.ok then RemoteName(Lines(remotes.output)) else None;
    if remote.None? then (l1, false)
    else
      var c := Fetch(f.shallow == Some(true), remote.value);
      (Asked(answers, l1, c), answers(|l1|, c).ok)
  }

  function SwitchAsked(answers: Answers, log: seq<Exchange>, dir: string, canonical: string -> string, commit: string)
    : (seq<Exchange>, Result)
  {
    var ok := answers(|log|, Checkout(commit)).ok;
    var (l2, after) := Looked(answers, Asked(answers, log, Checkout(commit)), dir, canonical, true);
    (l2, if !ok || !Decide(after).Use? then Refused else Ready(Decide(after).head, true))
  }

  function Decided(answers: Answers, log: seq<Exchange>, dir: string, canonical: string -> string, f: Facts)
    : (seq<Exchange>, Result)
  {
    match Decide(f)
    case Refuse => (log, Refused)
    case Use(head) => (log, Ready(head, false))
    case Advance(None) => (log, Unfinished)
    case Advance(Some(commit)) => SwitchAsked(answers, log, dir, canonical, commit)
  }

  predicate LacksRef(f: Facts) { f.blocking == [] && Truthy(f.head) && !Truthy(f.tagCommit) }

  function Advanced(answers: Answers, log: seq<Exchange>, dir: string, canonical: string -> string)
    : (seq<Exchange>, Result)
  {
    var l1 := Asked(answers, log, ShowToplevel);
    if ToplevelProblem(dir, canonical, answers(|log|, ShowToplevel)).Some? then (l1, Refused)
    else
      var (l2, facts) := Looked(answers, l1, dir, canonical, false);
      if !LacksRef(facts) then Decided(answers, l2, dir, canonical, facts)
      else
        var (l3, fetched) := FetchAsked(answers, l2, facts);
        if !fetched then (l3, Refused)
        else
          var (l4, again) := Looked(answers, l3, dir, canonical, true);
          Decided(answers, l4, dir, canonical, again)
  }

  // ---- Why a run may end as it does ---------------------------------------------------------------------------

  /** The ref itself names `head`, or a fetch of this run's own does. */
  ghost predicate OwnAnswer(log: seq<Exchange>, from: nat, head: string) {
    || Sha(Latest(log, ResolveRef)) == Some(head)
    || (&& Sha(Latest(log, ResolveRef)).None? && Fetched(log, from, |log|)
        && Sha(Latest(log, ResolveFetchHead)) == Some(head))
  }

  lemma ForeignOnly(log: seq<Exchange>, from: nat, dir: string, canonical: string -> string, head: string,
                    consistent: bool)
    requires AtResolved(log, dir, canonical, head, consistent)
    ensures !OwnAnswer(log, from, head) <==> Sha(Latest(log, ResolveRef)).None? && !Fetched(log, from, |log|)
  {
    hide ReadClean, Latest, Sha, Fetched;
  }

  /** A checkout has been asked for since `from`. */
  ghost predicate Switched(log: seq<Exchange>, from: nat) {
    exists k :: from <= k < |log| && log[k].command.Checkout?
  }

  /** The directory, its tree or its HEAD is not what the latest answers would have to say. */
  ghost predicate Unfit(log: seq<Exchange>, dir: string, canonical: string -> string) {
    || !Ours(log, dir, canonical)
    || (Latest(log, Status).Some? && Latest(log, Status).value.ok
      && Dirty(Lines(Latest(log, Status).value.output)) != [])
    || !Truthy(Sha(Latest(log, ResolveHead)))
  }

  /** There is no telling where to fetch from, or the fetch failed. */
  ghost predicate NoFetch(log: seq<Exchange>) {
    && log != []
    && var last := log[|log| - 1];
       || (last.command.Remotes? && (!last.reply.ok || RemoteName(Lines(last.reply.output)).None?))
       || (last.command.Fetch? && !last.reply.ok)
  }

  /** A checkout failed, or left the clone somewhere else. */
  ghost predicate Missed(log: seq<Exchange>, from: nat, dir: string, canonical: string -> string) {
    exists k :: from <= k < |log| && log[k].command.Checkout?
      && (!log[k].reply.ok || forall head :: !AtResolved(log, dir, canonical, head, false))
  }

  /** Why a run may end without a clone to build from. */
  ghost predicate Obstacle(log: seq<Exchange>, from: nat, dir: string, canonical: string -> string) {
    Unfit(log, dir, canonical) || NoFetch(log) || Missed(log, from, dir, canonical)
  }

  /** The ref names no commit here, although this run fetched it, or was kept from it by status lines that
      are blank. */
  ghost predicate Pending(log: seq<Exchange>, from: nat) {
    && !Truthy(Sha(Latest(log, ResolveRef)))
    && (Fetched(log, from, |log|) || (Latest(log, Status).Some? && Lines(Latest(log, Status).value.output) != []))
  }

  lemma LeftPending(f: Facts, log: seq<Exchange>, dir: string, canonical: string -> string, from: nat,
                    fetched: bool, consistent: bool)
    requires Known(f, log, dir, canonical, from, fetched, consistent) && Decide(f) == Advance(None)
    requires fetched || f.blocking != []
    ensures Pending(log, from)
  {
    hide Latest, Trim, Lines, Dirty;
  }

  lemma NotOurs(log: seq<Exchange>, dir: string, canonical: string -> string, top: Reply)
    requires Latest(log, ShowToplevel) == Some(top) && ToplevelProblem(dir, canonical, top).Some?
    ensures Unfit(log, dir, canonical)
  {
  }

  lemma RefusedForCause(f: Facts, log: seq<Exchange>, dir: string, canonical: string -> string, from: nat,
                        fetched: bool, consistent: bool)
    requires Known(f, log, dir, canonical, from, fetched, consistent) && Decide(f).Refuse?
    ensures Unfit(log, dir, canonical)
  {
    hide Latest, Trim, Lines;
    assert Dirty([]) == [];
  }

  lemma CleanFacts(f: Facts, log: seq<Exchange>, dir: string, canonical: string -> string, afterFetch: bool,
                   consistent: bool)
    requires Ours(log, dir, canonical) && Reflect(f, log, afterFetch) && Dirty(f.blocking) == [] && Truthy(f.head)
    requires consistent ==> Latest(log, Status).value.ok
    ensures ReadClean(log, dir, canonical, consistent)
  {
    hide Latest, Trim, Lines;
  }

  /** What a decision rests on: these facts are the latest answers. */
  ghost predicate Known(f: Facts, log: seq<Exchange>, dir: string, canonical: string -> string, from: nat,
                        fetched: bool, consistent: bool)
  {
    && (if f.problem.None? then Ours(log, dir, canonical) && Reflect(f, log, fetched) else !Ours(log, dir, canonical))
    && (f.problem.None? && consistent && f.head.Some? ==> Latest(log, Status).value.ok)
    && (fetched ==> Fetched(log, from, |log|))
  }

  lemma UseIsAtResolved(f: Facts, log: seq<Exchange>, dir: string, canonical: string -> string, from: nat,
                        fetched: bool, consistent: bool)
    requires Known(f, log, dir, canonical, from, fetched, consistent) && Decide(f).Use?
    ensures AtResolved(log, dir, canonical, Decide(f).head, consistent) && OwnAnswer(log, from, Decide(f).head)
  {
    hide Latest, Trim, Lines, Dirty;
  }

  lemma AdvanceIsJustified(f: Facts, log: seq<Exchange>, e: Exchange, dir: string, canonical: string -> string,
                           from: nat, fetched: bool, consistent: bool)
    requires Known(f, log, dir, canonical, from, fetched, consistent)
    requires Decide(f).Advance? && Decide(f).target.Some? && e.command == Checkout(Decide(f).target.value)
    ensures CheckoutJustified(log + [e], from, |log|, dir, canonical, consistent)
  {
    hide Latest, Trim, Lines, Dirty;
    assert (log + [e])[..|log|] == log;
    if fetched {
      var i :| from <= i < |log| && log[i].command.Fetch? && log[i].reply.ok;
      assert (log + [e])[i] == log[i];
    }
  }

  method AdvanceExistingClone(git: Git, dir: string, canonical: string -> string) returns (result: Result)
    modifies git
    ensures old(git.log) <= git.log
    ensures Justified(git.log, |old(git.log)|, dir, canonical, Consistent(git))
    ensures result.Ready? ==> AtResolved(git.log, dir, canonical, result.head, Consistent(git))
    ensures MovesFit(git.log, |old(git.log)|, dir, canonical)
    ensures result.Ready? ==> FitToMove(git.log, dir, canonical)
    ensures (git.log, result) == Advanced(git.answers, old(git.log), dir, canonical)
    ensures result.Ready? ==> (result.advanced <==> Switched(git.log, |old(git.log)|))
    ensures result.Ready? && !result.advanced ==> OwnAnswer(git.log, |old(git.log)|, result.head)
    ensures result.Ready? ==>
      (!OwnAnswer(git.log, |old(git.log)|, result.head)
       <==> && result.advanced && !Fetched(git.log, |old(git.log)|, |git.log|)
            && Sha(Latest(git.log, ResolveRef)).None?)
    ensures result == Refused ==> Obstacle(git.log, |old(git.log)|, dir, canonical)
    ensures result == Unfinished ==> Pending(git.log, |old(git.log)|) && !Switched(git.log, |old(git.log)|)
  {
    hide Latest, Trim, Lines, Sha, Ours, Reflect, ReadClean, CheckoutJustified, FetchJustified, ToplevelProblem,
      Dirty, Consistent, AtResolved, Fetched, RemoteName, Unfit, NoFetch, Missed, Pending,
      OwnAnswer, Looked, FetchAsked, SwitchAsked, MovesFit, FitToMove;
    ghost var from, trust := |git.log|, Consistent(git);
    ghost var log := git.log;
    var top := git.Ask(ShowToplevel);
    OneMore(log, Exchange(ShowToplevel, top), from, dir, canonical, trust);
    if ToplevelProblem(dir, canonical, top).Some? {
      NotOurs(git.log, dir, canonical, top);
      EndsFit(git.log, from, dir, canonical, trust, Refused);
      return Refused;
    }
    log := git.log;
    var facts := ReadFacts(git, dir, canonical, false);
    ReadsKeepJustified(log, git.log, from, dir, canonical, trust);
    var fetched := false;
    if LacksRef(facts) {
      fetched := FetchRef(git, dir, canonical, facts, from);
      if !fetched {
        EndsFit(git.log, from, dir, canonical, trust, Refused);
        return Refused;
      }
      log := git.log;
      facts := ReadFacts(git, dir, canonical, true);
      ReadsKeepJustified(log, git.log, from, dir, canonical, trust);
      StillFetched(log, git.log, from);
    }
    log := git.log;
    assert Known(facts, log, dir, canonical, from, fetched, trust);
    match Decide(facts) {
      case Refuse =>
        RefusedForCause(facts, log, dir, canonical, from, fetched, trust);
        result := Refused;
      case Use(head) =>
        UseIsAtResolved(facts, log, dir, canonical, from, fetched, trust);
        ForeignOnly(log, from, dir, canonical, head, trust);
        result := Ready(head, false);
      case Advance(None) =>
        LeftPending(facts, log, dir, canonical, from, fetched, trust);
        result := Unfinished;
      case Advance(Some(commit)) =>
        forall r ensures CheckoutJustified(log + [Exchange(Checkout(commit), r)], from, |log|, dir, canonical, trust) {
          AdvanceIsJustified(facts, log, Exchange(Checkout(commit), r), dir, canonical, from, fetched, trust);
        }
        result := SwitchTo(git, dir, canonical, commit, from);
        if result.Ready? { ForeignOnly(git.log, from, dir, canonical, result.head, trust); }
    }
    EndsFit(git.log, from, dir, canonical, trust, result);
  }

  lemma StillFetched(before: seq<Exchange>, log: seq<Exchange>, from: nat)
    requires before <= log && Fetched(before, from, |before|)
    ensures Fetched(log, from, |log|)
  {
    var i :| from <= i < |before| && before[i].command.Fetch? && before[i].reply.ok;
    assert log[i] == before[i];
  }

  method FetchRef(git: Git, dir: string, canonical: string -> string, facts: Facts, ghost from: nat) returns (ok: bool)
    requires from <= |git.log| && Justified(git.log, from, dir, canonical, Consistent(git))
    requires facts.problem.None? && Ours(git.log, dir, canonical) && Reflect(facts, git.log, false)
    requires Consistent(git) ==> Latest(git.log, Status).value.ok
    requires facts.blocking == [] && Truthy(facts.head) && !Truthy(facts.tagCommit)
    modifies git
    ensures old(git.log) <= git.log && Justified(git.log, from, dir, canonical, Consistent(git))
    ensures (git.log, ok) == FetchAsked(git.answers, old(git.log), facts)
    ensures if ok then Fetched(git.log, from, |git.log|) else NoFetch(git.log)
    ensures !Switched(old(git.log), from) ==> !Switched(git.log, from)
  {
    hide Latest, Trim, Lines, CheckoutJustified;
    ghost var log, trust := git.log, Consistent(git);
    CleanFacts(facts, log, dir, canonical, false, trust);
    var remotes := git.Ask(Remotes);
    OneMore(log, Exchange(Remotes, remotes), from, dir, canonical, trust);
    var remote := if remotes.ok then RemoteName(Lines(remotes.output)) else None;
    if remote.None? {
      return false;
    }
    log := git.log;
    var c := Fetch(facts.shallow == Some(true), remote.value);
    var reply := git.Ask(c);
    assert git.log[..|log|] == log;
    OneMore(log, Exchange(c, reply), from, dir, canonical, trust);
    assert git.log[|log|] == Exchange(c, reply);
    ok := reply.ok;
  }

  method SwitchTo(git: Git, dir: string, canonical: string -> string, commit: string, ghost from: nat)
    returns (result: Result)
    requires from <= |git.log| && Justified(git.log, from, dir, canonical, Consistent(git))
    requires forall r ::
      CheckoutJustified(git.log + [Exchange(Checkout(commit), r)], from, |git.log|, dir, canonical, Consistent(git))
    modifies git
    ensures old(git.log) <= git.log && Justified(git.log, from, dir, canonical, Consistent(git))
    ensures result.Ready? ==> AtResolved(git.log, dir, canonical, result.head, Consistent(git)) && result.advanced
    ensures (git.log, result) == SwitchAsked(git.answers, old(git.log), dir, canonical, commit)
    ensures Switched(git.log, from) && result != Unfinished
      && (result == Refused ==> Missed(git.log, from, dir, canonical))
  {
    hide Latest, Trim, Lines, CheckoutJustified, FetchJustified;
    ghost var log, trust := git.log, Consistent(git);
    var out := git.Ask(Checkout(commit));
    OneMore(log, Exchange(Checkout(commit), out), from, dir, canonical, trust);
    log := git.log;
    var after := ReadFacts(git, dir, canonical, true);
    ReadsKeepJustified(log, git.log, from, dir, canonical, trust);
    if !out.ok || !Decide(after).Use? {
      return Refused;
    }
    CleanFacts(after, git.log, dir, canonical, true, trust);
    result := Ready(after.head.value, true);
  }

  // ---- A commit nobody here fetched ---------------------------------------------------------------------------

  /** A ref that resolves once and then no more, beside a FETCH_HEAD some earlier fetch has left. */
  function Vanishing(n: nat, c: Command): Reply {
    match c
    case ShowToplevel => Reply(true, "d")
    case Status => Reply(true, "")
    case IsShallow => Reply(true, "false")
    case ResolveRef => Reply(n == 4, "new")
    case ResolveFetchHead => Reply(true, "new")
    case ResolveHead => Reply(true, if n < 6 then "old" else "new")
    case Remotes => Reply(false, "")
    case Fetch(_, _) => Reply(false, "")
    case Checkout(_) => Reply(true, "")
  }

  function Itself(path: string): string { path }

  lemma Trimmed()
    ensures Trim("d") == "d" && Trim("old") == "old" && Trim("new") == "new" && Lines("") == []
  {
  }

  lemma LookedLogs(log: seq<Exchange>, afterFetch: bool)
    requires |log| == if afterFetch then 7 else 1
    ensures var (after, f) := Looked(Vanishing, log, "d", Itself, afterFetch);
      && |after| == |log| + (if afterFetch then 6 else 5)
      && f.problem.None? && f.blocking == [] && f.tagCommit == Some("new")
      && f.head == Some(if afterFetch then "new" else "old")
      && (afterFetch ==> Sha(Latest(after, ResolveRef)).None?)
      && ReadsSince(log, after)
  {
    hide Latest, Trim, Lines;
    Trimmed();
    var l1 := Asked(Vanishing, log, ShowToplevel);
    var l3 := Asked(Vanishing, Asked(Vanishing, l1, Status), IsShallow);
    var (l5, tagCommit) := TagLooked(Vanishing, l3, afterFetch);
    var after := Asked(Vanishing, l5, ResolveHead);
    if afterFetch {
      var l4 := Asked(Vanishing, l3, ResolveRef);
      LatestAsked(Vanishing, l5, ResolveHead, ResolveRef);
      LatestAsked(Vanishing, l4, ResolveFetchHead, ResolveRef);
      LatestAsked(Vanishing, l3, ResolveRef, ResolveRef);
    }
  }

  lemma LatestAsked(answers: Answers, log: seq<Exchange>, c: Command, other: Command)
    ensures Latest(Asked(answers, log, c), other)
      == if other == c then Some(answers(|log|, c)) else Latest(log, other)
  {
    var after := Asked(answers, log, c);
    assert after[..|after| - 1] == log;
  }

  /** A run that fetched nothing and is ready on the strength of that FETCH_HEAD. */
  lemma ForeignFetchHead()
    ensures var (log, result) := Advanced(Vanishing, [], "d", Itself);
      result == Ready("new", true) && !OwnAnswer(log, 0, "new") && !Fetched(log, 0, |log|)
  {
    hide Latest, Trim, Looked, Lines;
    Trimmed();
    var l1 := Asked(Vanishing, [], ShowToplevel);
    LookedLogs(l1, false);
    var (l2, _) := Looked(Vanishing, l1, "d", Itself, false);
    var l3 := Asked(Vanishing, l2, Checkout("new"));
    LookedLogs(l3, true);
    assert Dirty([]) == [];
  }
}
