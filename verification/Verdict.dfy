/** From the text retained of lldb's output to the bridge's exit code. */
module Verdict {
  import opened Sentinel

  /** How status and stop-reason values are read: closed tables of debugger names, left abstract here. */
  datatype Vocabulary = Vocabulary(okStatus: Json -> bool, crashStop: Json -> bool)

  /** `payload.get(key)`. */
  function Get(members: map<string, Json>, key: string): Json {
    if key in members then members[key] else Null
  }

  predicate Truthy(j: Json) {
    match j
    case Null => false
    case Bool(b) => b
    case Number(n) => n != 0
    case Str(s) => s != ""
    case Arr(items) => items != []
    case Obj(members) => members != map[]
  }

  predicate CaptureSucceeded(v: Vocabulary, payload: Json) {
    payload.Obj? && v.okStatus(Get(payload.members, "status")) && Truthy(Get(payload.members, "threads"))
  }

  predicate CrashedThread(v: Vocabulary, thread: Json) {
    thread.Obj? && v.crashStop(Get(thread.members, "stopReason"))
  }

  predicate CrashAtTop(v: Vocabulary, payload: Json)
    requires payload.Obj?
  {
    Truthy(Get(payload.members, "crash")) || v.crashStop(Get(payload.members, "stopReason"))
  }

  predicate CrashReported(v: Vocabulary, payload: Json) {
    && payload.Obj?
    && (CrashAtTop(v, payload)
        || var threads := Get(payload.members, "threads");
           threads.Arr? && exists thread :: thread in threads.items && CrashedThread(v, thread))
  }

  /** A truthy number or boolean under "threads" cannot be walked: the run ends in an exception, exit code 1. */
  predicate Walkable(v: Vocabulary, payload: Json)
    requires payload.Obj?
  {
    var threads := Get(payload.members, "threads");
    CrashAtTop(v, payload) || !(threads.Number? || threads.Bool?)
  }

  function OuterExitCode(v: Vocabulary, payload: Json): int {
    if payload.Obj? && Get(payload.members, "stdoutAmbiguous") == Bool(true) then 1
    else if !CaptureSucceeded(v, payload) then 1
    else if !Walkable(v, payload) then 1
    else if CrashReported(v, payload) then 3 else 0
  }

  /** A payload that is judged a capture: an unmarked, successful object. */
  predicate Endorsable(v: Vocabulary, payload: Json) {
    && payload.Obj? && Get(payload.members, "stdoutAmbiguous") != Bool(true)
    && CaptureSucceeded(v, payload) && Walkable(v, payload)
  }

  /** The part of `assemble_result` an exit code depends on, for a run that took no capture. */
  function Failure(notes: seq<Json>): Json {
    Obj(map[
      "status" := Str("failed"), "stopReason" := Null, "threads" := Arr([]), "crash" := Null, "errors" := Arr(notes)])
  }

  function MergeNotes(members: map<string, Json>, notes: seq<Json>): map<string, Json> {
    if "errors" !in members then if notes == [] then members else members["errors" := Arr(notes)]
    else if members["errors"].Arr? then members["errors" := Arr(members["errors"].items + notes)]
    else members
  }

  function Deliverable(payload: Json, notes: seq<Json>): Json {
    if payload.Obj? then Obj(MergeNotes(payload.members, notes)) else Failure(notes)
  }

  /** The tail of `run_outer`: extract, deliver, judge. `stdout` is the retained output; `emitted` says whether
      delivery succeeded. */
  function RunVerdict(v: Vocabulary, stdout: string, nonce: string, parse: Parser, notes: seq<Json>,
                      emitted: bool): int
  {
    var (payload, _) := Extract(stdout, nonce, parse);
    var delivered := if payload.None? then Failure(notes) else Deliverable(payload.value, notes);
    if !emitted then 2 else OuterExitCode(v, delivered)
  }

  lemma NotesDoNotJudge(v: Vocabulary, payload: Json, notes: seq<Json>)
    requires payload.Obj?
    ensures OuterExitCode(v, Deliverable(payload, notes)) == OuterExitCode(v, payload)
  {
    var merged := MergeNotes(payload.members, notes);
    assert forall key :: key in ["stdoutAmbiguous", "status", "threads", "crash", "stopReason"] ==>
      Get(merged, key) == Get(payload.members, key);
  }

  lemma FailureIsJudged(v: Vocabulary, notes: seq<Json>)
    ensures OuterExitCode(v, Failure(notes)) == 1
  {
    assert Get(Failure(notes).members, "threads") == Arr([]);
  }

  /** Main result: under a nonce, a run is endorsed as a capture (0 or 3) exactly when one parseable pair
      is in the text and that pair is an unmarked, successful capture object; the code is then 3 exactly when
      that object reports a crash. */
  lemma EndorsedExactly(v: Vocabulary, stdout: string, nonce: string, parse: Parser, notes: seq<Json>)
    requires nonce != ""
    ensures var candidates := Candidates(stdout, Begin(nonce), parse, 0);
      var code := RunVerdict(v, stdout, nonce, parse, notes, true);
      && (code == 0 || code == 3 <==> |candidates| == 1 && Endorsable(v, candidates[0].0))
      && (code == 0 || code == 1 || code == 3)
      && (code == 3 ==> CrashReported(v, candidates[0].0))
      && (code == 0 ==> !CrashReported(v, candidates[0].0))
  {
    hide Candidates, Begin, Strip, CaptureSucceeded, CrashReported, Walkable, Deliverable;
    var candidates := Candidates(stdout, Begin(nonce), parse, 0);
    FailureIsJudged(v, notes);
    if candidates != [] {
      var payload := candidates[|candidates| - 1].0;
      if payload.Obj? {
        NotesDoNotJudge(v, payload, notes);
        NotesDoNotJudge(v, MarkAmbiguous(payload), notes);
        MarkedIsJudged(v, payload);
      } else {
        NonObjectDelivered(payload, notes);
      }
    }
  }

  lemma NonObjectDelivered(payload: Json, notes: seq<Json>)
    requires !payload.Obj?
    ensures Deliverable(payload, notes) == Failure(notes)
  {
  }

  lemma MarkedIsJudged(v: Vocabulary, payload: Json)
    requires payload.Obj?
    ensures OuterExitCode(v, MarkAmbiguous(payload)) == 1
  {
  }

  // ---- The exit code over the payload's members -------------------------------------------------------

  /** A value Python takes for false. */
  predicate Falsy(j: Json) {
    j == Null || j == Bool(false) || j == Number(0) || j == Str("") || j == Arr([]) || j == Obj(map[])
  }

  /** The value of a member that is there and is not taken for false. */
  predicate Has(m: map<string, Json>, key: string) { key in m && !Falsy(m[key]) }

  /** What the debugger's vocabulary says of a member; one that is not there reads as null. */
  predicate Says(word: Json -> bool, m: map<string, Json>, key: string) {
    if key in m then word(m[key]) else word(Null)
  }

  /** Main result: 0, 1 and 3, member by member. A capture has a stopped status and threads; a crash is told by
      `crash`, by the stop reason, or by the stop reason of a thread. */
  lemma ExitCodeExactly(v: Vocabulary, m: map<string, Json>)
    ensures var code := OuterExitCode(v, Obj(m));
      var captured := !("stdoutAmbiguous" in m && m["stdoutAmbiguous"] == Bool(true))
                      && Says(v.okStatus, m, "status") && Has(m, "threads");
      var crashed := Has(m, "crash") || Says(v.crashStop, m, "stopReason");
      var threadCrashed := "threads" in m && m["threads"].Arr?
        && exists t :: t in m["threads"].items && t.Obj? && Says(v.crashStop, t.members, "stopReason");
      var scalar := "threads" in m && (m["threads"].Number? || m["threads"].Bool?);
      && (code == 3 <==> captured && (crashed || threadCrashed))
      && (code == 0 <==> captured && !crashed && !threadCrashed && !scalar)
      && (code == 1 <==> !captured || (!crashed && !threadCrashed && scalar))
  {
    TruthyExactly(Get(m, "threads"));
    TruthyExactly(Get(m, "crash"));
    assert Get(m, "stdoutAmbiguous") == Bool(true) <==> "stdoutAmbiguous" in m && m["stdoutAmbiguous"] == Bool(true);
  }

  lemma TruthyExactly(j: Json)
    ensures Truthy(j) <==> !Falsy(j)
  {
  }

  /** A payload that is no object is judged 1. */
  lemma OthersFail(v: Vocabulary, payload: Json)
    requires !payload.Obj?
    ensures OuterExitCode(v, payload) == 1
  {
  }

  /** Main result: the code of a run. A failed delivery is 2; no payload, or one that is no object, is 1; otherwise
      the payload is judged as it was read, notes or no notes. */
  lemma RunVerdictExactly(v: Vocabulary, stdout: string, nonce: string, parse: Parser, notes: seq<Json>, emitted: bool)
    ensures var code := RunVerdict(v, stdout, nonce, parse, notes, emitted);
      var payload := Extract(stdout, nonce, parse).0;
      && (!emitted <==> code == 2)
      && (emitted ==> code == if payload.Some? && payload.value.Obj? then OuterExitCode(v, payload.value) else 1)
  {
    hide Extract, Deliverable, CaptureSucceeded, CrashReported, Walkable;
    var payload := Extract(stdout, nonce, parse).0;
    FailureIsJudged(v, notes);
    if payload.Some? && payload.value.Obj? {
      NotesDoNotJudge(v, payload.value, notes);
    } else if payload.Some? {
      NonObjectDelivered(payload.value, notes);
    }
  }

  /** Notes go to the end of the errors an object has or lacks; an `errors` that is no list is left as it is, and
      no other member is touched. Any other payload is replaced by a failure that carries them. */
  lemma NotesAttached(payload: Json, notes: seq<Json>)
    ensures var d := Deliverable(payload, notes);
      && d.Obj?
      && (payload.Obj? ==>
            && (forall k :: k in payload.members && k != "errors" ==>
                  k in d.members && d.members[k] == payload.members[k])
            && (forall k :: k in d.members && k != "errors" ==> k in payload.members)
            && ("errors" in payload.members && payload.members["errors"].Arr? ==>
                  "errors" in d.members && d.members["errors"] == Arr(payload.members["errors"].items + notes))
            && ("errors" in payload.members && !payload.members["errors"].Arr? ==> d == payload)
            && ("errors" !in payload.members ==>
                  if notes == [] then d == payload else "errors" in d.members && d.members["errors"] == Arr(notes)))
      && (!payload.Obj? ==>
            && d.members.Keys == {"status", "stopReason", "threads", "crash", "errors"}
            && d.members["errors"] == Arr(notes) && d.members["status"] == Str("failed"))
  {
  }
}
