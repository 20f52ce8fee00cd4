/**
 The ledger beside a fallible debugger, and the commands of a session as functions on both.

 A `Debugger` is any answer streams: what the n-th attempt to create or disable a hardware watchpoint
 comes to, and which handles tell their id at the n-th stop. Every claim below holds for all such streams.
 */
module WatchSession {
  import opened Options
  import opened WatchLedger

  const MAX_THREADS: nat := 64
  const RECONCILED_STOPS_LIMIT: nat := 512

  /** A debugger-side watchpoint object. */
  datatype Handle = Handle(id: int)

  /** `named` says whether asking the new watchpoint for its id answers. */
  datatype ArmAnswer = Created(handle: Handle, named: bool) | Refused | ArmRaises
  datatype DisarmAnswer = Disabled | StillEnabled | DisarmRaises
  datatype Debugger = Debugger(arm: nat -> ArmAnswer, disarm: nat -> DisarmAnswer, tells: (nat, Addr) -> bool)

  datatype StopKey = StopKey(stopId: Option<int>, thread: int, watchpoint: Option<int>)

  /** One thread row at a stop; `Unreadable` is a row whose reading raises. */
  datatype Row = StoppedAt(thread: int, watchpoint: Option<int>) | OtherStop | Unreadable

  /** What the process looks like; `rows` is None when the thread count cannot be read. */
  datatype Stop = NoProcess | Raising | At(stopId: Option<int>, rows: Option<seq<Row>>)

  type Tracked = seq<(Addr, Handle)>

  datatype World = World(
    ledger: Ledger, tracked: Tracked, reconciled: set<StopKey>,
    armCalls: nat, disarmCalls: nat,
    unmatched: nat,    // history: stops whose watchpoint id no tracked handle answers to
    disrupted: bool,   // history: a promotion failed, or a freed slot was never offered
    replaced: nat)     // history: handles overwritten by a new one for their address

  datatype Outcome = Done | Failed | Raised
  datatype Promotion = NothingQueued | Promoted(entry: Entry) | PromotionFailed | PromotionRaised

  function Start(slots: nat, limit: nat): World { World(Fresh(slots, limit), [], {}, 0, 0, 0, false, 0) }

  // ---- The table of live handles, in insertion order -------------------------------------

  function Keys(t: Tracked): set<Addr> { if t == [] then {} else {t[0].0} + Keys(t[1..]) }

  function Lookup(t: Tracked, addr: Addr): (r: Option<Handle>)
    ensures r.Some? <==> addr in Keys(t)
  {
    if t == [] then None else if t[0].0 == addr then Some(t[0].1) else Lookup(t[1..], addr)
  }

  function Track(t: Tracked, addr: Addr, h: Handle): (r: Tracked)
    ensures Keys(r) == Keys(t) + {addr}
    ensures Lookup(r, addr) == Some(h) && forall a :: a != addr ==> Lookup(r, a) == Lookup(t, a)
  {
    if t == [] then [(addr, h)]
    else if t[0].0 == addr then assert t[1..] == t[0 := (addr, h)][1..]; t[0 := (addr, h)]
    else [t[0]] + Track(t[1..], addr, h)
  }

  function Untrack(t: Tracked, addr: Addr): (r: Tracked)
    ensures Keys(r) == Keys(t) - {addr}
    ensures forall a :: a != addr ==> Lookup(r, a) == Lookup(t, a)
  {
    if t == [] then [] else if t[0].0 == addr then Untrack(t[1..], addr) else [t[0]] + Untrack(t[1..], addr)
  }

  /** Asked at the n-th stop, the handle answers with that id. */
  predicate Answers(d: Debugger, n: nat, entry: (Addr, Handle), id: Option<int>) {
    d.tells(n, entry.0) && Some(entry.1.id) == id
  }

  /** The first tracked address whose handle answers with that id. */
  function AddrForId(d: Debugger, n: nat, t: Tracked, id: Option<int>): (r: Option<Addr>)
    ensures r.Some? ==> r.value in Keys(t)
    ensures r.Some? ==>
      exists i ::
        && 0 <= i < |t| && t[i].0 == r.value && Answers(d, n, t[i], id)
        && forall j :: 0 <= j < i ==> !Answers(d, n, t[j], id)
    ensures r.None? ==> forall i :: 0 <= i < |t| ==> !Answers(d, n, t[i], id)
  {
    if t == [] then None
    else if Answers(d, n, t[0], id) then Some(t[0].0)
    else
      assert forall i :: 0 < i < |t| ==> t[i] == t[1..][i - 1];
      AddrForId(d, n, t[1..], id)
  }

  // ---- The seam: arming and disarming -----------------------------------------------------

  function Noted(w: World, n: Note): World { w.(ledger := AddNote(w.ledger, n)) }

  function Arm(d: Debugger, w: World, e: Entry): (World, Outcome) {
    if e.mode == Unlisted then (w, Failed)
    else
      var asked := w.(armCalls := w.armCalls + 1);
      match d.arm(w.armCalls)
      case Refused => (asked, Failed)
      case ArmRaises => (asked, Raised)
      case Created(h, named) =>
        (asked.(tracked := Track(w.tracked, e.addr, h), ledger := MarkLive(w.ledger, e.addr),
                replaced := w.replaced + if Lookup(w.tracked, e.addr).Some? then 1 else 0),
         if named then Done else Raised)
  }

  function Disarm(d: Debugger, w: World, addr: Addr): (World, Outcome) {
    if Lookup(w.tracked, addr).None? then (w, Failed)
    else
      var asked := w.(disarmCalls := w.disarmCalls + 1);
      match d.disarm(w.disarmCalls)
      case Disabled => (asked.(tracked := Untrack(w.tracked, addr)), Done)
      case StillEnabled => (asked, Failed)
      case DisarmRaises => (asked, Raised)
  }

  function PromoteAndArm(d: Debugger, w: World, freed: Option<nat>): (World, Promotion) {
    var (l, head) := TakeSlot(w.ledger, freed);
    if head.None? then (w.(ledger := l), NothingQueued)
    else
      var (w', outcome) := Arm(d, w.(ledger := l), head.value);
      match outcome
      case Done => (w', Promoted(head.value))
      case Failed => (w'.(ledger := Abandon(w'.ledger, head.value.addr), disrupted := true), PromotionFailed)
      case Raised => (w', PromotionRaised)
  }

  // ---- Reconciling a stop -----------------------------------------------------------------

  /** Frees the hardware behind a released slot and offers the slot to the queue head. */
  function Refill(d: Debugger, w: World, addr: Addr, freed: Option<nat>): (World, bool) {
    var (w', outcome) := Disarm(d, w, addr);
    if outcome == Raised then (w'.(disrupted := true), true)
    else
      var noted := if outcome == Failed then Noted(w', DisableUnconfirmed(addr)) else w';
      var (w'', promotion) := PromoteAndArm(d, noted, freed);
      (w'', promotion == PromotionRaised)
  }

  /** Credits a stop at a tracked address; the flag says whether an exception ended the pass. */
  function Credit(d: Debugger, w: World, addr: Addr): (World, bool) {
    var (l, credited) := RecordHit(w.ledger, addr);
    if credited.None? then
      var (w', outcome) := Disarm(d, w.(ledger := l), addr);
      (if outcome == Failed then Noted(w', DisableUnconfirmed(addr)) else w', outcome == Raised)
    else
      var (l', freed) := Release(l, addr);
      Refill(d, w.(ledger := l'), addr, freed)
  }

  /** Enters a new stop in the bookkeeping, which is emptied first when it is full. */
  function Observe(w: World, key: StopKey): World {
    var roomy := if |w.reconciled| >= RECONCILED_STOPS_LIMIT then Noted(w, BookkeepingReset).(reconciled := {}) else w;
    roomy.(reconciled := roomy.reconciled + {key}, ledger := NoteStop(roomy.ledger))
  }

  lemma ObserveKeepsHandles(w: World, key: StopKey)
    ensures Observe(w, key).tracked == w.tracked
  {
  }

  function ReconcileRow(d: Debugger, w: World, stopId: Option<int>, row: Row): (World, bool) {
    match row
    case OtherStop => (w, false)
    case Unreadable => (w, true)
    case StoppedAt(thread, watchpoint) =>
      var key := StopKey(stopId, thread, watchpoint);
      if key in w.reconciled then (w, false)
      else
        var seen := Observe(w, key);
        var addr := AddrForId(d, w.ledger.stops + 1, w.tracked, watchpoint);
        if addr.None? then (Noted(seen, StopMatchesNothing).(unmatched := seen.unmatched + 1), false)
        else Credit(d, seen, addr.value)
  }

  function ReconcileRows(d: Debugger, w: World, stopId: Option<int>, rows: seq<Row>): (World, bool)
    decreases rows
  {
    if rows == [] then (w, false)
    else
      var (w', aborted) := ReconcileRow(d, w, stopId, rows[0]);
      if aborted then (w', true) else ReconcileRows(d, w', stopId, rows[1..])
  }

  function Walked(rows: seq<Row>): seq<Row> {
    if |rows| <= MAX_THREADS then rows else rows[..MAX_THREADS]
  }

  function Warned(w: World, threads: nat): World {
    if threads > MAX_THREADS then Noted(w, ThreadsPastCap(threads)) else w
  }

  function Reconcile(d: Debugger, w: World, stop: Stop): World {
    match stop
    case NoProcess => w
    case Raising => Noted(w, Aborted)
    case At(_, None) => Noted(w, ThreadCountUnread)
    case At(stopId, Some(rows)) =>
      var (w', aborted) := ReconcileRows(d, Warned(w, |rows|), stopId, Walked(rows));
      if aborted then Noted(w', Aborted) else w'
  }

  // ---- The gp-watch and gp-queue commands -------------------------------------------------

  function AddWatch(d: Debugger, w: World, spec: Spec): World {
    var (l, outcome) := Add(w.ledger, spec);
    var added := w.(ledger := l);
    if !outcome.ArmedIn? then added
    else
      var (w', armed) := Arm(d, added, l.armed[Find(l.armed, spec.addr.value).value]);
      if armed == Failed then w'.(ledger := Abandon(w'.ledger, spec.addr.value)) else w'
  }

  function ArmQueued(d: Debugger, w: World, count: nat): World
    decreases count
  {
    if count == 0 || FreeSlot(w.ledger).None? || w.ledger.queued == [] then w
    else
      var (w', promotion) := PromoteAndArm(d, w, FreeSlot(w.ledger));
      if promotion.Promoted? then ArmQueued(d, w', count - 1) else w'
  }

  /** One `gp-queue clear` target; the flag says whether an exception escaped. */
  function ClearOne(d: Debugger, w: World, addr: Addr): (World, bool) {
    var (l, phase, freed) := Drop(w.ledger, addr);
    if phase.None? then (w, false)
    else
      var (w', outcome) :=
        if phase == Some(Armed) then Disarm(d, w.(ledger := l), addr) else (w.(ledger := l), Done);
      if outcome == Raised then (w'.(disrupted := true), true)
      else
        var noted := Noted(w', Dropped(addr, phase.value, outcome == Done));
        if freed.None? then (noted, false)
        else
          var (w'', promotion) := PromoteAndArm(d, noted, freed);
          (w'', promotion == PromotionRaised)
  }

  function Clear(d: Debugger, w: World, targets: seq<Addr>): World
    decreases targets
  {
    if targets == [] then w
    else
      var (w', raised) := ClearOne(d, w, targets[0]);
      if raised then w' else Clear(d, w', targets[1..])
  }

  function AddrsInOrder(s: seq<Entry>): seq<Addr> { seq(|s|, i requires 0 <= i < |s| => s[i].addr) }

  datatype Command =
    | Watch(spec: Spec)
    | Look(stop: Stop)       // the stop hook, `gp-queue list`, or a capture reading the ledger
    | ArmHeads(count: nat)
    | ClearAt(addr: Addr)
    | ClearAll

  function Execute(d: Debugger, w: World, c: Command): World {
    match c
    case Watch(spec) => AddWatch(d, w, spec)
    case Look(stop) => Reconcile(d, w, stop)
    case ArmHeads(count) => ArmQueued(d, w, if count <= WATCH_QUEUE_LIMIT then count else WATCH_QUEUE_LIMIT)
    case ClearAt(addr) => Clear(d, w, [addr])
    case ClearAll => Clear(d, w, AddrsInOrder(w.ledger.queued))
  }

  function Run(d: Debugger, w: World, commands: seq<Command>): World
    decreases commands
  {
    if commands == [] then w else Run(d, Execute(d, w, commands[0]), commands[1..])
  }
}
