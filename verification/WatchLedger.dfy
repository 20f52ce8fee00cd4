/**
 The bookkeeping half of the bridge's hardware-watchpoint support: which requests hold a
 hardware slot, which wait, which have fired, and what each one's hit count is.

 `Ledger` is the value of a `WatchQueue` object's fields; each function below is the effect
 of one of its methods. The fields `removed` and `placed` are history: they record what the
 source forgets, so that claims about whole runs can be stated.
 */
module WatchLedger {
  import opened Options

  const HW_WATCHPOINT_SLOTS: nat := 4
  const WATCH_QUEUE_LIMIT: nat := 64
  const WATCHPOINT_NOTE_LIMIT: nat := 24

  type Addr = nat

  datatype Phase = Armed | Queued | Spent

  /** `Unlisted` is every mode string other than "r", "w" and "rw". */
  datatype Mode = Read | Write | ReadWrite | Unlisted

  datatype Spec = Spec(addr: Option<Addr>, mode: Mode)

  datatype Entry = Entry(addr: Addr, mode: Mode, stamp: nat, phase: Phase, slot: Option<nat>, live: bool)

  datatype Note =
    | OccupiedSlot(slot: Option<nat>, addr: Addr)
    | NotArmed(addr: Addr)
    | StopCreditsNothing(addr: Addr)
    | CreditUnconfirmed(addr: Addr, stamp: nat)
    | StopMatchesNothing
    | DisableUnconfirmed(addr: Addr)
    | ThreadCountUnread
    | ThreadsPastCap(threads: nat)
    | BookkeepingReset
    | Dropped(addr: Addr, phase: Phase, confirmed: bool)
    | Aborted
    | Suppressed

  datatype AddOutcome =
    | NoAddress
    | Duplicate(phase: Phase, slot: Option<nat>)
    | ArmedIn(index: nat)
    | QueueFull
    | QueuedAt(position: nat)

  datatype Ledger = Ledger(
    slotCount: nat, queueLimit: nat,
    armed: seq<Entry>, queued: seq<Entry>, spent: seq<Entry>,
    rejected: nat,
    hits: map<(Addr, nat), nat>, unattributed: map<Addr, nat>, stops: nat,
    notes: seq<Note>, notesDropped: nat,
    lastStamp: nat,
    removed: set<nat>,  // stamps of entries abandoned or dropped
    placed: seq<nat>)   // stamps in the order they were put into `armed`

  function Fresh(slots: nat, limit: nat): Ledger {
    Ledger(slots, limit, [], [], [], 0, map[], map[], 0, [], 0, 0, {}, [])
  }

  // ---- Lookups -------------------------------------------------------------------------

  /** The first entry requested at `addr`. */
  function Find(s: seq<Entry>, addr: Addr): (r: Option<nat>)
    ensures r.Some? ==> r.value < |s| && s[r.value].addr == addr
    ensures r.Some? ==> forall i :: 0 <= i < r.value ==> s[i].addr != addr
    ensures r.None? ==> forall e :: e in s ==> e.addr != addr
  {
    if s == [] then None
    else if s[0].addr == addr then Some(0)
    else match Find(s[1..], addr)
      case None => None
      case Some(i) => Some(i + 1)
  }

  function StampOf(e: Entry): nat { e.stamp }
  function AddrOf(e: Entry): Addr { e.addr }
  function SlotOf(e: Entry): Option<nat> { e.slot }
  function GenerationOf(e: Entry): (Addr, nat) { (e.addr, e.stamp) }

  function Image<T>(s: seq<Entry>, f: Entry -> T): set<T> { set i | 0 <= i < |s| :: f(s[i]) }

  function Stamps(s: seq<Entry>): set<nat> { Image(s, StampOf) }
  function Addrs(s: seq<Entry>): set<Addr> { Image(s, AddrOf) }
  function Slots(s: seq<Entry>): set<Option<nat>> { Image(s, SlotOf) }
  function Generations(s: seq<Entry>): set<(Addr, nat)> { Image(s, GenerationOf) }

  /** The lowest slot index from `index` on that is not in `used`. */
  function FirstFree(used: set<Option<nat>>, index: nat, count: nat): (r: Option<nat>)
    requires index <= count
    ensures r.Some? ==> index <= r.value < count && Some(r.value) !in used
    ensures r.Some? ==> forall i :: index <= i < r.value ==> Some(i) in used
    ensures r.None? ==> forall i :: index <= i < count ==> Some(i) in used
    decreases count - index
  {
    if index == count then None
    else if Some(index) !in used then Some(index)
    else FirstFree(used, index + 1, count)
  }

  function FreeSlot(l: Ledger): Option<nat> { FirstFree(Slots(l.armed), 0, l.slotCount) }

  function HitCount(l: Ledger, e: Entry): nat {
    if (e.addr, e.stamp) in l.hits then l.hits[(e.addr, e.stamp)] else 0
  }

  function Stray(l: Ledger, addr: Addr): nat {
    if addr in l.unattributed then l.unattributed[addr] else 0
  }

  // ---- One function per ledger method ---------------------------------------------------

  function AddNote(l: Ledger, n: Note): Ledger {
    if |l.notes| < WATCHPOINT_NOTE_LIMIT then l.(notes := l.notes + [n])
    else if l.notesDropped == 0 then l.(notes := l.notes + [Suppressed], notesDropped := 1)
    else l.(notesDropped := l.notesDropped + 1)
  }

  function Add(l: Ledger, spec: Spec): (Ledger, AddOutcome) {
    if spec.addr.None? then (l.(rejected := l.rejected + 1), NoAddress)
    else
      var addr := spec.addr.value;
      var active := l.armed + l.queued;
      var present := Find(active, addr);
      if present.Some? then (l, Duplicate(active[present.value].phase, active[present.value].slot))
      else
        var stamp := l.lastStamp + 1;
        var free := FreeSlot(l);
        if free.Some? then
          var e := Entry(addr, spec.mode, stamp, Armed, free, false);
          (l.(armed := l.armed + [e], lastStamp := stamp, placed := l.placed + [stamp]), ArmedIn(free.value))
        else if |l.queued| >= l.queueLimit then (l.(rejected := l.rejected + 1), QueueFull)
        else
          var e := Entry(addr, spec.mode, stamp, Queued, None, false);
          (l.(queued := l.queued + [e], lastStamp := stamp), QueuedAt(|l.queued| + 1))
  }

  /** Arms the queue head into `freed`. An occupied slot is noted, and armed all the same. */
  function TakeSlot(l: Ledger, freed: Option<nat>): (Ledger, Option<Entry>) {
    if l.queued == [] then (l, None)
    else
      var noted :=
        if freed.None? || freed in Slots(l.armed) then AddNote(l, OccupiedSlot(freed, l.queued[0].addr)) else l;
      var e := l.queued[0].(slot := freed, phase := Armed, live := false);
      (noted.(queued := l.queued[1..], armed := l.armed + [e], placed := l.placed + [e.stamp]), Some(e))
  }

  function Without(s: seq<Entry>, i: nat): seq<Entry>
    requires i < |s|
  {
    s[..i] + s[i + 1..]
  }

  /** A hit was recorded: the entry is spent and its slot handed back. */
  function Release(l: Ledger, addr: Addr): (Ledger, Option<nat>) {
    match Find(l.armed, addr)
    case None => (l, None)
    case Some(i) =>
      var e := l.armed[i];
      (l.(armed := Without(l.armed, i), spent := l.spent + [e.(phase := Spent, live := false)]), e.slot)
  }

  /** The entry's hardware watchpoint does not exist; it leaves the ledger without a hit. */
  function Abandon(l: Ledger, addr: Addr): Ledger {
    var without :=
      match Find(l.armed, addr)
      case Some(i) => l.(armed := Without(l.armed, i), removed := l.removed + {l.armed[i].stamp})
      case None =>
        match Find(l.queued, addr)
        case Some(i) => l.(queued := Without(l.queued, i), removed := l.removed + {l.queued[i].stamp})
        case None => l;
    AddNote(without, NotArmed(addr))
  }

  /** Removes a request on the user's word; says which phase it was in and the slot it held. */
  function Drop(l: Ledger, addr: Addr): (Ledger, Option<Phase>, Option<nat>) {
    match Find(l.queued, addr)
    case Some(i) =>
      (l.(queued := Without(l.queued, i), removed := l.removed + {l.queued[i].stamp}), Some(Queued), None)
    case None =>
      match Find(l.armed, addr)
      case Some(i) =>
        (l.(armed := Without(l.armed, i), removed := l.removed + {l.armed[i].stamp}), Some(Armed), l.armed[i].slot)
      case None => (l, None, None)
  }

  /** Credits a stop to the armed generation at `addr`, or counts it as unattributed. */
  function RecordHit(l: Ledger, addr: Addr): (Ledger, Option<nat>) {
    match Find(l.armed, addr)
    case None =>
      var counted := l.(unattributed := l.unattributed[addr := Stray(l, addr) + 1]);
      (if Stray(l, addr) == 0 then AddNote(counted, StopCreditsNothing(addr)) else counted, None)
    case Some(i) =>
      var e := l.armed[i];
      var credited := l.(hits := l.hits[(addr, e.stamp) := HitCount(l, e) + 1]);
      (if e.live then credited else AddNote(credited, CreditUnconfirmed(addr, e.stamp)), Some(e.stamp))
  }

  function NoteStop(l: Ledger): Ledger { l.(stops := l.stops + 1) }

  function SetLive(s: seq<Entry>, i: nat): seq<Entry>
    requires i < |s|
  {
    s[i := s[i].(live := true)]
  }

  /** Marks the first entry at `addr`, looking through armed, then queued, then spent. */
  function MarkLive(l: Ledger, addr: Addr): Ledger {
    match Find(l.armed, addr)
    case Some(i) => l.(armed := SetLive(l.armed, i))
    case None =>
      match Find(l.queued, addr)
      case Some(i) => l.(queued := SetLive(l.queued, i))
      case None =>
        match Find(l.spent, addr)
        case Some(i) => l.(spent := SetLive(l.spent, i))
        case None => l
  }

  // ---- What every run keeps ---------------------------------------------------------------

  ghost predicate Distinct<T(!new)>(s: seq<Entry>, f: Entry -> T) {
    forall i, j :: 0 <= i < j < |s| ==> f(s[i]) != f(s[j])
  }

  ghost predicate Increasing(s: seq<Entry>) {
    forall i, j :: 0 <= i < j < |s| ==> s[i].stamp < s[j].stamp
  }

  ghost function UpTo(n: nat): (r: set<nat>)
    ensures forall i :: i in r <==> 1 <= i <= n
  {
    if n == 0 then {} else UpTo(n - 1) + {n}
  }

  /** No hardware slot is held twice, and none exists outside the hardware. */
  ghost predicate SlotsOk(l: Ledger) {
    && Distinct(l.armed, SlotOf)
    && (forall e :: e in l.armed ==> e.slot.Some? && e.slot.value < l.slotCount)
  }

  /** At most one armed or queued request per address. */
  ghost predicate AddrsOk(l: Ledger) {
    Distinct(l.armed, AddrOf) && Distinct(l.queued, AddrOf) && Addrs(l.armed) !! Addrs(l.queued)
  }

  /** Every issued sequence number is in exactly one of armed, queued, spent, removed. */
  ghost predicate StampsOk(l: Ledger) {
    && Distinct(l.armed, StampOf) && Increasing(l.queued) && Distinct(l.spent, StampOf)
    && Stamps(l.armed) !! Stamps(l.queued) !! Stamps(l.spent) !! l.removed
    && Stamps(l.armed) + Stamps(l.queued) + Stamps(l.spent) + l.removed == UpTo(l.lastStamp)
  }

  ghost predicate PhasesOk(l: Ledger) {
    && (forall e :: e in l.armed ==> e.phase == Armed)
    && (forall e :: e in l.queued ==> e.phase == Queued && e.slot.None? && !e.live)
    && (forall e :: e in l.spent ==> e.phase == Spent && !e.live)
  }

  /** One-shot: the credited generations are the spent ones, once each. */
  ghost predicate HitsOk(l: Ledger) {
    && l.hits.Keys == Generations(l.spent)
    && (forall k :: k in l.hits ==> l.hits[k] == 1)
  }

  /** The queue and the caveats stay within their limits; suppressed caveats are counted. */
  ghost predicate BoundsOk(l: Ledger) {
    && |l.queued| <= l.queueLimit
    && |l.notes| <= WATCHPOINT_NOTE_LIMIT + 1
    && (|l.notes| == WATCHPOINT_NOTE_LIMIT + 1 <==> l.notesDropped > 0)
  }

  /** Everything ever armed was placed, under a number already issued. */
  ghost predicate PlacedOk(l: Ledger) {
    && (forall n :: n in l.placed ==> n <= l.lastStamp)
    && (forall e :: e in l.armed || e in l.spent ==> e.stamp in l.placed)
  }

  ghost predicate LedgerInv(l: Ledger) {
    SlotsOk(l) && AddrsOk(l) && StampsOk(l) && PhasesOk(l) && HitsOk(l) && BoundsOk(l) && PlacedOk(l)
  }

  ghost predicate Ascending(s: seq<nat>) {
    forall i, j :: 0 <= i < j < |s| ==> s[i] < s[j]
  }

  /** Requests took their slots in request order, and the waiting ones are younger than all of those. */
  ghost predicate InRequestOrder(l: Ledger) {
    && Ascending(l.placed)
    && (forall n, e :: n in l.placed && e in l.queued ==> n < e.stamp)
  }

  /** No slot idles while a request waits, and nobody was armed ahead of an older request. */
  ghost predicate Orderly(l: Ledger) {
    InRequestOrder(l) && (l.queued != [] ==> FreeSlot(l).None?)
  }

  /** While a request waits, no slot but `s` is free: the state between freeing `s` and refilling it. */
  ghost predicate OnlyFree(l: Ledger, s: nat) {
    l.queued != [] ==> forall i :: 0 <= i < l.slotCount && i != s ==> Some(i) in Slots(l.armed)
  }

  // ---- Sequence facts ---------------------------------------------------------------------

  lemma Appending<T(!new)>(s: seq<Entry>, e: Entry, f: Entry -> T)
    ensures Image(s + [e], f) == Image(s, f) + {f(e)}
    ensures Distinct(s, f) && f(e) !in Image(s, f) ==> Distinct(s + [e], f)
  {
    var t := s + [e];
    assert t[|s|] == e;
    forall x | x in Image(s, f) ensures x in Image(t, f) {
      var i :| 0 <= i < |s| && f(s[i]) == x;
      assert t[i] == s[i];
    }
  }

  lemma Removing<T(!new)>(s: seq<Entry>, i: nat, f: Entry -> T)
    requires i < |s| && Distinct(s, f)
    ensures Distinct(Without(s, i), f) && Image(Without(s, i), f) == Image(s, f) - {f(s[i])}
  {
    var t := Without(s, i);
    assert forall j :: 0 <= j < |t| ==> t[j] == if j < i then s[j] else s[j + 1];
    forall x | x in Image(s, f) - {f(s[i])} ensures x in Image(t, f) {
      var j :| 0 <= j < |s| && f(s[j]) == x;
      assert t[if j < i then j else j - 1] == s[j];
    }
  }

  lemma Marking<T(!new)>(s: seq<Entry>, i: nat, f: Entry -> T)
    requires i < |s| && f(s[i].(live := true)) == f(s[i])
    ensures Image(SetLive(s, i), f) == Image(s, f)
    ensures Distinct(s, f) ==> Distinct(SetLive(s, i), f)
  {
    var t := SetLive(s, i);
    assert forall j :: 0 <= j < |t| ==> f(t[j]) == f(s[j]);
  }
}
