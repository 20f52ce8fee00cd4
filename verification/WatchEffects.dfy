/** What the commands do to the requests themselves: who is confirmed, credited, withdrawn, cleared. */
module WatchEffects {
  import opened Options
  import opened WatchLedger
  import opened WatchLedgerInvariants
  import opened WatchSession
  import opened WatchSessionInvariants
  import opened WatchTheorems

  // ---- Confirmation ----------------------------------------------------------------------------------

  /** Creating the watchpoint confirms the one request armed at its address and touches nothing else in the
      ledger; any other answer leaves the ledger as it was. */
  lemma ArmConfirms(d: Debugger, w: World, e: Entry, i: nat)
    requires LedgerInv(w.ledger) && i < |w.ledger.armed| && w.ledger.armed[i].addr == e.addr
    ensures var l, l' := w.ledger, Arm(d, w, e).0.ledger;
      if e.mode != Unlisted && d.arm(w.armCalls).Created? then
        && l' == l.(armed := l'.armed) && |l'.armed| == |l.armed|
        && l'.armed[i] == l.armed[i].(live := true)
        && forall j :: 0 <= j < |l.armed| && j != i ==> l'.armed[j] == l.armed[j]
      else l' == l
  {
    hide SlotsOk, StampsOk, PhasesOk, HitsOk, BoundsOk, PlacedOk;
    FoundAt(w.ledger.armed, i);
  }

  lemma FoundAt(s: seq<Entry>, i: nat)
    requires i < |s| && Distinct(s, AddrOf)
    ensures Find(s, s[i].addr) == Some(i)
  {
    var k := Find(s, s[i].addr);
    assert k.Some? by { assert s[i] in s; }
    assert AddrOf(s[i]) == AddrOf(s[k.value]);
  }

  /** Confirmed: armed at that address and reported as live. */
  ghost predicate LiveAt(l: Ledger, addr: Addr) { exists e :: e in l.armed && e.addr == addr && e.live }

  /** A request that `gp-watch add` arms and the debugger creates is armed and live, in its slot; every other
      request is as before. */
  lemma CreatedAddIsLive(d: Debugger, w: World, addr: Addr, mode: Mode)
    requires LedgerInv(w.ledger) && mode != Unlisted && d.arm(w.armCalls).Created?
    requires addr !in Addrs(w.ledger.armed) && addr !in Addrs(w.ledger.queued)
    requires |w.ledger.armed| < w.ledger.slotCount
    ensures var l, l' := w.ledger, AddWatch(d, w, Spec(Some(addr), mode)).ledger;
      && LiveAt(l', addr) && |l'.armed| == |l.armed| + 1 && l'.armed[..|l.armed|] == l.armed
      && l'.armed[|l.armed|].mode == mode && l'.queued == l.queued
  {
    hide LedgerInv, Arm;
    AddExactly(w.ledger, addr, mode);
    AddInv(w.ledger, Spec(Some(addr), mode));
    var n := |w.ledger.armed|;
    var l := Add(w.ledger, Spec(Some(addr), mode)).0;
    Unique(l, n);
    ArmConfirms(d, w.(ledger := l), l.armed[n], n);
    ArmedOutcome(d, w.(ledger := l), l.armed[n]);
    var l' := AddWatch(d, w, Spec(Some(addr), mode)).ledger;
    assert l'.armed[n] in l'.armed && l'.armed[n].live;
    assert l'.armed[..n] == w.ledger.armed;
  }

  lemma Unique(l: Ledger, i: nat)
    requires LedgerInv(l) && i < |l.armed|
    ensures Find(l.armed, l.armed[i].addr) == Some(i)
  {
    FoundAt(l.armed, i);
  }

  /** How an arming attempt ends, per answer. */
  lemma ArmedOutcome(d: Debugger, w: World, e: Entry)
    ensures var outcome := Arm(d, w, e).1; var answer := d.arm(w.armCalls);
      && (outcome == Failed <==> e.mode == Unlisted || answer.Refused?)
      && (outcome == Raised <==> e.mode != Unlisted && (answer.ArmRaises? || (answer.Created? && !answer.named)))
  {
  }

  /** A promoted request the debugger creates is armed and live in the freed slot, and was the oldest. */
  lemma CreatedPromotionIsLive(d: Debugger, w: World, s: nat)
    requires LedgerInv(w.ledger) && s < w.ledger.slotCount && Some(s) !in Slots(w.ledger.armed)
    requires w.ledger.queued != [] && w.ledger.queued[0].mode != Unlisted && d.arm(w.armCalls).Created?
    ensures var l, l' := w.ledger, PromoteAndArm(d, w, Some(s)).0.ledger;
      && l'.armed == l.armed + [l.queued[0].(slot := Some(s), phase := Armed, live := true)]
      && l'.queued == l.queued[1..] && LiveAt(l', l.queued[0].addr)
  {
    hide LedgerInv, Arm;
    TakeSlotInv(w.ledger, s);
    var n := |w.ledger.armed|;
    var l := TakeSlot(w.ledger, Some(s)).0;
    ArmConfirms(d, w.(ledger := l), l.armed[n], n);
    ArmedOutcome(d, w.(ledger := l), l.armed[n]);
    var l' := PromoteAndArm(d, w, Some(s)).0.ledger;
    assert l'.armed[n] in l'.armed && l'.armed[..n] == l.armed[..n];
    assert l'.armed == l'.armed[..n] + [l'.armed[n]];
  }

  // ---- Withdrawal ------------------------------------------------------------------------------------

  /** A refused `gp-watch add` leaves the armed and the waiting requests exactly as they were. */
  lemma RefusedAddLeavesNothing(d: Debugger, w: World, addr: Addr, mode: Mode)
    requires LedgerInv(w.ledger) && (mode == Unlisted || d.arm(w.armCalls).Refused?)
    requires addr !in Addrs(w.ledger.armed) && addr !in Addrs(w.ledger.queued)
    requires |w.ledger.armed| < w.ledger.slotCount
    ensures var l' := AddWatch(d, w, Spec(Some(addr), mode)).ledger;
      && l'.armed == w.ledger.armed && l'.queued == w.ledger.queued && l'.spent == w.ledger.spent
      && addr !in Addrs(l'.armed) && addr !in Addrs(l'.queued)
  {
    hide LedgerInv;
    AddExactly(w.ledger, addr, mode);
    AddInv(w.ledger, Spec(Some(addr), mode));
    var n := |w.ledger.armed|;
    var l := Add(w.ledger, Spec(Some(addr), mode)).0;
    Unique(l, n);
    assert Without(l.armed, n) == w.ledger.armed;
  }

  /** A request for an address that is active, or with every slot taken, asks the debugger nothing and leaves the
      armed ones alone. */
  lemma UnarmedAddAsksNothing(d: Debugger, w: World, addr: Addr, mode: Mode)
    requires LedgerInv(w.ledger)
    requires addr in Addrs(w.ledger.armed) || addr in Addrs(w.ledger.queued) || |w.ledger.armed| == w.ledger.slotCount
    ensures var w' := AddWatch(d, w, Spec(Some(addr), mode));
      && w' == w.(ledger := w'.ledger) && w'.ledger.armed == w.ledger.armed
      && (addr in Addrs(w.ledger.armed) || addr in Addrs(w.ledger.queued) ==> w' == w)
  {
    hide LedgerInv, Arm, Abandon;
    AddExactly(w.ledger, addr, mode);
  }

  /** The addresses of the requests that are armed or wait. */
  function Active(l: Ledger): set<Addr> { Addrs(l.armed) + Addrs(l.queued) }

  lemma PromotionActivatesNobody(d: Debugger, w: World, freed: Option<nat>)
    ensures Active(PromoteAndArm(d, w, freed).0.ledger) <= Active(w.ledger)
    ensures Addrs(PromoteAndArm(d, w, freed).0.ledger.queued) <= Addrs(w.ledger.queued)
  {
    hide Find, MarkLive, Abandon, AddNote;
    var (l, head) := TakeSlot(w.ledger, freed);
    if head.Some? {
      HeadStaysActive(w.ledger, freed);
      MarkedActive(l, head.value.addr);
      AbandonedActive(Arm(d, w.(ledger := l), head.value).0.ledger, head.value.addr);
    }
  }

  lemma HeadStaysActive(l: Ledger, freed: Option<nat>)
    requires l.queued != []
    ensures Active(TakeSlot(l, freed).0) <= Active(l) && Addrs(TakeSlot(l, freed).0.queued) <= Addrs(l.queued)
  {
    var l' := TakeSlot(l, freed).0;
    Appending(l.armed, l'.armed[|l.armed|], AddrOf);
    MemberImage(l.queued, l.queued[0], AddrOf);
    forall a | a in Addrs(l'.queued) ensures a in Addrs(l.queued) {
      var i :| 0 <= i < |l'.queued| && AddrOf(l'.queued[i]) == a;
      assert AddrOf(l.queued[i + 1]) == a;
    }
  }

  lemma MarkedActive(l: Ledger, addr: Addr)
    ensures Active(MarkLive(l, addr)) == Active(l) && Addrs(MarkLive(l, addr).queued) == Addrs(l.queued)
  {
    if Find(l.armed, addr).Some? { Marking(l.armed, Find(l.armed, addr).value, AddrOf); }
    else if Find(l.queued, addr).Some? { Marking(l.queued, Find(l.queued, addr).value, AddrOf); }
  }

  lemma WithoutAddrs(s: seq<Entry>, i: nat)
    requires i < |s|
    ensures Addrs(Without(s, i)) <= Addrs(s)
  {
    var t := Without(s, i);
    forall a | a in Addrs(t) ensures a in Addrs(s) {
      var j :| 0 <= j < |t| && AddrOf(t[j]) == a;
      assert t[j] == s[if j < i then j else j + 1];
    }
  }

  lemma AbandonedActive(l: Ledger, addr: Addr)
    ensures Active(Abandon(l, addr)) <= Active(l) && Addrs(Abandon(l, addr).queued) <= Addrs(l.queued)
  {
    hide Without;
    if Find(l.armed, addr).Some? { WithoutAddrs(l.armed, Find(l.armed, addr).value); }
    else if Find(l.queued, addr).Some? { WithoutAddrs(l.queued, Find(l.queued, addr).value); }
  }

  /** Clearing an address leaves no active request there, and brings none about. */
  lemma ClearOneClears(d: Debugger, w: World, addr: Addr)
    requires LedgerInv(w.ledger)
    ensures Active(ClearOne(d, w, addr).0.ledger) <= Active(w.ledger) - {addr}
    ensures Addrs(ClearOne(d, w, addr).0.ledger.queued) <= Addrs(w.ledger.queued)
  {
    hide LedgerInv, Drop, Disarm, PromoteAndArm, AddNote, Active;
    var (l, phase, freed) := Drop(w.ledger, addr);
    DropExactly(w.ledger, addr);
    DroppedActive(w.ledger, l, addr);
    var dropped := w.(ledger := l);
    DisarmKeepsBook(d, dropped, addr);
    var (w', outcome) := if phase == Some(Armed) then Disarm(d, dropped, addr) else (dropped, Done);
    if phase.Some? {
      var note := WatchLedger.Note.Dropped(addr, phase.value, outcome == Done);
      NotedActive(w', note);
      PromotionActivatesNobody(d, Noted(w', note), freed);
    } else {
      NothingDropped(w.ledger, addr);
    }
  }

  lemma NotedActive(w: World, n: WatchLedger.Note)
    ensures Active(Noted(w, n).ledger) == Active(w.ledger) && Noted(w, n).ledger.queued == w.ledger.queued
  {
  }

  lemma NothingDropped(l: Ledger, addr: Addr)
    requires Drop(l, addr).1.None?
    ensures Drop(l, addr).0 == l
  {
  }

  lemma DroppedActive(l: Ledger, l': Ledger, addr: Addr)
    requires OnlyGone(l, l', addr)
    ensures Active(l') <= Active(l) - {addr} && Addrs(l'.queued) <= Addrs(l.queued)
  {
    forall a | a in Addrs(l'.queued) ensures a in Addrs(l.queued) {
      var i :| 0 <= i < |l'.queued| && AddrOf(l'.queued[i]) == a;
      assert l'.queued[i] in l'.queued;
      MemberImage(l.queued, l'.queued[i], AddrOf);
    }
    forall a | a in Active(l') ensures a in Active(l) && a != addr {
      if a in Addrs(l'.armed) {
        var i :| 0 <= i < |l'.armed| && AddrOf(l'.armed[i]) == a;
        assert l'.armed[i] in l'.armed;
        MemberImage(l.armed, l'.armed[i], AddrOf);
      } else {
        var i :| 0 <= i < |l'.queued| && AddrOf(l'.queued[i]) == a;
        assert l'.queued[i] in l'.queued;
        MemberImage(l.queued, l'.queued[i], AddrOf);
      }
    }
  }

  /** No exception escapes from any target of the clear. */
  predicate Unbroken(d: Debugger, w: World, targets: seq<Addr>)
    decreases targets
  {
    targets == []
    || (!ClearOne(d, w, targets[0]).1 && Unbroken(d, ClearOne(d, w, targets[0]).0, targets[1..]))
  }

  /** Main result: a `gp-queue clear` that runs to its end leaves no active request at any of its targets. */
  lemma {:induction false} ClearClears(d: Debugger, w: World, targets: seq<Addr>)
    requires SessionInv(w) && UndisruptedOrder(w) && Unbroken(d, w, targets)
    ensures Active(Clear(d, w, targets).ledger) <= Active(w.ledger)
    ensures Addrs(Clear(d, w, targets).ledger.queued) <= Addrs(w.ledger.queued)
    ensures forall a :: a in targets ==> a !in Active(Clear(d, w, targets).ledger)
    decreases targets
  {
    hide SessionInv, UndisruptedOrder, ClearOne;
    if targets != [] {
      var w' := ClearOne(d, w, targets[0]).0;
      Sound(w);
      ClearOneClears(d, w, targets[0]);
      ClearOneInv(d, w, targets[0]);
      ClearClears(d, w', targets[1..]);
    }
  }

  lemma Sound(w: World)
    requires SessionInv(w)
    ensures LedgerInv(w.ledger)
  {
  }

  /** So clearing everything leaves nothing waiting. */
  lemma ClearAllEmptiesQueue(d: Debugger, w: World)
    requires SessionInv(w) && UndisruptedOrder(w) && Unbroken(d, w, AddrsInOrder(w.ledger.queued))
    ensures Execute(d, w, ClearAll).ledger.queued == []
  {
    hide SessionInv, UndisruptedOrder, Clear, Unbroken;
    var targets := AddrsInOrder(w.ledger.queued);
    ClearClears(d, w, targets);
    forall a | a in Addrs(w.ledger.queued) ensures a in targets {
      var i :| 0 <= i < |w.ledger.queued| && AddrOf(w.ledger.queued[i]) == a;
      assert targets[i] == a;
    }
    var left := Execute(d, w, ClearAll).ledger.queued;
    if left != [] { MemberImage(left, left[0], AddrOf); }
  }

  // ---- A stop and its request --------------------------------------------------------------------------

  /** The disable call a stop at a tracked address costs. */
  ghost predicate DisabledOnce(d: Debugger, w: World, w': World, addr: Addr) {
    && w'.disarmCalls == w.disarmCalls + 1
    && (d.disarm(w.disarmCalls).Disabled? ==> addr !in Keys(w'.tracked))
  }

  /** A new stop is charged to the address whose handle answers with its id: one hit for the generation armed
      there, or one unattributed stop; and without such a handle it is unmatched. */
  lemma StopCharged(d: Debugger, w: World, stopId: Option<int>, row: Row)
    requires SessionInv(w) && row.StoppedAt? && StopKey(stopId, row.thread, row.watchpoint) !in w.reconciled
    ensures var l := w.ledger; var w' := ReconcileRow(d, w, stopId, row).0; var l' := w'.ledger;
      var addr := AddrForId(d, l.stops + 1, w.tracked, row.watchpoint);
      && l'.stops == l.stops + 1
      && (addr.None? ==> l'.hits == l.hits && l'.unattributed == l.unattributed && w'.unmatched == w.unmatched + 1)
      && (addr.Some? ==> w'.unmatched == w.unmatched && DisabledOnce(d, w, w', addr.value))
      && (addr.Some? && addr.value in Addrs(l.armed) ==>
            && l'.unattributed == l.unattributed
            && exists e :: e in l.armed && e.addr == addr.value && l'.hits == l.hits[(e.addr, e.stamp) := 1])
      && (addr.Some? && addr.value !in Addrs(l.armed) ==>
            && l'.hits == l.hits && l'.armed == l.armed && l'.queued == l.queued
            && l'.unattributed == l.unattributed[addr.value := Stray(l, addr.value) + 1])
  {
    hide LedgerInv, LiveTracked, Accounted, Credit, AddrForId, Observe, AddNote;
    var key := StopKey(stopId, row.thread, row.watchpoint);
    var seen := Observe(w, key);
    var addr := AddrForId(d, w.ledger.stops + 1, w.tracked, row.watchpoint);
    ObserveInv(w, key);
    ObservedLedger(w, key);
    NotedLedger(seen, StopMatchesNothing);
    if addr.Some? { CreditCharged(d, seen, addr.value); }
  }

  lemma ObservedLedger(w: World, key: StopKey)
    ensures var l, l' := w.ledger, Observe(w, key).ledger; var w' := Observe(w, key);
      && l'.armed == l.armed && l'.queued == l.queued && l'.hits == l.hits && l'.unattributed == l.unattributed
      && l'.stops == l.stops + 1 && w'.unmatched == w.unmatched && w'.tracked == w.tracked
      && w'.disarmCalls == w.disarmCalls && w'.armCalls == w.armCalls
  {
  }

  lemma NotedLedger(w: World, n: WatchLedger.Note)
    ensures var l, l' := w.ledger, Noted(w, n).ledger;
      l' == l.(notes := l'.notes, notesDropped := l'.notesDropped)
  {
  }

  lemma CreditCharged(d: Debugger, w: World, addr: Addr)
    requires LedgerInv(w.ledger) && LiveTracked(w) && Accounted(w, 1) && addr in Keys(w.tracked)
    ensures var l := w.ledger; var w' := Credit(d, w, addr).0; var l' := w'.ledger;
      && l'.stops == l.stops && w'.unmatched == w.unmatched && DisabledOnce(d, w, w', addr)
      && (addr in Addrs(l.armed) ==>
            && l'.unattributed == l.unattributed
            && exists e :: e in l.armed && e.addr == addr && l'.hits == l.hits[(e.addr, e.stamp) := 1])
      && (addr !in Addrs(l.armed) ==>
            && l'.hits == l.hits && l'.armed == l.armed && l'.queued == l.queued
            && l'.unattributed == l.unattributed[addr := Stray(l, addr) + 1])
  {
    hide LedgerInv, LiveTracked, Accounted, Credit, Find, DisabledOnce;
    Present(w.ledger.armed, addr);
    CreditKeepsBook(d, w, addr);
    if Find(w.ledger.armed, addr).Some? {
      HitCharged(d, w, addr);
    } else {
      StrayStopInv(d, w, addr);
      StrayDisables(d, w, addr);
    }
  }

  lemma StrayDisables(d: Debugger, w: World, addr: Addr)
    requires Find(w.ledger.armed, addr).None? && addr in Keys(w.tracked)
    ensures DisabledOnce(d, w, Credit(d, w, addr).0, addr) && Credit(d, w, addr).0.ledger.queued == w.ledger.queued
  {
    hide Find, Keys;
  }

  lemma HitCharged(d: Debugger, w: World, addr: Addr)
    requires LedgerInv(w.ledger) && LiveTracked(w) && Accounted(w, 1) && addr in Keys(w.tracked)
    requires Find(w.ledger.armed, addr).Some?
    ensures var l := w.ledger; var w' := Credit(d, w, addr).0; var l' := w'.ledger;
      && w'.unmatched == w.unmatched && DisabledOnce(d, w, w', addr) && l'.unattributed == l.unattributed
      && exists e :: e in l.armed && e.addr == addr && l'.hits == l.hits[(e.addr, e.stamp) := 1]
  {
    hide LedgerInv, LiveTracked, Accounted, Refill, Find, DisabledOnce;
    var e := w.ledger.armed[Find(w.ledger.armed, addr).value];
    CreditAndReleaseInv(w.ledger, addr);
    CreditAndReleaseEffect(w.ledger, addr);
    Released(w.ledger, addr);
    ReleasedAccounts(w, addr);
    CreditedLedger(w.ledger, addr);
    ArmedNotQueued(w.ledger, addr);
    var released := w.(ledger := CreditAndRelease(w.ledger, addr));
    ReleasedLive(w, released.ledger);
    RefillCharges(d, released, addr, Release(RecordHit(w.ledger, addr).0, addr).1.value);
    DisabledFrom(d, w, released, Credit(d, w, addr).0, addr);
    assert e in w.ledger.armed;
  }

  lemma ArmedNotQueued(l: Ledger, addr: Addr)
    requires LedgerInv(l) && Find(l.armed, addr).Some?
    ensures addr !in Addrs(l.queued)
  {
    Present(l.armed, addr);
  }

  lemma ReleasedLive(w: World, l: Ledger)
    requires LiveTracked(w) && forall e :: e in l.armed ==> e in w.ledger.armed
    ensures LiveTracked(w.(ledger := l))
  {
  }

  lemma CreditedLedger(l: Ledger, addr: Addr)
    ensures CreditAndRelease(l, addr).unattributed == l.unattributed || Find(l.armed, addr).None?
  {
  }

  lemma DisabledFrom(d: Debugger, w: World, w1: World, w2: World, addr: Addr)
    requires DisabledOnce(d, w1, w2, addr) && w1.disarmCalls == w.disarmCalls
    ensures DisabledOnce(d, w, w2, addr)
  {
  }

  lemma RefillCharges(d: Debugger, w: World, addr: Addr, s: nat)
    requires LedgerInv(w.ledger) && LiveTracked(w) && addr in Keys(w.tracked) && addr !in Addrs(w.ledger.armed)
    requires s < w.ledger.slotCount && Some(s) !in Slots(w.ledger.armed) && addr !in Addrs(w.ledger.queued)
    ensures var w' := Refill(d, w, addr, Some(s)).0;
      && w'.ledger.hits == w.ledger.hits && w'.ledger.unattributed == w.ledger.unattributed
      && w'.unmatched == w.unmatched && DisabledOnce(d, w, w', addr)
  {
    hide LedgerInv, PromoteAndArm, Keys, Addrs;
    DisarmInv(d, w, addr);
    var (w', outcome) := Disarm(d, w, addr);
    NotedInv(w', DisableUnconfirmed(addr));
    if outcome != Raised {
      var noted := if outcome == Failed then Noted(w', DisableUnconfirmed(addr)) else w';
      PromoteInv(d, noted, s);
      PromoteCalls(d, noted, Some(s));
    }
  }

  lemma PromoteCalls(d: Debugger, w: World, freed: Option<nat>)
    ensures var w' := PromoteAndArm(d, w, freed).0;
      && w'.disarmCalls == w.disarmCalls
      && forall a :: a in Keys(w'.tracked) && a !in Keys(w.tracked) ==> a in Addrs(w.ledger.queued)
  {
    hide Abandon, MarkLive, AddNote, Keys;
    if w.ledger.queued != [] { MemberImage(w.ledger.queued, w.ledger.queued[0], AddrOf); }
  }

  /** Exactly what ends a pass at a row: a row that cannot be read, a disable call that raises, or the arming
      call for a promoted request that raises or names no watchpoint. */
  lemma RowBreaksExactly(d: Debugger, w: World, stopId: Option<int>, row: Row)
    requires SessionInv(w)
    ensures var addr := AddrForId(d, w.ledger.stops + 1, w.tracked,
                                  if row.StoppedAt? then row.watchpoint else None);
      var charged := row.StoppedAt? && !(KeyOf(stopId, row) <= w.reconciled) && addr.Some?;
      var answer := d.arm(w.armCalls);
      ReconcileRow(d, w, stopId, row).1
      <==> || row.Unreadable?
           || (charged && d.disarm(w.disarmCalls).DisarmRaises?)
           || (&& charged && addr.value in Addrs(w.ledger.armed)
               && w.ledger.queued != [] && w.ledger.queued[0].mode != Unlisted
               && (answer.ArmRaises? || (answer.Created? && !answer.named)))
  {
    hide LedgerInv, LiveTracked, Accounted, Credit, AddrForId, Observe, AddNote;
    if row.StoppedAt? && !(KeyOf(stopId, row) <= w.reconciled) {
      var key := StopKey(stopId, row.thread, row.watchpoint);
      var addr := AddrForId(d, w.ledger.stops + 1, w.tracked, row.watchpoint);
      ObservedLedger(w, key);
      if addr.Some? { CreditBreaksExactly(d, Observe(w, key), addr.value); }
    }
  }

  lemma CreditBreaksExactly(d: Debugger, w: World, addr: Addr)
    requires addr in Keys(w.tracked)
    ensures var answer := d.arm(w.armCalls);
      Credit(d, w, addr).1
      <==> || d.disarm(w.disarmCalls).DisarmRaises?
           || (&& addr in Addrs(w.ledger.armed) && w.ledger.queued != [] && w.ledger.queued[0].mode != Unlisted
               && (answer.ArmRaises? || (answer.Created? && !answer.named)))
  {
    hide Find, Keys, PromoteAndArm, AddNote, Without;
    Present(w.ledger.armed, addr);
    var l := Release(RecordHit(w.ledger, addr).0, addr);
    var (w', outcome) := Disarm(d, w.(ledger := l.0), addr);
    var noted := if outcome == Failed then Noted(w', DisableUnconfirmed(addr)) else w';
    NotedLedger(w', DisableUnconfirmed(addr));
    CreditKeepsQueue(w.ledger, addr);
    PromotionRaisesExactly(d, noted, l.1);
  }

  lemma CreditKeepsQueue(l: Ledger, addr: Addr)
    ensures Release(RecordHit(l, addr).0, addr).0.queued == l.queued
    ensures RecordHit(l, addr).1.Some? <==> Find(l.armed, addr).Some?
  {
    hide Find, Without;
  }

  lemma PromotionRaisesExactly(d: Debugger, w: World, freed: Option<nat>)
    ensures var answer := d.arm(w.armCalls);
      PromoteAndArm(d, w, freed).1.PromotionRaised?
      <==> && w.ledger.queued != [] && w.ledger.queued[0].mode != Unlisted
           && (answer.ArmRaises? || (answer.Created? && !answer.named))
  {
    hide AddNote, MarkLive, Abandon, Track;
  }

  // ---- What a look counts and `gp-queue arm` promotes -----------------------------------------------------

  /** A look with room in the book that nothing breaks off counts each watchpoint stop among the first 64
      rows once, if it was not counted before, and no other. */
  lemma LookCounts(d: Debugger, w: World, stopId: Option<int>, rows: seq<Row>)
    requires var seen := if |rows| <= 64 then rows else rows[..64];
      && |w.reconciled + StopKeys(stopId, seen)| <= RECONCILED_STOPS_LIMIT
      && !ReconcileRows(d, Warned(w, |rows|), stopId, seen).1
    ensures var seen := if |rows| <= 64 then rows else rows[..64];
      var w' := Reconcile(d, w, At(stopId, Some(rows)));
      && w'.ledger.stops == w.ledger.stops + |StopKeys(stopId, seen) - w.reconciled|
      && w'.reconciled == w.reconciled + StopKeys(stopId, seen)
  {
    hide ReconcileRows, StopKeys, AddNote;
    var seen := if |rows| <= 64 then rows else rows[..64];
    RowsCount(d, Warned(w, |rows|), stopId, seen);
    NotedLedger(w, ThreadsPastCap(|rows|));
  }

  lemma {:induction false} RowsCount(d: Debugger, w: World, stopId: Option<int>, rows: seq<Row>)
    requires |w.reconciled + StopKeys(stopId, rows)| <= RECONCILED_STOPS_LIMIT
    requires !ReconcileRows(d, w, stopId, rows).1
    ensures var w' := ReconcileRows(d, w, stopId, rows).0;
      && w'.ledger.stops == w.ledger.stops + |StopKeys(stopId, rows) - w.reconciled|
      && w'.reconciled == w.reconciled + StopKeys(stopId, rows)
    decreases rows
  {
    hide ReconcileRow, KeyOf;
    if rows == [] {
      assert w.reconciled + {} == w.reconciled && {} - w.reconciled == {};
    } else {
      var row, rest := rows[0], rows[1..];
      var w' := ReconcileRow(d, w, stopId, row).0;
      SubsetSize(w.reconciled + KeyOf(stopId, row), w.reconciled + StopKeys(stopId, rows));
      RowRemembers(d, w, stopId, row);
      RowStops(d, w, stopId, row);
      assert w'.reconciled + StopKeys(stopId, rest) == w.reconciled + StopKeys(stopId, rows);
      RowsCount(d, w', stopId, rest);
      OneKey(stopId, row, w.reconciled, StopKeys(stopId, rest));
    }
  }

  lemma OneKey(stopId: Option<int>, row: Row, known: set<StopKey>, rest: set<StopKey>)
    ensures |KeyOf(stopId, row) + rest - known|
      == |rest - (known + KeyOf(stopId, row))| + if KeyOf(stopId, row) <= known then 0 else 1
  {
    var added := KeyOf(stopId, row) - known;
    assert KeyOf(stopId, row) + rest - known == (rest - (known + KeyOf(stopId, row))) + added;
    if row.StoppedAt? {
      assert added == if KeyOf(stopId, row) <= known then {} else {StopKey(stopId, row.thread, row.watchpoint)};
    }
  }

  function Min3(a: nat, b: nat, c: nat): nat { if a <= b && a <= c then a else if b <= c then b else c }

  /** Where arming works, `gp-queue arm` arms as many of the oldest waiting requests as it is asked to, as far as
      there are requests and free slots. */
  lemma {:induction false} ArmQueuedExactly(d: Debugger, w: World, count: nat)
    requires Arms(d) && Calm(w) && SessionInv(w)
    ensures var l, l' := w.ledger, ArmQueued(d, w, count).ledger;
      |l.armed| <= l.slotCount && l'.queued == l.queued[Min3(count, |l.queued|, l.slotCount - |l.armed|)..]
    decreases count
  {
    hide SessionInv, LedgerInv, PromoteAndArm, Arms;
    Sound(w);
    Capacity(w.ledger);
    var free := FreeSlot(w.ledger);
    if count > 0 && free.Some? && w.ledger.queued != [] {
      var (w', promotion) := PromoteAndArm(d, w, free);
      SteadyPromotes(d, w, free.value);
      HeadListed(d, w);
      CreatedPromotionIsLive(d, w, free.value);
      PromoteKeepsSlots(d, w, free);
      ArmQueuedExactly(d, w', count - 1);
    }
  }

  lemma HeadListed(d: Debugger, w: World)
    requires Arms(d) && Calm(w) && w.ledger.queued != []
    ensures w.ledger.queued[0].mode != Unlisted && d.arm(w.armCalls).Created?
  {
    assert w.ledger.queued[0] in w.ledger.queued;
  }

  lemma PromoteKeepsSlots(d: Debugger, w: World, freed: Option<nat>)
    ensures PromoteAndArm(d, w, freed).0.ledger.slotCount == w.ledger.slotCount
  {
    hide TakeSlot, Abandon, MarkLive, Track;
    KeepsSlots(w.ledger, 0, freed);
    var (l, head) := TakeSlot(w.ledger, freed);
    if head.Some? {
      KeepsSlots(l, head.value.addr, freed);
      KeepsSlots(Arm(d, w.(ledger := l), head.value).0.ledger, head.value.addr, freed);
    }
  }

  lemma KeepsSlots(l: Ledger, addr: Addr, freed: Option<nat>)
    ensures TakeSlot(l, freed).0.slotCount == l.slotCount
    ensures Abandon(l, addr).slotCount == l.slotCount && MarkLive(l, addr).slotCount == l.slotCount
  {
    hide Find, FreeSlot;
  }

  /** The command asks for 64 at most. */
  lemma ArmHeadsExactly(d: Debugger, w: World, count: nat)
    requires Arms(d) && Calm(w) && SessionInv(w)
    ensures var l, l' := w.ledger, Execute(d, w, ArmHeads(count)).ledger;
      && |l.armed| <= l.slotCount
      && l'.queued == l.queued[Min3(if count <= 64 then count else 64, |l.queued|, l.slotCount - |l.armed|)..]
  {
    hide SessionInv, ArmQueued;
    ArmQueuedExactly(d, w, if count <= 64 then count else 64);
  }

  // ---- Caveats ---------------------------------------------------------------------------------------------

  function Told(l: Ledger, ns: seq<WatchLedger.Note>): Ledger {
    if ns == [] then l else AddNote(Told(l, ns[..|ns| - 1]), ns[|ns| - 1])
  }

  /** However many caveats there are, the first 24 are kept in order, and the rest are counted behind one mark. */
  lemma {:induction false} CaveatsKept(l: Ledger, ns: seq<WatchLedger.Note>)
    requires l.notes == [] && l.notesDropped == 0
    ensures var l' := Told(l, ns);
      && l'.notes == (if |ns| <= 24 then ns else ns[..24] + [Suppressed])
      && l'.notesDropped == (if |ns| <= 24 then 0 else |ns| - 24)
  {
    if ns != [] {
      var front := ns[..|ns| - 1];
      CaveatsKept(l, front);
      assert ns == front + [ns[|ns| - 1]];
      if |front| >= 24 { assert front[..24] == ns[..24]; }
    }
  }

  /** Arming into a slot somebody holds, and crediting a request nobody confirmed, are told; nothing else is
      said by these two. */
  lemma CaveatsTold(l: Ledger, freed: Option<nat>, addr: Addr)
    ensures l.queued != [] ==> var l' := TakeSlot(l, freed).0;
      if freed.None? || freed in Slots(l.armed)
      then l'.notes == AddNote(l, OccupiedSlot(freed, l.queued[0].addr)).notes
      else l'.notes == l.notes && l'.notesDropped == l.notesDropped
    ensures addr !in Addrs(l.armed) ==>
      RecordHit(l, addr).0.notes == if Stray(l, addr) == 0 then AddNote(l, StopCreditsNothing(addr)).notes else l.notes
    ensures forall i :: 0 <= i < |l.armed| && Find(l.armed, addr) == Some(i) ==>
      RecordHit(l, addr).0.notes
      == if l.armed[i].live then l.notes else AddNote(l, CreditUnconfirmed(addr, l.armed[i].stamp)).notes
  {
    hide Find, Slots, FreeSlot;
    Present(l.armed, addr);
  }
}
