/** What every session keeps, whatever the debugger answers. */
module WatchSessionInvariants {
  import opened Options
  import opened WatchLedger
  import opened WatchLedgerInvariants
  import opened WatchSession

  // ---- Totals ------------------------------------------------------------------------------

  ghost function Total<K>(m: map<K, nat>): nat
    decreases |m|
  {
    if m == map[] then 0 else var k :| k in m; m[k] + Total(m - {k})
  }

  lemma {:induction false} TotalWithout<K>(m: map<K, nat>, k: K)
    requires k in m
    ensures Total(m) == m[k] + Total(m - {k})
    decreases |m|
  {
    var j :| j in m && Total(m) == m[j] + Total(m - {j});
    if j != k {
      TotalWithout(m - {j}, k);
      TotalWithout(m - {k}, j);
      assert m - {j} - {k} == m - {k} - {j};
    }
  }

  lemma TotalUpdate<K>(m: map<K, nat>, k: K, v: nat)
    ensures Total(m[k := v]) == Total(m) - (if k in m then m[k] else 0) + v
  {
    TotalWithout(m[k := v], k);
    if k in m {
      TotalWithout(m, k);
      assert m[k := v] - {k} == m - {k};
    } else {
      assert m[k := v] - {k} == m;
    }
  }

  // ---- The session invariant -----------------------------------------------------------------

  /** An entry reported as armed is armed, and the debugger's handle for it is still held. */
  ghost predicate LiveTracked(w: World) {
    forall e :: e in w.ledger.armed && e.live ==> e.addr in Keys(w.tracked)
  }

  /** Observed stops are the credited, the unattributed and the unmatched ones, and `pending` more. */
  ghost predicate Accounted(w: World, pending: nat) {
    w.ledger.stops == Total(w.ledger.hits) + Total(w.ledger.unattributed) + w.unmatched + pending
  }

  ghost predicate SessionInv(w: World) {
    LedgerInv(w.ledger) && LiveTracked(w) && Accounted(w, 0)
  }

  ghost predicate UndisruptedOrder(w: World) {
    !w.disrupted ==> Orderly(w.ledger)
  }

  ghost predicate SameAccounts(w: World, w': World) {
    && w'.ledger.hits == w.ledger.hits && w'.ledger.unattributed == w.ledger.unattributed
    && w'.ledger.stops == w.ledger.stops && w'.unmatched == w.unmatched
  }

  ghost predicate SameOrder(l: Ledger, l': Ledger) {
    && l'.queued == l.queued && l'.placed == l.placed && Slots(l'.armed) == Slots(l.armed)
    && l'.slotCount == l.slotCount
  }

  lemma NotedInv(w: World, n: Note)
    requires LedgerInv(w.ledger) && LiveTracked(w)
    ensures LedgerInv(Noted(w, n).ledger) && LiveTracked(Noted(w, n))
    ensures SameAccounts(w, Noted(w, n)) && SameOrder(w.ledger, Noted(w, n).ledger)
  {
    AddNoteInv(w.ledger, n);
  }

  lemma ArmInv(d: Debugger, w: World, e: Entry)
    requires LedgerInv(w.ledger) && LiveTracked(w) && Find(w.ledger.armed, e.addr).Some?
    ensures var w' := Arm(d, w, e).0;
      && LedgerInv(w'.ledger) && LiveTracked(w') && SameAccounts(w, w') && SameOrder(w.ledger, w'.ledger)
      && Find(w'.ledger.armed, e.addr).Some? && w'.disrupted == w.disrupted && w'.ledger.spent == w.ledger.spent
      && w'.reconciled == w.reconciled
  {
    hide LedgerInv;
    MarkLiveInv(w.ledger, e.addr);
    var i := Find(w.ledger.armed, e.addr).value;
    assert MarkLive(w.ledger, e.addr).armed[i] in MarkLive(w.ledger, e.addr).armed;
  }

  lemma DisarmInv(d: Debugger, w: World, addr: Addr)
    requires LiveTracked(w) && addr !in Addrs(w.ledger.armed)
    ensures var w' := Disarm(d, w, addr).0;
      && w'.ledger == w.ledger && LiveTracked(w') && w'.unmatched == w.unmatched && w'.disrupted == w.disrupted
      && (w'.tracked != w.tracked ==> Disarm(d, w, addr).1 == Done && d.disarm(w.disarmCalls) == Disabled)
      && (forall a :: a != addr ==> Lookup(w'.tracked, a) == Lookup(w.tracked, a))
  {
    forall e | e in w.ledger.armed ensures e.addr != addr { MemberImage(w.ledger.armed, e, AddrOf); }
  }

  lemma AbandonedInv(w: World, addr: Addr)
    requires LedgerInv(w.ledger) && LiveTracked(w)
    ensures var w' := w.(ledger := Abandon(w.ledger, addr));
      LedgerInv(w'.ledger) && LiveTracked(w') && SameAccounts(w, w')
  {
    hide LedgerInv;
    AbandonInv(w.ledger, addr);
  }

  lemma AccountsMove(w: World, w': World, pending: nat)
    requires Accounted(w, pending) && SameAccounts(w, w')
    ensures Accounted(w', pending)
  {
  }

  /** Offering the free slot `s` to the queue head, whatever becomes of the attempt. */
  lemma PromoteInv(d: Debugger, w: World, s: nat)
    requires LedgerInv(w.ledger) && LiveTracked(w) && s < w.ledger.slotCount && Some(s) !in Slots(w.ledger.armed)
    ensures var w' := PromoteAndArm(d, w, Some(s)).0;
      LedgerInv(w'.ledger) && LiveTracked(w') && SameAccounts(w, w') && (w.disrupted ==> w'.disrupted)
  {
    hide LedgerInv, Arm, Abandon;
    TakeSlotInv(w.ledger, s);
    var (l, head) := TakeSlot(w.ledger, Some(s));
    if head.Some? {
      assert head.value in l.armed;
      ArmInv(d, w.(ledger := l), head.value);
      AbandonedInv(Arm(d, w.(ledger := l), head.value).0, head.value.addr);
    }
  }

  lemma PromoteOrder(d: Debugger, w: World, s: nat)
    requires LedgerInv(w.ledger) && LiveTracked(w) && s < w.ledger.slotCount && Some(s) !in Slots(w.ledger.armed)
    requires !w.disrupted ==> InRequestOrder(w.ledger) && OnlyFree(w.ledger, s)
    ensures UndisruptedOrder(PromoteAndArm(d, w, Some(s)).0)
  {
    TakeSlotInv(w.ledger, s);
    var (l, head) := TakeSlot(w.ledger, Some(s));
    if !w.disrupted { TakeSlotOrderly(w.ledger, s); }
    if head.Some? {
      assert head.value in l.armed;
      ArmInv(d, w.(ledger := l), head.value);
    }
  }

  lemma StrayCounted(l: Ledger, l': Ledger)
    requires LedgerInv(l) && l' == l.(unattributed := l'.unattributed, stops := l'.stops)
    ensures LedgerInv(l')
  {
  }

  /** A stop at an address nothing is armed at: counted as unattributed, and nothing else moves. */
  lemma StrayStopInv(d: Debugger, w: World, addr: Addr)
    requires LedgerInv(w.ledger) && LiveTracked(w) && Accounted(w, 1) && Find(w.ledger.armed, addr).None?
    ensures var w' := Credit(d, w, addr).0;
      && SessionInv(w') && SameOrder(w.ledger, w'.ledger) && w'.disrupted == w.disrupted
      && w'.ledger.unattributed == w.ledger.unattributed[addr := Stray(w.ledger, addr) + 1]
      && w'.ledger.hits == w.ledger.hits && w'.unmatched == w.unmatched && w'.ledger.armed == w.ledger.armed
  {
    hide LedgerInv, RecordHit, Disarm, Accounted;
    StrayRecorded(w.ledger, addr);
    StrayAccounts(w, addr);
    var l := RecordHit(w.ledger, addr).0;
    DisarmInv(d, w.(ledger := l), addr);
    var w' := Disarm(d, w.(ledger := l), addr).0;
    NotedInv(w', DisableUnconfirmed(addr));
    AccountsMove(w.(ledger := l), w', 0);
    AccountsMove(w', Noted(w', DisableUnconfirmed(addr)), 0);
  }

  lemma StrayRecorded(l: Ledger, addr: Addr)
    requires LedgerInv(l) && Find(l.armed, addr).None?
    ensures var l' := RecordHit(l, addr).0;
      && l'.unattributed == l.unattributed[addr := Stray(l, addr) + 1] && l'.hits == l.hits
      && LedgerInv(l') && l'.armed == l.armed && SameOrder(l, l') && addr !in Addrs(l'.armed)
      && RecordHit(l, addr).1.None?
  {
    hide LedgerInv;
    var counted := l.(unattributed := l.unattributed[addr := Stray(l, addr) + 1]);
    StrayCounted(l, counted);
    AddNoteInv(counted, StopCreditsNothing(addr));
  }

  lemma StrayAccounts(w: World, addr: Addr)
    requires Find(w.ledger.armed, addr).None? && Accounted(w, 1)
    ensures Accounted(w.(ledger := RecordHit(w.ledger, addr).0), 0)
  {
    TotalUpdate(w.ledger.unattributed, addr, Stray(w.ledger, addr) + 1);
  }

  /** After crediting and releasing, nothing is armed at the address and only its old slot is free. */
  lemma Released(l: Ledger, addr: Addr)
    requires LedgerInv(l) && Find(l.armed, addr).Some?
    ensures var l' := CreditAndRelease(l, addr); var s := Release(RecordHit(l, addr).0, addr).1;
      && addr !in Addrs(l'.armed) && s.Some? && s.value < l.slotCount && s !in Slots(l'.armed)
      && l'.slotCount == l.slotCount
      && (Orderly(l) ==> InRequestOrder(l') && OnlyFree(l', s.value))
      && (forall e :: e in l'.armed ==> e in l.armed)
  {
    hide StampsOk, PhasesOk, HitsOk, PlacedOk, BoundsOk;
    CreditAndReleaseEffect(l, addr);
    Removing(l.armed, Find(l.armed, addr).value, AddrOf);
  }

  lemma ReleasedAccounts(w: World, addr: Addr)
    requires LedgerInv(w.ledger) && Find(w.ledger.armed, addr).Some? && Accounted(w, 1)
    ensures Accounted(w.(ledger := CreditAndRelease(w.ledger, addr)), 0)
  {
    CreditAndReleaseEffect(w.ledger, addr);
    var e := w.ledger.armed[Find(w.ledger.armed, addr).value];
    TotalUpdate(w.ledger.hits, (addr, e.stamp), 1);
  }

  lemma RefillInv(d: Debugger, w: World, addr: Addr, s: nat)
    requires SessionInv(w) && addr !in Addrs(w.ledger.armed)
    requires s < w.ledger.slotCount && Some(s) !in Slots(w.ledger.armed)
    ensures SessionInv(Refill(d, w, addr, Some(s)).0) && (w.disrupted ==> Refill(d, w, addr, Some(s)).0.disrupted)
    ensures (!w.disrupted ==> InRequestOrder(w.ledger) && OnlyFree(w.ledger, s))
      ==> UndisruptedOrder(Refill(d, w, addr, Some(s)).0)
  {
    hide LedgerInv, PromoteAndArm, Orderly;
    DisarmInv(d, w, addr);
    var (w', outcome) := Disarm(d, w, addr);
    NotedInv(w', DisableUnconfirmed(addr));
    if outcome != Raised {
      var noted := if outcome == Failed then Noted(w', DisableUnconfirmed(addr)) else w';
      PromoteInv(d, noted, s);
      if !w.disrupted ==> InRequestOrder(w.ledger) && OnlyFree(w.ledger, s) { PromoteOrder(d, noted, s); }
    }
  }

  /** A stop at an armed address: one hit, one freed slot, and the queue head offered that slot. */
  lemma HitInv(d: Debugger, w: World, addr: Addr)
    requires LedgerInv(w.ledger) && LiveTracked(w) && Accounted(w, 1) && Find(w.ledger.armed, addr).Some?
    ensures SessionInv(Credit(d, w, addr).0) && (w.disrupted ==> Credit(d, w, addr).0.disrupted)
    ensures UndisruptedOrder(w) ==> UndisruptedOrder(Credit(d, w, addr).0)
  {
    hide LedgerInv, Orderly, InRequestOrder, OnlyFree, Refill;
    CreditAndReleaseInv(w.ledger, addr);
    Released(w.ledger, addr);
    ReleasedAccounts(w, addr);
    var released := w.(ledger := CreditAndRelease(w.ledger, addr));
    RefillInv(d, released, addr, Release(RecordHit(w.ledger, addr).0, addr).1.value);
  }

  lemma CreditInv(d: Debugger, w: World, addr: Addr)
    requires LedgerInv(w.ledger) && LiveTracked(w) && Accounted(w, 1)
    ensures SessionInv(Credit(d, w, addr).0) && (w.disrupted ==> Credit(d, w, addr).0.disrupted)
    ensures UndisruptedOrder(w) ==> UndisruptedOrder(Credit(d, w, addr).0)
  {
    hide LedgerInv, Credit;
    if Find(w.ledger.armed, addr).Some? { HitInv(d, w, addr); } else { StrayStopInv(d, w, addr); }
  }

  // ---- Reconciliation ------------------------------------------------------------------------

  lemma ObserveInv(w: World, key: StopKey)
    requires SessionInv(w)
    ensures var w' := Observe(w, key);
      && LedgerInv(w'.ledger) && LiveTracked(w') && Accounted(w', 1) && SameOrder(w.ledger, w'.ledger)
      && w'.disrupted == w.disrupted && w'.tracked == w.tracked
  {
    NotedInv(w, BookkeepingReset);
  }

  lemma RowInv(d: Debugger, w: World, stopId: Option<int>, row: Row)
    requires SessionInv(w) && UndisruptedOrder(w)
    ensures var w' := ReconcileRow(d, w, stopId, row).0; SessionInv(w') && UndisruptedOrder(w')
  {
    hide LedgerInv, Credit, Observe;
    if row.StoppedAt? {
      var key := StopKey(stopId, row.thread, row.watchpoint);
      var seen := Observe(w, key);
      ObserveInv(w, key);
      NotedInv(seen, StopMatchesNothing);
      var addr := AddrForId(d, w.ledger.stops + 1, w.tracked, row.watchpoint);
      if addr.Some? { CreditInv(d, seen, addr.value); }
    }
  }

  lemma {:induction false} RowsInv(d: Debugger, w: World, stopId: Option<int>, rows: seq<Row>)
    requires SessionInv(w) && UndisruptedOrder(w)
    ensures var w' := ReconcileRows(d, w, stopId, rows).0; SessionInv(w') && UndisruptedOrder(w')
    decreases rows
  {
    hide SessionInv, UndisruptedOrder, ReconcileRow;
    if rows != [] {
      RowInv(d, w, stopId, rows[0]);
      RowsInv(d, ReconcileRow(d, w, stopId, rows[0]).0, stopId, rows[1..]);
    }
  }

  lemma ReconcileInv(d: Debugger, w: World, stop: Stop)
    requires SessionInv(w) && UndisruptedOrder(w)
    ensures var w' := Reconcile(d, w, stop); SessionInv(w') && UndisruptedOrder(w')
  {
    hide LedgerInv, ReconcileRows;
    NoteKeeps(w, Aborted);
    NoteKeeps(w, ThreadCountUnread);
    if stop.At? && stop.rows.Some? {
      var rows := stop.rows.value;
      NoteKeeps(w, ThreadsPastCap(|rows|));
      var warned := Warned(w, |rows|);
      RowsInv(d, warned, stop.stopId, Walked(rows));
      NoteKeeps(ReconcileRows(d, warned, stop.stopId, Walked(rows)).0, Aborted);
    }
  }

  lemma NoteKeeps(w: World, n: Note)
    requires SessionInv(w) && UndisruptedOrder(w)
    ensures SessionInv(Noted(w, n)) && UndisruptedOrder(Noted(w, n))
  {
    NotedInv(w, n);
  }

  // ---- Commands --------------------------------------------------------------------------------

  lemma AddWatchInv(d: Debugger, w: World, spec: Spec)
    requires SessionInv(w)
    ensures SessionInv(AddWatch(d, w, spec))
  {
    hide LedgerInv, LiveTracked, Accounted, Arm, Abandon;
    AddInv(w.ledger, spec);
    AddedIsLast(w, spec);
    AccountsMove(w, w.(ledger := Add(w.ledger, spec).0), 0);
    var (l, outcome) := Add(w.ledger, spec);
    if outcome.ArmedIn? {
      var e := l.armed[Find(l.armed, spec.addr.value).value];
      ArmInv(d, w.(ledger := l), e);
      var w' := Arm(d, w.(ledger := l), e).0;
      AbandonedInv(w', spec.addr.value);
      AccountsMove(w.(ledger := l), w', 0);
      AccountsMove(w', w'.(ledger := Abandon(w'.ledger, spec.addr.value)), 0);
    }
  }

  lemma AddWatchOrder(d: Debugger, w: World, spec: Spec)
    requires SessionInv(w) && UndisruptedOrder(w)
    ensures UndisruptedOrder(AddWatch(d, w, spec))
  {
    hide LedgerInv, Orderly, Arm;
    AddInv(w.ledger, spec);
    AddedIsLast(w, spec);
    var (l, outcome) := Add(w.ledger, spec);
    if !w.disrupted { AddOrderly(w.ledger, spec); }
    if outcome.ArmedIn? {
      var e := l.armed[Find(l.armed, spec.addr.value).value];
      ArmInv(d, w.(ledger := l), e);
      if !w.disrupted {
        var l' := Arm(d, w.(ledger := l), e).0.ledger;
        OrderMoves(l, l');
        AbandonUnqueued(l', spec.addr.value);
      }
    }
  }

  /** The request `add` armed sits at the end of `armed`, is not live yet, and nothing was waiting. */
  lemma AddedIsLast(w: World, spec: Spec)
    requires SessionInv(w)
    ensures var (l, outcome) := Add(w.ledger, spec);
      && LiveTracked(w.(ledger := l)) && SameAccounts(w, w.(ledger := l))
      && (outcome.ArmedIn? ==> Find(l.armed, spec.addr.value).Some? && l.queued == w.ledger.queued)
      && (outcome.ArmedIn? && Orderly(w.ledger) ==> w.ledger.queued == [])
  {
    var (l, outcome) := Add(w.ledger, spec);
    if outcome.ArmedIn? { assert l.armed[|w.ledger.armed|] in l.armed; }
  }

  lemma OrderMoves(l: Ledger, l': Ledger)
    requires SameOrder(l, l') && Orderly(l)
    ensures Orderly(l')
  {
  }

  /** Withdrawing an armed request while nothing waits leaves no request behind an idle slot. */
  lemma AbandonUnqueued(l: Ledger, addr: Addr)
    requires Orderly(l) && l.queued == []
    ensures Orderly(Abandon(l, addr))
  {
  }

  lemma {:induction false} ArmQueuedInv(d: Debugger, w: World, count: nat)
    requires SessionInv(w) && UndisruptedOrder(w)
    ensures SessionInv(ArmQueued(d, w, count)) && UndisruptedOrder(ArmQueued(d, w, count))
    decreases count
  {
    hide LedgerInv, PromoteAndArm, InRequestOrder;
    var free := FreeSlot(w.ledger);
    if count > 0 && free.Some? && w.ledger.queued != [] {
      PromoteInv(d, w, free.value);
      PromoteOrder(d, w, free.value);
      var (w', promotion) := PromoteAndArm(d, w, free);
      if promotion.Promoted? { ArmQueuedInv(d, w', count - 1); }
    }
  }

  lemma ClearOneInv(d: Debugger, w: World, addr: Addr)
    requires SessionInv(w) && UndisruptedOrder(w)
    ensures var w' := ClearOne(d, w, addr).0; SessionInv(w') && UndisruptedOrder(w')
  {
    hide LedgerInv, Disarm, PromoteAndArm, Orderly, InRequestOrder, OnlyFree;
    var (l, phase, freed) := Drop(w.ledger, addr);
    if phase.Some? {
      var dropped := w.(ledger := l);
      DropInv(w.ledger, addr);
      DroppedOrder(w, addr);
      if phase == Some(Armed) { DisarmInv(d, dropped, addr); }
      var (w', outcome) := if phase == Some(Armed) then Disarm(d, dropped, addr) else (dropped, Done);
      if outcome != Raised {
        var note := WatchLedger.Note.Dropped(addr, phase.value, outcome == Done);
        NotedInv(w', note);
        var noted := Noted(w', note);
        if freed.Some? {
          assert !w.disrupted ==> InRequestOrder(noted.ledger) && OnlyFree(noted.ledger, freed.value) by {
            if !w.disrupted { OnlyFreeMoves(l, noted.ledger, freed.value); }
          }
          PromoteInv(d, noted, freed.value);
          PromoteOrder(d, noted, freed.value);
        } else if Orderly(l) {
          OrderMoves(l, noted.ledger);
        }
      }
    }
  }

  lemma OnlyFreeMoves(l: Ledger, l': Ledger, s: nat)
    requires SameOrder(l, l') && InRequestOrder(l) && OnlyFree(l, s)
    ensures InRequestOrder(l') && OnlyFree(l', s)
  {
  }

  lemma DroppedOrder(w: World, addr: Addr)
    requires SessionInv(w)
    ensures var (l, phase, freed) := Drop(w.ledger, addr);
      && LiveTracked(w.(ledger := l)) && SameAccounts(w, w.(ledger := l))
      && (phase == Some(Armed) ==> addr !in Addrs(l.armed) && freed.Some?)
      && (freed.Some? ==> freed !in Slots(l.armed) && freed.value < l.slotCount)
      && (Orderly(w.ledger) && phase.Some? ==>
            if freed.None? then Orderly(l) else InRequestOrder(l) && OnlyFree(l, freed.value))
  {
    var l := w.ledger;
    if Find(l.queued, addr).Some? {
    } else if Find(l.armed, addr).Some? {
      var i := Find(l.armed, addr).value;
      Removing(l.armed, i, AddrOf);
      Removing(l.armed, i, SlotOf);
      assert l.armed[i] in l.armed;
    }
  }

  lemma {:induction false} ClearInv(d: Debugger, w: World, targets: seq<Addr>)
    requires SessionInv(w) && UndisruptedOrder(w)
    ensures SessionInv(Clear(d, w, targets)) && UndisruptedOrder(Clear(d, w, targets))
    decreases targets
  {
    hide SessionInv, UndisruptedOrder, ClearOne;
    if targets != [] {
      ClearOneInv(d, w, targets[0]);
      var (w', raised) := ClearOne(d, w, targets[0]);
      if !raised { ClearInv(d, w', targets[1..]); }
    }
  }

  lemma ExecuteInv(d: Debugger, w: World, c: Command)
    requires SessionInv(w) && UndisruptedOrder(w)
    ensures SessionInv(Execute(d, w, c)) && UndisruptedOrder(Execute(d, w, c))
  {
    hide SessionInv, UndisruptedOrder, Reconcile, AddWatch, ArmQueued, Clear;
    match c {
      case Watch(spec) => AddWatchInv(d, w, spec); AddWatchOrder(d, w, spec);
      case Look(stop) => ReconcileInv(d, w, stop);
      case ArmHeads(count) => ArmQueuedInv(d, w, if count <= WATCH_QUEUE_LIMIT then count else WATCH_QUEUE_LIMIT);
      case ClearAt(addr) => ClearInv(d, w, [addr]);
      case ClearAll => ClearInv(d, w, AddrsInOrder(w.ledger.queued));
    }
  }

  /** Main result: the ledger invariant, the accounts and the order hold after every session. */
  lemma {:induction false} RunInv(d: Debugger, w: World, commands: seq<Command>)
    requires SessionInv(w) && UndisruptedOrder(w)
    ensures SessionInv(Run(d, w, commands)) && UndisruptedOrder(Run(d, w, commands))
    decreases commands
  {
    hide SessionInv, UndisruptedOrder, Execute;
    if commands != [] {
      ExecuteInv(d, w, commands[0]);
      RunInv(d, Execute(d, w, commands[0]), commands[1..]);
    }
  }

  lemma StartInv(slots: nat, limit: nat)
    ensures SessionInv(Start(slots, limit)) && UndisruptedOrder(Start(slots, limit))
  {
  }
}
