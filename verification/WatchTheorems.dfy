/** What a user of gp-watch and gp-queue may rely on, over whole sessions. */
module WatchTheorems {
  import opened Options
  import Text
  import opened WatchLedger
  import opened WatchLedgerInvariants
  import opened WatchSession
  import opened WatchSessionInvariants

  // ---- Every session ---------------------------------------------------------------------

  /** Slots, addresses, sequence numbers, limits and accounts, after any session at all. */
  lemma EverySession(d: Debugger, slots: nat, limit: nat, commands: seq<Command>)
    ensures SessionInv(Run(d, Start(slots, limit), commands))
    ensures UndisruptedOrder(Run(d, Start(slots, limit), commands))
  {
    StartInv(slots, limit);
    RunInv(d, Start(slots, limit), commands);
  }

  /** A re-armed address starts from zero; a spent request has its own single hit and no more. */
  lemma OneShot(d: Debugger, slots: nat, limit: nat, commands: seq<Command>, e: Entry)
    ensures var l := Run(d, Start(slots, limit), commands).ledger;
      && (e in l.armed || e in l.queued ==> HitCount(l, e) == 0)
      && (e in l.spent ==> HitCount(l, e) == 1)
  {
    EverySession(d, slots, limit, commands);
    var l := Run(d, Start(slots, limit), commands).ledger;
    if e in l.armed || e in l.queued { NotYetHit(l, e); }
    if e in l.spent { MemberImage(l.spent, e, GenerationOf); }
  }

  // ---- Promotion order ---------------------------------------------------------------------

  function StampsInOrder(s: seq<Entry>): seq<nat> { seq(|s|, i requires 0 <= i < |s| => s[i].stamp) }

  /** `n` credited hits took the `n` oldest waiting requests, in order, and no other. */
  ghost predicate Promoted(l: Ledger, l': Ledger, n: nat) {
    var k := if n <= |l.queued| then n else |l.queued|;
    && |l'.spent| == |l.spent| + n
    && l'.queued == l.queued[k..]
    && l'.placed == l.placed + StampsInOrder(l.queued[..k])
  }

  lemma PromotedTwice(l: Ledger, l': Ledger, l'': Ledger, m: nat, n: nat)
    requires Promoted(l, l', m) && Promoted(l', l'', n)
    ensures Promoted(l, l'', m + n)
  {
    hide StampsInOrder;
    var k := if m <= |l.queued| then m else |l.queued|;
    var j := if n <= |l'.queued| then n else |l'.queued|;
    TakenTwice(l.queued, k, j);
    Text.Regroup(l.placed, StampsInOrder(l.queued[..k]), StampsInOrder(l'.queued[..j]));
  }

  lemma PromotedCounts(l: Ledger, l': Ledger, n: nat)
    requires Promoted(l, l', n)
    ensures |l'.spent| == |l.spent| + n
  {
  }

  lemma TakenTwice(q: seq<Entry>, k: nat, j: nat)
    requires k + j <= |q|
    ensures q[k..][j..] == q[k + j..]
    ensures StampsInOrder(q[..k + j]) == StampsInOrder(q[..k]) + StampsInOrder(q[k..][..j])
  {
    assert q[..k + j] == q[..k] + q[k..][..j];
  }

  lemma PromoteTakesHead(d: Debugger, w: World, s: nat)
    requires LedgerInv(w.ledger) && LiveTracked(w) && s < w.ledger.slotCount && Some(s) !in Slots(w.ledger.armed)
    ensures var w' := PromoteAndArm(d, w, Some(s)).0;
      !w'.disrupted ==>
        && w'.ledger.spent == w.ledger.spent
        && w'.ledger.queued == (if w.ledger.queued == [] then [] else w.ledger.queued[1..])
        && w'.ledger.placed == w.ledger.placed + (if w.ledger.queued == [] then [] else [w.ledger.queued[0].stamp])
  {
    hide LedgerInv, Arm;
    TakeSlotInv(w.ledger, s);
    var (l, head) := TakeSlot(w.ledger, Some(s));
    if head.Some? {
      assert head.value in l.armed;
      ArmInv(d, w.(ledger := l), head.value);
    }
  }

  lemma RefillPromotes(d: Debugger, w: World, addr: Addr, s: nat)
    requires SessionInv(w) && addr !in Addrs(w.ledger.armed)
    requires s < w.ledger.slotCount && Some(s) !in Slots(w.ledger.armed)
    ensures var w' := Refill(d, w, addr, Some(s)).0;
      !w'.disrupted ==>
        && w'.ledger.spent == w.ledger.spent
        && w'.ledger.queued == (if w.ledger.queued == [] then [] else w.ledger.queued[1..])
        && w'.ledger.placed == w.ledger.placed + (if w.ledger.queued == [] then [] else [w.ledger.queued[0].stamp])
  {
    hide LedgerInv, PromoteAndArm;
    DisarmInv(d, w, addr);
    var (w', outcome) := Disarm(d, w, addr);
    NotedInv(w', DisableUnconfirmed(addr));
    if outcome != Raised {
      PromoteTakesHead(d, if outcome == Failed then Noted(w', DisableUnconfirmed(addr)) else w', s);
    }
  }

  lemma CreditPromotes(d: Debugger, w: World, addr: Addr)
    requires LedgerInv(w.ledger) && LiveTracked(w) && Accounted(w, 1)
    ensures var w' := Credit(d, w, addr).0;
      !w'.disrupted ==> Promoted(w.ledger, w'.ledger, if Find(w.ledger.armed, addr).Some? then 1 else 0)
  {
    hide LedgerInv, Refill, Disarm;
    if Find(w.ledger.armed, addr).Some? {
      CreditAndReleaseInv(w.ledger, addr);
      Released(w.ledger, addr);
      ReleasedAccounts(w, addr);
      var released := w.(ledger := CreditAndRelease(w.ledger, addr));
      RefillPromotes(d, released, addr, Release(RecordHit(w.ledger, addr).0, addr).1.value);
      CreditAndReleaseEffect(w.ledger, addr);
    } else {
      StrayKeepsSpent(d, w, addr);
    }
  }

  lemma StrayKeepsSpent(d: Debugger, w: World, addr: Addr)
    requires Find(w.ledger.armed, addr).None?
    ensures Promoted(w.ledger, Credit(d, w, addr).0.ledger, 0)
  {
    hide Find, Release, Refill, Lookup, Track;
  }

  lemma RowPromotes(d: Debugger, w: World, stopId: Option<int>, row: Row) returns (n: nat)
    requires SessionInv(w)
    ensures var w' := ReconcileRow(d, w, stopId, row).0;
      (w.disrupted ==> w'.disrupted) && (!w'.disrupted ==> Promoted(w.ledger, w'.ledger, n))
  {
    hide LedgerInv, Credit, Observe, Promoted;
    n := 0;
    PromotedNone(w.ledger, w.ledger);
    if row.StoppedAt? {
      var seen := Observe(w, StopKey(stopId, row.thread, row.watchpoint));
      var addr := AddrForId(d, w.ledger.stops + 1, w.tracked, row.watchpoint);
      ObserveInv(w, StopKey(stopId, row.thread, row.watchpoint));
      ObserveSpends(w, StopKey(stopId, row.thread, row.watchpoint));
      PromotedNone(w.ledger, seen.ledger);
      PromotedNone(w.ledger, Noted(seen, StopMatchesNothing).ledger);
      if addr.Some? && StopKey(stopId, row.thread, row.watchpoint) !in w.reconciled {
        CreditInv(d, seen, addr.value);
        CreditPromotes(d, seen, addr.value);
        n := if Find(seen.ledger.armed, addr.value).Some? then 1 else 0;
        if !Credit(d, seen, addr.value).0.disrupted {
          PromotedTwice(w.ledger, seen.ledger, Credit(d, seen, addr.value).0.ledger, 0, n);
        }
      }
    }
  }

  lemma ObserveSpends(w: World, key: StopKey)
    ensures Observe(w, key).ledger.spent == w.ledger.spent
  {
  }

  lemma PromotedNone(l: Ledger, l': Ledger)
    ensures l'.queued == l.queued && l'.placed == l.placed && l'.spent == l.spent ==> Promoted(l, l', 0)
  {
  }

  /** Main result: unless a promotion failed, a pass arms exactly as many waiting requests as it
      credits hits (as far as there are any), oldest first. */
  lemma {:induction false} HitsPromoteOldest(d: Debugger, w: World, stopId: Option<int>, rows: seq<Row>)
    requires SessionInv(w) && UndisruptedOrder(w)
    ensures var w' := ReconcileRows(d, w, stopId, rows).0;
      && (w.disrupted ==> w'.disrupted)
      && (!w'.disrupted ==> |w'.ledger.spent| >= |w.ledger.spent|
                            && Promoted(w.ledger, w'.ledger, |w'.ledger.spent| - |w.ledger.spent|))
    decreases rows
  {
    hide SessionInv, UndisruptedOrder, ReconcileRow, Promoted;
    if rows == [] {
      PromotedNone(w.ledger, w.ledger);
    } else {
      var (w', aborted) := ReconcileRow(d, w, stopId, rows[0]);
      var n := RowPromotes(d, w, stopId, rows[0]);
      RowInv(d, w, stopId, rows[0]);
      if !w'.disrupted { PromotedCounts(w.ledger, w'.ledger, n); }
      if !aborted {
        HitsPromoteOldest(d, w', stopId, rows[1..]);
        var w'' := ReconcileRows(d, w', stopId, rows[1..]).0;
        if !w''.disrupted { PromotedTwice(w.ledger, w'.ledger, w''.ledger, n, |w''.ledger.spent| - |w'.ledger.spent|); }
      }
    }
  }

  // ---- When nothing is disrupted -------------------------------------------------------------

  /** Every attempt to create a watchpoint succeeds. */
  ghost predicate Arms(d: Debugger) { forall n :: d.arm(n).Created? && d.arm(n).named }

  /** Disabling a watchpoint may fail, but does not raise. */
  ghost predicate Disables(d: Debugger) { forall n :: d.disarm(n) != DisarmRaises }

  /** No attempt to create a watchpoint is refused; one may still raise. */
  ghost predicate Willing(d: Debugger) { forall n :: !d.arm(n).Refused? }

  ghost predicate Steady(d: Debugger) { Willing(d) && Disables(d) }

  ghost predicate Calm(w: World) {
    !w.disrupted && forall e :: e in w.ledger.queued ==> e.mode != Unlisted
  }

  lemma PromoteCalm(d: Debugger, w: World, freed: Option<nat>)
    requires Willing(d) && Calm(w)
    ensures Calm(PromoteAndArm(d, w, freed).0)
  {
  }

  lemma CreditCalm(d: Debugger, w: World, addr: Addr)
    requires Steady(d) && Calm(w)
    ensures Calm(Credit(d, w, addr).0)
  {
    hide Refill;
    var (l, credited) := RecordHit(w.ledger, addr);
    if credited.Some? {
      var (l', freed) := Release(l, addr);
      RefillCalm(d, w.(ledger := l'), addr, freed);
    }
  }

  lemma RefillCalm(d: Debugger, w: World, addr: Addr, freed: Option<nat>)
    requires Steady(d) && Calm(w)
    ensures Calm(Refill(d, w, addr, freed).0)
  {
    hide PromoteAndArm;
    var (w', outcome) := Disarm(d, w, addr);
    PromoteCalm(d, if outcome == Failed then Noted(w', DisableUnconfirmed(addr)) else w', freed);
  }

  lemma ObserveCalm(w: World, key: StopKey)
    requires Calm(w)
    ensures Calm(Observe(w, key)) && Calm(Noted(Observe(w, key), StopMatchesNothing))
  {
  }

  lemma {:induction false} RowsCalm(d: Debugger, w: World, stopId: Option<int>, rows: seq<Row>)
    requires Steady(d) && Calm(w)
    ensures Calm(ReconcileRows(d, w, stopId, rows).0)
    decreases rows
  {
    hide Credit, AddrForId, Observe;
    if rows != [] {
      if rows[0].StoppedAt? {
        var seen := Observe(w, StopKey(stopId, rows[0].thread, rows[0].watchpoint));
        ObserveCalm(w, StopKey(stopId, rows[0].thread, rows[0].watchpoint));
        var addr := AddrForId(d, w.ledger.stops + 1, w.tracked, rows[0].watchpoint);
        if addr.Some? { CreditCalm(d, seen, addr.value); }
      }
      if !ReconcileRow(d, w, stopId, rows[0]).1 {
        RowsCalm(d, ReconcileRow(d, w, stopId, rows[0]).0, stopId, rows[1..]);
      }
    }
  }

  lemma {:induction false} ArmQueuedCalm(d: Debugger, w: World, count: nat)
    requires Willing(d) && Calm(w)
    ensures Calm(ArmQueued(d, w, count))
    decreases count
  {
    hide PromoteAndArm;
    if count > 0 && FreeSlot(w.ledger).Some? && w.ledger.queued != [] {
      PromoteCalm(d, w, FreeSlot(w.ledger));
      var (w', promotion) := PromoteAndArm(d, w, FreeSlot(w.ledger));
      if promotion.Promoted? { ArmQueuedCalm(d, w', count - 1); }
    }
  }

  lemma {:induction false} ClearCalm(d: Debugger, w: World, targets: seq<Addr>)
    requires Steady(d) && Calm(w)
    ensures Calm(Clear(d, w, targets))
    decreases targets
  {
    hide PromoteAndArm;
    if targets != [] {
      var (l, phase, freed) := Drop(w.ledger, targets[0]);
      if phase.Some? {
        var (w', outcome) :=
          if phase == Some(Armed) then Disarm(d, w.(ledger := l), targets[0]) else (w.(ledger := l), Done);
        PromoteCalm(d, Noted(w', Dropped(targets[0], phase.value, outcome == Done)), freed);
      }
      if !ClearOne(d, w, targets[0]).1 { ClearCalm(d, ClearOne(d, w, targets[0]).0, targets[1..]); }
    }
  }

  lemma AddWatchCalm(d: Debugger, w: World, spec: Spec)
    requires Willing(d) && Calm(w) && spec.mode != Unlisted
    ensures Calm(AddWatch(d, w, spec))
  {
  }

  lemma {:induction false} RunCalm(d: Debugger, w: World, commands: seq<Command>)
    requires Steady(d) && Calm(w)
    requires forall c :: c in commands && c.Watch? ==> c.spec.mode != Unlisted
    ensures Calm(Run(d, w, commands))
    decreases commands
  {
    hide ReconcileRows, AddWatch, ArmQueued, Clear;
    if commands != [] {
      match commands[0] {
        case Watch(spec) => AddWatchCalm(d, w, spec);
        case Look(stop) =>
          if stop.At? && stop.rows.Some? {
            var rows := stop.rows.value;
            RowsCalm(d, Warned(w, |rows|), stop.stopId, Walked(rows));
          }
        case ArmHeads(count) => ArmQueuedCalm(d, w, if count <= WATCH_QUEUE_LIMIT then count else WATCH_QUEUE_LIMIT);
        case ClearAt(addr) => ClearCalm(d, w, [addr]);
        case ClearAll => ClearCalm(d, w, AddrsInOrder(w.ledger.queued));
      }
      RunCalm(d, Execute(d, w, commands[0]), commands[1..]);
    }
  }

  /** Main result: where no arming is refused and no disabling raises, no slot ever idles while a request
      waits, and requests take their slots in the order they were made. */
  lemma SteadySessionsAreOrderly(d: Debugger, slots: nat, limit: nat, commands: seq<Command>)
    requires Steady(d)
    requires forall c :: c in commands && c.Watch? ==> c.spec.mode != Unlisted
    ensures var l := Run(d, Start(slots, limit), commands).ledger;
      Orderly(l) && (l.queued != [] ==> |l.armed| == l.slotCount)
  {
    RunCalm(d, Start(slots, limit), commands);
    EverySession(d, slots, limit, commands);
    Capacity(Run(d, Start(slots, limit), commands).ledger);
  }

  /** `gp-queue arm` with a large enough count fills every idle slot that a waiting request can fill. */
  lemma {:induction false} ArmQueuedRefills(d: Debugger, w: World, count: nat)
    requires Arms(d) && Calm(w) && SessionInv(w) && count >= |w.ledger.queued|
    ensures var l := ArmQueued(d, w, count).ledger; l.queued != [] ==> FreeSlot(l).None?
    decreases count
  {
    hide SessionInv, LedgerInv, PromoteAndArm, Arms;
    var free := FreeSlot(w.ledger);
    if free.Some? && w.ledger.queued != [] {
      var (w', promotion) := PromoteAndArm(d, w, free);
      SteadyPromotes(d, w, free.value);
      ArmQueuedRefills(d, w', count - 1);
    }
  }

  lemma SteadyPromotes(d: Debugger, w: World, s: nat)
    requires Arms(d) && Calm(w) && SessionInv(w) && w.ledger.queued != []
    requires s < w.ledger.slotCount && Some(s) !in Slots(w.ledger.armed)
    ensures var (w', promotion) := PromoteAndArm(d, w, Some(s));
      promotion.Promoted? && Calm(w') && SessionInv(w') && w'.ledger.queued == w.ledger.queued[1..]
  {
    PromoteCalm(d, w, Some(s));
    PromoteInv(d, w, s);
    PromoteTakesHead(d, w, s);
    hide LedgerInv;
    assert w.ledger.queued[0] in w.ledger.queued;
  }

  // ---- Looking twice at one stop -------------------------------------------------------------

  /** The rows a pass gets to: everything before the first row that cannot be read. */
  function Readable(rows: seq<Row>): seq<Row> {
    if rows == [] || rows[0].Unreadable? then [] else [rows[0]] + Readable(rows[1..])
  }

  function KeyOf(stopId: Option<int>, row: Row): set<StopKey> {
    if row.StoppedAt? then {StopKey(stopId, row.thread, row.watchpoint)} else {}
  }

  function StopKeys(stopId: Option<int>, rows: seq<Row>): set<StopKey> {
    if rows == [] then {} else KeyOf(stopId, rows[0]) + StopKeys(stopId, rows[1..])
  }

  lemma CreditKeepsBook(d: Debugger, w: World, addr: Addr)
    ensures var w' := Credit(d, w, addr).0; w'.reconciled == w.reconciled && w'.ledger.stops == w.ledger.stops
  {
    hide RecordHit, Release, Disarm, PromoteAndArm;
    var l := Release(RecordHit(w.ledger, addr).0, addr);
    CreditingKeepsStops(w.ledger, addr);
    CreditingKeepsStops(RecordHit(w.ledger, addr).0, addr);
    DisarmKeepsBook(d, w.(ledger := RecordHit(w.ledger, addr).0), addr);
    DisarmKeepsBook(d, w.(ledger := l.0), addr);
    var (w', outcome) := Disarm(d, w.(ledger := l.0), addr);
    PromoteKeepsBook(d, if outcome == Failed then Noted(w', DisableUnconfirmed(addr)) else w', l.1);
  }

  lemma DisarmKeepsBook(d: Debugger, w: World, addr: Addr)
    ensures Disarm(d, w, addr).0.reconciled == w.reconciled && Disarm(d, w, addr).0.ledger == w.ledger
  {
  }

  lemma CreditingKeepsStops(l: Ledger, addr: Addr)
    ensures RecordHit(l, addr).0.stops == l.stops && Release(l, addr).0.stops == l.stops
  {
  }

  lemma ArmingKeepsStops(l: Ledger, addr: Addr, freed: Option<nat>)
    ensures TakeSlot(l, freed).0.stops == l.stops && Abandon(l, addr).stops == l.stops
      && MarkLive(l, addr).stops == l.stops
  {
  }

  lemma PromoteKeepsBook(d: Debugger, w: World, freed: Option<nat>)
    ensures var w' := PromoteAndArm(d, w, freed).0; w'.reconciled == w.reconciled && w'.ledger.stops == w.ledger.stops
  {
    hide TakeSlot, MarkLive, Abandon, Track;
    var (l, head) := TakeSlot(w.ledger, freed);
    if head.Some? {
      ArmingKeepsStops(w.ledger, head.value.addr, freed);
      ArmingKeepsStops(l, head.value.addr, freed);
      ArmingKeepsStops(Arm(d, w.(ledger := l), head.value).0.ledger, head.value.addr, freed);
    } else {
      ArmingKeepsStops(w.ledger, 0, freed);
    }
  }

  /** A row's key stays in the book, which is not emptied while it has room for it. */
  lemma RowRemembers(d: Debugger, w: World, stopId: Option<int>, row: Row)
    requires |w.reconciled + KeyOf(stopId, row)| <= RECONCILED_STOPS_LIMIT
    ensures ReconcileRow(d, w, stopId, row).0.reconciled == w.reconciled + KeyOf(stopId, row)
    ensures row.Unreadable? ==> ReconcileRow(d, w, stopId, row) == (w, true)
  {
    hide Credit;
    if row.StoppedAt? {
      var key := StopKey(stopId, row.thread, row.watchpoint);
      if key in w.reconciled {
        assert w.reconciled + {key} == w.reconciled;
      } else {
        assert |w.reconciled + {key}| == |w.reconciled| + 1;
        var addr := AddrForId(d, w.ledger.stops + 1, w.tracked, row.watchpoint);
        if addr.Some? { CreditKeepsBook(d, Observe(w, key), addr.value); }
      }
    }
  }

  /** The rows a pass comes to: all of them, or up to the one at which an exception ends it. */
  function Reached(d: Debugger, w: World, stopId: Option<int>, rows: seq<Row>): seq<Row>
    decreases rows
  {
    if rows == [] then []
    else
      var (w', aborted) := ReconcileRow(d, w, stopId, rows[0]);
      if aborted then [rows[0]] else [rows[0]] + Reached(d, w', stopId, rows[1..])
  }

  /** With room in the book, a pass enters exactly the rows it comes to. */
  lemma {:induction false} RowsRemember(d: Debugger, w: World, stopId: Option<int>, rows: seq<Row>)
    requires |w.reconciled + StopKeys(stopId, rows)| <= RECONCILED_STOPS_LIMIT
    ensures ReconcileRows(d, w, stopId, rows).0.reconciled
      == w.reconciled + StopKeys(stopId, Reached(d, w, stopId, rows))
    decreases rows
  {
    hide ReconcileRow, KeyOf;
    if rows == [] {
      assert w.reconciled + {} == w.reconciled;
    } else {
      var row, rest := rows[0], rows[1..];
      var (w', aborted) := ReconcileRow(d, w, stopId, row);
      SubsetSize(w.reconciled + KeyOf(stopId, row), w.reconciled + StopKeys(stopId, rows));
      RowRemembers(d, w, stopId, row);
      if aborted {
        assert StopKeys(stopId, [row]) == KeyOf(stopId, row) by { assert [row][1..] == []; }
      } else {
        assert w'.reconciled + StopKeys(stopId, rest) == w.reconciled + StopKeys(stopId, rows);
        var reached := Reached(d, w', stopId, rest);
        assert ([row] + reached)[1..] == reached;
        RowsRemember(d, w', stopId, rest);
      }
    }
  }

  /** A pass over the readable rows that nothing breaks off comes to all of them. */
  lemma {:induction false} UnbrokenReaches(d: Debugger, w: World, stopId: Option<int>, rows: seq<Row>)
    requires !ReconcileRows(d, w, stopId, Readable(rows)).1
    ensures StopKeys(stopId, Readable(rows)) <= StopKeys(stopId, Reached(d, w, stopId, rows))
    decreases rows
  {
    hide ReconcileRow, KeyOf;
    if rows != [] && !rows[0].Unreadable? {
      var (w', aborted) := ReconcileRow(d, w, stopId, rows[0]);
      var readable, reached := Readable(rows[1..]), Reached(d, w', stopId, rows[1..]);
      assert Readable(rows)[1..] == readable;
      UnbrokenReaches(d, w', stopId, rows[1..]);
      assert ([rows[0]] + reached)[1..] == reached;
    }
  }

  /** Rows already in the book change nothing. */
  lemma {:induction false} RowsSkipped(d: Debugger, w: World, stopId: Option<int>, rows: seq<Row>)
    requires StopKeys(stopId, Readable(rows)) <= w.reconciled
    ensures ReconcileRows(d, w, stopId, rows) == (w, Readable(rows) != rows)
    decreases rows
  {
    if rows != [] && !rows[0].Unreadable? {
      assert Readable(rows)[1..] == Readable(rows[1..]);
      RowsSkipped(d, w, stopId, rows[1..]);
    }
  }

  lemma {:induction false} StopsOnlyGrow(d: Debugger, w: World, stopId: Option<int>, rows: seq<Row>)
    ensures ReconcileRows(d, w, stopId, rows).0.ledger.stops >= w.ledger.stops
    decreases rows
  {
    hide ReconcileRow;
    if rows != [] {
      RowStops(d, w, stopId, rows[0]);
      var (w', aborted) := ReconcileRow(d, w, stopId, rows[0]);
      if !aborted { StopsOnlyGrow(d, w', stopId, rows[1..]); }
    }
  }

  lemma ObservedOnce(w: World, key: StopKey)
    ensures Observe(w, key).ledger.stops == w.ledger.stops + 1
  {
  }

  /** A row is counted exactly when it is a watchpoint stop that is not in the book. */
  lemma RowStops(d: Debugger, w: World, stopId: Option<int>, row: Row)
    ensures ReconcileRow(d, w, stopId, row).0.ledger.stops
      == w.ledger.stops + if KeyOf(stopId, row) <= w.reconciled then 0 else 1
    ensures KeyOf(stopId, row) <= w.reconciled ==> ReconcileRow(d, w, stopId, row) == (w, row.Unreadable?)
  {
    hide Credit, AddrForId, Observe;
    if row.StoppedAt? { ObservedOnce(w, StopKey(stopId, row.thread, row.watchpoint)); }
    if row.StoppedAt? {
      var addr := AddrForId(d, w.ledger.stops + 1, w.tracked, row.watchpoint);
      if addr.Some? { CreditKeepsBook(d, Observe(w, StopKey(stopId, row.thread, row.watchpoint)), addr.value); }
    }
  }

  /** A row that is not in the book when a pass gets to it moves the count. */
  lemma {:induction false} RowsCounted(d: Debugger, w: World, stopId: Option<int>, rows: seq<Row>)
    requires !(StopKeys(stopId, Readable(rows)) <= w.reconciled)
    ensures ReconcileRows(d, w, stopId, rows).0.ledger.stops > w.ledger.stops
    decreases rows
  {
    hide ReconcileRow, KeyOf;
    RowStops(d, w, stopId, rows[0]);
    var (w', aborted) := ReconcileRow(d, w, stopId, rows[0]);
    if KeyOf(stopId, rows[0]) <= w.reconciled {
      assert Readable(rows)[1..] == Readable(rows[1..]);
      RowsCounted(d, w, stopId, rows[1..]);
    } else if !aborted {
      StopsOnlyGrow(d, w', stopId, rows[1..]);
    }
  }

  /** Looking at a stop changes nothing but caveats exactly when every row the pass can read is in the
      book already. */
  lemma LookChangesNothingExactly(d: Debugger, w: World, stop: Stop)
    ensures var w' := Reconcile(d, w, stop);
      w' == w.(ledger := w.ledger.(notes := w'.ledger.notes, notesDropped := w'.ledger.notesDropped))
      <==> (stop.At? && stop.rows.Some? ==> StopKeys(stop.stopId, Readable(Walked(stop.rows.value))) <= w.reconciled)
  {
    hide ReconcileRow, ReconcileRows, StopKeys, Readable;
    if stop.At? && stop.rows.Some? {
      var rows, warned := Walked(stop.rows.value), Warned(w, |stop.rows.value|);
      if StopKeys(stop.stopId, Readable(rows)) <= w.reconciled {
        RowsSkipped(d, warned, stop.stopId, rows);
      } else {
        RowsCounted(d, warned, stop.stopId, rows);
      }
    }
  }

  /** Main result: with room in the book, a second look at a stop changes nothing but caveats exactly when
      every row it can read was in the book, or belongs to a row the first look came to; so always, if nothing
      broke the first look off before the last of them. */
  lemma ReconcileTwice(d: Debugger, w: World, stop: Stop)
    requires stop.At? && stop.rows.Some? ==>
      |w.reconciled + StopKeys(stop.stopId, Walked(stop.rows.value))| <= RECONCILED_STOPS_LIMIT
    ensures var first := Reconcile(d, w, stop); var second := Reconcile(d, first, stop);
      second == first.(ledger := first.ledger.(notes := second.ledger.notes,
                                               notesDropped := second.ledger.notesDropped))
      <==> (stop.At? && stop.rows.Some? ==>
              var rows, warned := Walked(stop.rows.value), Warned(w, |stop.rows.value|);
              StopKeys(stop.stopId, Readable(rows))
              <= w.reconciled + StopKeys(stop.stopId, Reached(d, warned, stop.stopId, rows)))
    ensures stop.At? && stop.rows.Some? ==>
      var rows, warned := Walked(stop.rows.value), Warned(w, |stop.rows.value|);
      !ReconcileRows(d, warned, stop.stopId, Readable(rows)).1 ==>
        StopKeys(stop.stopId, Readable(rows)) <= StopKeys(stop.stopId, Reached(d, warned, stop.stopId, rows))
  {
    hide ReconcileRow, ReconcileRows, StopKeys, Readable, Reached;
    if stop.At? && stop.rows.Some? {
      var rows, warned := Walked(stop.rows.value), Warned(w, |stop.rows.value|);
      RowsRemember(d, warned, stop.stopId, rows);
      if !ReconcileRows(d, warned, stop.stopId, Readable(rows)).1 { UnbrokenReaches(d, warned, stop.stopId, rows); }
    }
    LookChangesNothingExactly(d, Reconcile(d, w, stop), stop);
  }

  // ---- Limits of these results ---------------------------------------------------------------

  /** Taken alone, arming the head into a slot somebody holds puts two requests on that slot. */
  lemma TakeSlotAloneSharesASlot()
    ensures var held := Entry(16, Write, 1, Armed, Some(0), true);
      var waiting := Entry(32, Write, 2, Queued, None, false);
      var l := Fresh(1, 64).(armed := [held], queued := [waiting], lastStamp := 2, placed := [1]);
      LedgerInv(l) && !SlotsOk(TakeSlot(l, Some(0)).0)
  {
    var held := Entry(16, Write, 1, Armed, Some(0), true);
    var waiting := Entry(32, Write, 2, Queued, None, false);
    var l := Fresh(1, 64).(armed := [held], queued := [waiting], lastStamp := 2, placed := [1]);
    assert UpTo(2) == {1, 2};
    assert Stamps(l.armed) == {1} && Stamps(l.queued) == {2} && Addrs(l.armed) == {16} && Addrs(l.queued) == {32} by {
      assert l.armed[0] == held && l.queued[0] == waiting;
    }
    var l' := TakeSlot(l, Some(0)).0;
    assert l'.armed[0].slot == l'.armed[1].slot;
  }

  /** With a full book, a new stop in the row behind a counted one makes the counted one count again. */
  lemma FullBookCountsAgain(d: Debugger, w: World, stopId: Option<int>, counted: Row, later: Row)
    requires counted.StoppedAt? && later.StoppedAt? && |w.reconciled| >= RECONCILED_STOPS_LIMIT
    requires KeyOf(stopId, counted) <= w.reconciled && !(KeyOf(stopId, later) <= w.reconciled)
    requires AddrForId(d, w.ledger.stops + 1, w.tracked, later.watchpoint).None?
    ensures var stop := At(stopId, Some([counted, later])); var first := Reconcile(d, w, stop);
      first.ledger.stops == w.ledger.stops + 1 && Reconcile(d, first, stop).ledger.stops > first.ledger.stops
  {
    hide ReconcileRow;
    var stop, rows := At(stopId, Some([counted, later])), [counted, later];
    assert rows[1..] == [later] && rows[1..][1..] == [];
    RowStops(d, w, stopId, counted);
    RowStops(d, w, stopId, later);
    BookEmptied(d, w, stopId, later);
    var first := Reconcile(d, w, stop);
    var (w', _) := ReconcileRow(d, w, stopId, later);
    assert ReconcileRows(d, w', stopId, []) == (w', false);
    assert ReconcileRows(d, w, stopId, [later]) == (w', false);
    assert ReconcileRows(d, w, stopId, rows) == (w', false);
    assert Readable(rows)[0] == counted;
    RowsCounted(d, first, stopId, rows);
  }

  lemma BookEmptied(d: Debugger, w: World, stopId: Option<int>, row: Row)
    requires row.StoppedAt? && |w.reconciled| >= RECONCILED_STOPS_LIMIT && !(KeyOf(stopId, row) <= w.reconciled)
    requires AddrForId(d, w.ledger.stops + 1, w.tracked, row.watchpoint).None?
    ensures ReconcileRow(d, w, stopId, row).0.reconciled == KeyOf(stopId, row) && !ReconcileRow(d, w, stopId, row).1
  {
  }

  /** A disable call that raises ends the first look; the row behind it is counted by the second. */
  lemma BrokenLookCountsLater(d: Debugger, w: World, stopId: Option<int>, fired: Row, later: Row)
    requires fired.StoppedAt? && later.StoppedAt? && |w.reconciled| + 2 <= RECONCILED_STOPS_LIMIT
    requires !(KeyOf(stopId, fired) <= w.reconciled) && !(KeyOf(stopId, later) <= w.reconciled + KeyOf(stopId, fired))
    requires AddrForId(d, w.ledger.stops + 1, w.tracked, fired.watchpoint).Some?
    requires d.disarm(w.disarmCalls).DisarmRaises?
    ensures var stop := At(stopId, Some([fired, later])); var first := Reconcile(d, w, stop);
      first.ledger.stops == w.ledger.stops + 1 && Reconcile(d, first, stop).ledger.stops > first.ledger.stops
  {
    hide ReconcileRow;
    var stop, rows := At(stopId, Some([fired, later])), [fired, later];
    FiredRowAborts(d, w, stopId, fired);
    RowStops(d, w, stopId, fired);
    RowRemembers(d, w, stopId, fired);
    var first := Reconcile(d, w, stop);
    assert Readable(rows) == rows by { assert rows[1..] == [later] && Readable([later]) == [later]; }
    assert rows[1..][0] == later && KeyOf(stopId, later) <= StopKeys(stopId, rows[1..]) <= StopKeys(stopId, rows);
    RowsCounted(d, first, stopId, rows);
  }

  lemma FiredRowAborts(d: Debugger, w: World, stopId: Option<int>, row: Row)
    requires row.StoppedAt? && !(KeyOf(stopId, row) <= w.reconciled)
    requires AddrForId(d, w.ledger.stops + 1, w.tracked, row.watchpoint).Some? && d.disarm(w.disarmCalls).DisarmRaises?
    ensures ReconcileRow(d, w, stopId, row).1
  {
    hide AddrForId, RecordHit, Release, PromoteAndArm;
  }
}
