/** Where the debugger's handles go: which of them can still be disabled. */
module WatchHandles {
  import opened Options
  import opened WatchLedger
  import opened WatchSession

  /** A held handle is lost without a disable call exactly when arming its address brings another one. */
  lemma HandleLostExactly(d: Debugger, w: World, e: Entry, h: Handle)
    requires e.mode != Unlisted && Lookup(w.tracked, e.addr) == Some(h)
    ensures var w' := Arm(d, w, e).0;
      && w'.disarmCalls == w.disarmCalls
      && (Lookup(w'.tracked, e.addr) != Some(h) <==> d.arm(w.armCalls).Created? && d.arm(w.armCalls).handle != h)
      && (w'.replaced > w.replaced <==> d.arm(w.armCalls).Created?)
  {
    hide MarkLive;
  }

  // ---- Over whole sessions -----------------------------------------------------------------------------

  /** How many of the first `n` arming calls handed out a handle. */
  function Handed(d: Debugger, n: nat): nat {
    if n == 0 then 0 else Handed(d, n - 1) + if d.arm(n - 1).Created? then 1 else 0
  }

  /** How many of the first `n` disable calls were confirmed. */
  function Confirmed(d: Debugger, n: nat): nat {
    if n == 0 then 0 else Confirmed(d, n - 1) + if d.disarm(n - 1).Disabled? then 1 else 0
  }

  /** Every handle handed out is still held, was confirmed disabled, or was overwritten. */
  ghost predicate HandlesKept(d: Debugger, w: World) {
    Handed(d, w.armCalls) == |Keys(w.tracked)| + Confirmed(d, w.disarmCalls) + w.replaced
  }

  lemma ArmKeeps(d: Debugger, w: World, e: Entry)
    requires HandlesKept(d, w)
    ensures HandlesKept(d, Arm(d, w, e).0)
  {
    hide MarkLive, Track;
    if e.mode != Unlisted && d.arm(w.armCalls).Created? {
      assert e.addr in Keys(w.tracked) ==> Keys(w.tracked) + {e.addr} == Keys(w.tracked);
    }
  }

  lemma DisarmKeeps(d: Debugger, w: World, addr: Addr)
    requires HandlesKept(d, w)
    ensures HandlesKept(d, Disarm(d, w, addr).0)
  {
    hide Untrack, Lookup;
  }

  lemma PromoteKeeps(d: Debugger, w: World, freed: Option<nat>)
    requires HandlesKept(d, w)
    ensures HandlesKept(d, PromoteAndArm(d, w, freed).0)
  {
    hide Arm, TakeSlot, Abandon;
    var (l, head) := TakeSlot(w.ledger, freed);
    if head.Some? { ArmKeeps(d, w.(ledger := l), head.value); }
  }

  lemma RefillKeeps(d: Debugger, w: World, addr: Addr, freed: Option<nat>)
    requires HandlesKept(d, w)
    ensures HandlesKept(d, Refill(d, w, addr, freed).0)
  {
    hide Disarm, PromoteAndArm, AddNote;
    DisarmKeeps(d, w, addr);
    var (w', outcome) := Disarm(d, w, addr);
    PromoteKeeps(d, if outcome == Failed then Noted(w', DisableUnconfirmed(addr)) else w', freed);
  }

  lemma CreditKeeps(d: Debugger, w: World, addr: Addr)
    requires HandlesKept(d, w)
    ensures HandlesKept(d, Credit(d, w, addr).0)
  {
    hide RecordHit, Release, Disarm, Refill, AddNote;
    var (l, credited) := RecordHit(w.ledger, addr);
    DisarmKeeps(d, w.(ledger := l), addr);
    RefillKeeps(d, w.(ledger := Release(l, addr).0), addr, Release(l, addr).1);
  }

  lemma ObserveKeeps(d: Debugger, w: World, key: StopKey)
    requires HandlesKept(d, w)
    ensures HandlesKept(d, Observe(w, key))
  {
  }

  lemma {:induction false} RowsKeep(d: Debugger, w: World, stopId: Option<int>, rows: seq<Row>)
    requires HandlesKept(d, w)
    ensures HandlesKept(d, ReconcileRows(d, w, stopId, rows).0)
    decreases rows
  {
    hide Credit, AddrForId, Observe;
    if rows != [] {
      if rows[0].StoppedAt? {
        ObserveKeeps(d, w, StopKey(stopId, rows[0].thread, rows[0].watchpoint));
        var addr := AddrForId(d, w.ledger.stops + 1, w.tracked, rows[0].watchpoint);
        if addr.Some? { CreditKeeps(d, Observe(w, StopKey(stopId, rows[0].thread, rows[0].watchpoint)), addr.value); }
      }
      if !ReconcileRow(d, w, stopId, rows[0]).1 {
        RowsKeep(d, ReconcileRow(d, w, stopId, rows[0]).0, stopId, rows[1..]);
      }
    }
  }

  lemma AddWatchKeeps(d: Debugger, w: World, spec: Spec)
    requires HandlesKept(d, w)
    ensures HandlesKept(d, AddWatch(d, w, spec))
  {
    hide Arm, Abandon;
    var (l, outcome) := Add(w.ledger, spec);
    if outcome.ArmedIn? {
      assert l.armed[|w.ledger.armed|].addr == spec.addr.value;
      ArmKeeps(d, w.(ledger := l), l.armed[Find(l.armed, spec.addr.value).value]);
    }
  }

  lemma {:induction false} ArmQueuedKeeps(d: Debugger, w: World, count: nat)
    requires HandlesKept(d, w)
    ensures HandlesKept(d, ArmQueued(d, w, count))
    decreases count
  {
    hide PromoteAndArm;
    if count > 0 && FreeSlot(w.ledger).Some? && w.ledger.queued != [] {
      PromoteKeeps(d, w, FreeSlot(w.ledger));
      var (w', promotion) := PromoteAndArm(d, w, FreeSlot(w.ledger));
      if promotion.Promoted? { ArmQueuedKeeps(d, w', count - 1); }
    }
  }

  lemma ClearOneKeeps(d: Debugger, w: World, addr: Addr)
    requires HandlesKept(d, w)
    ensures HandlesKept(d, ClearOne(d, w, addr).0)
  {
    hide Drop, Disarm, PromoteAndArm, AddNote;
    var (l, phase, freed) := Drop(w.ledger, addr);
    var dropped := w.(ledger := l);
    DisarmKeeps(d, dropped, addr);
    if phase.Some? {
      var (w', outcome) := if phase == Some(Armed) then Disarm(d, dropped, addr) else (dropped, Done);
      PromoteKeeps(d, Noted(w', WatchLedger.Note.Dropped(addr, phase.value, outcome == Done)), freed);
    }
  }

  lemma {:induction false} ClearKeeps(d: Debugger, w: World, targets: seq<Addr>)
    requires HandlesKept(d, w)
    ensures HandlesKept(d, Clear(d, w, targets))
    decreases targets
  {
    hide ClearOne;
    if targets != [] {
      ClearOneKeeps(d, w, targets[0]);
      var (w', raised) := ClearOne(d, w, targets[0]);
      if !raised { ClearKeeps(d, w', targets[1..]); }
    }
  }

  lemma LookKeeps(d: Debugger, w: World, stop: Stop)
    requires HandlesKept(d, w)
    ensures HandlesKept(d, Reconcile(d, w, stop))
  {
    hide ReconcileRows, AddNote;
    if stop.At? && stop.rows.Some? {
      var rows := stop.rows.value;
      RowsKeep(d, Warned(w, |rows|), stop.stopId, Walked(rows));
    }
  }

  lemma {:induction false} RunKeeps(d: Debugger, w: World, commands: seq<Command>)
    requires HandlesKept(d, w)
    ensures HandlesKept(d, Run(d, w, commands))
    decreases commands
  {
    hide Reconcile, AddWatch, ArmQueued, Clear;
    if commands != [] {
      match commands[0] {
        case Watch(spec) => AddWatchKeeps(d, w, spec);
        case Look(stop) => LookKeeps(d, w, stop);
        case ArmHeads(count) => ArmQueuedKeeps(d, w, if count <= WATCH_QUEUE_LIMIT then count else WATCH_QUEUE_LIMIT);
        case ClearAt(addr) => ClearKeeps(d, w, [addr]);
        case ClearAll => ClearKeeps(d, w, AddrsInOrder(w.ledger.queued));
      }
      RunKeeps(d, Execute(d, w, commands[0]), commands[1..]);
    }
  }

  /** Main result: after any session, as many handles are held as were handed out and not confirmed disabled,
      if and only if no request was armed at an address whose handle was still held. */
  lemma EveryHandle(d: Debugger, slots: nat, limit: nat, commands: seq<Command>)
    ensures var w := Run(d, Start(slots, limit), commands);
      && Handed(d, w.armCalls) == |Keys(w.tracked)| + Confirmed(d, w.disarmCalls) + w.replaced
      && (|Keys(w.tracked)| == Handed(d, w.armCalls) - Confirmed(d, w.disarmCalls) <==> w.replaced == 0)
  {
    hide Run;
    assert HandlesKept(d, Start(slots, limit));
    RunKeeps(d, Start(slots, limit), commands);
  }
}
