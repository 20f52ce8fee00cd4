/** The drivers: one ledger object, one table of handles, one debugger, and the loops over them. */
module WatchBridges {
  import opened Options
  import L = WatchLedger
  import opened WatchSession
  import opened WatchSessionInvariants
  import opened WatchQueues

  class WatchBridge {
    const queue: WatchQueue
    const debugger: Debugger
    var tracked: Tracked
    var reconciled: set<StopKey>
    var armCalls: nat
    var disarmCalls: nat
    ghost var unmatched: nat
    ghost var disrupted: bool
    ghost var replaced: nat

    ghost function World(): World
      reads this, queue
    {
      WatchSession.World(queue.Ledger(), tracked, reconciled, armCalls, disarmCalls, unmatched, disrupted, replaced)
    }

    constructor (debugger: Debugger)
      ensures World() == Start(L.HW_WATCHPOINT_SLOTS, L.WATCH_QUEUE_LIMIT) && this.debugger == debugger
      ensures fresh(queue)
    {
      queue := new WatchQueue();
      this.debugger := debugger;
      tracked, reconciled, armCalls, disarmCalls := [], {}, 0, 0;
      unmatched, disrupted, replaced := 0, false, 0;
    }

    method ArmWatchpoint(e: L.Entry) returns (outcome: Outcome)
      modifies this, queue
      ensures (World(), outcome) == Arm(debugger, old(World()), e)
    {
      if e.mode == L.Unlisted {
        return Failed;
      }
      var answer := debugger.arm(armCalls);
      armCalls := armCalls + 1;
      match answer {
        case Refused => outcome := Failed;
        case ArmRaises => outcome := Raised;
        case Created(handle, named) =>
          replaced := replaced + if Lookup(tracked, e.addr).Some? then 1 else 0;
          tracked := Track(tracked, e.addr, handle);
          queue.MarkLive(e.addr);
          outcome := if named then Done else Raised;
      }
    }

    method DisarmWatchpoint(addr: L.Addr) returns (outcome: Outcome)
      modifies this
      ensures (World(), outcome) == Disarm(debugger, old(World()), addr)
    {
      if Lookup(tracked, addr).None? {
        return Failed;
      }
      var answer := debugger.disarm(disarmCalls);
      disarmCalls := disarmCalls + 1;
      match answer {
        case Disabled => tracked := Untrack(tracked, addr); outcome := Done;
        case StillEnabled => outcome := Failed;
        case DisarmRaises => outcome := Raised;
      }
    }

    method PromoteAndArmInto(freed: Option<nat>) returns (promotion: Promotion)
      modifies this, queue
      ensures (World(), promotion) == PromoteAndArm(debugger, old(World()), freed)
    {
      var head := queue.TakeSlot(freed);
      if head.None? {
        return NothingQueued;
      }
      var outcome := ArmWatchpoint(head.value);
      match outcome {
        case Done => promotion := Promoted(head.value);
        case Failed =>
          queue.Abandon(head.value.addr);
          disrupted := true;
          promotion := PromotionFailed;
        case Raised => promotion := PromotionRaised;
      }
    }

    method CreditStop(addr: L.Addr) returns (aborted: bool)
      modifies this, queue
      ensures (World(), aborted) == Credit(debugger, old(World()), addr)
    {
      var credited := queue.RecordHit(addr);
      if credited.None? {
        var outcome := DisarmWatchpoint(addr);
        if outcome == Failed {
          queue.Note(L.DisableUnconfirmed(addr));
        }
        return outcome == Raised;
      }
      var freed := queue.Release(addr);
      var outcome := DisarmWatchpoint(addr);
      if outcome == Raised {
        disrupted := true;
        return true;
      }
      if outcome == Failed {
        queue.Note(L.DisableUnconfirmed(addr));
      }
      var promotion := PromoteAndArmInto(freed);
      aborted := promotion == PromotionRaised;
    }

    method ObserveStop(key: StopKey)
      modifies this, queue
      ensures World() == Observe(old(World()), key)
      ensures queue.stopsObserved == old(queue.stopsObserved) + 1
    {
      hide L.AddNote;
      if |reconciled| >= RECONCILED_STOPS_LIMIT {
        reconciled := {};
        queue.Note(L.BookkeepingReset);
      }
      reconciled := reconciled + {key};
      queue.NoteStopObserved();
    }

    method ReconcileThread(stopId: Option<int>, row: Row) returns (aborted: bool)
      modifies this, queue
      ensures (World(), aborted) == ReconcileRow(debugger, old(World()), stopId, row)
    {
      hide Credit, AddrForId, L.AddNote, Observe;
      match row {
        case OtherStop => return false;
        case Unreadable => return true;
        case StoppedAt(thread, watchpoint) =>
          var key := StopKey(stopId, thread, watchpoint);
          if key in reconciled {
            return false;
          }
          ObserveStop(key);
          ObserveKeepsHandles(old(World()), key);
          var addr := AddrForId(debugger, queue.stopsObserved, tracked, watchpoint);
          if addr.None? {
            queue.Note(L.StopMatchesNothing);
            unmatched := unmatched + 1;
            return false;
          }
          aborted := CreditStop(addr.value);
      }
    }

    method ReconcileStops(stop: Stop)
      modifies this, queue
      ensures World() == Reconcile(debugger, old(World()), stop)
    {
      match stop {
        case NoProcess =>
        case Raising => queue.Note(L.Aborted);
        case At(stopId, None) => queue.Note(L.ThreadCountUnread);
        case At(stopId, Some(rows)) =>
          if |rows| > MAX_THREADS {
            queue.Note(L.ThreadsPastCap(|rows|));
          }
          ghost var start := World();
          var walked := Walked(rows);
          assert walked[0..] == walked;
          for index := 0 to |walked|
            invariant ReconcileRows(debugger, start, stopId, walked)
              == ReconcileRows(debugger, World(), stopId, walked[index..])
          {
            var aborted := ReconcileThread(stopId, walked[index]);
            assert walked[index..][1..] == walked[index + 1..];
            if aborted {
              queue.Note(L.Aborted);
              return;
            }
          }
      }
    }

    method GpWatchAdd(spec: L.Spec)
      modifies this, queue
      ensures World() == AddWatch(debugger, old(World()), spec)
    {
      var outcome := queue.Add(spec);
      if outcome.ArmedIn? {
        var index := IndexOf(queue.armed, spec.addr.value);
        assert queue.armed[|queue.armed| - 1].addr == spec.addr.value;
        var armed := ArmWatchpoint(queue.armed[index.value]);
        if armed == Failed {
          queue.Abandon(spec.addr.value);
        }
      }
    }

    method GpQueueArm(count: nat)
      modifies this, queue
      ensures World() ==
        ArmQueued(debugger, old(World()), if count <= L.WATCH_QUEUE_LIMIT then count else L.WATCH_QUEUE_LIMIT)
    {
      var tries := if count <= L.WATCH_QUEUE_LIMIT then count else L.WATCH_QUEUE_LIMIT;
      hide PromoteAndArm, L.FreeSlot;
      ghost var start := World();
      for done := 0 to tries
        invariant ArmQueued(debugger, World(), tries - done) == ArmQueued(debugger, start, tries)
      {
        ghost var before := World();
        var free := queue.FreeSlot();
        if free.None? || queue.queued == [] {
          return;
        }
        var promotion := PromoteAndArmInto(free);
        assert (World(), promotion) == PromoteAndArm(debugger, before, free);
        if !promotion.Promoted? {
          return;
        }
      }
    }

    method GpQueueClear(targets: seq<L.Addr>)
      modifies this, queue
      ensures World() == Clear(debugger, old(World()), targets)
    {
      assert targets[0..] == targets;
      for index := 0 to |targets|
        invariant Clear(debugger, old(World()), targets) == Clear(debugger, World(), targets[index..])
      {
        assert targets[index..][1..] == targets[index + 1..];
        var raised := ClearTarget(targets[index]);
        if raised {
          return;
        }
      }
    }

    method ClearTarget(addr: L.Addr) returns (raised: bool)
      modifies this, queue
      ensures (World(), raised) == ClearOne(debugger, old(World()), addr)
    {
      var phase, freed := queue.Drop(addr);
      if phase.None? {
        return false;
      }
      var outcome := Done;
      if phase == Some(L.Armed) {
        outcome := DisarmWatchpoint(addr);
        if outcome == Raised {
          disrupted := true;
          return true;
        }
      }
      queue.Note(L.Dropped(addr, phase.value, outcome == Done));
      if freed.None? {
        return false;
      }
      var promotion := PromoteAndArmInto(freed);
      raised := promotion == PromotionRaised;
    }

    /** A session of commands; whatever the debugger does, the invariant survives it. */
    method Session(commands: seq<Command>)
      requires SessionInv(World()) && UndisruptedOrder(World())
      modifies this, queue
      ensures World() == Run(debugger, old(World()), commands)
      ensures SessionInv(World()) && UndisruptedOrder(World())
    {
      hide SessionInv, UndisruptedOrder;
      ghost var start := World();
      RunInv(debugger, start, commands);
      assert commands[0..] == commands;
      for index := 0 to |commands|
        invariant Run(debugger, start, commands) == Run(debugger, World(), commands[index..])
      {
        assert commands[index..][1..] == commands[index + 1..];
        match commands[index] {
          case Watch(spec) => GpWatchAdd(spec);
          case Look(stop) => ReconcileStops(stop);
          case ArmHeads(count) => GpQueueArm(count);
          case ClearAt(addr) => GpQueueClear([addr]);
          case ClearAll =>
            var targets := AddrsInOrder(queue.queued);
            GpQueueClear(targets);
        }
      }
    }
  }
}
