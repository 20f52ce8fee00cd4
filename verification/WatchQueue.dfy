/** The ledger object itself: lists and tables updated in place. */
module WatchQueues {
  import opened Options
  import L = WatchLedger

  method IndexOf(s: seq<L.Entry>, addr: L.Addr) returns (r: Option<nat>)
    ensures r == L.Find(s, addr)
  {
    for i := 0 to |s|
      invariant forall j :: 0 <= j < i ==> s[j].addr != addr
    {
      if s[i].addr == addr {
        return Some(i);
      }
    }
    r := None;
  }

  class WatchQueue {
    const slotCount: nat
    const queueLimit: nat
    var armed: seq<L.Entry>
    var queued: seq<L.Entry>
    var spent: seq<L.Entry>
    var rejected: nat
    var hits: map<(L.Addr, nat), nat>
    var unattributed: map<L.Addr, nat>
    var stopsObserved: nat
    var notes: seq<L.Note>
    var notesDropped: nat
    var lastStamp: nat
    ghost var removed: set<nat>
    ghost var placed: seq<nat>

    ghost function Ledger(): L.Ledger
      reads this
    {
      L.Ledger(slotCount, queueLimit, armed, queued, spent, rejected, hits, unattributed, stopsObserved,
               notes, notesDropped, lastStamp, removed, placed)
    }

    constructor (slots: nat := L.HW_WATCHPOINT_SLOTS, limit: nat := L.WATCH_QUEUE_LIMIT)
      ensures Ledger() == L.Fresh(slots, limit)
    {
      slotCount, queueLimit := slots, limit;
      armed, queued, spent, rejected := [], [], [], 0;
      hits, unattributed, stopsObserved := map[], map[], 0;
      notes, notesDropped, lastStamp := [], 0, 0;
      removed, placed := {}, [];
    }

    method Note(note: L.Note)
      modifies this`notes, this`notesDropped
      ensures Ledger() == L.AddNote(old(Ledger()), note)
    {
      if |notes| < L.WATCHPOINT_NOTE_LIMIT {
        notes := notes + [note];
        return;
      }
      if notesDropped == 0 {
        notes := notes + [L.Suppressed];
      }
      notesDropped := notesDropped + 1;
    }

    method FreeSlot() returns (free: Option<nat>)
      ensures free == L.FreeSlot(Ledger())
    {
      var used := set e | e in armed :: e.slot;
      assert used == L.Slots(armed) by {
        forall e | e in armed ensures e.slot in L.Slots(armed) {
          var i :| 0 <= i < |armed| && armed[i] == e;
          assert L.SlotOf(armed[i]) == e.slot;
        }
      }
      for index := 0 to slotCount
        invariant forall i :: 0 <= i < index ==> Some(i) in used
      {
        if Some(index) !in used {
          return Some(index);
        }
      }
      free := None;
    }

    method Stamp(addr: L.Addr, mode: L.Mode, phase: L.Phase, slot: Option<nat>) returns (e: L.Entry)
      modifies this`lastStamp
      ensures e == L.Entry(addr, mode, old(lastStamp) + 1, phase, slot, false) && lastStamp == old(lastStamp) + 1
    {
      lastStamp := lastStamp + 1;
      e := L.Entry(addr, mode, lastStamp, phase, slot, false);
    }

    method Add(spec: L.Spec) returns (outcome: L.AddOutcome)
      modifies this
      ensures (Ledger(), outcome) == L.Add(old(Ledger()), spec)
    {
      if spec.addr.None? {
        rejected := rejected + 1;
        return L.NoAddress;
      }
      var addr := spec.addr.value;
      var active := armed + queued;
      var present := IndexOf(active, addr);
      if present.Some? {
        return L.Duplicate(active[present.value].phase, active[present.value].slot);
      }
      var free := FreeSlot();
      if free.Some? {
        var e := Stamp(addr, spec.mode, L.Armed, free);
        armed := armed + [e];
        placed := placed + [e.stamp];
        return L.ArmedIn(free.value);
      }
      if |queued| >= queueLimit {
        rejected := rejected + 1;
        return L.QueueFull;
      }
      var e := Stamp(addr, spec.mode, L.Queued, None);
      queued := queued + [e];
      outcome := L.QueuedAt(|queued|);
    }

    method TakeSlot(freed: Option<nat>) returns (head: Option<L.Entry>)
      modifies this
      ensures (Ledger(), head) == L.TakeSlot(old(Ledger()), freed)
    {
      if queued == [] {
        return None;
      }
      if freed.None? || freed in L.Slots(armed) {
        Note(L.OccupiedSlot(freed, queued[0].addr));
      }
      var e := queued[0].(slot := freed, phase := L.Armed, live := false);
      queued := queued[1..];
      armed := armed + [e];
      placed := placed + [e.stamp];
      head := Some(e);
    }

    method Release(addr: L.Addr) returns (freed: Option<nat>)
      modifies this
      ensures (Ledger(), freed) == L.Release(old(Ledger()), addr)
    {
      var index := IndexOf(armed, addr);
      if index.None? {
        return None;
      }
      var e := armed[index.value];
      armed := L.Without(armed, index.value);
      spent := spent + [e.(phase := L.Spent, live := false)];
      freed := e.slot;
    }

    method Abandon(addr: L.Addr)
      modifies this
      ensures Ledger() == L.Abandon(old(Ledger()), addr)
    {
      var index := IndexOf(armed, addr);
      if index.Some? {
        removed := removed + {armed[index.value].stamp};
        armed := L.Without(armed, index.value);
      } else {
        index := IndexOf(queued, addr);
        if index.Some? {
          removed := removed + {queued[index.value].stamp};
          queued := L.Without(queued, index.value);
        }
      }
      Note(L.NotArmed(addr));
    }

    method Drop(addr: L.Addr) returns (phase: Option<L.Phase>, freed: Option<nat>)
      modifies this
      ensures (Ledger(), phase, freed) == L.Drop(old(Ledger()), addr)
    {
      var index := IndexOf(queued, addr);
      if index.Some? {
        removed := removed + {queued[index.value].stamp};
        queued := L.Without(queued, index.value);
        return Some(L.Queued), None;
      }
      index := IndexOf(armed, addr);
      if index.Some? {
        removed := removed + {armed[index.value].stamp};
        phase, freed := Some(L.Armed), armed[index.value].slot;
        armed := L.Without(armed, index.value);
        return;
      }
      return None, None;
    }

    method RecordHit(addr: L.Addr) returns (credited: Option<nat>)
      modifies this
      ensures (Ledger(), credited) == L.RecordHit(old(Ledger()), addr)
    {
      var index := IndexOf(armed, addr);
      if index.None? {
        var before := if addr in unattributed then unattributed[addr] else 0;
        unattributed := unattributed[addr := before + 1];
        if before == 0 {
          Note(L.StopCreditsNothing(addr));
        }
        return None;
      }
      var e := armed[index.value];
      var count := if (addr, e.stamp) in hits then hits[(addr, e.stamp)] else 0;
      hits := hits[(addr, e.stamp) := count + 1];
      if !e.live {
        Note(L.CreditUnconfirmed(addr, e.stamp));
      }
      credited := Some(e.stamp);
    }

    method NoteStopObserved()
      modifies this`stopsObserved
      ensures Ledger() == L.NoteStop(old(Ledger()))
    {
      stopsObserved := stopsObserved + 1;
    }

    method MarkLive(addr: L.Addr)
      modifies this`armed, this`queued, this`spent
      ensures Ledger() == L.MarkLive(old(Ledger()), addr)
    {
      var index := IndexOf(armed, addr);
      if index.Some? {
        armed := L.SetLive(armed, index.value);
        return;
      }
      index := IndexOf(queued, addr);
      if index.Some? {
        queued := L.SetLive(queued, index.value);
        return;
      }
      index := IndexOf(spent, addr);
      if index.Some? {
        spent := L.SetLive(spent, index.value);
      }
    }
  }
}
