/** Each ledger operation keeps `LedgerInv`; the ones that can, keep `Orderly`. */
module WatchLedgerInvariants {
  import opened Options
  import opened WatchLedger

  lemma FreshInv(slots: nat, limit: nat)
    ensures LedgerInv(Fresh(slots, limit)) && Orderly(Fresh(slots, limit))
  {
  }

  lemma AddNoteInv(l: Ledger, n: Note)
    requires LedgerInv(l)
    ensures LedgerInv(AddNote(l, n))
    ensures AddNote(l, n) == l.(notes := AddNote(l, n).notes, notesDropped := AddNote(l, n).notesDropped)
  {
  }

  lemma MemberImage<T>(s: seq<Entry>, e: Entry, f: Entry -> T)
    requires e in s
    ensures f(e) in Image(s, f)
  {
  }

  // ---- Moves: what one rearrangement of the three lists does to each part of the invariant --

  /** `e` is appended to `armed`. */
  lemma ArmedGrows(l: Ledger, l': Ledger, e: Entry)
    requires SlotsOk(l) && AddrsOk(l) && e.slot.Some? && e.slot.value < l.slotCount && e.slot !in Slots(l.armed)
    requires e.addr !in Addrs(l.armed) && e.addr !in Addrs(l'.queued) && Addrs(l'.queued) <= Addrs(l.queued)
    requires Distinct(l'.queued, AddrOf)
    requires l'.armed == l.armed + [e] && l'.slotCount == l.slotCount
    ensures SlotsOk(l') && AddrsOk(l')
  {
    Appending(l.armed, e, SlotOf);
    Appending(l.armed, e, AddrOf);
  }

  lemma NewArmed(l: Ledger, l': Ledger, e: Entry)
    requires StampsOk(l) && e.stamp == l.lastStamp + 1 == l'.lastStamp
    requires l'.armed == l.armed + [e] && l'.queued == l.queued && l'.spent == l.spent && l'.removed == l.removed
    ensures StampsOk(l')
  {
    Appending(l.armed, e, StampOf);
  }

  lemma NewQueued(l: Ledger, l': Ledger, e: Entry)
    requires StampsOk(l) && e.stamp == l.lastStamp + 1 == l'.lastStamp
    requires l'.armed == l.armed && l'.queued == l.queued + [e] && l'.spent == l.spent && l'.removed == l.removed
    ensures StampsOk(l')
  {
    Appending(l.queued, e, StampOf);
    forall i | 0 <= i < |l.queued| ensures l.queued[i].stamp < e.stamp { MemberImage(l.queued, l.queued[i], StampOf); }
  }

  // ---- Operations ------------------------------------------------------------------------

  /** `add` issues the next sequence number exactly when it arms or queues. */
  lemma AddInv(l: Ledger, spec: Spec)
    requires LedgerInv(l)
    ensures LedgerInv(Add(l, spec).0)
  {
    hide SlotsOk, AddrsOk, StampsOk, HitsOk, PlacedOk, Find;
    var (l', outcome) := Add(l, spec);
    match outcome {
      case ArmedIn(_) =>
        NoneThere(l, spec.addr.value);
        var e := Entry(spec.addr.value, spec.mode, l.lastStamp + 1, Armed, FreeSlot(l), false);
        AddArmed(l, l', e);
      case QueuedAt(_) =>
        NoneThere(l, spec.addr.value);
        var e := Entry(spec.addr.value, spec.mode, l.lastStamp + 1, Queued, None, false);
        AddQueued(l, l', e);
      case _ => RejectedInv(l);
    }
  }

  lemma RejectedInv(l: Ledger)
    requires LedgerInv(l)
    ensures LedgerInv(l.(rejected := l.rejected + 1))
  {
  }

  lemma AddArmed(l: Ledger, l': Ledger, e: Entry)
    requires LedgerInv(l) && e.addr !in Addrs(l.armed) && e.addr !in Addrs(l.queued)
    requires e.stamp == l.lastStamp + 1 && e.phase == Armed && !e.live
    requires e.slot.Some? && e.slot.value < l.slotCount && e.slot !in Slots(l.armed)
    requires l' == l.(armed := l.armed + [e], lastStamp := e.stamp, placed := l.placed + [e.stamp])
    ensures LedgerInv(l')
  {
    ArmedGrows(l, l', e);
    NewArmed(l, l', e);
  }

  lemma AddQueued(l: Ledger, l': Ledger, e: Entry)
    requires LedgerInv(l) && e.addr !in Addrs(l.armed) && e.addr !in Addrs(l.queued)
    requires e.stamp == l.lastStamp + 1 && e.phase == Queued && !e.live && e.slot.None?
    requires |l.queued| < l.queueLimit
    requires l' == l.(queued := l.queued + [e], lastStamp := e.stamp)
    ensures LedgerInv(l')
  {
    Appending(l.queued, e, AddrOf);
    NewQueued(l, l', e);
  }

  lemma NoneThere(l: Ledger, addr: Addr)
    requires Find(l.armed + l.queued, addr).None?
    ensures addr !in Addrs(l.armed) && addr !in Addrs(l.queued)
  {
    forall i | 0 <= i < |l.armed| ensures l.armed[i].addr != addr { assert l.armed[i] in l.armed + l.queued; }
    forall i | 0 <= i < |l.queued| ensures l.queued[i].addr != addr { assert l.queued[i] in l.armed + l.queued; }
  }

  lemma Ascends(s: seq<nat>, n: nat)
    requires Ascending(s) && forall x :: x in s ==> x < n
    ensures Ascending(s + [n])
  {
    forall i | 0 <= i < |s| ensures s[i] < n { assert s[i] in s; }
  }

  /** An added request is armed only when nothing waits, so `add` never overtakes. */
  lemma AddOrderly(l: Ledger, spec: Spec)
    requires LedgerInv(l) && Orderly(l)
    ensures Orderly(Add(l, spec).0)
  {
    var (l', outcome) := Add(l, spec);
    if outcome.ArmedIn? {
      Ascends(l.placed, l.lastStamp + 1);
    } else if outcome.QueuedAt? {
      assert l'.queued[..|l.queued|] == l.queued;
    }
  }

  /** Promotion into a slot that is really free. */
  lemma TakeSlotInv(l: Ledger, s: nat)
    requires LedgerInv(l) && s < l.slotCount && Some(s) !in Slots(l.armed)
    ensures LedgerInv(TakeSlot(l, Some(s)).0)
  {
    if l.queued != [] {
      var l' := TakeSlot(l, Some(s)).0;
      var e := l.queued[0].(slot := Some(s), phase := Armed, live := false);
      assert l' == l.(queued := Without(l.queued, 0), armed := l.armed + [e], placed := l.placed + [e.stamp]);
      HeadArmed(l, l', e);
    }
  }

  /** Taking a slot keeps the invariant exactly when nothing waits or the slot exists and is free:
      the callers have to release it first. */
  lemma TakeSlotExactly(l: Ledger, freed: Option<nat>)
    requires LedgerInv(l)
    ensures LedgerInv(TakeSlot(l, freed).0)
      <==> l.queued == [] || (freed.Some? && freed.value < l.slotCount && freed !in Slots(l.armed))
  {
    if l.queued == [] {
    } else if freed.Some? && freed.value < l.slotCount && freed !in Slots(l.armed) {
      TakeSlotInv(l, freed.value);
    } else {
      hide StampsOk, PhasesOk, HitsOk, BoundsOk, PlacedOk, AddrsOk;
      var armed := TakeSlot(l, freed).0.armed;
      assert armed[|l.armed|].slot == freed && armed[|l.armed|] in armed;
      if freed in Slots(l.armed) {
        var i :| 0 <= i < |l.armed| && SlotOf(l.armed[i]) == freed;
        assert SlotOf(armed[i]) == SlotOf(armed[|l.armed|]);
      }
    }
  }

  lemma HeadArmed(l: Ledger, l': Ledger, e: Entry)
    requires LedgerInv(l) && l.queued != [] && e.slot.Some? && e.slot.value < l.slotCount && e.slot !in Slots(l.armed)
    requires e == l.queued[0].(slot := e.slot, phase := Armed, live := false)
    requires l' == l.(queued := Without(l.queued, 0), armed := l.armed + [e], placed := l.placed + [e.stamp])
    ensures LedgerInv(l')
  {
    MemberImage(l.queued, l.queued[0], AddrOf);
    Removing(l.queued, 0, AddrOf);
    ArmedGrows(l, l', e);
    HeadArmedStamps(l, l', e);
    MemberImage(l.queued, l.queued[0], StampOf);
    assert PhasesOk(l');
    assert PlacedOk(l');
  }

  lemma HeadArmedStamps(l: Ledger, l': Ledger, e: Entry)
    requires StampsOk(l) && l.queued != [] && e.stamp == l.queued[0].stamp
    requires l'.queued == Without(l.queued, 0) && l'.armed == l.armed + [e] && l'.spent == l.spent
    requires l'.removed == l.removed && l'.lastStamp == l.lastStamp
    ensures StampsOk(l')
  {
    MemberImage(l.queued, l.queued[0], StampOf);
    Removing(l.queued, 0, StampOf);
    Appending(l.armed, e, StampOf);
  }

  /** Refilling the one free slot restores the order; the queue loses its head and nothing else. */
  lemma TakeSlotOrderly(l: Ledger, s: nat)
    requires LedgerInv(l) && s < l.slotCount && InRequestOrder(l) && OnlyFree(l, s)
    ensures Orderly(TakeSlot(l, Some(s)).0)
  {
    if l.queued != [] {
      var l' := TakeSlot(l, Some(s)).0;
      var e := l'.armed[|l.armed|];
      Appending(l.armed, e, SlotOf);
      assert l.queued[0] in l.queued;
      Ascends(l.placed, e.stamp);
    }
  }

  /** Crediting the armed generation and retiring it: the only way a hit enters the ledger. */
  function CreditAndRelease(l: Ledger, addr: Addr): Ledger {
    Release(RecordHit(l, addr).0, addr).0
  }

  lemma CreditAndReleaseInv(l: Ledger, addr: Addr)
    requires LedgerInv(l) && Find(l.armed, addr).Some?
    ensures LedgerInv(CreditAndRelease(l, addr))
  {
    hide LedgerInv, CreditAndRelease, Without;
    var i := Find(l.armed, addr).value;
    var e := l.armed[i].(phase := Spent, live := false);
    CreditShape(l, addr, i);
    Spending(l, CreditAndRelease(l, addr), i, e);
  }

  lemma CreditShape(l: Ledger, addr: Addr, i: nat)
    requires LedgerInv(l) && Find(l.armed, addr) == Some(i)
    ensures var l' := CreditAndRelease(l, addr); var e := l.armed[i].(phase := Spent, live := false);
      && l'.armed == Without(l.armed, i) && l'.spent == l.spent + [e] && l'.hits == l.hits[(addr, e.stamp) := 1]
      && l' == l.(armed := l'.armed, spent := l'.spent, hits := l'.hits,
                  notes := l'.notes, notesDropped := l'.notesDropped)
      && BoundsOk(l')
  {
    hide Without, SlotsOk, AddrsOk, StampsOk, PhasesOk, HitsOk, PlacedOk;
    NotYetHit(l, l.armed[i]);
  }

  /** Exactly one hit, for exactly that generation; exactly that slot comes back. */
  lemma CreditAndReleaseEffect(l: Ledger, addr: Addr)
    requires LedgerInv(l) && Find(l.armed, addr).Some?
    ensures var e := l.armed[Find(l.armed, addr).value]; var l' := CreditAndRelease(l, addr);
      && (addr, e.stamp) !in l.hits && l'.hits == l.hits[(addr, e.stamp) := 1]
      && Release(RecordHit(l, addr).0, addr).1 == e.slot && e.slot.Some? && e.slot.value < l.slotCount
      && Slots(l'.armed) == Slots(l.armed) - {e.slot}
      && l'.queued == l.queued && l'.placed == l.placed
  {
    hide Without, AddrsOk, StampsOk, PhasesOk, HitsOk, PlacedOk, BoundsOk;
    var i := Find(l.armed, addr).value;
    assert l.armed[i] in l.armed;
    NotYetHit(l, l.armed[i]);
    NeverCredited(l, l.armed[i]);
    Removing(l.armed, i, SlotOf);
  }

  /** An armed or queued request has never been credited. */
  lemma NotYetHit(l: Ledger, e: Entry)
    requires LedgerInv(l) && (e in l.armed || e in l.queued)
    ensures HitCount(l, e) == 0
  {
    if e in l.armed { MemberImage(l.armed, e, StampOf); } else { MemberImage(l.queued, e, StampOf); }
    if GenerationOf(e) in Generations(l.spent) {
      var j :| 0 <= j < |l.spent| && GenerationOf(l.spent[j]) == GenerationOf(e);
      MemberImage(l.spent, l.spent[j], StampOf);
    }
  }

  lemma NeverCredited(l: Ledger, e: Entry)
    requires HitsOk(l) && HitCount(l, e) == 0
    ensures GenerationOf(e) !in l.hits
  {
  }

  lemma Spending(l: Ledger, l': Ledger, i: nat, e: Entry)
    requires LedgerInv(l) && i < |l.armed| && e == l.armed[i].(phase := Spent, live := false)
    requires l'.armed == Without(l.armed, i) && l'.spent == l.spent + [e]
    requires l'.hits == l.hits[(e.addr, e.stamp) := 1]
    requires l' == l.(armed := l'.armed, spent := l'.spent, hits := l'.hits,
                      notes := l'.notes, notesDropped := l'.notesDropped)
    requires BoundsOk(l')
    ensures LedgerInv(l')
  {
    hide StampsOk, HitsOk, SlotsOk, AddrsOk, PhasesOk, PlacedOk, Without;
    SpendingStamps(l, l', i, e);
    SpendingHits(l, l', i, e);
    SpendingSlots(l, l', i);
  }

  lemma SpendingSlots(l: Ledger, l': Ledger, i: nat)
    requires SlotsOk(l) && AddrsOk(l) && i < |l.armed| && l'.slotCount == l.slotCount
    requires l'.armed == Without(l.armed, i) && l'.queued == l.queued
    ensures SlotsOk(l') && AddrsOk(l')
  {
    Removing(l.armed, i, SlotOf);
    Removing(l.armed, i, AddrOf);
  }

  lemma SpendingHits(l: Ledger, l': Ledger, i: nat, e: Entry)
    requires HitsOk(l) && PhasesOk(l) && PlacedOk(l) && i < |l.armed| && e == l.armed[i].(phase := Spent, live := false)
    requires l'.armed == Without(l.armed, i) && l'.spent == l.spent + [e] && l'.queued == l.queued
    requires l'.hits == l.hits[(e.addr, e.stamp) := 1] && l'.placed == l.placed && l'.lastStamp == l.lastStamp
    ensures HitsOk(l') && PhasesOk(l') && PlacedOk(l')
  {
    Appending(l.spent, e, GenerationOf);
    assert l.armed[i] in l.armed;
  }

  lemma SpendingStamps(l: Ledger, l': Ledger, i: nat, e: Entry)
    requires StampsOk(l) && i < |l.armed| && e.stamp == l.armed[i].stamp
    requires l'.armed == Without(l.armed, i) && l'.spent == l.spent + [e] && l'.queued == l.queued
    requires l'.removed == l.removed && l'.lastStamp == l.lastStamp
    ensures StampsOk(l')
  {
    MemberImage(l.armed, l.armed[i], StampOf);
    Removing(l.armed, i, StampOf);
    Appending(l.spent, e, StampOf);
  }

  /** Taking entry `i` of `armed` out for good. */
  lemma ArmedRemoved(l: Ledger, l': Ledger, i: nat)
    requires LedgerInv(l) && i < |l.armed|
    requires l' == l.(armed := Without(l.armed, i), removed := l.removed + {l.armed[i].stamp})
    ensures LedgerInv(l') && Slots(l'.armed) == Slots(l.armed) - {l.armed[i].slot}
  {
    Removing(l.armed, i, SlotOf);
    Removing(l.armed, i, AddrOf);
    Removing(l.armed, i, StampOf);
    MemberImage(l.armed, l.armed[i], StampOf);
    assert StampsOk(l');
    assert PlacedOk(l');
  }

  lemma QueuedRemoved(l: Ledger, l': Ledger, i: nat)
    requires LedgerInv(l) && i < |l.queued|
    requires l' == l.(queued := Without(l.queued, i), removed := l.removed + {l.queued[i].stamp})
    ensures LedgerInv(l')
  {
    Removing(l.queued, i, AddrOf);
    Removing(l.queued, i, StampOf);
    MemberImage(l.queued, l.queued[i], StampOf);
    assert StampsOk(l');
  }

  lemma AbandonInv(l: Ledger, addr: Addr)
    requires LedgerInv(l)
    ensures LedgerInv(Abandon(l, addr))
  {
    if Find(l.armed, addr).Some? {
      var i := Find(l.armed, addr).value;
      ArmedRemoved(l, l.(armed := Without(l.armed, i), removed := l.removed + {l.armed[i].stamp}), i);
      AddNoteInv(l.(armed := Without(l.armed, i), removed := l.removed + {l.armed[i].stamp}), NotArmed(addr));
    } else if Find(l.queued, addr).Some? {
      var i := Find(l.queued, addr).value;
      QueuedRemoved(l, l.(queued := Without(l.queued, i), removed := l.removed + {l.queued[i].stamp}), i);
      AddNoteInv(l.(queued := Without(l.queued, i), removed := l.removed + {l.queued[i].stamp}), NotArmed(addr));
    } else {
      AddNoteInv(l, NotArmed(addr));
    }
  }

  lemma DropInv(l: Ledger, addr: Addr)
    requires LedgerInv(l)
    ensures LedgerInv(Drop(l, addr).0)
    ensures Drop(l, addr).2.Some? ==>
      && Drop(l, addr).2.value < l.slotCount
      && Slots(Drop(l, addr).0.armed) == Slots(l.armed) - {Drop(l, addr).2}
  {
    if Find(l.queued, addr).Some? {
      QueuedRemoved(l, Drop(l, addr).0, Find(l.queued, addr).value);
    } else if Find(l.armed, addr).Some? {
      ArmedRemoved(l, Drop(l, addr).0, Find(l.armed, addr).value);
    }
  }

  lemma MarkLiveInv(l: Ledger, addr: Addr)
    requires LedgerInv(l) && Find(l.armed, addr).Some?
    ensures LedgerInv(MarkLive(l, addr)) && Slots(MarkLive(l, addr).armed) == Slots(l.armed)
  {
    var i := Find(l.armed, addr).value;
    var l' := MarkLive(l, addr);
    Marking(l.armed, i, SlotOf);
    Marking(l.armed, i, AddrOf);
    Marking(l.armed, i, StampOf);
    assert l.armed[i] in l.armed;
    assert StampsOk(l');
    assert PlacedOk(l');
  }

  // ---- What each operation admits and removes ------------------------------------------------

  lemma {:induction false} ImageSize<T(!new)>(s: seq<Entry>, f: Entry -> T)
    requires Distinct(s, f)
    ensures |Image(s, f)| == |s|
  {
    if s != [] {
      var n := |s| - 1;
      ImageSize(s[..n], f);
      assert s == s[..n] + [s[n]];
      Appending(s[..n], s[n], f);
      assert f(s[n]) !in Image(s[..n], f);
    }
  }

  function AllSlots(n: nat): (r: set<Option<nat>>)
    ensures |r| == n && forall x :: x in r <==> x.Some? && x.value < n
  {
    if n == 0 then {} else AllSlots(n - 1) + {Some(n - 1)}
  }

  lemma SubsetSize<T>(a: set<T>, b: set<T>)
    requires a <= b
    ensures |a| <= |b| && (|a| == |b| <==> a == b)
  {
    assert a + (b - a) == b;
  }

  /** No more requests are armed than there are slots, and a slot is free exactly when fewer are. */
  lemma Capacity(l: Ledger)
    requires LedgerInv(l)
    ensures |l.armed| <= l.slotCount
    ensures FreeSlot(l).None? <==> |l.armed| == l.slotCount
  {
    ImageSize(l.armed, SlotOf);
    SubsetSize(Slots(l.armed), AllSlots(l.slotCount));
  }

  /** Which requests `add` arms, queues, and turns away, in terms of what is already there. */
  lemma AddExactly(l: Ledger, addr: Addr, mode: Mode)
    requires LedgerInv(l)
    ensures var (l', outcome) := Add(l, Spec(Some(addr), mode));
      var known := addr in Addrs(l.armed) || addr in Addrs(l.queued);
      var full := |l.armed| == l.slotCount;
      && (outcome.Duplicate? <==> known)
      && (outcome.ArmedIn? <==> !known && !full)
      && (outcome.QueuedAt? <==> !known && full && |l.queued| < l.queueLimit)
      && (outcome.QueueFull? <==> !known && full && |l.queued| == l.queueLimit)
      && (outcome.ArmedIn? ==>
            && Some(outcome.index) !in Slots(l.armed)
            && forall i :: 0 <= i < outcome.index ==> Some(i) in Slots(l.armed))
      && (outcome.QueuedAt? ==> outcome.position == |l'.queued| && l'.queued[outcome.position - 1].addr == addr)
      && (outcome.ArmedIn? ==>
            l' == l.(armed := l.armed + [Entry(addr, mode, l.lastStamp + 1, Armed, Some(outcome.index), false)],
                     lastStamp := l.lastStamp + 1, placed := l.placed + [l.lastStamp + 1]))
      && (outcome.QueuedAt? ==>
            l' == l.(queued := l.queued + [Entry(addr, mode, l.lastStamp + 1, Queued, None, false)],
                     lastStamp := l.lastStamp + 1))
      && (outcome.QueueFull? ==> l' == l.(rejected := l.rejected + 1))
      && (outcome.Duplicate? ==> l' == l)
  {
    Capacity(l);
    var active := l.armed + l.queued;
    if Find(active, addr).None? { NoneThere(l, addr); } else { SomeThere(l, addr); }
  }

  lemma SomeThere(l: Ledger, addr: Addr)
    requires Find(l.armed + l.queued, addr).Some?
    ensures addr in Addrs(l.armed) || addr in Addrs(l.queued)
  {
    var e := (l.armed + l.queued)[Find(l.armed + l.queued, addr).value];
    if e in l.armed { MemberImage(l.armed, e, AddrOf); } else { MemberImage(l.queued, e, AddrOf); }
  }

  lemma OthersStay(s: seq<Entry>, i: nat)
    requires i < |s| && Distinct(s, AddrOf)
    ensures forall e :: e in Without(s, i) <==> e in s && e.addr != s[i].addr
  {
    var t := Without(s, i);
    assert forall j :: 0 <= j < |t| ==> t[j] == if j < i then s[j] else s[j + 1];
    assert forall j, k :: 0 <= j < k < |s| ==> AddrOf(s[j]) != AddrOf(s[k]);
    forall e | e in s && e.addr != s[i].addr ensures e in t {
      var j :| 0 <= j < |s| && s[j] == e;
      assert t[if j < i then j else j - 1] == e;
    }
  }

  lemma Present(s: seq<Entry>, addr: Addr)
    ensures Find(s, addr).Some? <==> addr in Addrs(s)
  {
    if Find(s, addr).Some? { MemberImage(s, s[Find(s, addr).value], AddrOf); }
  }

  /** `l'` is `l` with the request at `addr`, and that one only, taken out of the active lists. */
  ghost predicate OnlyGone(l: Ledger, l': Ledger, addr: Addr) {
    && (forall e :: e in l'.armed <==> e in l.armed && e.addr != addr)
    && (forall e :: e in l'.queued <==> e in l.queued && e.addr != addr)
    && l'.spent == l.spent && l'.hits == l.hits && l'.lastStamp == l.lastStamp && l'.placed == l.placed
  }

  /** The user's `drop` takes exactly the request at that address out, and says which kind it was. */
  lemma DropExactly(l: Ledger, addr: Addr)
    requires LedgerInv(l)
    ensures var (l', phase, freed) := Drop(l, addr);
      && OnlyGone(l, l', addr)
      && (phase == Some(Armed) <==> addr in Addrs(l.armed))
      && (phase == Some(Queued) <==> addr in Addrs(l.queued))
      && (phase == Some(Armed) <==> freed.Some?)
      && (forall e :: e in l.armed && e.addr == addr ==> freed == e.slot)
  {
    hide LedgerInv, Find, Without;
    ActiveGone(l, addr);
    if Find(l.armed, addr).Some? { Holder(l, addr); }
  }

  /** The slot of the request armed at an address. */
  lemma Holder(l: Ledger, addr: Addr)
    requires LedgerInv(l) && Find(l.armed, addr).Some?
    ensures var found := l.armed[Find(l.armed, addr).value];
      found.slot.Some? && forall e :: e in l.armed && e.addr == addr ==> e == found
  {
  }

  /** `abandon` takes the request at that address out, whichever list it is in. */
  lemma AbandonExactly(l: Ledger, addr: Addr)
    requires LedgerInv(l)
    ensures OnlyGone(l, Abandon(l, addr), addr)
  {
    hide LedgerInv, Find, Without;
    ActiveGone(l, addr);
  }

  lemma ActiveGone(l: Ledger, addr: Addr)
    requires LedgerInv(l)
    ensures (Find(l.armed, addr).Some? <==> addr in Addrs(l.armed))
      && (Find(l.queued, addr).Some? <==> addr in Addrs(l.queued))
    ensures match Find(l.armed, addr)
      case Some(i) =>
        addr !in Addrs(l.queued) && forall e :: e in Without(l.armed, i) <==> e in l.armed && e.addr != addr
      case None => forall e :: e in l.armed ==> e.addr != addr
    ensures match Find(l.queued, addr)
      case Some(i) =>
        addr !in Addrs(l.armed) && forall e :: e in Without(l.queued, i) <==> e in l.queued && e.addr != addr
      case None => forall e :: e in l.queued ==> e.addr != addr
  {
    hide StampsOk, HitsOk, BoundsOk, PlacedOk, SlotsOk, PhasesOk, Without;
    Present(l.armed, addr);
    Present(l.queued, addr);
    if Find(l.armed, addr).Some? { OthersStay(l.armed, Find(l.armed, addr).value); }
    if Find(l.queued, addr).Some? { OthersStay(l.queued, Find(l.queued, addr).value); }
  }
}
