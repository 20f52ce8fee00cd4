/** When slots are refilled in request order, exactly: the calls of the debugger that break it. */
module WatchScheduling {
  import opened Options
  import opened WatchLedger
  import opened WatchLedgerInvariants
  import opened WatchSession
  import opened WatchSessionInvariants
  import opened WatchTheorems

  // ---- One freed slot ------------------------------------------------------------------------------

  /** The next attempt to arm the oldest waiting request comes to nothing. */
  predicate Refuses(d: Debugger, w: World) {
    w.ledger.queued != [] && (w.ledger.queued[0].mode == Unlisted || d.arm(w.armCalls).Refused?)
  }

  /** And others wait behind it. */
  predicate HeadRefused(d: Debugger, w: World) { Refuses(d, w) && |w.ledger.queued| >= 2 }

  /** Offering a freed slot keeps the order except when that attempt is refused with more requests waiting:
      then the slot idles. */
  lemma PromotionKeepsOrderExactly(d: Debugger, w: World, s: nat)
    requires LedgerInv(w.ledger) && LiveTracked(w) && s < w.ledger.slotCount && Some(s) !in Slots(w.ledger.armed)
    requires InRequestOrder(w.ledger) && OnlyFree(w.ledger, s)
    ensures var w' := PromoteAndArm(d, w, Some(s)).0;
      (Orderly(w'.ledger) <==> !HeadRefused(d, w)) && (HeadRefused(d, w) ==> FreeSlot(w'.ledger).Some?)
  {
    hide LedgerInv, LiveTracked, InRequestOrder, OnlyFree, Arm, Abandon;
    var (l, head) := TakeSlot(w.ledger, Some(s));
    var (w', promotion) := PromoteAndArm(d, w, Some(s));
    TakeSlotInv(w.ledger, s);
    TakeSlotOrderly(w.ledger, s);
    RefusedExactly(d, w, s);
    if head.Some? {
      assert head.value in l.armed;
      TakenLive(w, l);
      ArmInv(d, w.(ledger := l), head.value);
      if promotion.PromotionFailed? {
        RefusalKeepsLedger(d, w.(ledger := l), head.value);
        LastAbandoned(l, s);
        OrderWithout(l, w'.ledger);
      } else {
        OrderMoves(l, w'.ledger);
      }
    }
  }

  lemma TakenLive(w: World, l: Ledger)
    requires LiveTracked(w) && w.ledger.queued != []
    requires l.armed != [] && l.armed == w.ledger.armed + [l.armed[|l.armed| - 1]] && !l.armed[|l.armed| - 1].live
    ensures LiveTracked(w.(ledger := l))
  {
  }

  lemma RefusalKeepsLedger(d: Debugger, w: World, e: Entry)
    requires Arm(d, w, e).1 == Failed
    ensures Arm(d, w, e).0.ledger == w.ledger
  {
  }

  lemma OrderWithout(l: Ledger, l': Ledger)
    requires InRequestOrder(l) && l'.queued == l.queued && l'.placed == l.placed
    ensures InRequestOrder(l')
  {
  }

  lemma LastAbandoned(l: Ledger, s: nat)
    requires LedgerInv(l) && l.armed != [] && l.armed[|l.armed| - 1].slot == Some(s) && s < l.slotCount
    ensures var l' := Abandon(l, l.armed[|l.armed| - 1].addr);
      && Some(s) !in Slots(l'.armed) && l'.queued == l.queued && l'.placed == l.placed && l'.slotCount == l.slotCount
  {
    var i := Find(l.armed, l.armed[|l.armed| - 1].addr).value;
    Removing(l.armed, i, SlotOf);
  }

  lemma RefusedExactly(d: Debugger, w: World, s: nat)
    ensures PromoteAndArm(d, w, Some(s)).1.PromotionFailed? <==> Refuses(d, w)
  {
    hide AddNote, MarkLive, Abandon, Track;
  }

  /** An idle slot with a request waiting is not just unused: the next new request takes it first. */
  lemma AddOvertakes(l: Ledger, addr: Addr, mode: Mode)
    requires LedgerInv(l) && l.queued != [] && FreeSlot(l).Some?
    requires addr !in Addrs(l.armed) && addr !in Addrs(l.queued)
    ensures var (l', outcome) := Add(l, Spec(Some(addr), mode)); outcome.ArmedIn? && !InRequestOrder(l')
  {
    hide SlotsOk, AddrsOk, PhasesOk, HitsOk, BoundsOk, PlacedOk;
    AddExactly(l, addr, mode);
    Capacity(l);
    var l' := Add(l, Spec(Some(addr), mode)).0;
    MemberImage(l.queued, l.queued[0], StampOf);
    assert l.queued[0].stamp in UpTo(l.lastStamp);
    assert l'.placed[|l.placed|] == l.lastStamp + 1 && l.lastStamp + 1 in l'.placed && l.queued[0] in l'.queued;
  }

  /** The next disabling of the watchpoint at `addr` raises. */
  predicate DisableRaises(d: Debugger, w: World, addr: Addr) {
    Lookup(w.tracked, addr).Some? && d.disarm(w.disarmCalls).DisarmRaises?
  }

  /** What offering a slot on comes to after the watchpoint in it is disabled: a raising disable ends the
      pass before the slot is offered. */
  ghost predicate KeptBusy(d: Debugger, w: World, addr: Addr) {
    w.ledger.queued == [] || (!DisableRaises(d, w, addr) && !HeadRefused(d, w))
  }

  /** Main result: disabling and refilling keeps the order exactly when nothing waits, or the disable call
      does not raise and the promotion is not refused with more requests waiting. */
  lemma RefillKeepsOrderExactly(d: Debugger, w: World, addr: Addr, s: nat)
    requires SessionInv(w) && addr !in Addrs(w.ledger.armed)
    requires s < w.ledger.slotCount && Some(s) !in Slots(w.ledger.armed)
    requires InRequestOrder(w.ledger) && OnlyFree(w.ledger, s)
    ensures Orderly(Refill(d, w, addr, Some(s)).0.ledger) <==> KeptBusy(d, w, addr)
  {
    hide LedgerInv, LiveTracked, Accounted, InRequestOrder, OnlyFree, PromoteAndArm;
    DisarmInv(d, w, addr);
    var (w', outcome) := Disarm(d, w, addr);
    NotedInv(w', DisableUnconfirmed(addr));
    if outcome != Raised {
      var noted := if outcome == Failed then Noted(w', DisableUnconfirmed(addr)) else w';
      OnlyFreeMoves(w.ledger, noted.ledger, s);
      PromotionKeepsOrderExactly(d, noted, s);
    }
  }

  /** What the history flag `disrupted` records: the pass that refills a slot met a raising disable call
      or a refused promotion, or one before it did. */
  lemma DisruptedExactly(d: Debugger, w: World, addr: Addr, s: nat)
    ensures Refill(d, w, addr, Some(s)).0.disrupted
      <==> w.disrupted || DisableRaises(d, w, addr) || Refuses(d, w)
  {
    hide PromoteAndArm;
    var (w', outcome) := Disarm(d, w, addr);
    if outcome != Raised {
      var noted := if outcome == Failed then Noted(w', DisableUnconfirmed(addr)) else w';
      PromotionDisrupts(d, noted, s);
    }
  }

  lemma PromotionDisrupts(d: Debugger, w: World, s: nat)
    ensures PromoteAndArm(d, w, Some(s)).0.disrupted <==> w.disrupted || Refuses(d, w)
  {
    hide AddNote, MarkLive, Abandon, Track;
  }

  /** A stop at an armed address keeps the order under the same condition, read off the state before it. */
  lemma HitKeepsOrderExactly(d: Debugger, w: World, addr: Addr)
    requires LedgerInv(w.ledger) && LiveTracked(w) && Accounted(w, 1) && Find(w.ledger.armed, addr).Some?
    requires Orderly(w.ledger)
    ensures Orderly(Credit(d, w, addr).0.ledger) <==> KeptBusy(d, w, addr)
  {
    hide LedgerInv, Orderly, InRequestOrder, OnlyFree, Refill;
    CreditAndReleaseInv(w.ledger, addr);
    CreditAndReleaseEffect(w.ledger, addr);
    Released(w.ledger, addr);
    ReleasedAccounts(w, addr);
    var released := w.(ledger := CreditAndRelease(w.ledger, addr));
    RefillKeepsOrderExactly(d, released, addr, Release(RecordHit(w.ledger, addr).0, addr).1.value);
  }

  /** And so does clearing an armed address by hand. */
  lemma ClearKeepsOrderExactly(d: Debugger, w: World, addr: Addr)
    requires SessionInv(w) && Orderly(w.ledger) && addr in Addrs(w.ledger.armed)
    ensures Orderly(ClearOne(d, w, addr).0.ledger) <==> KeptBusy(d, w, addr)
  {
    hide LedgerInv, LiveTracked, Accounted, InRequestOrder, OnlyFree, Drop, PromoteAndArm;
    var (l, phase, freed) := Drop(w.ledger, addr);
    var dropped := w.(ledger := l);
    DropExactly(w.ledger, addr);
    DropInv(w.ledger, addr);
    DroppedOrder(w, addr);
    DropKeepsQueue(w.ledger, addr);
    DisarmInv(d, dropped, addr);
    var (w', outcome) := Disarm(d, dropped, addr);
    var note := WatchLedger.Note.Dropped(addr, Armed, outcome == Done);
    NotedInv(w', note);
    if outcome != Raised {
      OnlyFreeMoves(l, Noted(w', note).ledger, freed.value);
      PromotionKeepsOrderExactly(d, Noted(w', note), freed.value);
    }
  }

  lemma DropKeepsQueue(l: Ledger, addr: Addr)
    requires Drop(l, addr).1 == Some(Armed)
    ensures Drop(l, addr).0.queued == l.queued && Drop(l, addr).0.slotCount == l.slotCount
  {
  }

  // ---- Whole sessions --------------------------------------------------------------------------------

  ghost predicate ModesListed(commands: seq<Command>) {
    forall c :: c in commands && c.Watch? ==> c.spec.mode != Unlisted
  }

  lemma {:induction false} RunAppend(d: Debugger, w: World, commands: seq<Command>, c: Command)
    ensures Run(d, w, commands + [c]) == Execute(d, Run(d, w, commands), c)
    decreases commands
  {
    hide Execute;
    if commands == [] {
      assert Run(d, w, [c]) == Run(d, Execute(d, w, c), []);
    } else {
      assert (commands + [c])[1..] == commands[1..] + [c];
      RunAppend(d, Execute(d, w, commands[0]), commands[1..], c);
    }
  }

  /** What `gp-watch add` at a new address leaves alone while nothing waits. */
  ghost predicate Undisturbed(w: World, w': World) {
    && w'.ledger.slotCount == w.ledger.slotCount && w'.ledger.queueLimit == w.ledger.queueLimit
    && w'.disarmCalls == w.disarmCalls
  }

  function AddAt(addr: Addr): Spec { Spec(Some(addr), Write) }

  /** With a slot to spare and arming that works, the request is armed and its handle held. */
  lemma WatchArms(d: Debugger, w: World, addr: Addr)
    requires Arms(d) && LedgerInv(w.ledger) && addr !in Addrs(w.ledger.armed)
    requires w.ledger.queued == [] && |w.ledger.armed| < w.ledger.slotCount
    ensures var w' := AddWatch(d, w, AddAt(addr));
      && Undisturbed(w, w') && w'.ledger.queued == []
      && |w'.ledger.armed| == |w.ledger.armed| + 1 && Addrs(w'.ledger.armed) == Addrs(w.ledger.armed) + {addr}
      && Keys(w'.tracked) == Keys(w.tracked) + {addr}
  {
    hide LedgerInv, Track, Keys;
    AddExactly(w.ledger, addr, Write);
    var l := Add(w.ledger, AddAt(addr)).0;
    var e := l.armed[|w.ledger.armed|];
    Appending(w.ledger.armed, e, AddrOf);
    assert e in l.armed;
    Marking(l.armed, Find(l.armed, addr).value, AddrOf);
  }

  /** With every slot taken, the request waits. */
  lemma WatchWaits(d: Debugger, w: World, addr: Addr)
    requires LedgerInv(w.ledger) && addr !in Addrs(w.ledger.armed) && w.ledger.queueLimit > 0
    requires w.ledger.queued == [] && |w.ledger.armed| == w.ledger.slotCount
    ensures var w' := AddWatch(d, w, AddAt(addr));
      && Undisturbed(w, w') && w'.tracked == w.tracked
      && w'.ledger.queued != [] && w'.ledger.armed == w.ledger.armed
  {
    hide LedgerInv;
    AddExactly(w.ledger, addr, Write);
  }

  /** Clearing an armed request nothing waits behind costs one disable call and empties its slot. */
  lemma ClearEmpties(d: Debugger, w: World, addr: Addr)
    requires LedgerInv(w.ledger) && w.ledger.queued == [] && |w.ledger.armed| == 1
    requires addr in Addrs(w.ledger.armed) && addr in Keys(w.tracked)
    ensures var w' := Clear(d, w, [addr]);
      && w'.ledger.slotCount == w.ledger.slotCount && w'.ledger.queueLimit == w.ledger.queueLimit
      && w'.disarmCalls == w.disarmCalls + 1 && w'.ledger.armed == [] && w'.ledger.queued == []
  {
    hide LedgerInv, Untrack, AddNote;
    Present(w.ledger.armed, addr);
    assert Drop(w.ledger, addr).0.armed == [];
    var w' := ClearOne(d, w, addr).0;
    assert [addr][1..] == [];
    ClearedOnce(d, w, addr);
  }

  lemma ClearedOnce(d: Debugger, w: World, addr: Addr)
    requires var (l, phase, freed) := Drop(w.ledger, addr); phase == Some(Armed) && l.armed == [] && l.queued == []
    requires addr in Keys(w.tracked)
    ensures var w' := ClearOne(d, w, addr).0;
      && w'.ledger.slotCount == w.ledger.slotCount && w'.ledger.queueLimit == w.ledger.queueLimit
      && w'.disarmCalls == w.disarmCalls + 1 && w'.ledger.armed == [] && w'.ledger.queued == []
  {
    hide Untrack, Drop, PromoteAndArm, Lookup;
    var (l, phase, freed) := Drop(w.ledger, addr);
    var (w', outcome) := Disarm(d, w.(ledger := l), addr);
    DropKeepsQueue(w.ledger, addr);
    DropKeepsLimits(w.ledger, addr);
    PromoteNobody(d, Noted(w', WatchLedger.Note.Dropped(addr, Armed, outcome == Done)), freed);
  }

  lemma DropKeepsLimits(l: Ledger, addr: Addr)
    ensures Drop(l, addr).0.queueLimit == l.queueLimit
  {
  }

  lemma PromoteNobody(d: Debugger, w: World, freed: Option<nat>)
    requires w.ledger.queued == []
    ensures PromoteAndArm(d, w, freed) == (w, NothingQueued)
  {
  }

  /** Sessions can bring the disable calls to any number with nothing armed or waiting. */
  lemma {:induction false} IdleAfter(d: Debugger, slots: nat, limit: nat, n: nat) returns (commands: seq<Command>)
    requires Arms(d) && slots > 0
    ensures var w := Run(d, Start(slots, limit), commands);
      && ModesListed(commands) && w.disarmCalls == n && w.ledger.armed == [] && w.ledger.queued == []
      && w.ledger.slotCount == slots && w.ledger.queueLimit == limit
  {
    hide Run, AddWatch, Clear, SessionInv, UndisruptedOrder;
    if n == 0 {
      commands := [];
      assert Run(d, Start(slots, limit), []) == Start(slots, limit) by { RunNothing(d, Start(slots, limit)); }
    } else {
      var before := IdleAfter(d, slots, limit, n - 1);
      var start := Start(slots, limit);
      var w := Run(d, start, before);
      EverySession(d, slots, limit, before);
      SoundLedger(w);
      WatchArms(d, w, 0);
      RunAppend(d, start, before, Watch(AddAt(0)));
      EverySession(d, slots, limit, before + [Watch(AddAt(0))]);
      SoundLedger(AddWatch(d, w, AddAt(0)));
      ClearEmpties(d, AddWatch(d, w, AddAt(0)), 0);
      RunAppend(d, start, before + [Watch(AddAt(0))], ClearAt(0));
      commands := before + [Watch(AddAt(0))] + [ClearAt(0)];
    }
  }

  lemma RunNothing(d: Debugger, w: World)
    ensures Run(d, w, []) == w
  {
  }

  lemma SoundLedger(w: World)
    requires SessionInv(w)
    ensures LedgerInv(w.ledger)
  {
  }

  /** The addresses below `i` armed, nothing waiting, after `n` disable calls. */
  ghost predicate Filled(w: World, slots: nat, limit: nat, n: nat, i: nat) {
    && w.disarmCalls == n && w.ledger.slotCount == slots && w.ledger.queueLimit == limit
    && |w.ledger.armed| == i && w.ledger.queued == []
    && (forall a: nat :: a in Addrs(w.ledger.armed) <==> a < i)
    && (i > 0 ==> 0 in Keys(w.tracked))
  }

  lemma {:induction false} FilledAfter(d: Debugger, slots: nat, limit: nat, n: nat, i: nat)
    returns (commands: seq<Command>)
    requires Arms(d) && slots > 0 && i <= slots
    ensures ModesListed(commands) && Filled(Run(d, Start(slots, limit), commands), slots, limit, n, i)
  {
    hide Run, AddWatch, SessionInv, UndisruptedOrder;
    if i == 0 {
      commands := IdleAfter(d, slots, limit, n);
    } else {
      var before := FilledAfter(d, slots, limit, n, i - 1);
      var w := Run(d, Start(slots, limit), before);
      EverySession(d, slots, limit, before);
      SoundLedger(w);
      WatchArms(d, w, i - 1);
      RunAppend(d, Start(slots, limit), before, Watch(AddAt(i - 1)));
      commands := before + [Watch(AddAt(i - 1))];
    }
  }

  /** A disable call that raises is reached by a session that ends with a request behind an idle slot. */
  lemma RaisingDisableIdles(d: Debugger, slots: nat, limit: nat, n: nat) returns (commands: seq<Command>)
    requires Arms(d) && slots > 0 && limit > 0 && d.disarm(n) == DisarmRaises
    ensures ModesListed(commands) && !Orderly(Run(d, Start(slots, limit), commands).ledger)
  {
    hide Run, AddWatch, SessionInv, UndisruptedOrder, Orderly;
    var start := Start(slots, limit);
    var full := FilledAfter(d, slots, limit, n, slots);
    var w := Run(d, start, full);
    EverySession(d, slots, limit, full);
    SoundLedger(w);
    WatchWaits(d, w, slots);
    RunAppend(d, start, full, Watch(AddAt(slots)));
    var waiting := AddWatch(d, w, AddAt(slots));
    var last := full + [Watch(AddAt(slots))];
    EverySession(d, slots, limit, last);
    RunAppend(d, start, last, ClearAt(0));
    commands := last + [ClearAt(0)];
    ClearedOne(d, waiting, 0);
    if Orderly(waiting.ledger) { ClearKeepsOrderExactly(d, waiting, 0); } else { commands := last; }
  }

  lemma ClearedOne(d: Debugger, w: World, addr: Addr)
    ensures Clear(d, w, [addr]) == ClearOne(d, w, addr).0
  {
    assert [addr][1..] == [];
  }

  /** Main result: where arming works, every session keeps the slots busy and the order of requests if and
      only if no call that disables a watchpoint raises. */
  lemma WorkConservedExactly(d: Debugger, slots: nat, limit: nat)
    requires Arms(d) && slots > 0 && limit > 0
    ensures (forall commands :: ModesListed(commands) ==> Orderly(Run(d, Start(slots, limit), commands).ledger))
      <==> Disables(d)
  {
    hide Run, Orderly;
    if Disables(d) {
      forall commands | ModesListed(commands) ensures Orderly(Run(d, Start(slots, limit), commands).ledger) {
        SteadySessionsAreOrderly(d, slots, limit, commands);
      }
    } else {
      var n :| d.disarm(n) == DisarmRaises;
      var commands := RaisingDisableIdles(d, slots, limit, n);
    }
  }
}
