# A verified model of GlassPane's control code

GlassPane lets an agent look at and drive a macOS app. This project models the parts of it whose
behaviour is hard to see from one function at a time, and proves what they promise:

* **the lldb bridge** (`bridge/glasspane_bridge.py`): the hardware-watchpoint ledger with the
  commands and the stop hook that drive it beside a fallible debugger; the sentinel channel that
  carries one JSON payload through arbitrary output, and the cap that drops the middle of that
  output; the verdict, completeness and timeline functions on top;
* **the installer** (`installer/cli.js`): replacing app bundles under file-system faults, moving an
  existing git clone to the pinned ref, restoring the launch agent with the user's consent, the
  property-list and shell-quoting codecs;
* **three smaller algorithms**: the dependency closure and the NDJSON client of
  `engine/.p6_smoke.py`, and the key-sorting canonicaliser of `mcp-shell/src/canonical.ts`.

Code that updates an object in place is a class here (`WatchQueues.WatchQueue`,
`WatchBridges.WatchBridge`, `Bundles.FileSystem`, `CloneAdvance.Git`, `LaunchdRestore.Session`,
`NdjsonClient.SocketClient`), and loops are loops. The watchpoint methods are tied, state for state,
to functions on a value (`WatchLedger.Ledger`, `WatchSession.World`), and the theorems over whole
sessions are about those functions.

The outside world is arbitrary everywhere. The debugger, the file system, git and launchd are
streams of answers that no theorem restricts unless it says so; `json.loads` is any partial function
from text to values; the chunks of a socket are any non-empty pieces of a stream.

| files | what they hold |
|---|---|
| `WatchLedger`, `WatchLedgerInvariants`, `WatchQueue` | the ledger as a value, what each operation keeps, the object |
| `WatchSession`, `WatchSessionInvariants`, `WatchTheorems`, `WatchEffects`, `WatchScheduling`, `WatchHandles`, `WatchBridge` | debugger and commands, the session invariant, theorems over runs, what each command does to which request, what breaks the order, what becomes of the handles, the drivers |
| `Text`, `Sentinel`, `SentinelTheorems`, `PairSelection`, `Utf8`, `RetainedOutput`, `Verdict`, `ChildVerdict` | the payload channel, from one emission to the exit code for a whole child output |
| `CaptureResult`, `Timeline` | what a payload says about what it left out, and about time |
| `Bundles`, `CloneAdvance`, `LaunchdRestore`, `Plist`, `ShellQuote`, `JsText` | the installer |
| `DependencyClosure`, `NdjsonClient`, `CanonicalForm`, `KeyOrder` | the smaller algorithms |

## What the proofs turned up

Where a promise fails, the code is modelled as it is and the exact condition is proved.

* `take_slot` notes an occupied slot and arms all the same. It keeps the ledger sound exactly when
  its caller freed the slot first (`TakeSlotExactly`, `TakeSlotAloneSharesASlot`); the commands do.
* Slots do not stay busy merely because arming succeeds. If the call that disables a fired watchpoint
  raises, the pass ends before the freed slot is offered on, and a request waits behind an idle slot.
  Where arming works, every session keeps slots busy and requests in order if and only if no disable
  call raises (`WorkConservedExactly`). For one slot the exact condition covers refused promotions too:
  `HitKeepsOrderExactly`, `ClearKeepsOrderExactly`, `PromotionKeepsOrderExactly`. A new request then
  overtakes the waiting ones (`AddOvertakes`).
* Reconciling the same stop again changes nothing exactly when all its rows are in the bookkeeping
  set (`LookChangesNothingExactly`); with room in the set, exactly when the first look came to all of them
  (`ReconcileTwice`). Emptying a full set in mid-pass makes a counted stop count again
  (`FullBookCountsAgain`), and a raising disable call leaves later rows to the second look
  (`BrokenLookCountsLater`).
* A handle whose disabling failed is promised to stay for a retry. Arming its address again overwrites it
  (`HandleLostExactly`); all unconfirmed handles are still held exactly when that never happened
  (`EveryHandle`).
* Several parseable pairs under the run's nonce are promised to be declared. The scanner sees only what the
  cap has kept, so a pair in the dropped middle takes the declaration with it: a stream judged 1 as printed
  is then endorsed (`AmbiguityDropped`; `TwoPairsEndorsed` under the module's own limits). The payload and
  the verdict survive the cap exactly when the number of pairs stays on its side of one
  (`CapKeepsPayloadExactly`, `VerdictKeptExactly`), and the pairs are the same ones when none reaches into
  the dropped middle (`CapKeepsPairs`).
* A first observation without a stop id is kept, and a known one behind it counts as another stop although
  the two cannot be told apart. A series is reported as measured exactly when two known stops differ, or in
  that case (`MeasuredExactly`, `UnknownFirstStop`).
* The restore command reports success after a restart even if the restarted daemon does not answer
  (`OkWithoutDaemon`); otherwise success means it answered (`RestoreLaunchd`).
* An emission is read back for every nonce without `<`, except one that itself contains the end
  marker followed by a newline (`HijackableNonceLosesText`).
* `cap_retained_output` says its result is always within the limit. It is exactly when nothing had to be
  dropped, or the tail window lies in the text and the drop marker, with what U+FFFD adds at the two cuts,
  fits in the room beside it (`RetainedWithinLimit`). With a tail window of 0 the slice `data[-0:]` is the
  whole input (`NothingUncounted`).
* The failure texts of bundle placement speak of last round's bundle and of a removed staged copy. A text
  is true exactly when there was a bundle to replace and the failing step is not the moving aside of it,
  which leaves the staged copy (`TextTrueExactly`, `UntrueTexts`).
* The comment at `installer/cli.js:3267` reserves `FETCH_HEAD` for runs that fetched. The look taken after
  a checkout reads it in every run. A ready clone rests on a `FETCH_HEAD` of somebody else exactly when
  this run made a checkout, fetched nothing itself, and the ref no longer resolves in the look after it
  (`AdvanceExistingClone`); `ForeignFetchHead` is such a run.
* A clone whose status output has only blank lines is not dirty, but is never fetched for either; it
  comes back as an unfinished advance (`Pending`).
* `sortKeys` gives one canonical order, but array-index keys enumerate by value. Keys come out in
  code-unit order exactly when the indices among them already agree with it
  (`LexicographicExactly`, `IndicesAreNotLexicographic`).

## Model

| member | source | states |
|---|---|---|
| WatchLedgerInvariants.FreshInv | bridge/glasspane_bridge.py:162-176 | a new ledger satisfies the invariant and is in request order |
| WatchLedgerInvariants.AddNoteInv | bridge/glasspane_bridge.py:186-194 | a caveat changes nothing but the bounded caveat list and its overflow count |
| WatchLedgerInvariants.AddInv | bridge/glasspane_bridge.py:233-257 | `add` keeps the ledger invariant: distinct slots below the slot count, one active request per address, every issued number in exactly one of armed, queued, spent and removed, hits only for spent generations, the queue increasing and bounded |
| WatchLedgerInvariants.AddOrderly | bridge/glasspane_bridge.py:233-257 | `add` arms nobody ahead of a waiting request and leaves no slot idle while one waits |
| WatchLedgerInvariants.Capacity | bridge/glasspane_bridge.py:200-205 | at most `slot_count` requests are armed, and there is a free slot exactly when fewer are |
| WatchLedgerInvariants.AddExactly | bridge/glasspane_bridge.py:233-257 | which of duplicate, armed, queued and rejected a request gets, as an if-and-only-if over what is active and how full the slots and the queue are; the slot is the lowest free one; a duplicate changes nothing |
| WatchLedgerInvariants.TakeSlotInv | bridge/glasspane_bridge.py:259-275 | promotion into a slot that is free keeps the invariant |
| WatchLedgerInvariants.TakeSlotExactly | bridge/glasspane_bridge.py:259-275 | `take_slot` keeps the invariant if and only if nothing waits or the slot exists and is free |
| WatchLedgerInvariants.TakeSlotOrderly | bridge/glasspane_bridge.py:259-275 | refilling the only free slot restores request order with no idle slot |
| WatchLedgerInvariants.CreditAndReleaseInv | bridge/glasspane_bridge.py:277-342 | `record_hit` followed by `release` keeps the invariant |
| WatchLedgerInvariants.CreditAndReleaseEffect | bridge/glasspane_bridge.py:277-342 | the armed generation, never credited before, gets exactly one hit; exactly its slot comes back; the queue is untouched |
| WatchLedgerInvariants.NotYetHit | bridge/glasspane_bridge.py:223-224 | an armed or queued request has hit count 0 |
| WatchLedgerInvariants.AbandonInv | bridge/glasspane_bridge.py:288-304 | `abandon` keeps the invariant |
| WatchLedgerInvariants.AbandonExactly | bridge/glasspane_bridge.py:288-304 | `abandon` removes exactly the request at the address from the active lists and credits nothing |
| WatchLedgerInvariants.DropInv | bridge/glasspane_bridge.py:306-316 | `drop` keeps the invariant and frees exactly the slot it reports |
| WatchLedgerInvariants.DropExactly | bridge/glasspane_bridge.py:306-316 | `drop` removes exactly the request at the address; the phase and slot it reports are that request's |
| WatchLedgerInvariants.MarkLiveInv | bridge/glasspane_bridge.py:226-231 | confirming an armed request keeps the invariant and every slot |
| WatchQueues.WatchQueue.constructor | bridge/glasspane_bridge.py:162-176 | the object starts as the empty ledger |
| WatchQueues.WatchQueue.Note | bridge/glasspane_bridge.py:186-194 | the object's state changes as the ledger value's does under a caveat |
| WatchQueues.WatchQueue.FreeSlot | bridge/glasspane_bridge.py:200-205 | the loop finds the free slot the specification names, or none |
| WatchQueues.WatchQueue.Add | bridge/glasspane_bridge.py:233-257 | whole new state and answer of `add` on the object |
| WatchQueues.WatchQueue.TakeSlot | bridge/glasspane_bridge.py:259-275 | whole new state and answer of `take_slot` on the object |
| WatchQueues.WatchQueue.Release | bridge/glasspane_bridge.py:277-286 | whole new state and answer of `release` on the object |
| WatchQueues.WatchQueue.Abandon | bridge/glasspane_bridge.py:288-304 | whole new state of `abandon` on the object |
| WatchQueues.WatchQueue.Drop | bridge/glasspane_bridge.py:306-316 | whole new state and answer of `drop` on the object |
| WatchQueues.WatchQueue.RecordHit | bridge/glasspane_bridge.py:318-342 | whole new state and answer of `record_hit` on the object |
| WatchQueues.WatchQueue.NoteStopObserved | bridge/glasspane_bridge.py:344-345 | one more observed stop, nothing else |
| WatchQueues.WatchQueue.MarkLive | bridge/glasspane_bridge.py:226-231 | whole new state of `mark_live` on the object |
| WatchSession.Track | bridge/glasspane_bridge.py:2302 | storing a handle makes it the address's handle; every other address keeps its own |
| WatchSession.Untrack | bridge/glasspane_bridge.py:2327-2329 | forgetting a handle removes that key and no other; every other address keeps its handle |
| WatchSession.AddrForId | bridge/glasspane_bridge.py:2345-2352 | the address found is that of the first tracked handle that answers with the id at this stop; none is found exactly when no handle does |
| WatchSessionInvariants.ArmInv | bridge/glasspane_bridge.py:2265-2304 | arming keeps the ledger invariant and that live entries have handles, whatever the debugger answers; counts and order do not move |
| WatchSessionInvariants.DisarmInv | bridge/glasspane_bridge.py:2307-2342 | disabling never touches the ledger, and loses a handle only when the debugger confirmed it |
| WatchSessionInvariants.PromoteInv | bridge/glasspane_bridge.py:2355-2365 | promotion keeps the invariant and every count, whether arming succeeds, is refused or raises |
| WatchSessionInvariants.PromoteOrder | bridge/glasspane_bridge.py:2355-2365 | promotion into the one free slot restores request order unless it failed |
| WatchSessionInvariants.StrayStopInv | bridge/glasspane_bridge.py:2458-2469 | a stop nothing is armed for adds one to that address's unattributed count, to no hit, and moves no slot and no request |
| WatchSessionInvariants.HitInv | bridge/glasspane_bridge.py:2458-2481 | a stop at an armed address keeps invariant, accounts and order through hit, release, disable and promotion |
| WatchSessionInvariants.RefillInv | bridge/glasspane_bridge.py:2470-2481 | offering a freed slot to the queue keeps the session invariant |
| WatchSessionInvariants.RowInv | bridge/glasspane_bridge.py:2433-2481 | one thread row keeps the session invariant and the order |
| WatchSessionInvariants.RowsInv | bridge/glasspane_bridge.py:2433-2481 | so does the walk over any rows, wherever an exception ends it |
| WatchSessionInvariants.ReconcileInv | bridge/glasspane_bridge.py:2396-2486 | so does a whole reconciliation, with an unreadable, oversized or vanished process |
| WatchSessionInvariants.AddWatchInv | bridge/glasspane_bridge.py:3008-3033 | `gp-watch add` keeps the session invariant, including when the debugger refuses the slot |
| WatchSessionInvariants.AddWatchOrder | bridge/glasspane_bridge.py:3008-3033 | and the order: a withdrawn reservation leaves nobody waiting behind an idle slot |
| WatchSessionInvariants.ArmQueuedInv | bridge/glasspane_bridge.py:3060-3083 | `gp-queue arm` keeps the session invariant and the order |
| WatchSessionInvariants.ClearOneInv | bridge/glasspane_bridge.py:3103-3115 | clearing one address keeps them too |
| WatchSessionInvariants.ClearInv | bridge/glasspane_bridge.py:3090-3115 | `gp-queue clear`, one address or all, keeps them too |
| WatchSessionInvariants.ExecuteInv | bridge/glasspane_bridge.py:3037-3057 | every command keeps them |
| WatchSessionInvariants.RunInv | bridge/glasspane_bridge.py:2396-3116 | every sequence of commands keeps them |
| WatchTheorems.EverySession | bridge/glasspane_bridge.py:136-345 | after any session with any debugger: the ledger invariant; live entries have handles; observed stops = credited + unattributed + unmatched; and request order unless a promotion was refused or a raising disable call kept a slot from being offered |
| WatchTheorems.OneShot | bridge/glasspane_bridge.py:136-149 | after any session armed and queued requests have 0 hits and spent ones exactly 1 for their own generation |
| WatchTheorems.HitsPromoteOldest | bridge/glasspane_bridge.py:2433-2481 | with no refused promotion and no raising disable call, a pass that credits n hits arms exactly the n oldest waiting requests, in order |
| WatchTheorems.SteadySessionsAreOrderly | bridge/glasspane_bridge.py:233-275 | where no arming is refused and no disable call raises, after any session a waiting request means every slot is armed, and requests were armed in the order they were made |
| WatchTheorems.RunCalm | bridge/glasspane_bridge.py:2355-2365 | under those two conditions no session ever loses a slot or a promotion |
| WatchTheorems.ArmQueuedRefills | bridge/glasspane_bridge.py:3060-3083 | where arming succeeds, a large enough `gp-queue arm` leaves no slot idle while a request waits |
| WatchTheorems.RowStops | bridge/glasspane_bridge.py:2441-2450 | a row is counted as a stop exactly when it is a watchpoint stop not yet in the bookkeeping set, and is skipped whole otherwise |
| WatchTheorems.RowsRemember | bridge/glasspane_bridge.py:2441-2450 | with room in the set, a pass enters exactly the rows it comes to |
| WatchTheorems.ReconcileTwice | bridge/glasspane_bridge.py:2396-2486 | with room in the set: a second look at a stop changes nothing but caveats if and only if every row it can read was in the set or is one the first look came to; an unbroken first look comes to all of them |
| WatchTheorems.LookChangesNothingExactly | bridge/glasspane_bridge.py:2403-2404 | a look changes nothing but caveats if and only if every row it can read is in the set already |
| WatchTheorems.FullBookCountsAgain | bridge/glasspane_bridge.py:2444-2448 | emptying a full set makes a stop counted before it count again |
| WatchTheorems.BrokenLookCountsLater | bridge/glasspane_bridge.py:2470-2485 | a disable call that raises ends the first look, and the second counts the row behind it |
| WatchTheorems.TakeSlotAloneSharesASlot | bridge/glasspane_bridge.py:266-275 | a sound ledger on which `take_slot` alone puts two requests on one slot |
| WatchEffects.ArmConfirms | bridge/glasspane_bridge.py:2302-2303 | a watchpoint that is created makes exactly the request armed at its address live and changes nothing else in the ledger; any other answer changes nothing |
| WatchEffects.CreatedAddIsLive | bridge/glasspane_bridge.py:3009-3014 | a request that is added to a free slot and created is armed and live; all others are as before |
| WatchEffects.CreatedPromotionIsLive | bridge/glasspane_bridge.py:2355-2365 | a promotion that is created moves exactly the oldest waiting request into the freed slot, armed and live |
| WatchEffects.ArmedOutcome | bridge/glasspane_bridge.py:2278-2304 | arming fails exactly for an unlisted mode or a refusal, and raises exactly when the call raises or the new watchpoint does not tell its id |
| WatchEffects.RefusedAddLeavesNothing | bridge/glasspane_bridge.py:3015-3019 | a refused `gp-watch add` leaves the armed and the waiting requests exactly as they were |
| WatchEffects.UnarmedAddAsksNothing | bridge/glasspane_bridge.py:3020-3033 | a duplicate, or a request with every slot taken, asks the debugger nothing; a duplicate changes nothing at all |
| WatchEffects.ClearOneClears | bridge/glasspane_bridge.py:3103-3115 | clearing an address leaves no active request there and makes none active |
| WatchEffects.ClearClears | bridge/glasspane_bridge.py:3090-3115 | a clear that runs to its end leaves no active request at any of its targets |
| WatchEffects.ClearAllEmptiesQueue | bridge/glasspane_bridge.py:3095-3096 | a clear of everything that runs to its end leaves nothing waiting |
| WatchEffects.StopCharged | bridge/glasspane_bridge.py:2441-2481 | a new stop is one hit for the generation armed at the address whose handle answers, or one unattributed stop there, or one unmatched stop; it costs one disable call, and a confirmed one lets the handle go |
| WatchEffects.RowBreaksExactly | bridge/glasspane_bridge.py:2482-2485 | a row ends the pass if and only if it cannot be read, its disable call raises, or the arming call of the request it promotes raises |
| WatchEffects.LookCounts | bridge/glasspane_bridge.py:2425-2450 | with room and nothing breaking off, a look counts each watchpoint stop in the first 64 rows that was not counted before, once, and no other |
| WatchEffects.ArmQueuedExactly | bridge/glasspane_bridge.py:3060-3083 | where arming works, as many of the oldest waiting requests are armed as asked for, as far as requests and slots go |
| WatchEffects.ArmHeadsExactly | bridge/glasspane_bridge.py:3068 | the command asks for 64 at most |
| WatchEffects.CaveatsKept | bridge/glasspane_bridge.py:186-194 | of any sequence of caveats the first 24 are kept in order, and the rest are counted behind one mark |
| WatchEffects.CaveatsTold | bridge/glasspane_bridge.py:266-342 | a caveat is added for an occupied slot, for the first stray stop at an address and for a hit on an unconfirmed request, and for nothing else there |
| WatchScheduling.PromotionKeepsOrderExactly | bridge/glasspane_bridge.py:2355-2365 | offering the one free slot keeps the order if and only if it is not the case that two requests wait and the arming call for the first is refused or its mode is unlisted; a refusal leaves the slot free |
| WatchScheduling.RefillKeepsOrderExactly | bridge/glasspane_bridge.py:2470-2481 | disabling and refilling keeps the order if and only if nothing waits, or the disable call does not raise and the promotion is not so refused |
| WatchScheduling.HitKeepsOrderExactly | bridge/glasspane_bridge.py:2458-2481 | the same if-and-only-if for a whole stop at an armed address, read off the state before it |
| WatchScheduling.ClearKeepsOrderExactly | bridge/glasspane_bridge.py:3103-3115 | and for clearing an armed address |
| WatchScheduling.DisruptedExactly | bridge/glasspane_bridge.py:2470-2481 | the history flag of the run theorems is raised by a refill exactly when its disable call raises or its promotion is refused |
| WatchScheduling.AddOvertakes | bridge/glasspane_bridge.py:250-254 | with a slot idle and a request waiting, a new address is armed ahead of it |
| WatchScheduling.RaisingDisableIdles | bridge/glasspane_bridge.py:2470-2485 | every disable call that raises is reached by a session that ends with a request waiting behind an idle slot, although arming always succeeds |
| WatchScheduling.WorkConservedExactly | bridge/glasspane_bridge.py:2396-3116 | where arming works, with at least one slot and room for one waiting request, all sessions keep slots busy and requests in order if and only if no disable call raises |
| WatchHandles.HandleLostExactly | bridge/glasspane_bridge.py:2307-2315 | a held handle is lost without a disable call if and only if arming its address creates another one |
| WatchHandles.EveryHandle | bridge/glasspane_bridge.py:2302-2342 | after any session: handles created = handles held + disables confirmed + handles overwritten; so all unconfirmed ones are held if and only if none was overwritten |
| WatchBridges.WatchBridge.ArmWatchpoint | bridge/glasspane_bridge.py:2265-2304 | whole new state and outcome of arming, per debugger answer |
| WatchBridges.WatchBridge.DisarmWatchpoint | bridge/glasspane_bridge.py:2307-2342 | whole new state and outcome of disabling |
| WatchBridges.WatchBridge.PromoteAndArmInto | bridge/glasspane_bridge.py:2355-2365 | whole new state and outcome of a promotion |
| WatchBridges.WatchBridge.CreditStop | bridge/glasspane_bridge.py:2458-2481 | whole new state of crediting a stop, and whether an exception ended the pass |
| WatchBridges.WatchBridge.ObserveStop | bridge/glasspane_bridge.py:2444-2450 | whole new state after a stop is entered in the bookkeeping set and counted |
| WatchBridges.WatchBridge.ReconcileThread | bridge/glasspane_bridge.py:2433-2481 | whole new state after one row |
| WatchBridges.WatchBridge.ReconcileStops | bridge/glasspane_bridge.py:2396-2486 | the walk over at most 64 rows computes the specified reconciliation |
| WatchBridges.WatchBridge.GpWatchAdd | bridge/glasspane_bridge.py:3008-3033 | whole new state after `gp-watch add` |
| WatchBridges.WatchBridge.GpQueueArm | bridge/glasspane_bridge.py:3060-3083 | the counted loop computes the specified promotions |
| WatchBridges.WatchBridge.GpQueueClear | bridge/glasspane_bridge.py:3090-3115 | the loop over targets computes the specified removals |
| WatchBridges.WatchBridge.Session | bridge/glasspane_bridge.py:2489-3116 | a session of commands on the objects is the specified run, and ends in a sound state |
| Sentinel.ExtractSentinel | bridge/glasspane_bridge.py:789-844 | the scanning loop selects the last parseable pair, marked ambiguous when a nonce is in play and more than one parses |
| Sentinel.EndHasNoBorder | bridge/glasspane_bridge.py:784-786 | two end markers never overlap |
| Sentinel.BeginHasNoBorder | bridge/glasspane_bridge.py:778-781 | two begin markers never overlap, for every nonce without `<` |
| SentinelTheorems.ScanReaches | bridge/glasspane_bridge.py:815-825 | the scan visits every begin marker there is |
| SentinelTheorems.ScanShifted | bridge/glasspane_bridge.py:815-825 | candidates from a position on depend only on the text from there on |
| SentinelTheorems.HeadThenTail | bridge/glasspane_bridge.py:815-825 | text between complete pairs and a tail, in which no marker begins, does not matter to the scan |
| SentinelTheorems.FirstEnd | bridge/glasspane_bridge.py:818-822 | a body without an end marker is cut exactly at its own end marker, whatever follows |
| SentinelTheorems.NoLaterBegin | bridge/glasspane_bridge.py:1107 | no begin marker arises in, across or behind an emission followed by a newline |
| SentinelTheorems.EmissionIsSelected | bridge/glasspane_bridge.py:778-844 | extracting from prefix + emission + newline-started suffix returns exactly the emitted text, for every prefix and all well-behaved texts and suffixes; with no earlier begin marker the payload is unmarked |
| SentinelTheorems.EmittedTwice | bridge/glasspane_bridge.py:800-814 | two complete emissions are two candidates, whatever stands before and between them |
| SentinelTheorems.HijackableNonceLosesText | bridge/glasspane_bridge.py:778-844 | under any other nonce without `<` some well-behaved text and suffix are read back wrongly: the condition on the nonce is exact |
| PairSelection.CandidatesExactly | bridge/glasspane_bridge.py:814-825 | the candidates are exactly the parseable pairs of the text, in order of position: a begin marker, a body up to the first end marker behind it, and what the body parses to |
| PairSelection.SelectedExactly | bridge/glasspane_bridge.py:826-844 | the last parseable pair is selected; its payload is marked if and only if it is an object, a nonce is in play and another pair stands before it |
| PairSelection.NothingSelected | bridge/glasspane_bridge.py:826-827 | with no parseable pair there is no payload and the raw text is the whole |
| PairSelection.MalformedPassedOver | bridge/glasspane_bridge.py:797-799 | unterminated or unparseable pairs behind an emission leave its text selected, and before it leave its payload unmarked |
| PairSelection.StripExactly | bridge/glasspane_bridge.py:780 | stripping a nonce takes the white space off both ends and nothing else |
| PairSelection.BeginTellsNonces | bridge/glasspane_bridge.py:778-781 | two nonces have the same begin marker if and only if they strip to the same; a blank one has the plain marker |
| PairSelection.MarkKeeps | bridge/glasspane_bridge.py:829-843 | the mark adds itself and one error, and keeps every other member and error |
| Utf8.DecodeEncoded | bridge/glasspane_bridge.py:464-472 | decoding undoes encoding, whatever bytes follow |
| Utf8.DecodeSplits | bridge/glasspane_bridge.py:471-472 | no broken sequence swallows a following ASCII byte |
| Utf8.CutBefore | bridge/glasspane_bridge.py:456-459 | before a cut stand whole characters and the front bytes of the cut character, which decode to one U+FFFD |
| Utf8.CutAfter | bridge/glasspane_bridge.py:456-459 | behind a cut stand the remaining bytes of the cut character, all continuation bytes, and then whole characters |
| RetainedOutput.MarkerBytes | bridge/glasspane_bridge.py:126-129 | the drop marker is ASCII, starts with a newline and takes 62 bytes and the digits |
| RetainedOutput.MarkerTells | bridge/glasspane_bridge.py:469-470 | the marker names, in decimal, exactly the number of bytes dropped |
| RetainedOutput.Pieces | bridge/glasspane_bridge.py:467-472 | the retained text is decoded head + marker + decoded tail: the cuts do not interfere |
| RetainedOutput.NothingUncounted | bridge/glasspane_bridge.py:467-472 | head + dropped + tail bytes = input bytes if and only if the tail window is positive and fits |
| RetainedOutput.RetainedBytes | bridge/glasspane_bridge.py:456-461 | the re-encoded length is exactly head, marker and tail and the growth at the two cuts, which is at most eight bytes and computed from the text |
| RetainedOutput.RetainedWithinLimit | bridge/glasspane_bridge.py:449-472 | for every text, limit and tail: the result is within the limit if and only if nothing is dropped, or the tail window is positive and inside the text and marker and growth fit in the room |
| RetainedOutput.AsciiWithinLimitExactly | bridge/glasspane_bridge.py:460-461 | for ASCII output the growth is nothing, and the condition is the marker's length alone |
| RetainedOutput.DefaultLimits | bridge/glasspane_bridge.py:119-129 | with the module's limits the result is at most 32 MiB when fewer than 10^11 bytes are dropped |
| RetainedOutput.TailSurvives | bridge/glasspane_bridge.py:452-455 | what starts at an ASCII character inside the tail window is retained character for character |
| RetainedOutput.KeptParts | bridge/glasspane_bridge.py:467-472 | the retained text is a prefix of the text, a bridge in which no marker begins or ends, and a suffix of the text |
| RetainedOutput.CapKeepsSelection | bridge/glasspane_bridge.py:449-472 | if the last parseable pair starts in the tail window, the scanner selects the same body from the capped text, and without a nonce the same payload |
| RetainedOutput.CapKeepsPayloadExactly | bridge/glasspane_bridge.py:449-472 | under a nonce the payload is kept too if and only if it is no object, or several pairs are left exactly if there were several |
| RetainedOutput.CapKeepsPairs | bridge/glasspane_bridge.py:452-455 | if every begin marker before the tail window stands in the head window with its end marker, the retained text has the very same parseable pairs |
| RetainedOutput.EmissionSurvivesCap | bridge/glasspane_bridge.py:452-455 | an emission that fits the tail window is read back whole from the capped text |
| Verdict.NotesDoNotJudge | bridge/glasspane_bridge.py:1343-1376 | attaching notes to a payload never changes its exit code |
| Verdict.EndorsedExactly | bridge/glasspane_bridge.py:1880-1899 | for a retained text and a nonce, exit code 0 or 3 if and only if exactly one parseable pair is in it and that is an unmarked successful capture object; 3 only for a crash, 0 only without one |
| Verdict.ExitCodeExactly | bridge/glasspane_bridge.py:1721-1899 | 0, 1 and 3 over the members of the payload: status, threads, ambiguity mark, crash, stop reason, and the threads' stop reasons |
| Verdict.OthersFail | bridge/glasspane_bridge.py:1724-1725 | a payload that is no object is judged 1 |
| Verdict.RunVerdictExactly | bridge/glasspane_bridge.py:1523-1575 | a failed delivery is 2, no payload or one that is no object is 1, and any other is judged as it was read |
| Verdict.NotesAttached | bridge/glasspane_bridge.py:1343-1389 | notes go behind the errors an object has or lacks and touch nothing else; a payload that is no object becomes a failure that carries them |
| ChildVerdict.OuterEndorsedExactly | bridge/glasspane_bridge.py:1239-1242 | for the whole child output through the cap: endorsed if and only if one endorsable pair is left; where no pair reaches into the dropped middle, if and only if one was printed |
| ChildVerdict.VerdictKeptExactly | bridge/glasspane_bridge.py:1523-1575 | with the last pair in the tail window, the cap leaves the exit code alone if and only if that pair is not endorsable, or several pairs are left exactly if several were printed |
| ChildVerdict.AmbiguityDropped | bridge/glasspane_bridge.py:66-80 | two pairs under the nonce far enough apart are judged 1 as printed, and endorsed as the second one's capture after the cap |
| ChildVerdict.TwoPairsEndorsed | bridge/glasspane_bridge.py:119-129 | one such stream under the module's own limits |
| CaptureResult.CompletenessReport | bridge/glasspane_bridge.py:553-561 | the nested loops sum what the caps dropped |
| CaptureResult.TruncatedExactly | bridge/glasspane_bridge.py:717-752 | `truncated` is empty if and only if no thread, no reported frame and no read local is missing |
| CaptureResult.ThreadsAddUp | bridge/glasspane_bridge.py:717-730 | for every capture kept + dropped threads = threads read, and the kept ones are the first |
| CaptureResult.FramesAddUp | bridge/glasspane_bridge.py:533-550 | for every kept thread the total is the reported count, or the number read if none is reported; frames + dropped = the larger of total and frames read |
| CaptureResult.LocalsAddUp | bridge/glasspane_bridge.py:499-530 | for every frame kept + dropped = read locals, the kept ones are the first, and unread locals are marked unread |
| CaptureResult.MissingExactly | bridge/glasspane_bridge.py:731-740 | the published counts: frames reported or read less frames read, and locals read less locals in the payload, over the first 64 threads |
| Timeline.BuildTimeline | bridge/glasspane_bridge.py:675-714 | the folding loop keeps the numbered samples of the specification, the attempt count, and the measured flag |
| Timeline.KeptStops | bridge/glasspane_bridge.py:675-692 | every sample but the first has a known stop other than the one before it; the first observation is always kept, known or not |
| Timeline.KeptExactly | bridge/glasspane_bridge.py:685-692 | the kept observations stand at increasing places from the first on; each one between two of them is unknown or the earlier one's stop again, and no kept one is |
| Timeline.SamplesApartExactly | bridge/glasspane_bridge.py:675-692 | successive samples are known to come from different stops if and only if there is one sample at most or the first stop is known |
| Timeline.KeptIsStable | bridge/glasspane_bridge.py:675-692 | folding a timeline again changes nothing |
| Timeline.MeasuredExactly | bridge/glasspane_bridge.py:675-705 | several requested samples count as measured if and only if two known stops differ, or the first stop is unknown and all known ones are the same |
| Timeline.UnknownFirstStop | bridge/glasspane_bridge.py:682-690 | two reads that may be of one frozen stop are reported as measured |
| Plist.UnescapeEscape | installer/cli.js:1085-1094 | five sequential unescapes undo three sequential escapes, for every string |
| Plist.ProgramReadBack | installer/cli.js:1096-1107 | the program parsed from a rendered property list is the trimmed daemon path, for all labels and paths |
| Plist.LineFound | installer/cli.js:1067-1070 | the program line of a `launchctl print` text is the one found, if no earlier line starts with its words |
| Plist.NoProgramLine | installer/cli.js:1067-1070 | a text no line of which starts with those words names no program |
| Plist.ReregisterExactly | installer/cli.js:1079-1083 | for any two programs, a loaded job needs to be registered again if and only if the one it reports is blank or is not, trimmed, the rendered one; and always if either cannot be read |
| Plist.KeptExactly | installer/cli.js:1079-1083 | a loaded job is kept if and only if a program was read for it that is not empty and is the one wanted |
| Plist.MatchingJobIsKept | installer/cli.js:1079-1083 | a loaded job reporting the rendered program needs re-registration if and only if that program is blank |
| ShellQuote.JoinSplit | installer/cli.js:61-66 | splitting on quotes and joining with splices replaces each quote by a splice |
| ShellQuote.QuotedRead | installer/cli.js:54-66 | the shell reads a quoted argument as one word and stands right behind it |
| ShellQuote.CommandLineRead | installer/cli.js:3364 | a command line joined from quoted arguments tokenizes to exactly those arguments |
| ShellQuote.ArgumentRead | installer/cli.js:54-66 | a quoted argument tokenizes to itself, including the empty one |
| ShellQuote.BareExactly | installer/cli.js:51-66 | an argument is left bare if and only if it is not empty, has only inert characters and does not start with a hyphen |
| Bundles.Stage | installer/cli.js:985-987 | staging changes nothing but the staged path; success leaves a whole copy there |
| Bundles.PutBack | installer/cli.js:1001-1011 | after a failed renaming the old bundle goes back if it was moved aside, in at most one more operation |
| Bundles.SwapIn | installer/cli.js:988-1022 | every state of the two renames, the way back and the clean-up keeps the target whole or the old and new bundle side by side; what each outcome says of the disk holds |
| Bundles.PlacePair | installer/cli.js:974-1022 | the same for one pair of the loop; without a fault the pair is installed and nothing is left over |
| Bundles.OutcomeExactly | installer/cli.js:974-1022 | the outcome of a pair read off the operations that succeed: which step fails, when the old bundle stays parked (moved aside, placing and way back both failed), when something is left over |
| Bundles.OneFaultRestores | installer/cli.js:1001-1011 | one fault alone never leaves a pair's old bundle parked |
| Bundles.TextTrueExactly | installer/cli.js:900-936 | for every fault: the failure text is true if and only if there was a bundle to replace and the failing step is not its moving aside |
| Bundles.UntrueTexts | installer/cli.js:900-936 | each of the three kinds of untrue text is reached: a failed copy and a failed placing of a first install, and a failed moving aside |
| Bundles.StepIsSafe | installer/cli.js:974-1022 | a pair's steps disturb neither earlier nor later pairs |
| Bundles.ToldStays | installer/cli.js:974-1022 | what earlier outcomes said stays true |
| Bundles.InstallBundles | installer/cli.js:955-1025 | for any number of pairs and any faults: every state of the run keeps every target safe, outcomes hold, pairs behind a failure are untouched, a throw means a fault, the declined targets are exactly those the confirmation question lists, and with one fault at most every target that was there is there at the end |
| CloneAdvance.ReadFacts | installer/cli.js:3243-3279 | the facts are the latest answers of git and nothing was changed to get them; a directory that is not its own toplevel yields none |
| JsText.TrimExactly | installer/cli.js:3169 | trimming takes the white space off both ends and nothing else |
| JsText.LinesExactly | installer/cli.js:3276 | the lines of an output are its pieces between line breaks, without the empty ones |
| CloneAdvance.DirtyExactly | installer/cli.js:3169-3170 | a status output is clean if and only if it is nothing but white space |
| CloneAdvance.OursExactly | installer/cli.js:3095-3112 | the clone is ours if and only if git names a toplevel that is, canonically, the directory |
| CloneAdvance.DecisionExactly | installer/cli.js:3158-3227 | over the replies: refused if and only if it is not ours, names something uncommitted, or has no HEAD; used if and only if ref and HEAD name one commit; advanced to the ref's commit otherwise |
| CloneAdvance.RemoteExactly | installer/cli.js:3289-3300 | the remote is `origin` if listed, else the only one there is, else none |
| CloneAdvance.ResolveTag | installer/cli.js:3270 | the ref's commit, or the fetched one when asked for and needed |
| CloneAdvance.FetchRef | installer/cli.js:3339-3371 | fetches only what the answers justify, and shallowly only if git said the clone is shallow |
| CloneAdvance.SwitchTo | installer/cli.js:3383-3410 | ready only if the answers after the checkout say so; otherwise the checkout failed or missed |
| CloneAdvance.UseIsAtResolved | installer/cli.js:3158-3206 | the decision to use a clone implies it is ours, clean and at the commit that the ref, or this run's own fetch, names |
| CloneAdvance.ForeignFetchHead | installer/cli.js:3383-3409 | a run of git's answers in which that happens |
| CloneAdvance.AdvanceIsJustified | installer/cli.js:3372-3383 | the decision to advance implies every condition on a checkout |
| CloneAdvance.AdvanceExistingClone | installer/cli.js:3316-3410 | over all answers, log and result as specified; checkouts and fetches only when justified, and only while the latest replies name this directory, nothing uncommitted and a HEAD; ready only at the resolved commit with nothing uncommitted, `advanced` exactly if a checkout was made; without a checkout the commit is the ref's or this run's own fetch's, and with one the exact exception is stated; refused only for an obstacle that the answers show |
| LaunchdRestore.LaunchctlBootstrap | installer/cli.js:1173-1241 | boots out only with leave, stops at a failed bootout, declines without touching anything; leaves a loaded job alone if and only if the program it reports is not empty and is the one on disk; a bootstrap counts as done with exit status 0 or 5 or the word "already"; `already` exactly if launchd did not newly take the job |
| LaunchdRestore.Register | installer/cli.js:1494-1533 | one attempt without leave, a question, one attempt with leave: consent, refusal and outcome hold over the whole run |
| LaunchdRestore.Settle | installer/cli.js:1534-1565 | restarts at most once, only a job that was already loaded and whose answer was not "granted"; the reported action is what happened |
| LaunchdRestore.Continues | installer/cli.js:1534-1565 | the follow-up cannot break what the registration kept |
| LaunchdRestore.RestoreLaunchd | installer/cli.js:1457-1574 | every run: no bootout without a yes, nothing after a failed bootout, a no means nothing was done, a job found matching at any look is left alone from then on, at most one kickstart, only after an ungranted hello and never of a job this run loaded; each action reported is true of the run; success if and only if the daemon answered in it, and then it answers still unless it was restarted and fell silent |
| LaunchdRestore.OkWithoutDaemon | installer/cli.js:1550-1574 | a run that reports success although the restarted daemon does not answer |
| DependencyClosure.ClosedHoldsReachable | engine/.p6_smoke.py:124-152 | a set closed under dependencies that holds the start holds everything reachable |
| DependencyClosure.TargetSourceRoots | engine/.p6_smoke.py:124-152 | on every graph, cycles included, the worklist ends with the directories of exactly the reachable declared targets and exactly the reachable undeclared names, each sorted once |
| DependencyClosure.JoinedPath | engine/.p6_smoke.py:150 | an absolute path stands for itself, any other one behind the directory, one slash apart |
| DependencyClosure.JoinAssociates | engine/.p6_smoke.py:150 | directories may be joined first or last |
| KeyOrder.SortedSetSorts | engine/.p6_smoke.py:152 | the sorted listing is ascending and has exactly the given names |
| KeyOrder.LessExactly | engine/.p6_smoke.py:152 | the order: a proper prefix comes first, otherwise the first unit that differs decides |
| NdjsonClient.SocketClient.Call | engine/.p6_smoke.py:703-724 | outcome and leftover of a call are those of the whole stream, however it was cut into pieces |
| NdjsonClient.SocketClient.ReadBuffered | engine/.p6_smoke.py:712-720 | the inner loop decides from complete lines or leaves a buffer without a newline |
| NdjsonClient.ServeByLines | engine/.p6_smoke.py:712-720 | a call answers with the first deciding line of the stream and leaves exactly the lines behind it |
| NdjsonClient.CallExactly | engine/.p6_smoke.py:711-720 | a call passes over blank lines and replies with another id, ends at the first other line with what that line's frame says, and leaves the lines behind it |
| NdjsonClient.LinesRejoin | engine/.p6_smoke.py:712-713 | the lines with their newlines and the remainder are the stream, and none holds a newline |
| NdjsonClient.CallsSeeLines | engine/.p6_smoke.py:703-724 | successive calls agree with splitting the whole stream on newlines |
| CanonicalForm.SortKeysInto | mcp-shell/src/canonical.ts:10-35 | the loops over items and sorted keys compute the canonical form |
| CanonicalForm.FilledInOrder | mcp-shell/src/canonical.ts:29-32 | a record filled from ascending keys enumerates indices by value, then the other keys, with every value in its place |
| CanonicalForm.IndexExactly | mcp-shell/src/canonical.ts:29-32 | the keys that enumerate first are the decimal numerals of the numbers below 2^32 - 1, and they enumerate as numbers |
| CanonicalForm.NothingLost | mcp-shell/src/canonical.ts:17-28 | no member is lost or added at any depth, whatever its name |
| CanonicalForm.ResultOrdered | mcp-shell/src/canonical.ts:29-32 | every object at every depth enumerates in the canonical order |
| CanonicalForm.CanonicalExactly | mcp-shell/src/canonical.ts:1-8 | the result is the one ordered value with the same members |
| CanonicalForm.SortsAlike | mcp-shell/src/canonical.ts:1-8 | values that differ only in creation order have the same canonical form |
| CanonicalForm.SortsOnce | mcp-shell/src/canonical.ts:1-8 | sorting twice is sorting once |
| CanonicalForm.LexicographicExactly | mcp-shell/src/canonical.ts:2 | keys enumerate in code-unit order if and only if each array index precedes, in that order, every larger index and every other key |
| CanonicalForm.IndicesAreNotLexicographic | mcp-shell/src/canonical.ts:29-32 | "10" and "9" sort one way and enumerate the other |

## Left out

Of the modelled code:

- Texts of caveats, errors, remedies and usage messages are tags; `snapshot`, `integrity_notes`, the records of section 6.4 and `set_rearm` only read the ledger.
- The words of a command line, address syntax and the watch size are not parsed; a mode string is one of the three valid ones or "unlisted".
- Addresses are abstract identities instead of canonical hexadecimal strings; the missing address is a separate case.
- Debugger-side failures are three outcomes (done, refused, raised); which lldb call failed is not distinguished.
- History fields (`removed`, `placed`, `unmatched`, `disrupted`, `replaced`) are ghost state the source does not have; no modelled decision reads them.
- Lone surrogates and the `bytes` input of `cap_retained_output`: strings are sequences of Unicode scalar values.
- `json.loads` failing with something other than a decode error, and JSON printing.
- `ChildVerdict.OuterEndorsedExactly`: covers the two arms of `run_outer` that read the child's output, including the one after a timeout, which delivers and judges a pair it finds there like any other; a child run that cannot be started or breaks off delivers a failed payload with code 2 and is not modelled. Debugger state and stop-reason names are an abstract vocabulary.
- `thread_entry` and `frame_record` fields that are copied through, and the text cut by `truncate`.
- Bundles: `exists` does not fail; `rename` does not replace an existing directory; staging and retired names collide with nothing the run touches (the token makes them fresh). A run without a plan directory does nothing and is not modelled.
- `CloneAdvance.ReadFacts`: that a clean reading rests on a status git did answer is proved for answers in which a failed status comes with an unreadable HEAD, as the comment at `installer/cli.js:3274` expects.
- Path canonicalisation is any function; git's own effects are only visible through its answers.
- `LaunchdRestore.RestoreLaunchd`: the uid look-up inside `launchctlKickstart` is part of that call's outcome; `installGuard` is whether paths are known.
- The plist's label, socket and log paths are escaped but only the program is read back. `launchdTakeover` and the install-time use of the probe are not modelled.
- `ShellQuote.CommandLineRead`: is about tokens; a bare word that a shell gives another meaning by position (`if`, `A=b`) stays bare in the source too.
- `SocketClient`: the request that is sent, the time limit and an exception from `recv` are not modelled; an id compares as an integer.
- Array holes, `toJSON`, and values that are not JSON in `sortKeys`; `JSON.stringify` itself.

Not modelled at all, because it is input and output or a closed table: attaching and launching,
capture budgets and wake-up of frozen targets, argument parsing, signature checks, the doctor
report, updater precedence, the regex scrapers (`_package_targets` is the given manifest), the
GUI smoke flows.
