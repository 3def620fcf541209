# OpenAPS verification model

OpenAPS keeps a fleet of grid inverters in a desired state over a lossy ZigBee radio. This project
models the parts of it where that is hard, and proves what they promise:

- **The grid-protection loop** (`GridProfile`, `Codes`, `Protection`, `ProtectionRead`, `Quantisation`,
  `Device`, `Reconcile`, `ClosedLoop`, `Broadcast`): base profile and overlay are merged, conflict-checked, quantised to
  wire registers, framed, sent, read back and compared. Composed with an inverter that stores what is
  written to it and answers reads from it, every point within the quantisation bounds converges and stays
  quiet, whatever else is in the profile.
- **The read-back cache and the output-cap loop** (`PageCache`, `ReadPath`, `PowerCap`): paged replies refine "latest value
  per code"; caps are remembered, adopted and re-asserted at a bounded rate.
- **Concurrency** (`BusLock`, `Applier`, `Transport`, `FanOut`): critical sections as atomic steps, interleaved
  over any number of clients, jobs, calls and subscribers. Every safety lemma quantifies over all step sequences.
- **Pairing** (`Pairing`, `PairingFlows`): scan, migration, rekey and channel change composed with the radio
  owner's sentinel PANs, for every pattern of failing, lost or aborted commands.
- **Event trackers** (`Online`, `Faults`): debounced online/offline and coalesced fault edges, over whole runs.
- **Codecs with inverses** (`L2`, `Aes`, `Ar`): application frames, the encrypted envelope (ECB, section 6.1 of NIST
  SP 800-38A, over an abstract invertible block cipher), the package archive.

An object the source updates in place is a class whose methods are proved equal to functions of the old
state; the properties are lemmas about those functions and about runs of them. Map iteration order is an
arbitrary duplicate-free listing (`Iteration.Lists`). Clocks, randomness, stores and links are parameters:
a store or link that may fail is a function telling how its n-th use fares. Floating-point values are
reals, with the source's truncations and roundings written out.

`dafny verify dfyconfig.toml` checks everything.

## Where the code differs from its own description

- Range intersection is described as never widening the base range. Disjoint ranges collapse to one point
  that can lie above the base range (internal/gridprofile/reconcile.go:281-284);
  `GridProfile.OverlayWithinBaseIff` and `GridProfile.EmittedOverlayWithinBaseIff` say exactly when.
- The tolerance table is described as absorbing one register step. The DS3 AB read truncates twice
  (codec/ds3.go:154), so a whole-volt AB threshold confirms only at multiples of 67 V and is otherwise re-sent
  by every later pass (`ClosedLoop.Ds3AverageConvergesIff`; `ClosedLoop.QuietIffReadBackInTolerance` for any code).
- The base broadcast is described as reaching all inverters of the given models. Each point goes out in the
  encoding of the first model that takes it (internal/gridprofile/broadcast.go:220-251), so one family stores it and
  the others never hear it, yet are scored (`Broadcast.OneFamilyIsReached`, `Broadcast.BroadcastAppliedIff`).
- Two-byte registers are read back signed (codec/protection_read.go:154-159), so DS3 and QS1 times whose
  register reaches 0x8000 read back negative and are dropped (`Quantisation.TimeBound`).
- The id packing is described as covering the characters A to F (codec/aes.go:96-98); only decimal digits
  survive it (`Aes.IdReprintsIff`).
- The encrypted sender stores the body length in one byte (codec/aes.go:280) and the frame length in another
  (codec/aes.go:305); `Aes.EnvelopeRoundTrip` and `Aes.LengthByteExactIff` give the two limits.
- The rekey rollback uses the requested channel rather than the old one (internal/pairing/rekey.go:148-151) and the
  PAN parser accepts the two values the radio owner treats as park and restore (internal/pairing/rekey.go:184-198):
  `PairingFlows.Manager.RunRekey` says exactly when a rollback restores the old pair and when a committed PAN is
  adopted. A fast scan issues no restore when the park itself failed (internal/pairing/statemachine.go:70-72), and may
  leave the radio parked (`PairingFlows.KnownBackIff`).
- The bus lock does not check who releases it (internal/buslock/buslock.go:77-83); a stray release is harmless exactly
  while the lock is free (`BusClients.StrayReleaseHarmlessIff`).
- The offline debounce is described as reflecting the real outage (internal/ingest/online_events.go:106-110). Once
  noticed, an outage is forgotten only by a sweep that finds the inverter online, and a frame carries the time of its
  receipt, not of its handling. Six minutes of silence are guaranteed exactly while sweep period plus frame lag stay
  within the one-minute window (`OnlineCell.SweepPeriodIff`); the thirty-second ticker tolerates thirty seconds of lag.

## Model

| member | source | states |
|---|---|---|
| ClosedLoop.SecondPassIsSilent | internal/gridprofile/reconcile.go:295-416 | when every drifted point is covered, every pass after the first from an up-to-date cache sends no frame and changes nothing, in whatever order it lists the points |
| ClosedLoop.ConvergesFromAnywhere | internal/gridprofile/reconcile.go:295-416 | when every point is covered, every pass after the second is silent however stale the cache was and however the passes list the points |
| ClosedLoop.CoveredPointsStayQuiet | internal/gridprofile/reconcile.go:295-416 | the loop converges: on a working link no covered point of a profile with distinct codes is drifted any more, from the first pass on if the cache was up to date and from the second on whatever it was, for ever, in whatever order each pass lists the points and whatever the other points are |
| ClosedLoop.LaterPassesSendOnlyUncovered | internal/gridprofile/reconcile.go:351-371 | from then on a pass sends exactly what it would send for the uncovered points alone, listed as it lists them |
| ClosedLoop.PassFixesCovered | internal/gridprofile/reconcile.go:317-415 | one pass from an up-to-date cache leaves every point in order that was in order or is covered, and no other code changed |
| ClosedLoop.QuietIffReadBackInTolerance | internal/gridprofile/reconcile.go:395-412 | a drifted point that encodes to a register with a plausible read-back is held by the inverter after every later pass, in any orders, and is drifted again exactly when its read-back is out of tolerance |
| ClosedLoop.FramesStoreOwnCode | codec/protection.go:117-132 | every frame encoded for a point stores that point register or none, so a point disturbs no other one |
| ClosedLoop.SettledStep | internal/gridprofile/reconcile.go:351-412 | from an up-to-date cache a point, covered or not, changes at most its own entry and leaves the cache up to date |
| ClosedLoop.DriftedPointsAreApplied | internal/gridprofile/reconcile.go:351-412 | on a working link every covered drifted point ends as applied, whatever the other points are, and no point is applied that was not drifted |
| ClosedLoop.PassSettles | internal/gridprofile/reconcile.go:373-393 | on a working link a pass over any points sends nothing and changes nothing, or ends with a cache that shows what the inverter holds |
| ClosedLoop.OneResultPerPoint | internal/gridprofile/reconcile.go:317-415 | for every environment: one result per desired point, in order, in the class its snapshot value dictates; only a cancelled pass stops early, and it says so at its last result |
| ClosedLoop.ResultsAreExplained | internal/gridprofile/reconcile.go:317-415 | for every environment each result is the one the surroundings dictate: encode_error exactly when the point does not encode, send_error exactly when a frame is refused, context_cancelled exactly when a wait is cut short, applied exactly when the value read after the waits is within tolerance; and the frames sent and reads triggered are those up to there |
| ClosedLoop.UncancelledPassCompletes | internal/gridprofile/reconcile.go:317-415 | without a cancelled context every point gets its result, whatever is refused or lost |
| ClosedLoop.SendsExactlyTheDrifted | internal/gridprofile/reconcile.go:341-371 | the frames a pass sends are exactly the encodings of the present, out-of-tolerance points, in order |
| ClosedLoop.QuietPass | internal/gridprofile/reconcile.go:319-349 | a pass with nothing drifted touches neither link nor inverter nor cache |
| ClosedLoop.Ds3AverageConvergesIff | codec/ds3.go:146-154 | the exception to convergence, over the reals: a re-sent whole-volt DS3 AB threshold anywhere in a profile is in order at every later pass, in any orders, exactly when it is a multiple of 67 V; any other one is drifted at every later pass although the register holds it |
| ClosedLoop.CoveredEncodes | internal/gridprofile/encode.go:50-84 | a covered point encodes to one frame that stores exactly its register |
| ClosedLoop.DesiredPointsAreReady | internal/gridprofile/reconcile.go:238-258 | the points of a desired profile have distinct codes and values the encoder will not move |
| ClosedLoop.DesiredListings | internal/gridprofile/reconcile.go:238-252 | every pass builds the desired points anew in map order: all passes list the same points, each in its own order |
| ClosedLoop.PassIdleIff | internal/gridprofile/reconcile.go:317-371 | on a working link a pass changes nothing exactly when none of its points is both drifted and encodable, in any order |
| ClosedLoop.AppliedWasRead | internal/gridprofile/reconcile.go:395-412 | for every environment, frames, pages and sends lost or refused: a point is reported applied only if it was drifted and a read of this very pass showed the reported value, within tolerance |
| ClosedLoop.AppliedIsHeld | internal/gridprofile/reconcile.go:351-412 | for every environment a covered point reported applied is held by the inverter within tolerance when the pass ends |
| Reconcile.Reconciler.ReconcileUid | internal/gridprofile/reconcile.go:295-416 | the pass as a loop over in-place state equals the pass as a function of the state it started from: snapshot taken once, early exit on cancellation |
| Reconcile.Reconciler.ReassertPoint | internal/gridprofile/reconcile.go:351-411 | encode, send, wait, trigger a read, wait, compare with the fresh cache; each failure has its own result |
| Reconcile.Reconciler.SendAll | internal/gridprofile/reconcile.go:360-371 | frames in order, stopping at the first that is refused |
| Device.EncodedWriteArrives | codec/protection.go:117-132 | every accepted parameter and value (QS1 mode aside) becomes one frame from which the addressed register and the exact wire number can be read back |
| Device.PageReadsRegisters | codec/protection_read.go:92-143 | decoding a reply page that carries the registers yields, per readable writable code, what the register reads back as, or drops it exactly when implausible |
| ReadPath.PagesRefreshCache | internal/ingest/protection.go:212-260 | whatever reply pages arrive, in any order: at every readable code a page shows the cache agrees with having read the registers directly, elsewhere it keeps its value; this is what an answered read means in the reconcile model |
| ReadPath.RepliesAreTriggeredRead | internal/ingest/protection.go:212-260 | receiving the pages that arrive, some perhaps lost, takes every readable code to where the reconcile model takes it |
| Quantisation.Ds3FreqBound | codec/ds3.go:32-63 | DS3 frequencies read back within 0.01 Hz below the written value |
| Quantisation.Qs1FreqBound | codec/qs1a.go:155-160 | QS1 frequencies read back at most Hz^2/(5e7-Hz) above the written value |
| Quantisation.DivideBack | codec/qs1a.go:345-411 | the exact overshoot of dividing a truncated quotient back |
| Quantisation.TimeBound | codec/protection_read.go:148-161 | a time reads back within one step exactly when its register is not read as negative; two-byte registers from 0x8000 on read negative |
| Quantisation.Ds3VoltExact | codec/ds3.go:51-63 | every whole-volt DS3 threshold except AB reads back exactly |
| Quantisation.Qs1VoltExact | codec/qs1a.go:148-178 | every whole-volt QS1 threshold reads back exactly |
| Quantisation.Ds3AverageBound | codec/ds3.go:146-154 | DS3 AB reads back in (V-1.268, V] |
| Quantisation.Ds3AverageConfirmsIff | internal/gridprofile/reconcile.go:93-124 | over the reals, a whole-volt DS3 AB threshold is confirmed exactly when it is a multiple of 67 |
| Quantisation.CoveredConfirms | internal/gridprofile/reconcile.go:93-124 | every covered write reads back within its code tolerance and survives the plausibility filter |
| Quantisation.ToleranceByQuantity | internal/gridprofile/reconcile.go:93-124 | the tolerance of every writable code by physical quantity, its bound included |
| Quantisation.TablesAgree | codec/ds3.go:182-203 | the page tables of both families give each writable code they hold one width and one scale |
| Quantisation.ReadFieldsAreOnPages | codec/qs1a.go:250-284 | conversely every code with a read field sits on its page of the family, with that width and scale |
| GridProfile.BuildDesired | internal/gridprofile/reconcile.go:160-259 | base and overlay merged, conflicts refused exactly when a rule is violated, with exactly the violated rules, else one point per writable code with its clamped value |
| GridProfile.DesiredIsConflictFree | internal/gridprofile/conflicts.go:12-40 | any two emitted values satisfy every conflict rule |
| GridProfile.DesiredIsOrdered | internal/gridprofile/conflicts.go:18-24 | the five rules spelled out for the points of a desired profile |
| GridProfile.CheckConflicts | internal/gridprofile/conflicts.go:30-40 | reports exactly the violated rules |
| GridProfile.MergeSource | internal/gridprofile/reconcile.go:181-217 | every merged entry is the last overlay word on its code, or else the base entry |
| GridProfile.OverlayValueInAllRanges | internal/gridprofile/reconcile.go:193-217 | where default, base and overlay ranges share a point the emitted overlay value lies in all three |
| GridProfile.OverlayWithinBaseIff | internal/gridprofile/reconcile.go:193-217 | a merged overlay value stays in the base range exactly when neither the default nor the overlay range, where there is one, starts above its end (the comment promises always); overlay ranges may be missing |
| GridProfile.EmittedOverlayWithinBaseIff | internal/gridprofile/reconcile.go:160-259 | the same iff for the points of the desired profile as emitted |
| GridProfile.EmittedValueInItsRanges | internal/gridprofile/reconcile.go:160-259 | an emitted overlay value lies in default, base and overlay range where they share a point; an emitted base-only value lies in its base range |
| GridProfile.EmittedValueIsNearest | internal/gridprofile/reconcile.go:238-247 | an emitted value is the base value, or the overlay value where there is one, moved only as far as its range, or the three ranges, require; a value inside them is not moved |
| GridProfile.OverlaidValue | internal/gridprofile/reconcile.go:193-217 | a merged overlay value is the nearest one in all ranges, or the highest of their lower ends when they share no point |
| GridProfile.IndexIsLast | internal/gridprofile/reconcile.go:181-185 | of several entries of a code the last one counts |
| GridProfile.DefaultRangeByQuantity | internal/gridprofile/forwardmap.go:77-94 | the range an overlay value without one is held to, by physical quantity |
| GridProfile.IntersectExact | internal/gridprofile/reconcile.go:266-286 | the intersection is exact for overlapping ranges and one point for disjoint ones |
| GridProfile.IntersectStaysInBaseIff | internal/gridprofile/reconcile.go:281-284 | disjoint ranges stay inside the base exactly when the overlay does not start above it |
| GridProfile.BaseValueInRange | internal/gridprofile/broadcast.go:52-65 | a base-only value lies in its range unless that range is malformed |
| GridProfile.SecondClampIsIdentity | internal/gridprofile/encode.go:22-84 | the encoder clamps to the value that was conflict-checked and never answers unsupported for a desired point |
| GridProfile.WriteableIffEncodable | internal/gridprofile/capability.go:40-82 | writable exactly when not hard-rejected and some value encodes, although the probe value is outside the voltage envelope |
| GridProfile.WriteableIsSupported | internal/gridprofile/capability.go:40-82 | for a writable code no value makes the encoder answer unsupported |
| GridProfile.UnsupportedIffUnknown | codec/protection.go:117-132 | the encoder answers unsupported exactly for codes it has no branch for, once the envelope is passed |
| GridProfile.EncodesIff | codec/protection.go:34-132 | a value is encoded exactly when it is positive, inside the safety envelope in numbers, known to the family and fits its field |
| L2.BuildL2Frame | codec/l2.go:10-21 | the loop builds the frame with wrapping length byte and checksum |
| L2.BuildThenParse | codec/codec.go:90-112 | parsing undoes building; length and checksum are exact for every body the length byte can describe |
| L2.ParseThenBuild | codec/codec.go:90-112 | building undoes parsing exactly on frames whose length byte and checksum are right |
| Protection.UnicastFramesGood | codec/protection.go:96-132 | every encoded frame parses, has an exact checksum, is a protection write and never a set-power |
| Protection.BroadcastDiffersInOpcode | codec/protection.go:149-181 | a broadcast differs from the unicast in opcode and checksum only, and exists exactly where the family has a clean opcode swap |
| Device.BroadcastWriteArrives | codec/protection.go:149-181 | a broadcast encoding stores in its own family exactly what the unicast one would, and nothing in the other family |
| Protection.ModeFramesGood | codec/qs1a.go:419-440 | the QS1 mode frames are protection writes too |
| ProtectionRead.DecodeProtectionReply | codec/protection_read.go:92-143 | the nested decoding loops equal the fold of the frames decoded one by one, with the two error cases |
| ProtectionRead.TableValuesCodes | codec/protection_read.go:92-143 | a page yields only codes of its own table, each with a plausible value |
| ProtectionRead.TableValuesExact | codec/protection_read.go:92-143 | a page yields exactly the codes one of its fields carries with a plausible value, with the value of the last such field |
| ProtectionRead.PagesDisjoint | codec/qs1a.go:250-284 | the per-page code tables of a family are disjoint |
| ProtectionRead.TableOnItsPage | codec/ds3.go:183-202 | every code belongs to one page only |
| Broadcast.BroadcastAppliedIff | internal/gridprofile/broadcast.go:210-335 | on a working link a covered broadcast point is reported applied exactly when some targeted inverter is readable and every readable one outside the chosen family already holds the value |
| Broadcast.PushOutcome | internal/gridprofile/broadcast.go:210-288 | every outcome of a point and what brings it about: encode error, unsupported, broadcast error, cancelled, or the score |
| Broadcast.ChoiceIsFirst | internal/gridprofile/broadcast.go:219-260 | the first model that takes the point or breaks on it decides; when there is none, the reason kept is that of the last writable model |
| Broadcast.ScoreCounts | internal/gridprofile/broadcast.go:299-327 | every readable entry of the target list adds one to the total, every confirming one adds one to the confirmed |
| Broadcast.OneFamilyIsReached | internal/gridprofile/broadcast.go:210-260 | a broadcast point reaches one family only: its inverters store the register, all others are unchanged even when their model was listed |
| Broadcast.ScoreMeaning | internal/gridprofile/broadcast.go:292-335 | applied, partial and no_readback in terms of the targeted inverters |
| Broadcast.ConfirmBroadcastPoint | internal/gridprofile/broadcast.go:292-335 | the two counting loops and the verdict drawn from them |
| Broadcast.BroadcastPoint | internal/gridprofile/broadcast.go:210-260 | the encoder loop: first model that encodes, fail closed on an unexpected error, last reason otherwise |
| Broadcast.DeliverPoint | internal/gridprofile/broadcast.go:247-288 | send, wait, trigger reads, wait, score |
| PageCache.ReceiveAll | internal/ingest/protection.go:212-260 | over any run of the whole fleet, with replies interleaved, inverters removed and stray replies of the other family, the cache holds for every inverter exactly the fold of its own replies since it was last removed |
| PageCache.FoldIsLatest | internal/ingest/protection.go:73-99 | the fold of single frames is the latest carrier of each code |
| PageCache.RedecodeIsIncremental | internal/ingest/protection.go:212-260 | re-decoding the whole page buffer in any order after a reply adds exactly what that reply says alone |
| PageCache.Cache.HandleProtectionPage | internal/ingest/protection.go:212-260 | one reply: dropped if it contradicts the known family, else buffered, re-decoded in map order and merged; other inverters untouched |
| PageCache.Cache.Remove | internal/ingest/ingest.go:738-750 | a removed inverter loses its pages, values and family; the others keep theirs |
| PageCache.Cache.CacheProtectionValues | internal/ingest/protection.go:73-99 | the merge keeps known codes and overrides with fresh ones |
| PageMerge.UnionIsIncremental | internal/ingest/protection.go:233-249 | the map-order independence underneath: separated pages can be unioned in any order |
| SetPower.SetPowerRoundTrip | codec/setpower.go:55-88 | every allowed wattage decodes back to itself, its family and addressing; unicast is set-power, never protection write |
| SetPower.CapRegisterClose | codec/ds3.go:236-256 | neither saturation nor sign bit is ever reached, and the register is within 0.04 W of the wattage on both families |
| SetPower.CapReadsBack | codec/qs1a.go:196-198 | a page carrying the written register reads DA back within 0.04 W |
| PowerCap.CapLoopSafety | internal/ingest/powercap.go:69-121 | over every run and any clock: every attempt answers a page of the run whose cap was off by more than the tolerance from what the inverter was meant to hold then, its frame carries exactly that, and the next attempt comes ten minutes later unless the inverter was removed |
| PowerCap.EventLogs | internal/ingest/powercap.go:69-121 | over every run: an event adds an attempt exactly when it is a page whose cap has drifted from what the inverter is meant to hold, with a route, an encodable cap and no attempt in the last ten minutes; then it adds one, which answers that page |
| PowerCap.IntentIsMeant | internal/ingest/powercap.go:28-63 | over every run the stored intent is the last cap routed to the inverter, else the first allowed one read back |
| PowerCap.RoutedFrameSetsIntent | internal/ingest/powercap.go:28-63 | a frame for an allowed wattage sets exactly that intent on exactly the inverters it addresses |
| PowerCap.OwnReadBackIsNoDrift | internal/ingest/powercap.go:69-94 | a page carrying the register the cap was written to never counts as drift |
| PowerCap.PageKeepsIntents | internal/ingest/powercap.go:80-91 | adoption never overwrites an intent and adopts only allowed wattages |
| PowerCap.RunKeepsLog | internal/ingest/powercap.go:69-121 | the throttle map matches the attempts made, over every run |
| PowerCap.HandleAll | internal/ingest/powercap.go:28-121 | the keeper object under any events: its intents are what each inverter is meant to hold, its attempts are spaced and each answers a page of the run |
| PowerCap.CapKeeper.RecordCapIntent | internal/ingest/powercap.go:28-63 | the recording loop, whom it addresses and what it stores |
| BusClients.LockSafety | internal/buslock/buslock.go:33-157 | over every interleaving: one holder, an open yield channel only for a polite holder, channels closed once, waiting counts the clients inside, and while any waits the polite holder is revoked and no polite acquire succeeds |
| BusClients.RequestsAreAnswered | internal/buslock/buslock.go:60-157 | in every reachable state a one-shot acquire succeeds exactly when nobody holds the bus, a polite one exactly when moreover nobody waits, under the name given and with an open channel of its own |
| BusClients.TurnsAreTaken | internal/buslock/buslock.go:71-138 | a waiting operator is blocked exactly while somebody holds the bus, gives up only at its deadline, and a release leaves the bus free |
| BusClients.OwnerIsHoldersName | internal/buslock/buslock.go:60-157 | over every interleaving the owner on record is the name the holder gave |
| BusClients.PoliteNeverOvertakes | internal/buslock/buslock.go:86-157 | while an operator waits no new polite holder appears |
| BusClients.WaiterClaimsFreedLock | internal/buslock/buslock.go:101-138 | a waiter that attempts after the holder let go gets the lock |
| BusClients.StrayReleaseHarmlessIff | internal/buslock/buslock.go:71-83 | in every reachable state a release by a client that holds nothing changes nothing, and keeps exclusion, exactly when the lock is free |
| BusClients.StrayReleaseAdmitsSecondHolder | internal/buslock/buslock.go:77-83 | while someone holds the lock one such release lets any idle client in beside the holder |
| BusClients.Bus.PerformAll | internal/buslock/buslock.go:60-157 | the lock object driven through any client steps by its own methods stays in the states of the interleaving model and keeps the invariant |
| BusClients.Bus.AcquirePriority | internal/buslock/buslock.go:101-138 | the retry loop, with anything the other clients do in between: it returns with the bus held by the caller alone as soon as an attempt finds it free, or, when every attempt finds it held, with the caller back where it was and the owner the last one found |
| BusLock.Lock.TryAcquire | internal/buslock/buslock.go:60-69 | the critical section and its answer |
| BusLock.Lock.AcquirePolite | internal/buslock/buslock.go:147-157 | the critical section, its fresh yield channel and its refusals |
| Applier.ApplierSafety | internal/gridprofile/overlay_async.go:101-287 | over every interleaving: one live job per inverter and it is the map entry, a replaced job never clears its successor, at most three slots, a balanced audit log, honest fleet completion rows |
| Applier.InvHolds | internal/gridprofile/overlay_async.go:101-287 | the inductive invariant behind it, kept by every step |
| Applier.InvMeansOneLiveJob | internal/gridprofile/overlay_async.go:101-122 | every uncleared older job of an inverter is cancelled, by supersession unless shutting down |
| Applier.InvMeansLogBalances | internal/gridprofile/overlay_async.go:132-258 | started first, terminal last, at most one each; both for a job that was never cancelled, the terminal one for one that was shut down, none or a started one first for one that was superseded |
| Applier.JobStarts | internal/gridprofile/overlay_async.go:159-193 | a job that is not cancelled starts as soon as there is a slot, and logs that |
| Applier.JobReports | internal/gridprofile/overlay_async.go:194-258 | a reconciled job logs one row per point in scope, in order, then the terminal row |
| Applier.JobReportsError | internal/gridprofile/overlay_async.go:203-258 | a failed reconcile logs one failure row and the terminal row |
| Applier.JobEnds | internal/gridprofile/overlay_async.go:132-182 | and it returns its slot, leaves the map unless it was replaced, and is done |
| Applier.CancelledJobStops | internal/gridprofile/overlay_async.go:159-258 | a cancelled job returns at its next check, silently when superseded, with a terminal row when shut down |
| Applier.FleetGoesOn | internal/gridprofile/base_async.go:75-110 | an active fleet run enqueues the next inverter, takes note of every job that is done, is reconciled when all are, and aborted only by the shutdown |
| Applier.StepKeepsFleets | internal/gridprofile/base_async.go:75-110 | a fleet run waits for every job it enqueued |
| PairingFlows.Manager.RunRekey | internal/pairing/rekey.go:70-160 | for every failure and abort pattern: committed exactly when every planned command is acknowledged, no check finds the context done and the new PAN is persisted; then module and setting are on the new PAN and the fleet is verified, otherwise the plan was left for cause, the setting is untouched and a rollback is the last module command; setting and radio owner agree after a commit exactly when the PAN is no sentinel, and a rollback restores the old pair exactly when the requested channel is the old one |
| PairingFlows.RekeyPlanOrder | internal/pairing/rekey.go:83-125 | commits only after every serial is primed; the module moves only after all commit rounds |
| PairingFlows.Manager.PrimeAndCommit | internal/pairing/rekey.go:83-112 | the prime and commit loops execute a prefix of the plan |
| PairingFlows.Manager.RunChangeChannel | internal/pairing/channel.go:81-175 | the same two endings for a channel migration, committed exactly when every hop and the move are acknowledged, no check finds the context done and the channel is persisted; rolling back to the old channel otherwise |
| PairingFlows.ChannelPlanOrder | internal/pairing/channel.go:95-125 | the module changes channel only after every serial is hopped |
| PairingFlows.Manager.SweepScan | internal/pairing/statemachine.go:85-134 | whatever fails, a restore is the last module command and the operating pair is untouched; the sweep finishes exactly when every command is acknowledged and no check finds the context done, and then reports what was heard |
| PairingFlows.SweepCovers | internal/pairing/statemachine.go:89-104 | a sweep parks the module on exactly the channels of its range |
| PairingFlows.Manager.FastScan | internal/pairing/statemachine.go:68-81 | restores exactly when the park was acknowledged; where the radio can be then, by what the caller was told |
| PairingFlows.WhereaboutsExact | internal/pairing/statemachine.go:68-81 | the places the radio can be in after a fast scan are exactly those that some fate of its commands, looking the same to the caller, leads to |
| PairingFlows.KnownBackIff | internal/pairing/statemachine.go:70-79 | a caller knows the radio to be back on the operating pair exactly when park and restore were both acknowledged; after a failed park it may be stranded |
| PairingFlows.Manager.MigrateOne | internal/pairing/statemachine.go:315-339 | park, prime, commit as far as they are acknowledged, then always a restore; migrated exactly when all three are and the context is not done |
| PairingFlows.Manager.BindAndMigrate | internal/pairing/statemachine.go:264-309 | binding: bound exactly when the queries, if need be one migration, the store and the quiet-bind go through, under the non-zero address the unit answered with; at most one prime and one commit and only onto the operating PAN, which never changes |
| PairingFlows.Manager.FindAddress | internal/pairing/statemachine.go:277-293 | the address of the first query, else after one migration that goes through that of the second, else none |
| PairingFlows.Manager.RebindVerify | internal/pairing/pairing.go:375-447 | only address queries; a serial is verified exactly when one of its queries was answered with an address, and none is given up before three queries unless the context is done |
| Sightings.ReportMeaning | internal/pairing/statemachine.go:85-118 | the scan result: exactly the announced serials, none twice, by first sighting, with the latest announcement |
| PanText.PanRoundTrip | internal/pairing/rekey.go:184-198 | the four-digit text of any PAN parses back |
| PanText.ParsePanIff | internal/pairing/rekey.go:184-198 | a text is accepted exactly when, stripped of white space and prefix, it is one to four hexadecimal digits |
| PanText.DigitsAreAccepted | internal/pairing/rekey.go:184-198 | padding and a 0x or 0X prefix do not change the PAN a text means |
| PanText.ParsePanRange | internal/pairing/rekey.go:184-198 | accepted PANs fit sixteen bits and include both sentinel values |
| Transport.CorrelationSafety | internal/pairing/transport.go:63-135 | a call returns only its own reply, each channel gets at most one value, a delivery never blocks, no entry outlives its call |
| Transport.OutcomeHasCause | internal/pairing/transport.go:87-135 | a call returns a reply as it was delivered, a send failure after a refused send, a timeout or cancellation after that very expiry |
| Transport.TakenReplyIsReturned | internal/pairing/transport.go:63-135 | a reply that finds its call waiting is the one the call is bound to return, whatever else happens, unless it expires first |
| Transport.RoundTrip | internal/pairing/transport.go:63-135 | such a delivery and the call own receive return exactly that reply |
| Transport.PhasesFollow | internal/pairing/transport.go:87-135 | a call is in the table before its command is sent, waits once it is sent, and leaves the table when it fails |
| Transport.LateReplyDropped | internal/pairing/transport.go:63-81 | once an entry is gone, late and duplicate replies change nothing, for ever |
| Transport.Endpoint.PerformAll | internal/pairing/transport.go:63-135 | the correlator object driven through any calls, deliveries, timeouts and cancels by its own critical sections stays in the states of the interleaving model and keeps the invariant |
| Transport.Correlator.Take | internal/pairing/transport.go:67-75 | the locked half of a delivery strikes the waiter off |
| Transport.Correlator.NextId | internal/pairing/transport.go:90-91 | ids strictly increase |
| OnlineCell.SweepVerdict | internal/ingest/online_events.go:83-139 | where sweep period and frame lag together stay within the online window, offline is logged exactly at the sweep where six minutes have passed since the stamp of the latest frame, and within one more period |
| OnlineCell.AnyVerdict | internal/ingest/online_events.go:91-119 | the verdict in any run whatsoever: offline exactly when the inverter counted as online, is silent, and the earliest start of this outage is five minutes old |
| OnlineCell.LastIsLastStamp | internal/ingest/online_events.go:39-47 | over every run the tracker goes by the stamp of the latest frame since the last removal |
| OnlineCell.ComesBack | internal/ingest/online_events.go:91-104 | an offline inverter that is heard again is logged online by the next sweep within the window |
| OnlineCell.EventsAlternate | internal/ingest/online_events.go:83-139 | online and offline strictly alternate until removal |
| OnlineCell.SweepPeriodIff | internal/ingest/online_events.go:98-118 | no run logs offline before six minutes of silence exactly when sweep period plus frame lag is at most the online window, be the clocks orderly or not |
| OnlineTracker.SunriseSundownAlternate | internal/ingest/online_events.go:124-131 | in the log of every run of the fleet tracker sunrise and sundown strictly alternate and the flag says which came last |
| OnlineTracker.FleetIsItsInverters | internal/ingest/online_events.go:39-139 | over every run of the fleet, with removals and any sweep orders, each inverter has the state and the log of living its own events alone |
| OnlineTracker.FleetVerdict | internal/ingest/online_events.go:83-139 | in a fleet run an inverter whose own frames and sweeps keep within that bound is logged offline exactly six minutes after the stamp of its latest frame, online exactly when that frame is within the window, and its log alternates |
| OnlineTracker.FleetFlagAfterSweep | internal/ingest/online_events.go:120-131 | after every sweep of a run the fleet flag equals some inverter being online |
| OnlineTracker.SweepAllSweepsEach | internal/ingest/online_events.go:91-123 | a sweep in any map order treats each inverter as if alone |
| OnlineTracker.Tracker.OnlineSweep | internal/ingest/online_events.go:83-139 | the sweep loop: every verdict once, fleetOnline equals some inverter online, fleet event last |
| OnlineTracker.Tracker.MarkSeen | internal/ingest/online_events.go:39-47 | the stamp of a frame, if positive, becomes the last one of its inverter; nothing else changes |
| FaultBit.StateMirrorsFrames | internal/ingest/fault_events.go:93-175 | after the silent seed the bit mirrors the last frame |
| FaultBit.EdgesLogged | internal/ingest/fault_events.go:130-158 | every fall is logged; a rise exactly when no fall came less than a minute before |
| FaultBit.RaisesAreSeparated | internal/ingest/fault_events.go:130-158 | two logged raises are separated by a logged clear and a minute |
| FaultBit.LogIsWellSpaced | internal/ingest/fault_events.go:130-158 | the whole log of a bit: times never go back and a raise that is not the first edge follows a clear at least a minute older |
| FaultTracker.Tracker.MarkFaults | internal/ingest/fault_events.go:93-175 | one frame: every known bit once in map order, the first frame silent, other inverters untouched |
| FaultTracker.WalkAllMeaning | internal/ingest/fault_events.go:114-159 | the map order does not matter |
| FaultTracker.TrackerIsItsBits | internal/ingest/fault_events.go:93-175 | over every run of the tracker, with removals and any visiting orders, each bit of each inverter is in the state, and has logged exactly the edges, of its own frames since the last removal |
| FaultTracker.LoggedRaisesAreSeparated | internal/ingest/fault_events.go:130-158 | in the log of every run two raises of a bit have a clear between them and are a minute apart, and so are the later raise and that clear |
| FanOut.FanOutSafety | internal/events/publisher.go:41-99 | no send on a closed channel, none closed twice, and a subscriber still open after a Publish it was registered for has the envelope |
| FanOut.PromptSubscriberGetsAll | internal/events/publisher.go:41-99 | a subscriber that does not leave and never lets its channel fill up gets the envelope of every Publish begun while it was registered |
| FanOut.CallsAreTrue | internal/events/publisher.go:58-82 | a Publish delivers its own envelope to exactly the subscribers it finds, and counts as slow only those whose channel it found full |
| FanOut.ClosedForCause | internal/events/publisher.go:84-106 | a channel is closed only because its subscriber left or some Publish found it full |
| FanOut.OnlyPublished | internal/events/publisher.go:58-82 | nothing is put on a channel that was not published |
| FanOut.StepsAtSubscriber | internal/events/publisher.go:41-106 | joining, being sent to with and without room, and leaving, as one subscriber lives them |
| FanOut.PublishNeverStuck | internal/events/publisher.go:58-99 | a Publish can always go on by itself while sending, and evicts as soon as no call is inside its read section |
| FanOut.SomePublishCanGoOn | internal/events/publisher.go:58-99 | as long as some Publish has not returned, some Publish can go on |
| Registry.RegistrySafety | internal/ipc/server.go:664-725 | a registered channel is open, closes once, and a replaced publisher never unregisters its successor |
| Registry.NameLeadsToLatest | internal/ipc/server.go:664-704 | over every run a name leads to the latest connection registered under it as long as that one has not exited |
| Registry.SendSucceeds | internal/ipc/server.go:706-725 | a send succeeds exactly when the backend is registered with room in its queue |
| Aes.EnvelopeRoundTrip | codec/aes.go:119-315 | for any invertible block cipher the received ciphertext opens to the sent body exactly when it is at most 255 bytes long |
| Aes.OpensIff | codec/aes.go:119-140 | a ciphertext opens exactly when it is made of whole blocks and its length byte stays within it |
| Aes.PlaintextLayout | codec/aes.go:278-285 | length byte, body, zeros up to the first block boundary |
| Aes.KeyLayout | codec/aes.go:71-88 | the frame key is nonce, packed id and a constant tail |
| Aes.BlockAt | codec/aes.go:286-289 | every block goes through the cipher on its own, in place |
| Aes.DecryptionsAgree | codec/aes.go:160-226 | direct and in-place decryption agree on every frame the L1 parser accepts |
| Aes.ReplyRoundTrip | codec/codec.go:65-82 | a reply encrypted under the peer id and nonce it carries opens to its body |
| Aes.EncryptTx | codec/aes.go:255-315 | the sender: id, nonce and randomness errors in order, else the frame |
| Aes.TxLayout | codec/aes.go:290-314 | where each field of an outbound frame is, with an exact checksum |
| Aes.GateTellsBroadcast | codec/aes.go:307-311 | the gate byte tells the id of twelve zeros from all others |
| Aes.L1Layout | codec/codec.go:65-82 | a received frame parses to the parts it is put together from, and counts as encrypted exactly when the rest starts below 0xF0 |
| Aes.LengthByteExactIff | codec/aes.go:305-305 | the length byte of the outbound frame is exact up to 239 body bytes only |
| Aes.Decrypt | codec/aes.go:119-140 | the block loop and the two length errors |
| Aes.Transform | codec/aes.go:286-289 | ECB over a buffer, block by block |
| Aes.EcbInverts | codec/aes.go:127-130 | block-wise decryption undoes block-wise encryption |
| Aes.IdReprintsIff | codec/aes.go:90-108 | a packed id prints back exactly when it is all decimal digits (the comment also claims A to F) |
| Ar.ArchiveRoundTrip | cmd/mkfeed/main.go:247-273 | parsing the writer output gives back the members |
| Ar.RestOfArchive | cmd/mkfeed/main.go:252-273 | whatever follows the last good member decides: an incomplete header is ignored, a bad, too large or negative size has its own outcome |
| Ar.NotAnArchiveIff | cmd/mkfeed/main.go:247-251 | refused as no archive exactly when the magic is missing |
| Ar.DistinctMembersAllFound | cmd/mkfeed/main.go:247-273 | with distinct names every member is found with its body |
| Ar.ContentsAt | cmd/mkfeed/main.go:266-266 | the last member of a name wins and nothing else is in the map |
| Ar.NameRoundTripsIff | cmd/mkfeed/main.go:255-256 | a name comes back exactly when it does not end in a space or slash |
| Ar.SizeRoundTripsIff | cmd/mkipk/main.go:303-303 | a size comes back exactly below ten to the tenth |
| Ar.ArMembers | cmd/mkfeed/main.go:247-273 | the parsing loop equals the recursive parser, errors included |
| Ar.Writer.Add | cmd/mkipk/main.go:285-315 | appends one member in archive form, or refuses a long name |
| Ar.AppendField | cmd/mkipk/main.go:318-327 | left-justified, space-padded, cut at the width |
| PairingFlows.Manager.SetModulePan | cmd/ecu-zb/pairing.go:100-115 | one module command: logged, applied to radio and operating pair as its delivery dictates, successful exactly when acknowledged |
| PairingFlows.Manager.Rollback | internal/pairing/rekey.go:148-160 | one module command back to the given pair, last in the log |
| PairingFlows.Manager.RestoreModule | internal/pairing/statemachine.go:126-134 | an acknowledged restore puts the radio on the operating pair |
| PairingFlows.Manager.VerifyPass | internal/pairing/pairing.go:427-447 | one pass over the unverified serials, address queries only |
| PairingFlows.Manager.SweepChannels | internal/pairing/statemachine.go:89-112 | the channel loop with its first-sighting order and latest announcement per serial |
| GridProfile.IndexEntries | internal/gridprofile/reconcile.go:181-185 | base points by code, the last entry of a code winning |
| GridProfile.ApplyOverlay | internal/gridprofile/reconcile.go:187-217 | the overlay loop equals the merge whose sources MergeSource gives |
| GridProfile.CollectPoints | internal/gridprofile/reconcile.go:238-252 | in any map order: one point per writable code with its clamped value and range, no code twice |
| ProtectionRead.DecodePage | codec/protection_read.go:113-136 | one page into the values read so far |
| Broadcast.TriggerReads | internal/gridprofile/broadcast.go:264-288 | a read triggered per listed inverter refreshes each answering one once |
| OnlineTracker.Tracker.Remove | internal/ingest/ingest.go:738-755 | a removed inverter is forgotten, the others and the fleet flag are not touched |
| FaultTracker.Tracker.Remove | internal/ingest/ingest.go:738-761 | a removed inverter is forgotten and seeds silently again |
| Reconcile.Reconciler.Send | internal/gridprofile/reconcile.go:360-365 | one frame: refused without effect, or accepted and then stored by the inverter or lost on the radio |

## Left out

- Floating-point rounding, infinities and NaN, and int64 overflow: values are reals and unbounded integers; wrapping bytes, 16-bit conversions and wire widths are modelled.
- Quantisation.Ds3AverageConfirmsIff: the multiples of 67 are a statement over the reals; there the quotient and product are whole numbers, and a double-precision result may land just below one of them, so fewer thresholds may confirm.
- Firmware long names: a writable parameter's long name is identified with its two-letter code, so "no such name" and "no such code" are one case.
- SQLite stores, JSON schema validation, the IPC request dispatch and response shaping: stores appear as maps with an outcome per use.
- Sink and log-write failures, event text and severities, the applier's in-scope counting and overlay scope filter.
- The stored stamp of a fault event, which is its frame's own time: the log of the model has the wall clock the minute is measured by.
- The outer loop of the base broadcast (its store reads, profile validation and early exits) and the unicast follow-up run with its bus lock: one broadcast point and the per-inverter jobs are modelled.
- The "unknown" result for QS1 codes the firmware does not report: the set of such codes is empty (internal/gridprofile/verify.go:18).
- Fleet enumeration (FleetUIDs) and its store errors; profile identification.
- The telemetry field decoders, status-bit tables and Modbus packing: table lookups.
- QS1 mode frames and the droop slope in the closed loop: their write and read scales are not inverses, the link between them is device firmware.
- The register contents behind QS1 mode frames and the 0xC3 set-power frames of families without read-back: nothing in the repository decodes them; their shape and classification are proved.
- The add, replace and scan entry points around the pairing flows; startOp, the operation handle and its status object: one operation at a time under the bus lock, which is modelled.
- AES itself, key generation, RSA and SSH: the block cipher is any invertible function of key and block.
- Unicode whitespace in PAN text and in archive size fields: only ASCII white space is trimmed.
- Write errors of the archive writer's output.
- Request ids wrapping at 64 bits.
- BusClients.Bus.AcquirePriority: the wall-clock deadline is the number of attempts that fit before it.
- Broadcast.TriggerReads: a triggered read of one inverter is answered with all its pages or with none; single lost pages are modelled in the reconcile pass.
- PairingFlows.Manager.RunRekey: whether inverters follow prime, commit or hop commands is radio behaviour; only the commands issued and the radio owner's state are modelled.
- Aes.EncryptTx: a failing cipher construction cannot happen with a sixteen-byte key and has no case.
- Wall-clock waits and sleeps: points where the environment may cancel or time may pass.
