# Ticketing platform: models and proofs

A Dafny 4.11 model of the ticketing platform's booking core, and proofs of what it guarantees. `dafny verify dfyconfig.toml` checks everything.

**Concert booking** (`SeatStore`, `SeatKeys`, `BookingProtocol`, `BookingInvariant`, `BookingLedger`, `BookingTheorems`, `BookingLimits`, `BookingEffects`, `BookingAnswers`, `BookingService`). One show's bookings span Redis (seat keys, hold set, hold metadata, remain counter), an at-least-once FIFO queue and MySQL. `BookingProtocol` is a step system in which one step is one Redis command, script or MULTI/EXEC pipeline, one database transaction or one queue operation; requests, deliveries, crashes and refunds interleave freely, and a process that dies is one that takes no further step. `BookingInvariant` proves one invariant for every step; the theorems follow for every run. `BookingService` is the services' own code, loops and early returns included, over mutable fields: each method's contract gives the answer and the new state, and proves that what it did is a run of the protocol, within the protocol's terms exactly when the database or the refund keeps them.

**Waiting room** (`Gate`, `GateRace`, `WaitingRoom`, `WaitingRoomTheorems`, `WaitingRoomCounts`, `WaitingRoomService`). Tickets, permits, the AUTO rate, the ETA and the time-based gate in front of the booking. `GateRace` splits every poll into reading the time, reading the stored pair and writing it back.

**Smaller cores**. `Theater`, `TheaterAnswers` and `TheaterService`: theater bookings, refunds and the recount UPDATE as transactions under redelivery. `Bootstrap` and `BootstrapService`: the batched read that overlays live data on cached snapshots. `NestedSet`, `NestedStore`, `NestedUpdate`, `PatchPlan`, `PatchSharing`, `PatchReading`, `PatchAlike`, `PatchBuilder` and `PatchAnswers`: the patch builder. `PatchPlan` is the build on values, `PatchBuilder` the build as it runs: nodes updated in place, and one probe template of each kind that all patches refer to; `PatchSharing`, `PatchReading` and `PatchAlike` say when the two agree. `AutoPatch`, `AutoPatchAnswers`, `AutoPatchService` and `AutoPatchTheorems`: the rate-limited automatic patches, which read the cluster, write the repository, and wait for a sync between the two. `Text` holds what they share.

**Answers.** What the services answer and leave behind is specified by functions, and the functions are tied to the data by statements that do not name them: seat coordinates and store contents (`BookingAnswers`), the list of calls so far (`WaitingRoomCounts`), the tables over whole runs (`TheaterAnswers`), the stored counter of a show (`Bootstrap`), the texts and fields of a recommendation (`AutoPatchAnswers`, `PatchAnswers`, `SeatKeys`).

## Where the code does less than its obvious promise

- A multi-seat hold that meets a taken seat gives back only the seats before it; the free seats behind it stay locked for good, and the counter ends up too high. `FailedHoldAftermath` gives the exact state, `FailedHoldExactIff` when it is harmless (no requested seat was free), `LeakForever` that no step frees a leaked seat. Single-seat requests are exact (`SingleSeatConservation`).
- When the database gives up on the redelivery of a reference that is already committed, the worker stores ok:false for a booking that stands and frees its seats. `GivingUpIff`: recording the failure is sound if and only if the reference is not committed. `CommittedRedeliveryArises` is a run that gets there, for every show and seat. The runs that the invariant covers exclude this case (`Benign`); that a reference is committed once at most holds of every run, this case included (`AtMostOneCommit`). It has a sequel: the freed seat can be held by a second request, whose delivery then never returns (`GivingUpNeverEnds`).
- A refund's fix-up that clears the seat keys between the worker's read of them and its closing pipeline leaves a CONFIRMED key without a row. `ClearingIff`: clearing the keys keeps the invariant if and only if no delivery is about to confirm some; `RefundInsideIff`: inside the closing, the pipeline after it restores soundness if and only if nothing was left to confirm. `OpenClosingArises` is a run that gets there. This interleaving is the only one of a refund with its delivery that `Benign` excludes; what a refund needs is that the booking's result is recorded.
- A fix-up sets the counter to what its transaction computed, however late it comes. `LateFixUp`: counter plus ACTIVE rows equals the total if and only if as many rows are ACTIVE as when the transaction committed.
- A poll that recovered ok:true from the database can be followed by PROCESSING when the queued mark is written late (`MarkHidesRecovery`); stored results never change (`PollStable`).
- The worker's branches for a unique-index conflict and for other exceptions store a failure but do not leave the retry loop (services/worker-svc/main.py:1259-1308). `LoopReturnsIff`: with a healthy database the loop ends if and only if the request is out of the grid, or is committed and still has an ACTIVE seat, or is not committed and none of its seats is ACTIVE. A redelivery whose seats were all cancelled would loop; a refund comes after the recorded result, with which a delivery is not processed.
- Under racing polls the stored count can step back (`CountCanStepBack`): at a constant rate a write lowers it if and only if its poll paid something and another write has since passed its time by a whole second (`StepsBackIff`). A stalled initialiser pays the same seconds twice (`StalledInitialiser`); from an uninitialised gate the admissions are bounded by one span of time more for each stalled write (`UninitialisedBound`). From an initialised clock the rate bound and the wait bound hold unchanged.
- A theater booking has no reference column. `AnswersAreTrue`: the stored answers are the truth all along a run if and only if no worker dies in it between a commit and its result. After such a death, whatever else happens, every redelivery answers DUPLICATE_SEAT or SOLD_OUT for the booking that stands (`LiveDenies`, `RedeliveryDenies`); a new answer tells whether its message has a live booking if and only if none stood before (`AnswerIff`).
- A theater refund does not reopen a schedule. `StatusRunIff`: a schedule is closed exactly when nothing is left, all along a run, if and only if no booking of a closed schedule is refunded in it; such a refund leaves the schedule closed with places left (`RefundStaysClosed`), and closed it stays until a recount (`ClosedUntilRecount`).
- A bootstrap value that decodes to something other than an object breaks the reply (`TransparentIff`), and a snapshot's CLOSED outlives the sold-out state: a hit on it is CLOSED with places left where a miss would be OPEN (`StatusIff`, `ClosedOutlives`).
- A new probe is set at its field's own path if and only if the probe's name stands behind a dot in the field (`ProbePathIff`). A field that is only the name (`BareProbe`), or that merely ends in it as `xlivenessProbe` does, is set one level too deep.
- Every added probe is the same template. `SharingIsHarmless`: as long as no recommendation is for a part of a probe that stands, the patches are those that copies would give; `StayingAboveSuffices` reads that off the paths alone, and independent recommendations satisfy it (`IndependentStayAbove`). `FirstBelowIff` is exact for the first one that is: the patches stay the same documents if and only if the template has no such place, or has that value there, or stands nowhere else and does not come to stand within itself. `AlikeThroughoutIff` is exact for every list, however often templates are changed on the way: the patches are the same documents all along the build if and only if each recommendation assigns what reads as its value and, where it is set in a template, nothing else refers to that template or it reads the value there already. `SharedPeriod`: with a new liveness probe on two deployments, a period set for one of them is read in the patch of the other.
- The patch cooldown knows spellings, not resources: two spellings of one target are patched twice in one run (`TwoSpellingsPatchTwice`, `TwoSpellings`). While the cluster has not caught up the second patch still starts from the old value, and lowers the limit if its value is below what the first one wrote.
- So a limit can go down, because the cluster lags behind the repository (`ReadLowersIff`) or because its value could not be read and the claimed one is too low (`UnreadLowersIff`); with the cluster caught up and read it never does (`SyncedOnlyRaises`).

## Model

| member | source | states |
|---|---|---|
| SeatKeys.SeatRoundTrip | services/worker-svc/main.py:423-428 | the worker's parser gives back the seat the write-api printed |
| SeatKeys.MessageRoundTrip | services/worker-svc/main.py:1022-1023 | the worker's seat list is the write-api's, in order, nothing dropped by its filter |
| SeatKeys.ToIntIs | services/worker-svc/main.py:306-310 | a part of a seat is the number its digits denote, single underscores, white space and a plus sign aside, and 0 where `int` raises |
| Text.SpaceCodes | services/worker-svc/main.py:306-310 | the characters taken for white space, by code |
| SeatKeys.ParseSeatIff | services/worker-svc/main.py:423-428 | a text names a seat if and only if it is row, one minus sign and column, both positive, in that order |
| SeatKeys.OtherCharactersRefused | services/ticketing-was/concert/concert_write.py:355-361 | any other character, as in A-12, makes the whole request BAD_SEAT_KEY |
| SeatKeys.ParseAllNames | services/worker-svc/main.py:1022-1023 | the worker's list has exactly the seats that some string names |
| SeatKeys.FirstSeenCovers | services/ticketing-was/concert/concert_write.py:353-365 | deduplication keeps exactly the seats named, each once, at least one |
| SeatKeys.ParseRequest | services/ticketing-was/concert/concert_write.py:353-365 | the loop accepts a request if and only if every item parses, and returns the first occurrences |
| SeatStore.FreePrefix | services/ticketing-was/concert/seat_hold.py:379-385 | the won seats before the first refusal, and that refusal |
| SeatStore.PrefixMine | services/ticketing-was/concert/seat_hold.py:370-385 | every seat before the refusal was free and is the request's own after the NX pipeline |
| SeatStore.NxThenDrop | services/ticketing-was/concert/seat_hold.py:379-385 | rolling back the prefix leaves exactly the free seats behind the refusal locked |
| SeatStore.FinishCount | services/worker-svc/main.py:695-716 | closing a failed hold frees its seats; closing a success keeps every key |
| BookingInvariant.InvSubmit | services/ticketing-was/concert/concert_write.py:424-426 | the debit or SOLD_OUT keeps the invariant |
| BookingInvariant.InvHoldNx | services/ticketing-was/concert/seat_hold.py:370-385 | the NX pipeline keeps the invariant, won or in conflict |
| BookingInvariant.InvIndexHold | services/ticketing-was/concert/seat_hold.py:387-404 | writing the hold set and metadata keeps the invariant |
| BookingInvariant.InvReleaseDrop | services/ticketing-was/concert/seat_hold.py:445-454 | release_seats' deleting pipeline keeps the invariant although keys were read earlier |
| BookingInvariant.LiveSeatsUnsold | services/worker-svc/main.py:1183-1191 | a request that holds its seats meets no ACTIVE row |
| BookingInvariant.PaidExactly | services/worker-svc/main.py:1089-1096 | a paid booking's ACTIVE seats are exactly its request's |
| BookingInvariant.TransactCases | services/worker-svc/main.py:1036-1257 | from the invariant an attempt commits, confirms an earlier commit, reports INVALID_SEAT, retries or gives up, and nothing else |
| BookingInvariant.InvTransact | services/worker-svc/main.py:1036-1257 | every attempt keeps the invariant unless it gives up on a committed reference |
| BookingInvariant.InvStore | services/worker-svc/main.py:501-541 | storing the result keeps the invariant |
| BookingInvariant.InvFinaliseWrite | services/worker-svc/main.py:695-716 | the closing pipeline keeps the invariant although keys were read earlier |
| BookingInvariant.InvRefundCancel | services/ticketing-was/user/user_write.py:148-204 | the refund's transaction keeps the invariant whenever the result is recorded, a delivery still closing included |
| BookingInvariant.InvRefundKeys | services/ticketing-was/concert/seat_hold.py:425-431 | the refund's pipeline over its seat keys keeps the invariant, concurrent holds included, unless a delivery is about to confirm some of them |
| BookingInvariant.InvRefundCount | services/ticketing-was/user/user_write.py:241-242 | the refund's SET of the counter keeps the invariant |
| BookingInvariant.InvStep | services/worker-svc/main.py:740-794 | every step of every actor keeps the invariant |
| BookingInvariant.InvRun | services/worker-svc/main.py:740-794 | so does every run |
| BookingLedger.PenaltyCause | services/ticketing-was/concert/seat_hold.py:379-385 | apart from refunds only a failed hold of two or more seats adds drift, by the number of its free seats |
| BookingLedger.Conservation | services/ticketing-was/concert/concert_write.py:424-457 | over every run: counter + seat keys + debits in flight + credits lost in a crash = capacity + drift |
| BookingLedger.SingleSeatConservation | services/ticketing-was/concert/seat_hold.py:42-62 | single-seat runs never oversell, and are exact when no debit is in flight or lost |
| BookingTheorems.InFlightOwnsSeats | services/ticketing-was/concert/seat_hold.py:370-385 | while a reference is queued and uncommitted each of its seat keys is its own and no row is ACTIVE for the seat |
| BookingTheorems.ActiveSeatsKeyed | services/worker-svc/main.py:690-716 | every ACTIVE seat's key is its owner's reference or CONFIRMED |
| BookingTheorems.InsertNeverConflicts | services/worker-svc/main.py:1183-1191 | no reachable delivery enters the branches without a return |
| BookingTheorems.HoldIndexAgrees | services/ticketing-was/concert/seat_hold.py:387-404 | at every step a seat is in the hold set if and only if its key is a reference whose metadata lists it |
| BookingTheorems.ExactlyOnce | services/worker-svc/main.py:1067-1139 | over any deliveries and crashes one transaction at most writes rows for a reference, and its ACTIVE seats are the requested ones, or none once refunded |
| BookingTheorems.AtMostOneCommit | services/worker-svc/main.py:1067-1139 | in every run, whatever the environment does, a reference is committed once if it comes to be booked and never otherwise, and it stays booked |
| BookingTheorems.SoldAsNamed | services/ticketing-was/concert/concert_write.py:353-475 | from the request's text to the rows: the seats sold are those the request names and those the worker reads |
| BookingTheorems.RedeliveryIsIdle | services/worker-svc/main.py:1089-1139 | a redelivery of a committed reference changes no row and reports OK |
| BookingTheorems.PollTruth | services/ticketing-was/sqs_client.py:272-339 | ok:true only for a committed booking, ok:false never for one |
| BookingTheorems.PollStable | services/ticketing-was/sqs_client.py:272-339 | a stored answer never changes, and a recovered OK stays OK once the queued mark was tried |
| BookingTheorems.MarkHidesRecovery | services/ticketing-was/sqs_client.py:176-194 | with the mark still pending a recovered OK survives if and only if the mark is lost |
| BookingTheorems.ActiveFits | services/worker-svc/main.py:1052-1062 | ACTIVE seats never exceed the grid, so the recomputed count is not clipped |
| BookingTheorems.FixUpAccounting | services/ticketing-was/user/user_write.py:214-242 | whenever the fix-up comes, the seats can be held again and the excess over its count is exactly the seats held or leaked |
| BookingTheorems.LateFixUp | services/ticketing-was/user/user_write.py:177-242 | after any run between the transaction and its fix-up, the counter is off by exactly the change in ACTIVE rows |
| BookingTheorems.RefundAccounting | services/ticketing-was/user/user_write.py:148-242 | after a refund in one step the counter is total minus ACTIVE rows, the seats can be held again, and the excess is exactly the seats held or leaked |
| BookingTheorems.CleanRefundRestores | services/ticketing-was/user/user_write.py:177-242 | with none of those, counter plus occupied seats equals the total |
| BookingTheorems.LoopTerminates | services/worker-svc/main.py:1030-1034 | on every reachable delivery the retry loop returns within the configured attempts |
| BookingTheorems.LoopReturnsIff | services/worker-svc/main.py:1259-1308 | with a healthy database the loop ends if and only if the request is out of the grid, is committed with an ACTIVE seat, or is uncommitted with none |
| BookingLimits.FailedHoldAftermath | services/ticketing-was/concert/concert_write.py:449-456 | the exact counter, keys and drift after a refused multi-seat request |
| BookingLimits.FailedHoldExactIff | services/ticketing-was/concert/seat_hold.py:379-385 | a refused request adds no drift if and only if none of its seats was free |
| BookingLimits.LeakForever | services/ticketing-was/concert/seat_hold.py:437-457 | a leaked seat stays locked over every run |
| BookingLimits.GivingUpIff | services/worker-svc/main.py:1233-1257 | giving up keeps the invariant if and only if the reference is not committed |
| BookingLimits.GivingUpOnCommitted | services/worker-svc/main.py:1246-1252 | otherwise the poll denies a booking whose rows stand, and its held keys are freed |
| BookingLimits.CommittedRedeliveryArises | services/worker-svc/main.py:1210-1212 | for every show and seat a run reaches such a delivery |
| BookingLimits.GivingUpNeverEnds | services/worker-svc/main.py:1259-1308 | and from there, for every show and seat, one in which a second request for the freed seat is delivered and its loop never returns |
| BookingLimits.ClearingIff | services/ticketing-was/concert/seat_hold.py:425-431 | clearing the refunded seats' keys keeps the invariant if and only if no delivery is about to confirm some of them |
| BookingLimits.RefundInsideIff | services/worker-svc/main.py:688-716 | a fix-up between the closing's read and write, whenever its transaction ran, leaves a sound state after the write if and only if nothing was left to confirm |
| BookingLimits.StuckSeat | services/worker-svc/main.py:704-716 | otherwise the refunded seat is CONFIRMED with no row and no refund to clear it |
| BookingLimits.OpenClosingArises | services/worker-svc/main.py:688-716 | for every show and seat a run reaches the moment between the two with a refund pending |
| BookingEffects.UndoneHold | services/ticketing-was/concert/concert_write.py:479-486 | undoing a complete hold restores counter, keys and hold set; the metadata stays |
| BookingEffects.RolledBack | services/ticketing-was/concert/seat_hold.py:437-457 | rolling back a refused hold leaves the leaked keys and a credit for the prefix |
| BookingEffects.RecordedIsDone | services/worker-svc/main.py:768-775 | a recorded result is final: another delivery's effect on the rows is none |
| BookingAnswers.SoldInHall | services/worker-svc/main.py:1052-1062 | over every run, no seat beyond the last row or the last column of the hall is ever ACTIVE |
| BookingAnswers.EndingAt | services/worker-svc/main.py:1032-1062 | how a delivery ends: DB_ERROR by the attempt that decides it, INVALID_SEAT if and only if some seat's row or column is beyond the hall's, else OK |
| BookingAnswers.AttemptIs | services/worker-svc/main.py:1052-1212 | one attempt on any tables, reachable or not: its outcome by coordinates, booking row and ACTIVE seats |
| BookingAnswers.StoredIs | services/worker-svc/main.py:501-541 | a failure other than INVALID_SEAT does not replace an OK; whatever is stored clears the queued mark |
| BookingAnswers.RowsAre | services/worker-svc/main.py:1139-1212 | which booking rows and which ACTIVE seats, each with its owner, stand after a delivery |
| BookingAnswers.ClosedHold | services/worker-svc/main.py:646-737 | seat by seat: what the closing confirms, frees, credits and leaves alone |
| BookingAnswers.AnswerIs | services/ticketing-was/concert/concert_write.py:415-492 | sold out, refused, queued or not sent: by the counter, the seat keys and the queue, in that order |
| BookingAnswers.QueuedLeaves | services/ticketing-was/concert/concert_write.py:415-492 | a queued request has paid and every seat has its key, its hold mark and its metadata; nothing else changes |
| BookingAnswers.UnplacedLeaves | services/ticketing-was/concert/concert_write.py:415-492 | sold out or with a confirmed seat it leaves nothing, and with a queue that refuses its metadata only |
| BookingAnswers.RefusedLeaves | services/ticketing-was/concert/seat_hold.py:379-457 | a refused one leaves the free seats behind the taken one locked and the counter too high by the seats before it |
| BookingAnswers.PollIs | services/ticketing-was/sqs_client.py:272-339 | the poll's four answers by result, mark and booking row |
| BookingService.Stores.SetNxAll | services/ticketing-was/concert/seat_hold.py:370-377 | the pipeline wins exactly the free seats and reports which |
| BookingService.Stores.WonPrefix | services/ticketing-was/concert/seat_hold.py:379-387 | the loop over the replies stops at the first refusal |
| BookingService.Stores.DropMine | services/ticketing-was/concert/seat_hold.py:445-454 | exactly the request's own keys go, with their hold marks, and are counted |
| BookingService.Stores.ReleaseSeats | services/ticketing-was/concert/seat_hold.py:437-457 | read, delete and credit together, as a run of the protocol |
| BookingService.Stores.DebitRemain | services/ticketing-was/concert/seat_hold.py:96-134 | debits if and only if the counter covers the request |
| BookingService.Stores.AnyConfirmed | services/ticketing-was/concert/seat_hold.py:282-303 | finds a CONFIRMED key if and only if there is one |
| BookingService.Stores.TryHoldSeats | services/ticketing-was/concert/seat_hold.py:346-410 | holds all seats if and only if all are free, with the exact Redis state for each answer |
| BookingService.Stores.Reserve | services/ticketing-was/concert/concert_write.py:415-492 | the answer and the whole Redis state of a commit, queued, refused, sold out or not sent |
| BookingService.Stores.CommitConcertBooking | services/ticketing-was/concert/concert_write.py:329-492 | every answer of the endpoint exactly when the code gives it, and its effect |
| BookingService.Stores.FitsGrid | services/worker-svc/main.py:1052-1062 | true if and only if every seat's row and column are within the hall's |
| BookingService.Stores.InsertSeats | services/worker-svc/main.py:1183-1191 | conflicts if and only if a seat is ACTIVE, and otherwise adds exactly the rows |
| BookingService.Stores.Attempt | services/worker-svc/main.py:1032-1257 | one turn of the loop: its outcome and its rows for every fault; from a sound state the conflict branches are unreachable |
| BookingService.Stores.StoreOutcome | services/worker-svc/main.py:501-541 | the result is stored and the queued mark cleared |
| BookingService.Stores.FillClosing | services/worker-svc/main.py:695-716 | the closing pipeline confirms or deletes exactly the request's own keys |
| BookingService.Stores.FinalizeHold | services/worker-svc/main.py:646-737 | the hold is closed with the exact Redis state, or left alone without metadata |
| BookingService.Stores.RunAttempts | services/worker-svc/main.py:1030-1257 | the retry loop terminates, with its outcome and its rows, giving up on a committed reference included |
| BookingService.Stores.ProcessConcertBooking | services/worker-svc/main.py:1014-1308 | outcome, rows, result and Redis state of a delivery, for every pattern of database faults; DB_ERROR if and only if the deciding attempt met a fault, INVALID_SEAT if and only if it did not and some seat's row or column is beyond the hall's; a run within the terms unless it gave up on a committed reference |
| BookingService.Stores.HandleMessage | services/worker-svc/main.py:740-794 | a delivery with a recorded result changes nothing; otherwise it is processed and acknowledged |
| BookingService.Stores.GetStatus | services/ticketing-was/sqs_client.py:272-339 | the poll's answer, truthful in both directions |
| BookingService.Stores.RefundConcertBooking | services/ticketing-was/user/user_write.py:106-246 | its three answers exactly, and after a refund, whenever it comes, the rows, the keys, and counter plus ACTIVE rows equal to the total |
| Gate.PaidAdvance | services/ticketing-was/waiting_room.py:274-292 | paying at a rate in a range keeps the count in the range, and pays exactly the whole seconds up to the poll |
| Gate.PollScheduleIndependent | services/ticketing-was/waiting_room.py:274-282 | any list of poll times, in any order, leaves what one poll at the latest time leaves |
| Gate.WaitSuffices | services/ticketing-was/waiting_room.py:371-371 | the seconds computed for a ticket are enough at that rate |
| Gate.ReachedIff | services/ticketing-was/waiting_room.py:368-371 | a ticket is reached exactly when its ceiling of seconds was paid |
| GateRace.RaceStep | services/ticketing-was/waiting_room.py:246-292 | every half step of racing polls keeps all read and written pairs on one line |
| GateRace.AdmissionBound | services/ticketing-was/waiting_room.py:246-292 | under every interleaving: count bounded by the clock, clock by the time, distinct admitted tickets by both |
| GateRace.RacingWaitBound | services/ticketing-was/waiting_room.py:246-292 | races cannot delay a ticket past the wait of the lowest rate |
| GateRace.ConstantRateExact | services/ticketing-was/waiting_room.py:274-292 | at a constant rate the stored pair is exact at every moment of every race |
| GateRace.CountCanStepBack | services/ticketing-was/waiting_room.py:279-291 | a late write lowers the stored count |
| GateRace.StepsBackIff | services/ticketing-was/waiting_room.py:279-291 | at a constant rate, in every race: exactly when the poll paid something and another write has passed its time by a whole second |
| GateRace.StalledInitialiser | services/ticketing-was/waiting_room.py:261-272 | a stalled initialiser makes ten seconds be paid twice |
| GateRace.UninitialisedBound | services/ticketing-was/waiting_room.py:261-292 | from an uninitialised gate, in every race: count and distinct admissions are bounded by the time passed, once more for each stalled initialisation |
| WaitingRoom.LoadRate | services/ticketing-was/waiting_room.py:200-217 | the load-based rate stays within the configured limits on every branch |
| WaitingRoom.AutoRate | services/ticketing-was/waiting_room.py:165-217 | so does the AUTO rate, monitor or not, for any settings |
| WaitingRoomTheorems.HallRun | services/ticketing-was/waiting_room.py:295-415 | over any calls tickets of a room have distinct places and every permit belongs to a ticket whose turn had come |
| WaitingRoomTheorems.NoQueueJumping | services/ticketing-was/concert/concert_write.py:379-413 | a commit past the gate is by a holder of a ticket of that show with place at most done + 1 |
| WaitingRoomCounts.RpsCounts | services/ticketing-was/waiting_room.py:145-162 | after any calls, requests per second times the window is the number of calls of enter for this room whose second is one of the last `window`, the current one included |
| WaitingRoomCounts.BacklogCounts | services/ticketing-was/waiting_room.py:176-185 | the backlog is the number of tickets of the room behind the count; none when the count is past them all |
| WaitingRoomCounts.StandingCounts | services/ticketing-was/waiting_room.py:354-371 | after any calls the reported position and people ahead count the tickets of the room that are still waiting, and the ETA is the least number of seconds that serves those ahead |
| WaitingRoomCounts.PermitIsItsTicket | services/ticketing-was/waiting_room.py:371-380 | a permit from a status answer verifies for ever, for the room and the user of its ticket and for no other |
| WaitingRoomCounts.NoSuchPermit | services/ticketing-was/waiting_room.py:509-526 | a token that was never issued verifies for nobody |
| WaitingRoomCounts.PassesIff | services/ticketing-was/concert/concert_write.py:379-413 | the commit's gate lets through exactly a permit of this room and user, or a ticket of theirs that is admitted now |
| WaitingRoomTheorems.EarlierTicketsAdmitted | services/ticketing-was/waiting_room.py:371-371 | once a ticket has a permit every earlier ticket is admitted at its next poll, even while paused |
| WaitingRoomTheorems.GateRun | services/ticketing-was/waiting_room.py:228-292 | over any calls the gate pays, within the rates in force, exactly the whole seconds to its latest poll |
| WaitingRoomTheorems.PollsCostNothing | services/ticketing-was/waiting_room.py:274-282 | at a constant rate, manual or AUTO, the gate depends on the latest poll only, whatever calls happened |
| WaitingRoomTheorems.BoundedWait | services/ticketing-was/waiting_room.py:165-217 | in AUTO mode a ticket is admitted at its first poll after the lowest rate's wait, whatever the traffic |
| WaitingRoomTheorems.EtaExact | services/ticketing-was/waiting_room.py:354-371 | at a constant rate, manual or AUTO: told k seconds, a ticket is admitted if and only if a poll comes k seconds after the clock |
| WaitingRoomTheorems.EtaKept | services/ticketing-was/waiting_room.py:354-371 | so it is admitted k seconds after the answer, and never before k - 1 |
| WaitingRoomTheorems.PauseStandsStill | services/ticketing-was/waiting_room.py:235-237 | a disabled gate stands still, clock included, so the pause is paid later |
| WaitingRoomTheorems.LoadRateDrains | services/ticketing-was/waiting_room.py:212-217 | on a room that is not congested, or below 200 requests a second, the rate drains the backlog in the drain time, up to rounding and the limits |
| WaitingRoomTheorems.LoadRateThrottles | services/ticketing-was/waiting_room.py:214-216 | between 200 and 500 requests a second on a congested room, twice that time |
| WaitingRoomTheorems.LoadRateExtremes | services/ticketing-was/waiting_room.py:200-217 | a quiet room runs at the highest rate, a congested one from 500 requests a second on at the lowest, and one without a backlog at the highest or half of it |
| WaitingRoomTheorems.SuggestionTaken | services/ticketing-was/waiting_room.py:187-197 | the last suggestion a monitor reported for a room is its AUTO rate, within the limits |
| WaitingRoomTheorems.LimitsAre | services/ticketing-was/waiting_room.py:172-174 | the limits are the settings, at least 1 and in order |
| WaitingRoomTheorems.ControlIs | services/ticketing-was/waiting_room.py:103-129 | the control in force from what is stored, absent, zero and negative rates included, and the rate it gives |
| WaitingRoomTheorems.FirstPoll | services/ticketing-was/waiting_room.py:261-272 | the first poll starts the clock and admits nobody |
| WaitingRoomTheorems.RateExtremes | services/ticketing-was/waiting_room.py:187-210 | a suggestion within the limits is taken, one outside them is cut to them, and without one the load decides |
| WaitingRoomService.Lobby.RpsEstimate | services/ticketing-was/waiting_room.py:145-162 | the loop sums exactly the buckets of the window |
| WaitingRoomService.Lobby.AutoEffectiveRate | services/ticketing-was/waiting_room.py:165-217 | the specified rate, which is within the configured limits |
| WaitingRoomService.Lobby.AdvanceDone | services/ticketing-was/waiting_room.py:228-292 | the procedure is the specified advance, on every branch |
| WaitingRoomService.Lobby.EnterRoom | services/ticketing-was/waiting_room.py:295-333 | a new ticket that is last in its room's line, or BAD_REQUEST and no change |
| WaitingRoomService.Lobby.StatusOf | services/ticketing-was/waiting_room.py:336-415 | who is admitted holds a permit for a ticket whose turn has come; the specified answer and state |
| WaitingRoomService.Lobby.SetControlFull | services/ticketing-was/waiting_room.py:474-489 | mode, switch and rate of this room change where given, the rate to at least 1, and no other room's |
| WaitingRoomService.Lobby.VerifyPermit | services/ticketing-was/waiting_room.py:509-526 | a valid permit belongs to a ticket of this user and room whose turn has come |
| WaitingRoomService.Lobby.CommitGate | services/ticketing-was/concert/concert_write.py:379-413 | who passes, by permit or by the queue-reference fallback, has a ticket of this room whose turn has come |
| Theater.Conservation | services/worker-svc/main.py:846-900 | over bookings, crashes, redeliveries, refunds and recounts: remain + ACTIVE seats = total for every schedule, and every live booking has exactly reg_count seats |
| Theater.RecountKeepsRemain | services/ticketing-was/db_sync.py:19-41 | hence the recount changes no count, and sets the status from it |
| Theater.RefundNeverFails | db-schema/create.sql:103-105 | hence no refund trips the table's CHECK |
| Theater.RefundUndoesBooking | services/ticketing-was/user/user_write.py:65-88 | a refund right after its booking restores every count and every ACTIVE row |
| Theater.StatusIff | services/ticketing-was/user/user_write.py:83-88 | every step keeps a right status right except a refund of a booking of a closed schedule, which never does |
| Theater.StatusRunIff | services/ticketing-was/user/user_write.py:83-88 | hence the status is right all along a run if and only if there is no such refund in it |
| Theater.RefundStaysClosed | services/ticketing-was/user/user_write.py:83-88 | the refund of a closed schedule's booking makes places and leaves it closed; the recount opens it |
| Theater.ClosedUntilRecount | services/ticketing-was/db_sync.py:19-41 | over any bookings, redeliveries and refunds a closed schedule stays closed until a recount |
| Theater.OneLiveBooking | services/worker-svc/main.py:873-878 | a message never has two live bookings, and a live one has exactly its seats |
| Theater.TruthIff | services/worker-svc/main.py:894-900 | every step keeps the answers true except a death between a commit and its result, which never does |
| Theater.AnswersAreTrue | services/worker-svc/main.py:894-900 | hence the result is OK exactly when the message made a booking, all along a run, if and only if no worker dies so in it |
| Theater.AnswerIff | services/worker-svc/main.py:802-910 | in every reachable state a delivery's answer says whether its message has a live booking if and only if none stood before |
| Theater.LiveDenies | services/worker-svc/main.py:873-904 | while one stands, whatever was booked, refunded and recounted since, every delivery is refused, with the code given exactly |
| Theater.RedeliveryDenies | services/worker-svc/main.py:902-904 | in particular at once, and then the booking is the only change |
| TheaterAnswers.VerdictIs | services/worker-svc/main.py:816-878 | the answer over the tables: no schedule, a seat the hall lacks, too few places, a seat that is ACTIVE or asked for twice, else OK, in that order |
| TheaterAnswers.LiveRowsAre | services/worker-svc/main.py:832-878 | in every reachable state the ACTIVE rows of a live booking are the rows of the seats its message names, in its schedule's hall |
| TheaterAnswers.RefundVerdictIs | services/ticketing-was/user/user_write.py:43-88 | the refund's answer over the tables, 404 exactly for a booking that does not exist or is another user's |
| TheaterAnswers.RefundIs | services/ticketing-was/user/user_write.py:62-88 | a refund cancels its own booking, frees exactly its rows and gives back its count, and changes nothing else |
| TheaterAnswers.OwnerCancels | services/ticketing-was/user/user_write.py:43-54 | over every run a booking becomes cancelled only by a refund that its own user asked for |
| TheaterAnswers.RecountIs | services/ticketing-was/db_sync.py:19-41 | for any tables, in balance or not: the count and the status of every schedule after the recount |
| TheaterService.Tables.ParseKeys | services/worker-svc/main.py:808-809 | the worker's filtered list |
| TheaterService.Tables.LookUp | services/worker-svc/main.py:832-844 | the seat ids in order, or None exactly when the hall lacks a seat |
| TheaterService.Tables.InsertSeats | services/worker-svc/main.py:873-878 | fails if and only if a seat repeats or is ACTIVE, and otherwise adds exactly the rows |
| TheaterService.Tables.ProcessTheaterBooking | services/worker-svc/main.py:802-910 | the verdict on every branch, the tables and the stored result |
| TheaterService.Tables.RefundMovieBooking | services/ticketing-was/user/user_write.py:35-103 | the four answers, each by the tables before it, 404 if and only if there is no such booking of this user; nothing changes unless it is refunded |
| TheaterService.Tables.RecountSchedules | services/ticketing-was/db_sync.py:19-41 | the UPDATE over all schedules |
| Bootstrap.CacheIsTransparent | services/ticketing-was/concert/concert_read_cache.py:504-567 | for any hits, misses, broken and stale snapshots: one entry per show in row order with the seats of the live stores and the stored counter, cut to 0 and the total |
| Bootstrap.ReplyAlwaysFits | services/ticketing-was/concert/concert_read_cache.py:504-567 | any reply, by the stores: live seats, the counter cut to 0 and the total or else the row's count, the cached show and information on a hit, and an exception exactly for a missed show whose stored value is no object |
| Bootstrap.RereadIs | services/ticketing-was/concert/concert_read_cache.py:409-441 | the row a missed show is built from |
| Bootstrap.SlotCarries | services/ticketing-was/concert/concert_read_cache.py:522-550 | show and information of a slot, and CLOSED when nothing is left |
| Bootstrap.TransparentIff | services/ticketing-was/concert/concert_read_cache.py:522-550 | that holds if and only if everything that decodes is an object |
| Bootstrap.StatusIff | services/ticketing-was/concert/concert_read_cache.py:542-543 | hit or miss: CLOSED exactly when no place is left or the snapshot it came from says so |
| Bootstrap.ClosedOutlives | services/ticketing-was/concert/concert_read_cache.py:519-567 | a snapshot stored when sold out makes a later hit CLOSED with places left, where a miss would be OPEN |
| Bootstrap.SecondReadSame | services/ticketing-was/concert/concert_read_cache.py:552-565 | the snapshot a miss stores gives the same slot when read again |
| BootstrapService.ReadCache.MGet | services/ticketing-was/concert/concert_read_cache.py:83-90 | chunked reads equal one read, for every chunk size |
| BootstrapService.ReadCache.GetOrSeedRemain | services/ticketing-was/concert/concert_read_cache.py:145-171 | the stored counter itself within 0 and the total, 0 below, the total above; without a counter the row's count, which becomes the counter unless it is 0 |
| BootstrapService.ReadCache.FillSnapshot | services/ticketing-was/concert/concert_read_cache.py:409-441 | another reader's value, or a consistent new snapshot, CLOSED exactly when no place is left; stored in either case |
| BootstrapService.ReadCache.ReadHits | services/ticketing-was/concert/concert_read_cache.py:520-550 | the loop over the values read |
| BootstrapService.ReadCache.FillMisses | services/ticketing-was/concert/concert_read_cache.py:551-565 | the loop over the misses |
| BootstrapService.ReadCache.GetBootstrap | services/ticketing-was/concert/concert_read_cache.py:504-567 | the specified reply, by the stores for every entry (`ReplyFits`), the cache after it, and no counter changed that existed |
| NestedSet.IndexSegment | scripts/recommendation_to_patches.py:76-78 | a segment with an index is read as its key and that index, brackets in the key included |
| NestedSet.GetAfterSet | scripts/recommendation_to_patches.py:73-86 | what was set is what is read |
| NestedSet.Frame | scripts/recommendation_to_patches.py:73-86 | everything off the path stays, and what appears there is list padding |
| NestedSet.Commute | scripts/recommendation_to_patches.py:73-86 | updates that are apart commute, padding and failures included |
| NestedSet.FitTogetherIff | scripts/recommendation_to_patches.py:77-84 | two unrelated updates that each fit a document fit together if and only if they part at the same kind of step |
| NestedStore.UpdateAt | scripts/recommendation_to_patches.py:73-86 | updating one object in place replaces exactly that part of its document |
| NestedUpdate.ExpandAlternates | scripts/recommendation_to_patches.py:75-86 | the last step of a path is a key, and every index is followed by a key |
| NestedUpdate.FreshFits | scripts/recommendation_to_patches.py:79-84 | what is created on the way fits whatever comes next |
| NestedUpdate.Documents.StepKey | scripts/recommendation_to_patches.py:83-84 | setdefault of a key changes nothing that is set in the end |
| NestedUpdate.Documents.StepIndex | scripts/recommendation_to_patches.py:77-82 | neither does padding a list up to an index |
| NestedUpdate.Documents.SetNested | scripts/recommendation_to_patches.py:73-86 | for any document with references to shared templates: the walk and assignment in place are `Set` in the document the path really leads into; where it raises nothing has changed, and no object outside that document changes |
| NestedUpdate.OtherDocumentStays | scripts/recommendation_to_patches.py:133-138 | a patch that shares no object with the one updated keeps its value |
| NestedUpdate.SeenThroughSlot | scripts/recommendation_to_patches.py:85-86 | in any graph of objects, shared or cyclic: after an assignment a path reads the new value if and only if it goes through the assigned slot, and otherwise what it read before |
| PatchPlan.ProbePath | scripts/recommendation_to_patches.py:143-149 | a new probe is set at its field's own path, although that path is taken apart and rebuilt |
| PatchPlan.BareProbe | scripts/recommendation_to_patches.py:148-149 | a probe that is the whole field lands one level too deep |
| PatchPlan.ProbePathIff | scripts/recommendation_to_patches.py:143-149 | a new probe is set at its field's own path if and only if its name stands behind a dot |
| PatchPlan.OrderDoesNotMatter | scripts/recommendation_to_patches.py:120-162 | recommendations with paths apart give the same patches in every order |
| PatchPlan.EveryOneApplied | scripts/recommendation_to_patches.py:156-162 | each is in the manual list, or its field reads its value in the finished patch |
| PatchSharing.CopiedSet | scripts/recommendation_to_patches.py:73-86 | setting where no template is on the way commutes with giving every reference a copy, failures included |
| PatchSharing.SharingIsHarmless | scripts/recommendation_to_patches.py:103-164 | as long as nothing is set below a standing probe, the build with shared templates raises exactly when the build with copies does, gives the same patches, comments and manual list, and leaves the templates alone |
| PatchSharing.StandingIff | scripts/recommendation_to_patches.py:143-149 | and a patch refers to a template exactly where the last recommendation at or above the place added it |
| PatchSharing.StayingAboveSuffices | scripts/recommendation_to_patches.py:143-149 | it is enough that no path goes strictly below that of a probe added earlier to the same resource |
| PatchSharing.OrderFreeInPlace | scripts/recommendation_to_patches.py:120-162 | independent recommendations, built in place, give the same patches in every order |
| PatchSharing.EveryOneAppliedInPlace | scripts/recommendation_to_patches.py:156-162 | and each of them is in the manual list or reads its value |
| PatchReading.FirstBelowIff | scripts/recommendation_to_patches.py:103-149 | the first recommendation below a standing probe leaves the patches the same documents as with copies if and only if the template has no such place, or has the value, or is referred to nowhere else |
| PatchReading.SharedPeriod | scripts/recommendation_to_patches.py:143-149 | for any two deployments and any value: a period set below the new probe of one is read in the other's patch |
| PatchAlike.SetAlike | scripts/recommendation_to_patches.py:73-86 | setting alike values in documents that read alike succeeds in both or neither, and they still read alike, created containers and padding included |
| PatchAlike.StepIff | scripts/recommendation_to_patches.py:103-149 | from any state in which the patches read as copies, changed templates included: a recommendation raises in both builds or neither, and keeps them so exactly under its guard |
| PatchAlike.AlikeThroughoutIff | scripts/recommendation_to_patches.py:111-164 | for every list: the two builds agree all along if and only if every recommendation meets that guard |
| PatchBuilder.Builder.Apply | scripts/recommendation_to_patches.py:120-162 | one recommendation on the store of nodes is one step of the build with shared templates, and patches and templates share no other node |
| PatchBuilder.Builder.BuildPatches | scripts/recommendation_to_patches.py:111-164 | the loop is that build, raising included |
| PatchBuilder.SeenIsLook | scripts/recommendation_to_patches.py:167-180 | what is read in the store at any path is what the document says there, references followed |
| PatchBuilder.StoreReadsAsBuilt | scripts/recommendation_to_patches.py:167-180 | hence with nothing set below a standing probe every path of every finished patch reads as in the build with copies |
| PatchAnswers.KeyIff | scripts/recommendation_to_patches.py:89-133 | a recommendation gets a patch if and only if its target is one of the four kinds, in any case, a slash and the name; the list of non-Kubernetes prefixes decides nothing beyond that |
| PatchAnswers.NewPatchIs | scripts/recommendation_to_patches.py:131-138 | apiVersion, kind, name and namespace of the four kinds of patches |
| PatchAnswers.ProbeIff | scripts/recommendation_to_patches.py:144-146 | which probe a field ends in |
| PatchAnswers.ValueIs | scripts/recommendation_to_patches.py:103-157 | when a probe is added, and what: liveness every ten seconds, readiness every five; otherwise the value |
| PatchAnswers.TemplatesAre | scripts/recommendation_to_patches.py:103-108 | the templates the patches share are those two probes |
| PatchAnswers.CellsIff | scripts/recommendation_to_patches.py:76-78 | a segment is read as key and index if and only if it ends in digits in brackets behind something |
| PatchAnswers.WrittenAt | scripts/recommendation_to_patches.py:146-157 | a dotted field is written under its keys in order, new probe or not |
| PatchAnswers.StepIs | scripts/recommendation_to_patches.py:120-162 | one recommendation on any plan: left to a human, set and noted in its resource's patch and nowhere else, or the build raises, each with its condition |
| PatchAnswers.ShareStepIs | scripts/recommendation_to_patches.py:120-162 | the same in place: lists, raising, and the one document, the patch or a template, that changes |
| AutoPatchService.Service.Select | services/ai-advisor/run.py:756-762 | the first three recommendations, in input order, that may be patched, field by field |
| AutoPatchService.Service.Propose | services/ai-advisor/run.py:771-804 | a proposal is above the value it starts from, the actual one first, and at most its cap |
| AutoPatchService.Service.ApplySafePatches | services/ai-advisor/run.py:741-818 | the whole run: repository, saved ledger and report, a dry run and failing commits included; every report and every changed limit is due to one of the first three recommendations that may be patched |
| AutoPatchAnswers.CandidatesAre | services/ai-advisor/run.py:756-762 | the candidates are exactly the first three, in input order, with priority now, confidence high, risk none or low and one of the two fields |
| AutoPatchAnswers.RunIsSo | services/ai-advisor/run.py:741-818 | every report is about one of those three, no two about one spelling, and limits and ledger change only as reported; a dry run changes neither |
| AutoPatchAnswers.ReportIs | services/ai-advisor/run.py:771-816 | when one of them is carried out, and with which value: what it asks for, but at most twice what it starts from |
| AutoPatchAnswers.NothingToReport | services/ai-advisor/run.py:786-791 | never when it asks for no number or has none to start from |
| AutoPatchAnswers.CoolingIff | services/ai-advisor/run.py:771-777 | thirty minutes between two patches of one spelling |
| AutoPatchAnswers.LimitsIff | services/ai-advisor/run.py:592-669 | which field is the limit of which type, and which three resources have a file |
| AutoPatchAnswers.ResourceIs | services/ai-advisor/run.py:658-662 | a target is what precedes its first slash, in lower case, and what follows its last, white space around them aside |
| AutoPatchAnswers.FirstNumberIs | services/ai-advisor/run.py:781-783 | the number in a text is the one its first digits denote |
| AutoPatchTheorems.AtMostThreePatches | services/ai-advisor/run.py:756-775 | at most three patches a run, none twice to one spelling, dry or not |
| AutoPatchTheorems.LowersIff | services/ai-advisor/run.py:785-804 | a patch lowers the repository's value exactly when a value it starts from, by the guards of the code, is capped below it |
| AutoPatchTheorems.ReadLowersIff | services/ai-advisor/run.py:785-804 | where the cluster was read: exactly when the patch goes through and its capped value is below the repository's, and then the cluster lags behind |
| AutoPatchTheorems.UnreadLowersIff | services/ai-advisor/run.py:785-798 | where it was not: exactly when the claimed value lets a smaller one through |
| AutoPatchTheorems.SyncedOnlyRaises | services/ai-advisor/run.py:795-804 | with the cluster caught up and read, a patch leaves the limit or raises it to at most the cap |
| AutoPatchTheorems.NeverLowered | services/ai-advisor/run.py:741-818 | so no run of such patches lowers it |
| AutoPatchTheorems.GrowthBound | services/ai-advisor/run.py:756-816 | over every schedule of runs and syncs, however late, a limit spelled in k ways at most doubles k times per thirty minutes begun, in the repository and in the cluster |
| AutoPatchTheorems.UnlistedUntouched | services/ai-advisor/run.py:690-693 | resources without a listed file never change |
| AutoPatchTheorems.TwoSpellingsPatchTwice | services/ai-advisor/run.py:769-777 | two spellings of one target are patched twice in one run; the exact value after it, with and without a sync between, and when the second one lowers the first |
| AutoPatchTheorems.TwoSpellings | services/ai-advisor/run.py:658-662 | such spellings exist for every name |

## Left out

- One show per protocol state: all keys and rows carry the show id, so shows do not interact.
- Key expiry, Redis outages, demo resets, `skip_hold`, the queue position shown while processing, and the worker's delay: assumed absent or for display only.
- The seeding and zero-repair of the remain counter before a commit: the counter is assumed present and in sync; repairing a sold-out show from a stale column would break conservation.
- The confirmed set and the snapshot fallback of the hold guard: nothing adds to that set, so the guard ends at the seat keys.
- A queue send that raises although the message was accepted: a send that raises is taken not to have been sent.
- Two deliveries of one message at the same time: the visibility timeout is taken to exceed the processing time.
- The caches and the confirmed set that a refund clears as well: nothing in the protocol reads them.
- BookingService.Stores.CommitConcertBooking: takes the gate's answer and whether the queue accepts as inputs; `Lobby.CommitGate` computes the former.
- BookingService.Stores.ProcessConcertBooking: does not model a missing show row or user, whose rows are static.
- Digits and white space outside ASCII, a minus sign in a coordinate (no seat has one), and Python's limit on the length of integers.
- Booking codes, payment ids and timestamps: fresh values without a role in any property; counts of rows stand for payments.
- Database failures inside a refund: they roll back, change nothing and answer 500.
- Seat lists that the code sorts are sets here; their order is a function of the set.
- The waiting room's expiring keys and `reset`; one clock reading stands for the several a call makes; the rate from `observe` is an integer; floating-point rounding in the requests per second and in the drain rate.
- The recount of concert shows: the concert show row's count column is not modelled.
- Bootstrap: the locks that let one reader at a time fill a show; what other readers store meanwhile is an input. Header, detail and list caches, and the numeric hold count, are plain caches.
- NestedSet.Frame: a law of values, as is `Commute`; in the store it holds of documents without references on the way, and `SeenThroughSlot`, `SharingIsHarmless` and `FirstBelowIff` say what references change.
- PatchReading.FirstBelowIff: is about the first recommendation below a standing probe, with a condition on the recommendations alone; `AlikeThroughoutIff` covers every list, with a guard on the patches and templates built so far. Neither says when builds that differed on the way agree again at the end.
- PatchBuilder.Builder.BuildPatches: takes each value as `coerce` made it, a scalar as its YAML text, and keeps comments beside the patch, so a field named `_comments` is not special; the container name that `main` adds, file names, their numbering and the emitted text are left out.
- AutoPatchService.Service.ApplySafePatches: other writers and a ledger that fails to load or save are left out, and doubling is exact.
- Caches of movies and theaters, listings, metrics, load generators, the frontend and the infrastructure code.
