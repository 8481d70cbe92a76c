# Verified model of the room server's shared state

Dafny proofs about the parts of the real-time room server in which many Node instances change shared
state at once: seats, the music slot and its queue, the ownership lease of a room, the media routers of a
room, the gift buffer, the rate limits, the ordering guards and the mixer ports.

How the system is modelled:

- A Redis key is a field of a state value, with its expiry deadline beside it and one clock in
  milliseconds. A key whose deadline is reached is gone. A list, set or hash that becomes empty loses its
  deadline with it.
- A Lua script is one atomic step. TypeScript code is cut at its `await`s; the stretches in between are
  atomic steps of a machine, and any caller may take any step at any time. Network answers (liveness
  probes, Laravel, mediasoup, the moment a GET returns) are chosen freely.
- Each area has a value model (functions, machine steps, theorems over every step and every run) and,
  where the source changes objects or keys in place, a class whose methods do so field by field and
  whose `ensures` equate the new state with the value model's step.
- User, instance, router and producer ids are numbers; only their equality matters.

| area | value model and theorems | imperative form |
|---|---|---|
| seats | `SeatRoom`, `SeatSafety`, `SeatRetention`, `SeatAnswers` | `SeatStore` |
| music slot and queue | `MusicSlot`, `MusicProtocol`, `MusicLine`, `MusicHold` | `MusicStore` |
| room ownership | `OwnershipLease`, `OwnershipAnswers` | `RoomRegistry` |
| media cluster | `MediaCluster`, `MediaSafety` | `RoomMediaCluster` |
| gift buffer | `GiftLedger`, `GiftConservation`, `GiftDrain`, `GiftBooks` | `GiftBuffer` |
| limits | `SlidingWindow`, `TokenBucket` | classes in the same modules |
| ordering guards | `EventOrdering` | class in the same module |
| mixer ports | `MixerPool`, `BroadcastChain` | `MixerPorts` |

`dafny verify dfyconfig.toml` checks the whole project.

## What the code does not keep

Properties its comments or design suggest that turned out false. The code is modelled as it is; each has
its exact condition.

- The gift buffer can lose gifts without any failure of Redis or a crash, because exceptions leave `flush`
  after the pop. An entry that parses to `null` (or to an object whose timestamp cannot be converted to a
  number) breaks the loop that computes the waits and takes the batch along. An entry that parses to a
  number, string or boolean breaks the per-item fallback once its own POST throws below the retry limit; so
  does, at any count, an object whose `retryCount` cannot be incremented and a value nested too deeply for
  `JSON.stringify`; everything not yet settled goes with it. Gifts are lost in no other way
  (`GiftConservation.StepLosesIff`), and over all runs nothing is lost if and only if no such entry is
  enqueued (`GiftConservation.NothingLostIffNoneFatal`).
- The gift queue does not always drain. A JSON array takes a retry count but does not serialise it, and some
  counts never compare at or above the limit (text such as "x" or "-4", an object, an integer below -2^53);
  such an entry is re-queued for ever while Laravel refuses it.
  Backlogs drain if and only if there is none (`GiftDrain.BacklogsDrainIffEntriesDo`).
- "An `isOwner` answer is at most 5 s stale" holds for cached answers. For an answer that comes straight
  from Redis it holds exactly when the GET's reply takes at most 5 s
  (`OwnershipLease.BeliefBoundedIffReadsAreQuick`).
- A waiting DJ can be forgotten in three ways. A ghost probe can last until the 15 s grace time is over;
  `fetchSocketsSafe` caps it at 3 s (`src/shared/fetch-sockets-safe.ts:22`), so this needs the process or its
  connection to stall besides, and it never happens if and only if that stall is below 12 s
  (`MusicProtocol.StallBoundIsExact`, from `MusicProtocol.ProbeBoundIsExact`). A full two-hour hold can lapse
  with waiters behind it (`MusicProtocol.LapsedFullHoldStrands`); `MusicProtocol.StrandingStepIsALapse`
  characterises every step of these two kinds. And the line's own key lapses two hours after the last
  enqueue, however long the DJ plays on (`MusicLine.LapsedLineForgets`). A waiter leaves the line by a
  grant, by a dequeue or by that lapse and in no other way (`MusicLine.WaiterStaysIff`).
- `claimOwnership` names the caller as owner, although nobody holds the key, when the rival's key vanishes
  between its SET and its GET; the join handler then treats the caller as origin
  (`RoomRegistry.Registry.ClaimOwnership`).
- A late event older than the newest one is accepted exactly when it arrives a full TTL after the newest
  event's last delivery (`EventOrdering.StaleWinsExactlyAfterTtl`). Inside the TTL the marker always ends at
  the newest version, but the guarded state need not, because the router awaits the verdict and then the
  write. Once the newest event is accepted, the state is bound to end at it, whatever else arrives and in
  whatever order the writes land, if and only if no older accepted write was still awaited when it arrived
  (`EventOrdering.NewestWinsIff`; a losing run is `EventOrdering.OverlapLosesNewest`).
- The rate limiter keeps its limit over a full window only if the clocks of the instances and of Redis
  agree; with clocks up to `back` behind and `ahead` of Redis the longest intervals over which it keeps it,
  of real time as well as of stamps, are those of the window less `back + ahead`
  (`SlidingWindow.SkewBoundIsExact`).
- ASSIGN displaces a reserved occupant although `src/domains/seat/seat.types.ts:25-27` says it is refused;
  the model follows the script. `allocate` hands out the base port without comparing it with the maximum.

## Model

| member | source | states |
|---|---|---|
| `SeatSafety.ReachableRoomIsSound` | src/domains/seat/seat.lua-scripts.ts:18-355 | After any sequence of the ten scripts and clock advances from an empty room: one seat per user, no locked seat occupied, every live index entry points at its user's seat, and the hash never expires before an index key |
| `SeatSafety.StepKeepsSound` | src/domains/seat/seat.lua-scripts.ts:18-355 | Each script and each passage of time keeps those four invariants together |
| `SeatSafety.OccupyMakesSound` | src/domains/seat/seat.lua-scripts.ts:63-72 | Writing entry and index with both deadlines restores soundness once the user sits nowhere else |
| `SeatSafety.AdvanceKeepsSound` | src/domains/seat/seat.lua-scripts.ts:12-12 | Expiry never leaves a live index entry pointing into a vanished hash |
| `SeatSafety.TakeRepairs` | src/domains/seat/seat.lua-scripts.ts:18-77 | From any hash, however corrupt: success exactly when in range, unlocked and empty; then the user sits at the target only, `cleared` is every seat vacated, and no other user's seat or index changes |
| `SeatSafety.AssignRepairs` | src/domains/seat/seat.lua-scripts.ts:111-170 | The same for assign, which succeeds also on an occupied or reserved seat; only the displaced occupant loses seat and index |
| `SeatSafety.LeaveRepairs` | src/domains/seat/seat.lua-scripts.ts:79-109 | From any hash a leave removes the user from every seat and from the index, and nothing of anybody else |
| `SeatSafety.DisplaceFrees` | src/domains/seat/seat.lua-scripts.ts:130-140 | Emptying the target leaves all other seats and all other users' index entries as they were |
| `SeatSafety.IdleRoomVanishes` | src/domains/seat/seat.lua-scripts.ts:12-12 | Whatever was done to a room, 24 h after the last script seats, locks and index keys are all gone |
| `SeatSafety.StepKeepsLockDeadline` | src/domains/seat/seat.lua-scripts.ts:184-221 | A non-empty locked set always has a deadline at most 24 h ahead |
| `SeatRetention.ReservedSeatIsRetained` | src/domains/seat/seat.lua-scripts.ts:233-317 | After a reserve, through any run of steps not aimed at that seat or user, of whatever length as long as some script keeps the hash alive: the seat stays theirs and only theirs, every take of it is refused, a sweep within the grace leaves it, a reclaim within the grace picks it and restores it with the mute flag of the run |
| `SeatRetention.SeatKeptIff` | src/domains/seat/seat.lua-scripts.ts:18-355 | A step leaves a held seat to its occupant, changed only as prescribed, if and only if it is aimed elsewhere or refused, sweeps no stale marker and does not reach the deadline the hash has by then; every other step takes the seat away |
| `SeatRetention.HarmlessRunKeepsSeat` | src/domains/seat/seat.lua-scripts.ts:18-355 | Over whole runs of such steps the entry is the one the run prescribes, and the room stays sound |
| `SeatRetention.LastMuteWins` | src/domains/seat/seat.lua-scripts.ts:172-182 | The flag a retained seat ends with is the one set last on it, an assign to it counting as setting it |
| `SeatRetention.NoMuteKeepsFlag` | src/domains/seat/seat.lua-scripts.ts:172-182 | Without a mute on that seat the flag never changes, reserve and reclaim included |
| `SeatRetention.OnlyReclaimableSeat` | src/domains/seat/seat.lua-scripts.ts:264-291 | In a sound room the enumeration order cannot change which seat a reclaim picks |
| `SeatRetention.MarkedSeatReclaimableXorSweepable` | src/domains/seat/seat.lua-scripts.ts:264-317 | At any instant a marked seat is open to its owner's reclaim or to the sweep, never to both and never to neither |
| `SeatRetention.EvictIsExact` | src/domains/seat/seat.lua-scripts.ts:299-355 | An eviction scan removes exactly the seats it aims at, reports each with its occupant, and leaves the evicted neither seat nor index and everybody else's index alone |
| `SeatRetention.SweepIsExact` | src/domains/seat/seat.lua-scripts.ts:299-317 | The sweep removes the stale reservations and nothing else |
| `SeatRetention.ShrinkIsExact` | src/domains/seat/seat.lua-scripts.ts:335-355 | No occupied seat is left at or above the new count; none below it is touched |
| `SeatRetention.LockThenUnlock` | src/domains/seat/seat.lua-scripts.ts:184-221 | Lock empties the seat, names and fully unseats the occupant, bars take and assign; unlock restores the lock set and reopens the seat |
| `SeatAnswers.LockLastsIff` | src/domains/seat/seat.lua-scripts.ts:184-221 | Over any run after a successful lock of a seat it stays locked, with take and assign of it refused, if and only if nobody unlocks it and time never reaches 24 h after the last successful lock of the room |
| `SeatAnswers.StaysLockedIff` | src/domains/seat/seat.lua-scripts.ts:184-221 | The same from any room whose lock set has that deadline |
| `SeatAnswers.RefusalNamesFirstCause` | src/domains/seat/seat.lua-scripts.ts:18-50 | Out of range, then locked, then (take only) taken: the error is the first cause that applies, and without one the call succeeds on that very seat |
| `SeatAnswers.MuteAnswersTruly` | src/domains/seat/seat.lua-scripts.ts:172-182 | True exactly for an occupied seat, whose flag and nothing else is then set |
| `SeatAnswers.LocksAnswerTruly` | src/domains/seat/seat.lua-scripts.ts:184-221 | Lock succeeds exactly on an unlocked seat and renews the 24 h of the lock set, unlock exactly on a locked one; no other lock changes and a refused lock changes nothing |
| `SeatAnswers.ReserveAnswersTruly` | src/domains/seat/seat.lua-scripts.ts:233-255 | Marks exactly the user's seats, answers with them, and gives the hash 24 h more exactly if there are any |
| `SeatAnswers.ReclaimAnswersTruly` | src/domains/seat/seat.lua-scripts.ts:264-291 | No change exactly when no marker of the user is live; else one seat is unmarked and indexed, both for 24 h more, and no other seat or index changes |
| `SeatAnswers.TimeTakesOnlyTheExpired` | src/domains/seat/seat.lua-scripts.ts:12-12 | A key goes exactly when its deadline is reached; what does not go keeps its contents and deadline |
| `SeatAnswers.OthersKeepIndex` | src/domains/seat/seat.lua-scripts.ts:18-355 | A user whom a step neither serves, displaces, kicks nor evicts keeps the index entry and its deadline, until that deadline |
| `SeatStore.Store.HGetAll` | src/domains/seat/seat.lua-scripts.ts:53-54 | Hands over every field once, in an order of Redis' own |
| `SeatStore.Store.ClearSeatsOf` | src/domains/seat/seat.lua-scripts.ts:52-61 | The heal loop over a snapshot deletes, in whatever order, exactly the user's other seats and lists each once |
| `SeatStore.Store.TakeSeat` | src/domains/seat/seat.lua-scripts.ts:18-77 | The script command by command refines the atomic take: same room, same error, same cleared seats |
| `SeatStore.Store.LeaveSeat` | src/domains/seat/seat.lua-scripts.ts:79-109 | Loop and deletes leave the room of an atomic leave; each vacated seat is listed once, none meaning NOT_SEATED |
| `SeatStore.Store.AssignSeat` | src/domains/seat/seat.lua-scripts.ts:111-170 | Displacement, heal loop and writes leave the room of an atomic assign, with the same error or cleared seats |
| `SeatStore.Store.SetMuted` | src/domains/seat/seat.lua-scripts.ts:172-182 | Sets the flag of an occupied seat, keeping occupant, marker and deadlines, and reports an empty one |
| `SeatStore.Store.LockSeat` | src/domains/seat/seat.lua-scripts.ts:184-210 | Room, success flag and kicked user are those of an atomic lock |
| `SeatStore.Store.UnlockSeat` | src/domains/seat/seat.lua-scripts.ts:213-221 | Removes this seat's lock and, with the last lock, the deadline; reports a seat that was not locked |
| `SeatStore.Store.StampSeatsOf` | src/domains/seat/seat.lua-scripts.ts:233-249 | The stamping loop over a snapshot marks exactly the user's seats and lists each once |
| `SeatStore.Store.ReserveSeat` | src/domains/seat/seat.lua-scripts.ts:233-255 | Marks those seats, and moves the hash's deadline only if there was one |
| `SeatStore.Store.ReclaimSeat` | src/domains/seat/seat.lua-scripts.ts:264-291 | Picks some seat with a live marker of the user if there is one, and unmarks only that one |
| `SeatStore.Store.EvictAll` | src/domains/seat/seat.lua-scripts.ts:299-355 | The deleting scan refines the one-step eviction for every predicate and every enumeration order |
| `SeatStore.Store.SweepExpiredSeats` | src/domains/seat/seat.lua-scripts.ts:299-317 | The sweep script is that scan over stale markers |
| `SeatStore.Store.EvictSeatsAboveCount` | src/domains/seat/seat.lua-scripts.ts:335-355 | The shrink script is that scan over high seats |
| `SeatStore.GetSeats` | src/domains/seat/seat.repository.ts:357-395 | One row per seat, in order, telling occupant, mute and reservation as HGETALL and the lock as SMEMBERS answered, each at its own moment |
| `MusicSlot.EnqueueIsIdempotent` | src/domains/audio-player/audio-player.queue.ts:49-58 | A user is queued at most once, the answer is their true 1-based place, a second enqueue changes nothing |
| `MusicSlot.ReleaseShiftsLine` | src/domains/audio-player/audio-player.queue.ts:74-87 | Only the holder can release; holder and waiters together then lose exactly the holder, the head gets the grace time, the stored track is wiped |
| `MusicLine.DisconnectLeavesNoTrace` | src/domains/audio-player/audio-player.lifecycle.ts:34-46 | Dequeue, then release: whatever other users' requests, walks and timers do between the two, the leaver neither waits nor holds afterwards |
| `MusicSlot.ReleaseFirstGrantsSelf` | src/domains/audio-player/audio-player.lifecycle.ts:34-38 | The opposite order fails exactly when a DJ heads its own line, the case the comment fears |
| `MusicSlot.WithoutSelects` | src/domains/audio-player/audio-player.handler.ts:354-354 | LREM leaves an increasing selection of the old places |
| `MusicProtocol.NoWaiterIsStranded` | src/domains/audio-player/audio-player.queue.ts:256-294 | Over every interleaving of plays, releases, takeovers, cancels, walks and timers: a free slot with waiters has a timer or play pending, and every provisional hold has a walk, a later timer or a re-acquiring play behind it |
| `MusicProtocol.StepKeepsNobodyStranded` | src/domains/audio-player/audio-player.handler.ts:74-164 | Each step keeps that, probes being quicker than the grace time |
| `MusicProtocol.HoldStaysBacked` | src/domains/audio-player/audio-player.queue.ts:256-294 | A provisional hold never loses its backer while it stands |
| `MusicProtocol.NewHoldIsBacked` | src/domains/audio-player/audio-player.handler.ts:96-129 | Every grant starts a walk or belongs to the play that promoted itself |
| `MusicProtocol.StepKeepsTimes` | src/domains/audio-player/audio-player.queue.ts:288-294 | No hold outlives its TTL and no timer lies more than 16 s ahead |
| `MusicProtocol.PromoterDelivers` | src/domains/audio-player/audio-player.queue.ts:102-111 | A pending promoter, once it acts, gives the free slot to the head of the line, or to the promoted play itself |
| `MusicProtocol.StrandingStepIsALapse` | src/domains/audio-player/audio-player.queue.ts:74-111 | A step strands waiters if and only if a hold lapses over a non-empty queue with no timer and no play pending |
| `MusicProtocol.ProbeBoundIsExact` | src/domains/audio-player/audio-player.queue.ts:256-294 | No run with probes of at most d strands anybody if and only if d is below the grace time |
| `MusicProtocol.StallBoundIsExact` | src/shared/fetch-sockets-safe.ts:22-57 | With probes capped at 3 s plus whatever the process or its connection stalls, nobody is stranded if and only if the stall stays below 12 s |
| `MusicProtocol.SlowProbeStrands` | src/domains/audio-player/audio-player.queue.ts:256-274 | A walk that, by its capped probe and a stall of 12 s or more, releases its ghost only when the grace time is over forgets the second waiter |
| `MusicProtocol.LapsedFullHoldStrands` | src/domains/audio-player/audio-player.queue.ts:26-34 | A two-hour hold that lapses forgets its waiters |
| `MusicLine.LineAfter` | src/domains/audio-player/audio-player.queue.ts:49-111 | What any step does to the line: pop the head and hand it the slot, remove a canceller, append a newcomer, lapse, or nothing |
| `MusicLine.LineKeepsOrder` | src/domains/audio-player/audio-player.queue.ts:49-111 | Any step leaves the old line with gaps plus at most one newcomer at the end |
| `MusicLine.TicketStepKeepsOrder` | src/domains/audio-player/audio-player.queue.ts:49-111 | Joining order and absence of repetition survive any step |
| `MusicLine.NobodyIsOvertaken` | src/domains/audio-player/audio-player.queue.ts:49-111 | Over any run the line stands in joining order and each grant goes to whoever has waited longest |
| `MusicLine.WaiterLeavesIff` | src/domains/audio-player/audio-player.queue.ts:49-111 | A step takes a waiter out of the line if and only if it hands them the slot, dequeues them, or reaches the line's deadline |
| `MusicLine.WaiterStaysIff` | src/domains/audio-player/audio-player.queue.ts:49-111 | Over any run from any reachable state a waiter who does not enqueue again is still in line if and only if no such step occurred |
| `MusicLine.OnlyEnqueueExtendsTheLine` | src/domains/audio-player/audio-player.queue.ts:49-58 | The line's deadline is two hours after the last enqueue; no grant, play or takeover moves it |
| `MusicLine.LapsedLineForgets` | src/domains/audio-player/audio-player.queue.ts:49-58 | With no probe and no lapsing hold, a DJ who plays on outlasts the line, and a waiter who was neither granted nor dequeued is gone |
| `MusicHold.HolderKeepsSlotIff` | src/domains/audio-player/audio-player.handler.ts:56-64 | Over any run the holder keeps the slot, and every acquire of others that does not name it as dead is denied with its name, if and only if none of the ending steps occurs: a release in its name that grants somebody else or nobody, a takeover, a steal naming it, the end of its time |
| `MusicHold.HolderLosesIff` | src/domains/audio-player/audio-player.queue.ts:74-111 | A step takes the slot from its holder if and only if it is one of those |
| `MusicHold.PlayObtainsIff` | src/domains/audio-player/audio-player.handler.ts:56-64 | A play gets the slot exactly when it is free, its own, or held by the user it found dead, a takeover always, each for two hours; the line and the stored track stay |
| `MusicHold.AcquireAnswersTruly` | src/domains/audio-player/audio-player.handler.ts:56-64 | Answers with the caller exactly when the slot is now theirs, and otherwise with the holder, leaving everything as it was |
| `MusicHold.CancelAnswersTruly` | src/domains/audio-player/audio-player.handler.ts:354-354 | True exactly for a waiting user; all others stay in line, with the same deadline |
| `MusicHold.TrackAfter` | src/domains/audio-player/audio-player.handler.ts:131-140 | The stored track is that of whoever stored last, gone after a successful release, and moved by no other step |
| `MusicHold.StoredTrackStands` | src/domains/audio-player/audio-player.handler.ts:131-140 | A late joiner sees the track stored last for as long as no release succeeds |
| `MusicHold.GrantStartsWalk` | src/domains/audio-player/audio-player.queue.ts:256-274 | Every grant starts a walk from the granted user, unless the promoting play is itself the head and goes on to re-acquire |
| `MusicHold.StepsKeepBooks` | src/domains/audio-player/audio-player.queue.ts:256-294 | A live user ends the walk with a timer one second past the grace time, a timer fires once, a denied play goes on to promote |
| `MusicStore.Store.LPos` | src/domains/audio-player/audio-player.queue.ts:49-52 | Finds the user's first place, or none exactly when absent |
| `MusicStore.Store.EnqueueWaiter` | src/domains/audio-player/audio-player.queue.ts:49-58 | The script refines the atomic enqueue, position included |
| `MusicStore.Store.ReleaseSlot` | src/domains/audio-player/audio-player.queue.ts:74-87 | The script refines the atomic release-and-grant |
| `MusicStore.Store.Promote` | src/domains/audio-player/audio-player.queue.ts:102-111 | The script refines the atomic promote-if-free |
| `MusicStore.Store.AcquireSlot` | src/domains/audio-player/audio-player.handler.ts:56-64 | The script refines the compare-and-set acquire and steal |
| `MusicStore.Store.TakeOver` | src/domains/audio-player/audio-player.handler.ts:198-204 | The owner gets a full hold, whoever held before; line and stored track stay |
| `MusicStore.Store.StoreNowPlaying` | src/domains/audio-player/audio-player.handler.ts:206-214 | The separate write after a takeover or play says whose track is playing and touches nothing else |
| `MusicStore.Store.AcquireMusicSlot` | src/domains/audio-player/audio-player.handler.ts:393-428 | Free or own slot: acquired; else, with the room in any state by the end of the probe: a live holder denies and leaves it, a dead one is stolen from exactly when no rival has taken the slot |
| `MusicStore.Store.GrantChain` | src/domains/audio-player/audio-player.queue.ts:256-274 | With the room in any state after each probe, whoever joined, left, rivalled or lapsed: the walk ends; it stops at the first live user or at the first slot no longer the probed one's, leaving the room as found; every next probe is of the head of the line as it stood at the release; with nobody left it leaves slot and line empty |
| `MusicStore.QuietWalk` | src/domains/audio-player/audio-player.queue.ts:256-274 | If only time and rivals interfere, the j-th probe is of the j-th place of the original line, with the rest still behind it in order, and only ghosts that still hold the slot are passed |
| `OwnershipLease.LeaseExclusion` | src/domains/room/room-registry.ts:91-118 | Grants to different instances are 90 s or a cleanup apart, over every run |
| `OwnershipLease.LeaseStandsOverRun` | src/domains/room/room-registry.ts:165-203 | Until 90 s after a grant, nothing but a cleanup takes the key or shortens it |
| `OwnershipLease.RivalClaimUntouched` | src/domains/room/room-registry.ts:165-203 | Claim and refresh change nothing about a rival's live claim and report the loss |
| `OwnershipLease.StaleBeliefIsBounded` | src/domains/room/room-registry.ts:139-148 | An instance told it is owner was the stored owner at some moment of the last 5 s, under any overlap of reads, reclaims and step-downs |
| `OwnershipLease.RunIsFounded` | src/domains/room/room-registry.ts:139-148 | Every cached or returning answer was true at the moment it is dated |
| `OwnershipLease.TwoAssuredMeansOwnershipMoved` | src/domains/room/roomManager.ts:109-112 | Two instances assured at once both owned the room within the last 5 s |
| `OwnershipLease.BeliefBoundedIffReadsAreQuick` | src/domains/room/room-registry.ts:139-148 | The 5 s bound holds over all runs with GET replies of at most d if and only if d is at most 5 s |
| `OwnershipLease.SlowReadAssuresFormerOwner` | src/domains/room/room-registry.ts:139-148 | A reply one millisecond later than that assures a former owner while another instance holds the key |
| `OwnershipAnswers.RefreshAnswers` | src/domains/room/room-registry.ts:165-203 | In terms of the key alone: held if and only if the own claim was live, reclaimed if and only if no claim was and reclaiming is allowed, lost otherwise; only a loss leaves the key as it was, the other two give it 90 s |
| `OwnershipAnswers.LeaseLastsIff` | src/domains/room/room-registry.ts:91-118 | Over any run without a further grant to it, an instance granted the key at t is the stored owner if and only if no cleanup occurred and the clock is before t + 90 s |
| `OwnershipAnswers.ClaimAnswers` | src/domains/room/room-registry.ts:91-118 | A claim wins exactly a free key, for 90 s, and touches no belief; after a cleanup any instance can win |
| `OwnershipAnswers.AnswerTellsTheOwner` | src/domains/room/room-registry.ts:145-148 | Whatever happens between GET and reply, the answer is yes exactly when the asker owned the key at the GET, and is cached until 5 s after the clock read before it |
| `OwnershipAnswers.CachedAnswerLastsIff` | src/domains/room/room-registry.ts:139-145 | Until that moment, and not from it on, the same answer is given without asking Redis, whatever others do meanwhile |
| `OwnershipAnswers.ForgottenIsAskedAgain` | src/domains/room/room-registry.ts:281-283 | After a reclaim or a step-down the next question reads Redis; other instances' beliefs and the key stay |
| `RoomRegistry.Registry.TryClaim` | src/domains/room/room-registry.ts:95-110 | Takes the key exactly when it is free, for 90 s, as the lease machine's claim; other rooms untouched |
| `RoomRegistry.Registry.ClaimOwnership` | src/domains/room/room-registry.ts:91-118 | Won exactly on a free key; on a loss the owner named is whoever holds the key by the time of the GET, whatever happened in between, and the caller itself if nobody does |
| `RoomRegistry.Registry.RefreshOwnership` | src/domains/room/room-registry.ts:165-203 | Held exactly on a live own key, reclaimed exactly on a free key with reclaiming allowed, lost otherwise; the cached belief goes exactly on a reclaim; the new state is that of the lease machine |
| `RoomRegistry.Registry.AskOwner` | src/domains/room/room-registry.ts:139-145 | Is the lease machine's question: a live cache entry answers at once, and yes exactly when the machine assures; otherwise a read begins |
| `RoomRegistry.Registry.AnswerOwner` | src/domains/room/room-registry.ts:145-148 | Is the lease machine's answer to that read, whatever was cached or forgotten meanwhile: yes exactly when the machine assures, cached for 5 s from the clock read before the GET |
| `RoomRegistry.Registry.Cleanup` | src/domains/room/room-registry.ts:288-297 | Is the lease machine's cleanup and forgetting for this room, and nothing for any other |
| `RoomRegistry.Registry.HandleRefresh` | src/domains/room/roomManager.ts:169-176 | An instance steps down, forgetting its belief, exactly from a room it is origin of whose refresh was lost |
| `RoomRegistry.Registry.Heartbeat` | src/domains/room/roomManager.ts:155-180 | With each room's key as other instances left it by the time of its refresh: own and reclaimable rooms are extended, rooms a rival holds are left to it and stepped down from, those and no others, and no edge room is ever reclaimed |
| `MediaCluster.FirstWithRoom` | src/domains/media/roomMediaCluster.ts:419-425 | The first pooled router with a free slot, or none exactly when all are full |
| `MediaSafety.SlotsNeverOverbooked` | src/domains/media/roomMediaCluster.ts:151-199 | In any interleaving each pooled router's count is its open transports plus reservations and at most the maximum |
| `MediaSafety.StepKeepsSlots` | src/domains/media/roomMediaCluster.ts:415-444 | Each step keeps count and holders equal |
| `MediaSafety.ReserveKeepsSlots` | src/domains/media/roomMediaCluster.ts:421-423 | Check and increment without an await between cannot overbook |
| `MediaSafety.GiveBackIsExact` | src/domains/media/roomMediaCluster.ts:174-181 | A slot is given back only by a holder, so the clamp at zero never bites |
| `MediaSafety.BuildsOnlyWhenFull` | src/domains/media/roomMediaCluster.ts:429-434 | A router is built only when none is being built and every pooled one is full |
| `MediaSafety.WaiterCanGoOn` | src/domains/media/roomMediaCluster.ts:434-444 | A waiter's router is under construction, and the construction can take a step; or the waiter resumes, and then gets a slot unless others fill every pooled router to the maximum, in which case it waits for one more to be built |
| `MediaSafety.CreationCanGoOn` | src/domains/media/roomMediaCluster.ts:450-500 | A router under construction always has a next step towards the pool |
| `MediaSafety.CreationAdvances` | src/domains/media/roomMediaCluster.ts:474-500 | Each step of a build pipes a source still ahead, leaving strictly fewer ahead, or, with none ahead, pushes the router with exactly what was piped; then the promise clears |
| `MediaSafety.JoinAnswers` | src/domains/media/roomMediaCluster.ts:415-434 | A listener gets the first pooled router with room, and waits exactly when all are full, for the router being built or for a new one; others are left alone |
| `MediaSafety.TransportFreesItsSlot` | src/domains/media/roomMediaCluster.ts:169-186 | A transport that closes or fails gives its slot back, after which its router has room |
| `MediaSafety.FailureRejectsItsWaiters` | src/domains/media/roomMediaCluster.ts:429-444 | A failed build rejects exactly the listeners waiting for it and lets a new one begin |
| `MediaSafety.NoSpeakerIsMissing` | src/domains/media/roomMediaCluster.ts:450-516 | Over any run, every producer that registered and whose transport has not closed since is piped to every pooled router or its pipe is on the way, also when it registered while the router was being built |
| `MediaSafety.SourcesAreRegistered` | src/domains/media/roomMediaCluster.ts:226-242 | Over any run the sources are exactly the producers registered with no later close of their transport |
| `MediaSafety.SourcesAfter` | src/domains/media/roomMediaCluster.ts:226-242 | A registration adds that producer alone, behind all present ones, or leaves it in its place; a close removes that one alone; no other step changes the sources |
| `MediaSafety.FinishedPipeDelivers` | src/domains/media/roomMediaCluster.ts:509-591 | A pipe that finishes puts its producer on its router and ends that pipe only |
| `MediaSafety.StepKeepsPiping` | src/domains/media/roomMediaCluster.ts:226-242 | Each step keeps that, with the progress of the live iteration |
| `MediaSafety.ProceedKeepsPiping` | src/domains/media/roomMediaCluster.ts:479-500 | The live iteration misses nothing inserted meanwhile, because its end and the push share one breath |
| `MediaSafety.RegisterKeepsPiping` | src/domains/media/roomMediaCluster.ts:226-242 | A new producer starts a pipe to every router pooled at that moment |
| `MediaSafety.StepKeepsWellFormed` | src/domains/media/roomMediaCluster.ts:415-500 | Router ids stay fresh, the pool lists each router once, every waiter waits for something |
| `RoomMediaCluster.MediaRoom.GetOrCreateRouter` | src/domains/media/roomMediaCluster.ts:415-434 | Scan, reserve or coalesce refine the cluster's step |
| `RoomMediaCluster.MediaRoom.ResumeJoin` | src/domains/media/roomMediaCluster.ts:434-444 | After the await capacity is checked again, else all starts over |
| `RoomMediaCluster.MediaRoom.ReleaseSlot` | src/domains/media/roomMediaCluster.ts:172-185 | Failed creation and transport close give one slot back |
| `RoomMediaCluster.MediaRoom.NextSource` | src/domains/media/roomMediaCluster.ts:479-479 | The next member of an insertion-ordered set after a given stamp, or the end exactly when there is none |
| `RoomMediaCluster.MediaRoom.ContinueCreation` | src/domains/media/roomMediaCluster.ts:450-500 | One turn of the build refines the cluster's step |
| `RoomMediaCluster.MediaRoom.RegisterProducer` | src/domains/media/roomMediaCluster.ts:226-242 | Joins the source set and starts one pipe per pooled router |
| `GiftConservation.GiftsAreConserved` | src/domains/gift/giftBuffer.ts:119-321 | For each gift, over all runs of any number of instances: arrivals equal queued, in flight, accepted, failed, dead-lettered, trimmed and lost together |
| `GiftConservation.StepBalances` | src/domains/gift/giftBuffer.ts:124-321 | Each stretch between awaits keeps the books balanced |
| `GiftConservation.SelectPartitions` | src/domains/gift/giftBuffer.ts:201-239 | A batch answer settles each gift once, as accepted or as failed |
| `GiftConservation.PushDeadKeepsBalance` | src/domains/gift/giftBuffer.ts:311-314 | The trim accounts for every entry it cuts and leaves at most 10000 |
| `GiftConservation.StepLosesIff` | src/domains/gift/giftBuffer.ts:124-321 | A step loses gifts if and only if it ends a parse that let an entry without a computable wait through, or the own POST of an item throws that cannot take a retry count |
| `GiftConservation.NothingLostIffNoneFatal` | src/domains/gift/giftBuffer.ts:124-321 | For any set of entries that may be enqueued: over all runs of any number of instances nothing is lost if and only if none of them is fatal, which one look at the entry tells |
| `GiftConservation.FatalTakesNeighbourDown` | src/domains/gift/giftBuffer.ts:148-187 | Any entry popped beside any fatal one can vanish with it, neither queued, accepted, failed nor dead-lettered |
| `GiftBooks.BooksFollowAnswers` | src/domains/gift/giftBuffer.ts:201-277 | Over any run, for each gift: the accepted book holds exactly what Laravel's answers did not refuse, and the failed book exactly what they refused, batch and item answers alike |
| `GiftBooks.AnswersAreBooked` | src/domains/gift/giftBuffer.ts:201-239 | A step adds a gift to the accepted book as often as its row was answered and not refused, to the failed book as often as it was refused, and otherwise to neither |
| `GiftBooks.SelectCounts` | src/domains/gift/giftBuffer.ts:215-231 | Of the rows of a batch, each lands in the part its answer names, with its count, and not in the other |
| `GiftBooks.QueueIsFifo` | src/domains/gift/giftBuffer.ts:24-30 | Entries join at the end, a pop takes the oldest, fifty or all, in order, re-queued ones join the end with the pipeline, and nothing else moves the queue |
| `GiftBooks.DeadLettersKeepNewest` | src/domains/gift/giftBuffer.ts:311-314 | The dead letters grow at the end only and the pipeline cuts only their oldest, exactly what exceeds ten thousand |
| `GiftBooks.ParseSorts` | src/domains/gift/giftBuffer.ts:148-160 | Unreadable text is dead-lettered, everything else goes to the POST, in order |
| `GiftBooks.DeadLetteredAtLimit` | src/domains/gift/giftBuffer.ts:282-308 | An integer count is dead-lettered by the throw that brings it to the limit and re-queued, one higher, by every earlier one |
| `GiftBooks.FreshGiftIsTriedToTheLimit` | src/domains/gift/giftBuffer.ts:282-308 | A fresh gift survives every throw before the one that makes the limit, and not that one |
| `GiftDrain.StepSpends` | src/domains/gift/giftBuffer.ts:124-321 | While all entries are of the draining kind, every working step lowers a measure of retries left and stages to go, whatever Laravel answers |
| `GiftDrain.RequeueCostsALife` | src/domains/gift/giftBuffer.ts:282-308 | A draining entry that is re-queued is one flush nearer to leaving |
| `GiftDrain.DrainTerminates` | src/domains/gift/giftBuffer.ts:134-321 | Without new gifts a run over draining entries has at most that many working steps |
| `GiftDrain.BacklogsDrainIffEntriesDo` | src/domains/gift/giftBuffer.ts:134-321 | For any set of entries that may be enqueued: every backlog drains, on any number of instances and whatever Laravel answers, if and only if none of them is an array under a limit above one or an object whose count never reaches the limit |
| `GiftDrain.StubbornEntryNeverDrains` | src/domains/gift/giftBuffer.ts:282-308 | One such entry alone keeps the flushes busy for more steps than any bound |
| `GiftDrain.StoppedMeansDrained` | src/domains/gift/giftBuffer.ts:124-321 | It can only stop with an empty queue and nothing in flight |
| `GiftDrain.QueuedGiftsHaveRetriesLeft` | src/domains/gift/giftBuffer.ts:282-308 | No numeric count in the queue has reached the retry limit |
| `GiftBuffer.Buffer.PopBatch` | src/domains/gift/giftBuffer.ts:24-30 | Takes the oldest fifty or fewer, in order |
| `GiftBuffer.Buffer.ObserveWaits` | src/domains/gift/giftBuffer.ts:162-187 | The timestamp loop ends the flush exactly on an entry without a computable wait or an empty batch |
| `GiftBuffer.Buffer.PostItem` | src/domains/gift/giftBuffer.ts:256-309 | One fallback item, of whatever JSON kind, is accepted, failed, re-queued with the count its text keeps, dead-lettered, or ends the flush by an exception |
| `GiftBuffer.Buffer.ExecPipeline` | src/domains/gift/giftBuffer.ts:284-316 | The pipeline re-queues, dead-letters and trims as the machine's step |
| `GiftBuffer.Buffer.FlushQueue` | src/domains/gift/giftBuffer.ts:124-321 | The whole flush, gifts arriving at every await and exceptions included, is a run of the machine that pops, answers as Laravel did and ends empty-handed; without arrivals and over draining entries it lowers the measure; a second flush at the same time does nothing |
| `SlidingWindow.LimiterIsTight` | src/infrastructure/rateLimiter.ts:18-33 | With one clock, no half-open window holds more than the limit of admissions, and a call is refused exactly when its trailing window is full |
| `SlidingWindow.LimiterIsExact` | src/infrastructure/rateLimiter.ts:18-33 | Pruning and PEXPIRE never change a decision against a limiter that remembers everything |
| `SlidingWindow.SkewedCheck` | src/infrastructure/rateLimiter.ts:18-33 | With clocks that disagree: an admission saw fewer than the limit of others later than a window, shortened by the spread, ago; a refusal saw the limit of them later than a window ago |
| `SlidingWindow.SkewNeverOver` | src/infrastructure/rateLimiter.ts:18-33 | Over any run, clock readings running backwards between instances included, no interval of the window less the spread overfills, by Redis' clock or by the stamps |
| `SlidingWindow.SkewBoundIsExact` | src/infrastructure/rateLimiter.ts:18-33 | That length is the longest, on both time axes: the limit is kept over intervals of a length if and only if the length is at most the window less the spread |
| `SlidingWindow.CheckRefinesLog` | src/infrastructure/rateLimiter.ts:25-32 | One call decides as the full log does and goes on representing it |
| `SlidingWindow.PruneLeavesWindow` | src/infrastructure/rateLimiter.ts:25-29 | Pruning, or expiry of the key, forgets exactly what lies outside the trailing window |
| `SlidingWindow.PruneSorted` | src/infrastructure/rateLimiter.ts:25-25 | On sorted scores the prune is a cut |
| `SlidingWindow.LogNeverOver` | src/infrastructure/rateLimiter.ts:18-33 | The remembering limiter never overfills any window |
| `SlidingWindow.LogDecides` | src/infrastructure/rateLimiter.ts:26-32 | Each decision depends on the admissions before it alone |
| `SlidingWindow.ZRemRangeByScore` | src/infrastructure/rateLimiter.ts:25-25 | The scan removes the scores in range and keeps the order of the rest |
| `SlidingWindow.RateLimiter.IsAllowed` | src/infrastructure/rateLimiter.ts:66-87 | One key's window moves as the script says, all other keys stay |
| `TokenBucket.GrantsAreBounded` | src/infrastructure/socketEventBudget.ts:82-121 | Over no stretch of any run do grants exceed capacity plus rate times elapsed, by the latest clock seen; tokens stay within the capacity |
| `TokenBucket.GrantedIffEveryStretchAllows` | src/infrastructure/socketEventBudget.ts:104-121 | After any run a call is granted if and only if that bound still holds for every stretch ending in it |
| `TokenBucket.RefillKeepsExact` | src/infrastructure/socketEventBudget.ts:111-121 | The token count is the least slack of all past stretches, also after a clock jump back |
| `TokenBucket.TakeKeepsExact` | src/infrastructure/socketEventBudget.ts:104-109 | A grant keeps it so |
| `TokenBucket.BurstIsGrantedInFull` | src/infrastructure/socketEventBudget.ts:88-97 | A burst within the tokens at hand is granted whole, whenever its calls come |
| `TokenBucket.SocketBudget.RefillTokens` | src/infrastructure/socketEventBudget.ts:111-121 | The fields move as the value model's refill, not at all when the clock stands or runs back |
| `TokenBucket.SocketBudget.TryConsume` | src/infrastructure/socketEventBudget.ts:104-109 | Refill, then take the cost or nothing |
| `EventOrdering.AcceptedIffPasses` | src/infrastructure/event-ordering.ts:78-109 | Within one TTL the guard accepts exactly the deliveries that nothing newer preceded |
| `EventOrdering.MarkerIsNewest` | src/infrastructure/event-ordering.ts:78-89 | After any schedule the marker holds the newest version, with a deadline that runs from that event's last delivery |
| `EventOrdering.MarkerIgnoresWrites` | src/integrations/laravel/event-router.ts:666-699 | However the guarded writes interleave with the verdicts, the marker depends on the arrivals alone |
| `EventOrdering.AcceptedAscends` | src/infrastructure/event-ordering.ts:78-109 | The accepted versions never go down |
| `EventOrdering.AcceptedEndsAtNewest` | src/infrastructure/event-ordering.ts:78-109 | The last delivery accepted is the newest event's |
| `EventOrdering.DeliveryOrderIsIrrelevant` | src/integrations/laravel/event-router.ts:666-737 | Two runs of the same events, in any order and with any repetition, within one TTL and with writes landing at any time, leave the same version, and the same state if each had nothing older in flight at some delivery of the newest event |
| `EventOrdering.NewestWinsIff` | src/integrations/laravel/event-router.ts:724-737 | For any run so far: once the newest event is accepted, every continuation (nothing newer, within the TTL, writes in any order) that completes its writes ends at it, if and only if no older accepted write was still awaited when it arrived |
| `EventOrdering.SettledIff` | src/integrations/laravel/event-router.ts:724-737 | The same for any state with a live newest marker and its write pending, reachable by whatever run |
| `EventOrdering.CalmRunEndsAtNewest` | src/integrations/laravel/event-router.ts:724-737 | A whole run in which nothing older was in flight at some delivery of the newest event ends at it |
| `EventOrdering.WritesInOrderSuffice` | src/integrations/laravel/event-router.ts:724-737 | Writes that land in the order of the verdicts end at the newest event |
| `EventOrdering.OverlapLosesNewest` | src/integrations/laravel/event-router.ts:724-737 | Any two overlapping deliveries can leave the older state, inside the TTL |
| `EventOrdering.NoTimestampNoGuard` | src/infrastructure/event-ordering.ts:169-173 | An event without a usable timestamp is applied wherever in a schedule it turns up, and changes neither the marker nor which other events are applied |
| `EventOrdering.StaleWinsExactlyAfterTtl` | src/infrastructure/event-ordering.ts:78-89 | After any schedule, an older delivery is accepted if and only if it comes a full TTL after the last one the guard accepted, a replay of the newest event counting |
| `EventOrdering.WatermarkIsMaximum` | src/infrastructure/event-ordering.ts:127-158 | Watermark writes in any order leave the maximum, with the deadline of its first arrival |
| `EventOrdering.WrittenIffNewest` | src/infrastructure/event-ordering.ts:127-158 | Within one TTL a write reports success exactly when it is strictly newer than all before it, and then stands for a full TTL; otherwise the marker stays |
| `EventOrdering.TimestampDecides` | src/infrastructure/event-ordering.ts:169-173 | An event with a usable timestamp is applied exactly when no event with a later one came before it within the TTL |
| `EventOrdering.VersionKeys.AcceptIfNotOlder` | src/infrastructure/event-ordering.ts:78-109 | Rejects only a strictly older version; other keys stay |
| `EventOrdering.VersionKeys.WriteIfNewer` | src/infrastructure/event-ordering.ts:127-158 | Rejects ties too; other keys stay |
| `MixerPorts.ProbeFindsLowestFree` | src/domains/broadcast/mixer-port-registry.ts:49-61 | The lowest free stepped port, or none exactly when all candidates are taken |
| `MixerPorts.MixerPortRegistry.Allocate` | src/domains/broadcast/mixer-port-registry.ts:49-61 | The search loop finds what the probe gives and marks only that port |
| `MixerPorts.SpeakerMixer.Add` | src/domains/broadcast/speaker-mixer.ts:125-155 | One more entry on the lowest free port, or, when connecting fails, registry and entries as before; exhausted exactly when every candidate port is taken |
| `MixerPorts.SpeakerMixer.Remove` | src/domains/broadcast/speaker-mixer.ts:157-163 | Frees this producer's port and no other room's |
| `MixerPorts.SpeakerMixer.RemoveLeavers` | src/domains/broadcast/speaker-mixer.ts:63-69 | Exactly the undesired entries go; true exactly when there was one |
| `MixerPorts.SpeakerMixer.AddJoiners` | src/domains/broadcast/speaker-mixer.ts:71-77 | All connectable newcomers get in, stayers keep their ports; exhausted only if, at some producer asked for and not mixed, every candidate port is taken, with the connectable ones ahead of it in |
| `MixerPorts.SpeakerMixer.Sync` | src/domains/broadcast/speaker-mixer.ts:59-80 | The mix becomes the desired connectable set; true if and only if it changed; other rooms' ports stay; an exhausted pool is reported as by AddJoiners, with all leavers gone and all stayers kept |
| `MixerPorts.SpeakerMixer.Close` | src/domains/broadcast/speaker-mixer.ts:115-119 | Leaves the registry with exactly the other rooms' ports |
| `MixerPorts.SetChanged` | src/domains/broadcast/speaker-mixer.ts:59-80 | Drops and adds cannot cancel out, so either flag alone means a changed set |
| `BroadcastChain.RoomsNeverInterleave` | src/domains/broadcast/broadcast-publish-controller.ts:216-228 | From the promise chain alone, over any run of any rooms' operations: a room runs one operation at a time, so none of its acts ever meets a busy mixer, and the shared ports neither collide nor leak |
| `BroadcastChain.OneAtATime` | src/domains/broadcast/broadcast-publish-controller.ts:216-228 | Two operations of one room never run at once |
| `BroadcastChain.ActsArePossible` | src/domains/broadcast/broadcast-publish-controller.ts:122-197 | Whatever an operation's own code does next, its mixer is free for it |
| `BroadcastChain.StepKeepsLine` | src/domains/broadcast/broadcast-publish-controller.ts:216-228 | Enqueueing, starting, settling and forgetting a tail keep a room's operations one line in enqueue order |
| `BroadcastChain.AllBeforeSettled` | src/domains/broadcast/broadcast-publish-controller.ts:217-224 | When the promise an operation was chained to has settled, everything enqueued earlier for that room has |
| `BroadcastChain.OldestPendingCanStart` | src/domains/broadcast/broadcast-publish-controller.ts:217-224 | The chain never stalls: with all earlier operations settled the next one can start |
| `BroadcastChain.SettlingLetsNextStart` | src/domains/broadcast/broadcast-publish-controller.ts:217-224 | Once an operation settles the next one of its room can start, and then runs |
| `BroadcastChain.EnqueuedGoesLast` | src/domains/broadcast/broadcast-publish-controller.ts:216-228 | A new operation stands behind everything of its room, waiting, and changes no other |
| `BroadcastChain.ForgetsOnlyItsOwnTail` | src/domains/broadcast/broadcast-publish-controller.ts:216-228 | A settled operation removes its room's tail exactly when it still is that tail, and no other room's |
| `MixerPool.PortsNeverCollideOrLeak` | src/domains/broadcast/speaker-mixer.ts:59-163 | In any interleaving of many rooms' syncs and closes: live entries and adds in flight hold distinct ports, these are exactly the used ones, and a returning sync tells truly whether its room's mix changed |
| `MixerPool.StepKeepsPortsExact` | src/domains/broadcast/speaker-mixer.ts:125-163 | Each step keeps legs and used ports in one-to-one correspondence |
| `MixerPool.StepKeepsFlagsTrue` | src/domains/broadcast/speaker-mixer.ts:59-80 | Each step, of this room or another, keeps a sync's flag true to its room |
| `MixerPool.BrokenOffOnlyWhenExhausted` | src/domains/broadcast/speaker-mixer.ts:71-76 | A sync that does not return was broken off at a producer not mixed, with every candidate port taken by then |
| `MixerPool.ReturnedSyncIsComplete` | src/domains/broadcast/speaker-mixer.ts:59-80 | A sync that returns has nobody in the mix it does not aim at, has all it aims at except those it failed to connect, and frees its room |
| `MixerPool.CloseFreesRoom` | src/domains/broadcast/speaker-mixer.ts:115-119 | Closing a mixer takes all its legs, frees their ports and touches no other room's |
| `MixerPool.StepKeepsAddsInOrder` | src/domains/broadcast/speaker-mixer.ts:71-76 | A sync's add in flight is the room's only leg that is not live, and is one it aims at |

## Left out

- Socket.IO emits, HTTP routes, schemas, logging, metrics, FFmpeg, SDP text and mediasoup internals: calls succeed, fail or wait.
- Redis failures, process crashes and corrupt seat entries: the fallbacks return defaults.
- `SeatRepository.clearRoom`: a scan followed by a pipeline, not atomic; it ends a run.
- A global bound on seat indices: the code documents the race between a shrink and a take with the old count.
- Seat invites, and reading a single seat or a single user's seat: plain lookups.
- OwnershipLease.StaleBeliefIsBounded: an uncached answer needs its GET to take at most 5 s; without that it is false, and `OwnershipLease.BeliefBoundedIffReadsAreQuick` proves the condition exact.
- MusicProtocol.NoWaiterIsStranded: needs probes quicker than the grace time (proved exact) and no full hold lapsing over waiters (`MusicProtocol.StrandingStepIsALapse` gives the exact step); it speaks of those in line, and `MusicLine.WaiterStaysIff` says how they leave it.
- MusicStore.Store.StoreNowPlaying: the stored track is reduced to whose it is; title, position and the track key's own TTL are not modelled.
- MediaSafety.NoSpeakerIsMissing: a pipe started by `registerProducer` eventually succeeds; failed router creation is modelled, pipes closing later and the cluster's `close` are not.
- MediaSafety.SlotsNeverOverbooked: a transport closing before its observer is attached is not modelled.
- GiftConservation.GiftsAreConserved: counts what an exception drops as lost, because the code drops it; gifts Laravel accepted although the POST timed out are counted by what the buffer was told.
- GiftDrain.BacklogsDrainIffEntriesDo: JavaScript's conversion of text to numbers is not spelled out; a count that is text, an object, an array or an integer beyond 2^53 is known by the number of increments that bring it to the limit, if any, and rounding of fractions is not captured.
- GiftBuffer.Buffer.FlushQueue: the pipeline is one step, the wait in `stop` and the sampled length read are left out, and exceptions thrown by Socket.IO emits, or by a malformed answer of Laravel after it settled the gifts, are not modelled.
- TokenBucket.GrantsAreBounded: over the reals, so floating-point rounding is not captured.
- EventOrdering.DeliveryOrderIsIrrelevant: equal versions with different payloads, which the code accepts in arrival order, are excluded; the TTL of the guarded block itself is not modelled.
- MixerPorts.SpeakerMixer.Sync: one room at a time; `MixerPool` adds the interleaving of rooms and `BroadcastChain` the operations. Sessions, publisher, SDP and resuming consumers are left out.
- RoomRegistry.Registry.Heartbeat: the answers of one sweep's refreshes are handled in the order of the rooms; origin and edge info keys are left out.
- Presence counters, cascade relay, reverse pipes, ingest concurrency cap, HLS publisher: not kept by the code without further assumptions, or easy.
