/** What each seat script answers, how long what it writes lasts, and what it leaves alone. */
module SeatAnswers {
  import opened Redis
  import opened SeatRoom
  import opened SeatSafety

  // ----- answers -----

  /** A refusal names the first of the three causes that applies; assign knows no taken seat. */
  lemma RefusalNamesFirstCause(r: Room, user: UserId, seat: int, seatCount: int)
    ensures var take, assign := Take(r, user, seat, seatCount).1, Assign(r, user, seat, seatCount).1;
            && (take == Refused(SeatInvalid) <==> !(0 <= seat < seatCount))
            && (take == Refused(SeatLocked) <==> 0 <= seat < seatCount && seat in r.locked)
            && (take == Refused(SeatTaken) <==> 0 <= seat < seatCount && seat !in r.locked && seat in r.seats)
            && (assign == Refused(SeatInvalid) <==> !(0 <= seat < seatCount))
            && (assign == Refused(SeatLocked) <==> 0 <= seat < seatCount && seat in r.locked)
            && (assign.Seated? <==> 0 <= seat < seatCount && seat !in r.locked)
            && (take.Seated? ==> take.seat == seat) && (assign.Seated? ==> assign.seat == seat)
  {
  }

  /** A mute says whether the seat was occupied, and then sets that flag and nothing else. */
  lemma MuteAnswersTruly(r: Room, seat: int, muted: bool)
    ensures var (r', found) := SetMute(r, seat, muted);
            && (found <==> seat in r.seats)
            && r' == r.(seats := r'.seats) && r'.seats.Keys == r.seats.Keys
            && (forall i :: i in r.seats && i != seat ==> r'.seats[i] == r.seats[i])
            && (found ==> r'.seats[seat] == r.seats[seat].(muted := muted) && r'.seats[seat].muted == muted)
  {
  }

  /** Lock and unlock say whether they changed the lock, and change no other lock; a refused one changes
      nothing at all. */
  lemma LocksAnswerTruly(r: Room, seat: int)
    ensures var (locked, ok, kicked) := Lock(r, seat);
            && (ok <==> seat !in r.locked)
            && (!ok ==> locked == r && kicked == None)
            && (ok ==> locked.locked == r.locked + {seat} && locked.lockedExpireAt == Some(r.clock + SEAT_KEY_TTL_MS))
    ensures var (unlocked, ok) := Unlock(r, seat);
            && (ok <==> seat in r.locked)
            && unlocked.locked == r.locked - {seat}
            && unlocked.seats == r.seats && unlocked.seatsExpireAt == r.seatsExpireAt && unlocked.index == r.index
            && (unlocked.locked != {} ==> unlocked.lockedExpireAt == r.lockedExpireAt)
  {
    assert seat !in r.locked ==> r.locked - {seat} == r.locked;
  }

  /** A reserve answers with the user's seats, marks exactly those, and keeps the room for another 24 h. */
  lemma ReserveAnswersTruly(r: Room, user: UserId, now: int)
    ensures var (r', reserved) := Reserve(r, user, now);
            && (forall i :: i in reserved <==> i in r.seats && r.seats[i].userId == user)
            && r'.seats.Keys == r.seats.Keys
            && (forall i :: i in r.seats ==>
                  r'.seats[i] == if i in reserved then r.seats[i].(disconnectedAt := Some(now)) else r.seats[i])
            && r'.seatsExpireAt == (if reserved != {} then Some(r.clock + SEAT_KEY_TTL_MS) else r.seatsExpireAt)
            && r'.index == r.index && r'.locked == r.locked && r'.lockedExpireAt == r.lockedExpireAt
  {
    var held := SeatsOf(r, user);
    if held != {} {
      var i := Pick(held);
      assert i in r.seats && i in Stamp(r, held, now).seats;
    }
  }

  /** A reclaim unmarks one seat, points the index at it, and keeps both for another 24 h; without a live
      marker it changes nothing. */
  lemma ReclaimAnswersTruly(r: Room, user: UserId, now: int, graceMs: int, pick: Option<int>)
    requires ReclaimPick(r, user, now, graceMs, pick)
    ensures var r' := Reclaim(r, user, pick);
            && (pick.None? ==> r' == r && forall i :: i in r.seats ==> !Reclaimable(r.seats[i], user, now, graceMs))
            && (pick.Some? ==>
                  && pick.value in r.seats && Reclaimable(r.seats[pick.value], user, now, graceMs)
                  && r'.seats == r.seats[pick.value := r.seats[pick.value].(disconnectedAt := None)]
                  && r'.seatsExpireAt == Some(r.clock + SEAT_KEY_TTL_MS)
                  && r'.index == r.index[user := IndexEntry(pick.value, Some(r.clock + SEAT_KEY_TTL_MS))]
                  && r'.locked == r.locked && r'.lockedExpireAt == r.lockedExpireAt)
  {
    if pick.None? {
      forall i | i in r.seats ensures !Reclaimable(r.seats[i], user, now, graceMs) {
        assert i !in Matching(r.seats, (i, a: Assignment) => Reclaimable(a, user, now, graceMs));
      }
    } else {
      var r' := Reclaim(r, user, pick);
      assert pick.value in r.seats && pick.value in r'.seats;
      assert r'.index == r.index[user := IndexEntry(pick.value, Some(r.clock + SEAT_KEY_TTL_MS))];
    }
  }

  /** Time takes a key exactly when its deadline is reached, and changes nothing else. */
  lemma TimeTakesOnlyTheExpired(r: Room, to: int)
    ensures var r' := Advance(r, to);
            && r'.clock == to
            && (if Expired(r.seatsExpireAt, to) then r'.seats == map[] && r'.seatsExpireAt == None
                else r'.seats == r.seats && r'.seatsExpireAt == r.seatsExpireAt)
            && (if Expired(r.lockedExpireAt, to) then r'.locked == {} && r'.lockedExpireAt == None
                else r'.locked == r.locked && r'.lockedExpireAt == r.lockedExpireAt)
            && (forall u :: u in r'.index <==> u in r.index && !Expired(r.index[u].expireAt, to))
            && (forall u :: u in r'.index ==> r'.index[u] == r.index[u])
  {
  }

  // ----- what a script leaves alone -----

  /** The users at whom a step is aimed: who asks, who is displaced, kicked or evicted, whose key expires. */
  predicate Concerns(r: Room, e: Event, u: UserId) {
    match e
    case TakeEvent(user, _, _) => u == user
    case LeaveEvent(user) => u == user
    case AssignEvent(user, seat, _) => u == user || (seat in r.seats && u == r.seats[seat].userId)
    case LockEvent(seat) => seat in r.seats && u == r.seats[seat].userId
    case ReclaimEvent(user, _, _, _) => u == user
    case SweepEvent(now, graceMs) => exists i :: i in r.seats && r.seats[i].userId == u && Stale(r.seats[i], now, graceMs)
    case ShrinkEvent(count) => exists i :: i in r.seats && r.seats[i].userId == u && count <= i
    case AdvanceEvent(to) => u in r.index && Expired(r.index[u].expireAt, to)
    case _ => false
  }

  /** Whom a step does not concern keeps the reverse index, entry and deadline. */
  lemma OthersKeepIndex(r: Room, e: Event, u: UserId)
    requires !Concerns(r, e, u)
    ensures u in Step(r, e).index <==> u in r.index
    ensures u in r.index ==> Step(r, e).index[u] == r.index[u]
  {
    match e
    case TakeEvent(user, seat, seatCount) => TakeRepairs(r, user, seat, seatCount);
    case AssignEvent(user, seat, seatCount) => AssignRepairs(r, user, seat, seatCount);
    case SweepEvent(now, graceMs) => EvictSparesIndex(r, (i, a: Assignment) => Stale(a, now, graceMs), u);
    case ShrinkEvent(count) => EvictSparesIndex(r, (i, a: Assignment) => count <= i, u);
    case _ =>
  }

  lemma EvictSparesIndex(r: Room, hit: (int, Assignment) -> bool, u: UserId)
    requires forall i :: i in r.seats && r.seats[i].userId == u ==> !hit(i, r.seats[i])
    ensures u in EvictWhere(r, hit).0.index <==> u in r.index
    ensures u in r.index ==> EvictWhere(r, hit).0.index[u] == r.index[u]
  {
    assert u !in Owners(r, Matching(r.seats, hit));
  }

  // ----- how long a lock lasts -----

  /** By this step seat i is unlocked: on request, or because 24 h have passed since `last`, the moment some
      seat of the room was last locked. */
  predicate Unlocks(e: Event, i: int, last: int) {
    e == UnlockEvent(i) || (e.AdvanceEvent? && last + SEAT_KEY_TTL_MS <= e.to)
  }

  function LastLock(r: Room, e: Event, last: int): int {
    if e.LockEvent? && e.seat !in r.locked then r.clock else last
  }

  predicate NeverUnlocks(r: Room, events: seq<Event>, i: int, last: int)
    decreases |events|
  {
    events == []
    || (!Unlocks(events[0], i, last)
        && NeverUnlocks(Step(r, events[0]), events[1..], i, LastLock(r, events[0], last)))
  }

  /** Seat i is locked now and after every step of the run. */
  predicate StaysLocked(r: Room, events: seq<Event>, i: int)
    decreases |events|
  {
    i in r.locked && (events == [] || StaysLocked(Step(r, events[0]), events[1..], i))
  }

  lemma StepUnlocksIff(r: Room, e: Event, i: int, last: int)
    requires i in r.locked && r.lockedExpireAt == Some(last + SEAT_KEY_TTL_MS)
    ensures i in Step(r, e).locked <==> !Unlocks(e, i, last)
    ensures i in Step(r, e).locked ==> Step(r, e).lockedExpireAt == Some(LastLock(r, e, last) + SEAT_KEY_TTL_MS)
  {
    match e
    case LockEvent(_) =>
    case UnlockEvent(seat) => if seat != i { assert i in r.locked - {seat}; }
    case AdvanceEvent(_) =>
    case _ => OnlyLockScriptsTouchLocks(r, e);
  }

  lemma {:induction false} StaysLockedIff(r: Room, events: seq<Event>, i: int, last: int)
    requires i in r.locked && r.lockedExpireAt == Some(last + SEAT_KEY_TTL_MS)
    ensures StaysLocked(r, events, i) <==> NeverUnlocks(r, events, i, last)
    ensures StaysLocked(r, events, i) ==> i in Run(r, events).locked
    decreases |events|
  {
    if events != [] {
      StepUnlocksIff(r, events[0], i, last);
      if i in Step(r, events[0]).locked {
        StaysLockedIff(Step(r, events[0]), events[1..], i, LastLock(r, events[0], last));
      }
    }
  }

  /** Main result on locks: after a successful lock, over any run, the seat stays locked, and take and assign of
      it stay refused, if and only if nobody unlocks it and no 24 h pass without another lock in the room. */
  lemma LockLastsIff(r: Room, i: int, events: seq<Event>, user: UserId, seatCount: int)
    requires i !in r.locked
    ensures var locked := Lock(r, i).0;
            && (StaysLocked(locked, events, i) <==> NeverUnlocks(locked, events, i, r.clock))
            && (StaysLocked(locked, events, i) && 0 <= i < seatCount ==>
                  var end := Run(locked, events);
                  Take(end, user, i, seatCount).1 == Assign(end, user, i, seatCount).1 == Refused(SeatLocked))
  {
    LocksAnswerTruly(r, i);
    StaysLockedIff(Lock(r, i).0, events, i, r.clock);
  }
}
