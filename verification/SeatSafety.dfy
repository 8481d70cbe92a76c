/** What every interleaving of the seat scripts and key expiry keeps, and how the scripts repair a
    room whose hash was corrupted before. */
module SeatSafety {
  import opened Redis
  import opened SeatRoom

  function EmptyRoom(clock: int): Room {
    Room(map[], None, {}, None, map[], clock)
  }

  ghost predicate SingleOccupancy(r: Room) {
    forall i, j :: i in r.seats && j in r.seats && r.seats[i].userId == r.seats[j].userId ==> i == j
  }

  ghost predicate LockedIsEmpty(r: Room) {
    forall i :: i in r.locked ==> i !in r.seats
  }

  ghost predicate IndexAgreesFor(r: Room, user: UserId)
    requires user in r.index
  {
    r.index[user].seat in r.seats && r.seats[r.index[user].seat].userId == user
  }

  ghost predicate IndexAgrees(r: Room) {
    forall u :: u in r.index ==> IndexAgreesFor(r, u)
  }

  ghost predicate HashDeadlineBounded(r: Room) {
    r.seats != map[] ==> r.seatsExpireAt.Some? && r.seatsExpireAt.value <= r.clock + SEAT_KEY_TTL_MS
  }

  /** The seats hash does not expire before this user's reverse-index key. */
  ghost predicate IndexDiesFirst(r: Room, user: UserId)
    requires user in r.index
  {
    r.seatsExpireAt.Some? && r.index[user].expireAt.Some?
    && r.index[user].expireAt.value <= r.seatsExpireAt.value
  }

  ghost predicate DeadlinesOrdered(r: Room) {
    HashDeadlineBounded(r) && forall u :: u in r.index ==> IndexDiesFirst(r, u)
  }

  ghost predicate Sound(r: Room) {
    SingleOccupancy(r) && LockedIsEmpty(r) && IndexAgrees(r) && DeadlinesOrdered(r)
  }

  /** Everything Sound says apart from one user's reverse index, which is about to be rewritten. */
  ghost predicate SoundApartFrom(r: Room, user: UserId) {
    && SingleOccupancy(r) && LockedIsEmpty(r) && HashDeadlineBounded(r)
    && forall u :: u in r.index && u != user ==> IndexAgreesFor(r, u) && IndexDiesFirst(r, u)
  }

  lemma VacateKeepsSound(r: Room, gone: set<int>, users: set<UserId>)
    requires Sound(r)
    requires Owners(r, gone) <= users
    ensures Sound(DelIndex(HDel(r, gone), users))
    ensures Sound(HDel(DelIndex(r, users), gone))
  {
    var r' := DelIndex(HDel(r, gone), users);
    forall u | u in r'.index
      ensures IndexAgreesFor(r', u) && IndexDiesFirst(r', u)
    {
      assert u in r.index && IndexAgreesFor(r, u) && IndexDiesFirst(r, u);
      assert r.index[u].seat !in gone;
    }
    assert HDel(DelIndex(r, users), gone) == r';
  }

  lemma ClearOthersLeavesSoundApart(r: Room, user: UserId, seat: int)
    requires Sound(r) && seat !in r.seats
    ensures var left := HDel(r, SeatsOf(r, user) - {seat});
            SoundApartFrom(left, user) && SeatsOf(left, user) == {} && seat !in left.seats
  {
    var gone := SeatsOf(r, user) - {seat};
    var left := HDel(r, gone);
    forall u | u in left.index && u != user
      ensures IndexAgreesFor(left, u) && IndexDiesFirst(left, u)
    {
      assert IndexAgreesFor(r, u) && IndexDiesFirst(r, u);
      assert r.index[u].seat !in gone;
    }
  }

  lemma OccupyMakesSound(r: Room, user: UserId, seat: int)
    requires SoundApartFrom(r, user) && SeatsOf(r, user) == {}
    requires seat !in r.seats && seat !in r.locked
    ensures Sound(Occupy(r, user, seat))
  {
    var r' := Occupy(r, user, seat);
    forall i | i in r.seats
      ensures r.seats[i].userId != user
    {
      assert r.seats[i].userId == user ==> i in SeatsOf(r, user);
    }
    forall u | u in r'.index
      ensures IndexAgreesFor(r', u) && IndexDiesFirst(r', u)
    {
      if u != user { assert IndexAgreesFor(r, u) && IndexDiesFirst(r, u); }
    }
  }

  lemma TakeKeepsSound(r: Room, user: UserId, seat: int, seatCount: int)
    requires Sound(r)
    ensures Sound(Take(r, user, seat, seatCount).0)
  {
    if Take(r, user, seat, seatCount).1.Seated? {
      ClearOthersLeavesSoundApart(r, user, seat);
      OccupyMakesSound(HDel(r, SeatsOf(r, user) - {seat}), user, seat);
    }
  }

  lemma AssignKeepsSound(r: Room, user: UserId, seat: int, seatCount: int)
    requires Sound(r)
    ensures Sound(Assign(r, user, seat, seatCount).0)
  {
    if Assign(r, user, seat, seatCount).1.Seated? {
      var freed := Displace(r, user, seat);
      if seat in r.seats && r.seats[seat].userId == user {
        // The user's own seat is emptied; the index still points at it until Occupy rewrites it.
        assert forall i :: i in freed.seats ==> i in r.seats && freed.seats[i] == r.seats[i] && i != seat;
        assert SeatsOf(freed, user) - {seat} == {};
        assert HDel(freed, {}) == freed;
        forall u | u in freed.index && u != user
          ensures IndexAgreesFor(freed, u) && IndexDiesFirst(freed, u)
        {
          assert IndexAgreesFor(r, u) && IndexDiesFirst(r, u);
        }
      } else {
        if seat in r.seats { VacateKeepsSound(r, {seat}, {r.seats[seat].userId}); }
        ClearOthersLeavesSoundApart(freed, user, seat);
      }
      OccupyMakesSound(HDel(freed, SeatsOf(freed, user) - {seat}), user, seat);
    }
  }

  lemma ReclaimKeepsSound(r: Room, user: UserId, now: int, graceMs: int, pick: Option<int>)
    requires Sound(r) && ReclaimPick(r, user, now, graceMs, pick)
    ensures Sound(Reclaim(r, user, pick))
  {
    var r' := Reclaim(r, user, pick);
    forall u | u in r'.index
      ensures IndexAgreesFor(r', u) && IndexDiesFirst(r', u)
    {
      if u in r.index { assert IndexAgreesFor(r, u) && IndexDiesFirst(r, u); }
    }
  }

  /** Rewriting entries in place, keeping every owner, and at most extending the deadline. */
  lemma RewriteKeepsSound(r: Room, r': Room)
    requires Sound(r)
    requires r'.seats.Keys == r.seats.Keys
    requires forall i :: i in r.seats ==> r'.seats[i].userId == r.seats[i].userId
    requires r'.index == r.index && r'.locked == r.locked && r'.clock == r.clock
    requires r'.seatsExpireAt == r.seatsExpireAt
             || (r.seats != map[] && r'.seatsExpireAt == Some(r.clock + SEAT_KEY_TTL_MS))
    ensures Sound(r')
  {
    forall u | u in r'.index
      ensures IndexAgreesFor(r', u) && IndexDiesFirst(r', u)
    {
      assert IndexAgreesFor(r, u) && IndexDiesFirst(r, u);
    }
    assert r'.seats != map[] ==> r.seats.Keys != {};
  }

  lemma AdvanceKeepsSound(r: Room, to: int)
    requires Sound(r) && r.clock <= to
    ensures Sound(Advance(r, to))
  {
    var r' := Advance(r, to);
    forall u | u in r'.index
      ensures IndexAgreesFor(r', u) && IndexDiesFirst(r', u)
    {
      assert IndexAgreesFor(r, u) && IndexDiesFirst(r, u);
    }
  }

  lemma LockKeepsSound(r: Room, seat: int)
    requires Sound(r)
    ensures Sound(Lock(r, seat).0)
  {
    if seat !in r.locked {
      var freed := if seat in r.seats then DelIndex(HDel(r, {seat}), {r.seats[seat].userId}) else r;
      if seat in r.seats { VacateKeepsSound(r, {seat}, {r.seats[seat].userId}); }
      SameSeatsKeepSound(freed, Lock(r, seat).0);
    }
  }

  /** Sound constrains the lock set only through the seats it must not touch. */
  lemma SameSeatsKeepSound(r: Room, r': Room)
    requires Sound(r) && LockedIsEmpty(r')
    requires r'.seats == r.seats && r'.seatsExpireAt == r.seatsExpireAt
    requires r'.index == r.index && r'.clock == r.clock
    ensures Sound(r')
  {
    forall u | u in r'.index
      ensures IndexAgreesFor(r', u) && IndexDiesFirst(r', u)
    {
      assert IndexAgreesFor(r, u) && IndexDiesFirst(r, u);
    }
  }

  lemma StepKeepsSound(r: Room, e: Event)
    requires Sound(r) && Possible(r, e)
    ensures Sound(Step(r, e))
  {
    match e
    case TakeEvent(user, seat, seatCount) => TakeKeepsSound(r, user, seat, seatCount);
    case LeaveEvent(user) => VacateKeepsSound(r, SeatsOf(r, user), {user});
    case AssignEvent(user, seat, seatCount) => AssignKeepsSound(r, user, seat, seatCount);
    case SetMuteEvent(seat, muted) => RewriteKeepsSound(r, Step(r, e));
    case LockEvent(seat) => LockKeepsSound(r, seat);
    case UnlockEvent(seat) => SameSeatsKeepSound(r, Step(r, e));
    case ReserveEvent(user, now) => RewriteKeepsSound(r, Step(r, e));
    case ReclaimEvent(user, now, graceMs, pick) => ReclaimKeepsSound(r, user, now, graceMs, pick);
    case SweepEvent(now, graceMs) =>
      var doomed := Matching(r.seats, (i, a: Assignment) => Stale(a, now, graceMs));
      VacateKeepsSound(r, doomed, Owners(r, doomed));
    case ShrinkEvent(newSeatCount) =>
      var doomed := Matching(r.seats, (i, a: Assignment) => newSeatCount <= i);
      VacateKeepsSound(r, doomed, Owners(r, doomed));
    case AdvanceEvent(to) => AdvanceKeepsSound(r, to);
  }

  lemma {:induction false} RunKeepsSound(r: Room, events: seq<Event>)
    requires Sound(r) && PossibleRun(r, events)
    ensures Sound(Run(r, events))
    decreases |events|
  {
    if events != [] {
      StepKeepsSound(r, events[0]);
      RunKeepsSound(Step(r, events[0]), events[1..]);
    }
  }

  /** Main safety result: whatever scripts run in whatever order, and whenever keys expire. */
  lemma ReachableRoomIsSound(start: int, events: seq<Event>)
    requires PossibleRun(EmptyRoom(start), events)
    ensures var r := Run(EmptyRoom(start), events);
            && SingleOccupancy(r) && LockedIsEmpty(r) && IndexAgrees(r) && DeadlinesOrdered(r)
  {
    RunKeepsSound(EmptyRoom(start), events);
  }

  // ----- nothing lives for ever -----

  ghost predicate LockDeadlineBounded(r: Room) {
    r.locked != {} ==> r.lockedExpireAt.Some? && r.lockedExpireAt.value <= r.clock + SEAT_KEY_TTL_MS
  }

  lemma StepKeepsLockDeadline(r: Room, e: Event)
    requires LockDeadlineBounded(r) && Possible(r, e)
    ensures LockDeadlineBounded(Step(r, e))
  {
    match e
    case LockEvent(seat) =>
    case UnlockEvent(seat) =>
    case AdvanceEvent(to) =>
    case _ => OnlyLockScriptsTouchLocks(r, e);
  }

  lemma OnlyLockScriptsTouchLocks(r: Room, e: Event)
    requires !e.LockEvent? && !e.UnlockEvent? && !e.AdvanceEvent?
    ensures Step(r, e).locked == r.locked && Step(r, e).lockedExpireAt == r.lockedExpireAt
    ensures Step(r, e).clock == r.clock
  {
  }

  lemma {:induction false} RunKeepsLockDeadline(r: Room, events: seq<Event>)
    requires LockDeadlineBounded(r) && PossibleRun(r, events)
    ensures LockDeadlineBounded(Run(r, events))
    decreases |events|
  {
    if events != [] {
      StepKeepsLockDeadline(r, events[0]);
      RunKeepsLockDeadline(Step(r, events[0]), events[1..]);
    }
  }

  /** Whatever was done to it, a room left alone for 24 h is gone from Redis, reverse index included. */
  lemma IdleRoomVanishes(start: int, events: seq<Event>, to: int)
    requires PossibleRun(EmptyRoom(start), events)
    requires Run(EmptyRoom(start), events).clock + SEAT_KEY_TTL_MS <= to
    ensures var r := Advance(Run(EmptyRoom(start), events), to);
            r.seats == map[] && r.locked == {} && r.index == map[]
  {
    RunKeepsSound(EmptyRoom(start), events);
    RunKeepsLockDeadline(EmptyRoom(start), events);
    var r := Run(EmptyRoom(start), events);
    forall u | u in r.index ensures Expired(r.index[u].expireAt, to) {
      assert IndexAgreesFor(r, u) && IndexDiesFirst(r, u);
    }
  }

  // ----- repair from an arbitrary hash: no soundness is assumed below -----

  /** No seat of another user outside `touched` appears, disappears or changes. */
  ghost predicate OthersUntouched(r: Room, r': Room, user: UserId, touched: set<int>) {
    && (forall j :: j in r.seats && r.seats[j].userId != user && j !in touched ==>
          j in r'.seats && r'.seats[j] == r.seats[j])
    && (forall j :: j in r'.seats && j !in touched ==> j in r.seats && r'.seats[j] == r.seats[j])
  }

  ghost predicate SeatedOnlyAt(r: Room, user: UserId, seat: int) {
    && SeatsOf(r, user) == {seat}
    && r.seats[seat] == Assignment(user, false, None)
    && user in r.index && r.index[user] == IndexEntry(seat, Some(r.clock + SEAT_KEY_TTL_MS))
    && r.seatsExpireAt == Some(r.clock + SEAT_KEY_TTL_MS)
  }

  lemma TakeRepairs(r: Room, user: UserId, seat: int, seatCount: int)
    ensures var (r', reply) := Take(r, user, seat, seatCount);
            && (reply.Seated? <==> 0 <= seat < seatCount && seat !in r.locked && seat !in r.seats)
            && (reply.Refused? ==> r' == r)
            && (reply.Seated? ==>
                  && SeatedOnlyAt(r', user, seat)
                  && reply.cleared == SeatsOf(r, user)
                  && OthersUntouched(r, r', user, {seat})
                  && r'.locked == r.locked
                  && r'.index == r.index[user := r'.index[user]])
  {
    assert seat !in r.seats ==> SeatsOf(r, user) - {seat} == SeatsOf(r, user);
  }

  /** Emptying the target seat leaves every other seat, and every other user's index, as it was. */
  lemma DisplaceFrees(r: Room, user: UserId, seat: int)
    ensures var freed := Displace(r, user, seat);
            && freed.seats == r.seats - {seat} && freed.locked == r.locked && freed.clock == r.clock
            && SeatsOf(freed, user) - {seat} == SeatsOf(r, user) - {seat}
            && freed.index == if seat in r.seats && r.seats[seat].userId != user
                              then r.index - {r.seats[seat].userId} else r.index
  {
    var freed := Displace(r, user, seat);
    assert freed.seats == r.seats - {seat};
  }

  lemma AssignRepairs(r: Room, user: UserId, seat: int, seatCount: int)
    ensures var (r', reply) := Assign(r, user, seat, seatCount);
            && (reply.Seated? <==> 0 <= seat < seatCount && seat !in r.locked)
            && (reply.Refused? ==> r' == r)
            && (reply.Seated? ==>
                  && SeatedOnlyAt(r', user, seat)
                  && reply.cleared == SeatsOf(r, user) - {seat}
                  && OthersUntouched(r, r', user, {seat})
                  && r'.locked == r.locked
                  && (seat in r.seats && r.seats[seat].userId != user ==>
                        r.seats[seat].userId !in r'.index)
                  && (forall u :: u != user && (seat in r.seats ==> u != r.seats[seat].userId) ==>
                        (u in r'.index <==> u in r.index)
                        && (u in r.index ==> r'.index[u] == r.index[u])))
  {
    var (r', reply) := Assign(r, user, seat, seatCount);
    if reply.Seated? {
      DisplaceFrees(r, user, seat);
      assert SeatsOf(r', user) == {seat};
    }
  }

  lemma LeaveRepairs(r: Room, user: UserId)
    ensures var (r', cleared) := Leave(r, user);
            && SeatsOf(r', user) == {} && user !in r'.index
            && cleared == SeatsOf(r, user)
            && OthersUntouched(r, r', user, {})
            && r'.index == r.index - {user} && r'.locked == r.locked
  {
  }
}
