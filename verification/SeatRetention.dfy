/** Seat retention across a reconnect: a reserved seat stays its occupant's through any run of
    scripts that is not aimed at that seat or that user. */
module SeatRetention {
  import opened Redis
  import opened SeatRoom
  import opened SeatSafety

  /** The whole life of one held seat: only a mute, a reserve, a reclaim or an assign of its occupant to
      this very seat changes its entry. */
  function Kept(a: Assignment, e: Event, seat: int): Assignment {
    match e
    case SetMuteEvent(i, muted) => if i == seat then a.(muted := muted) else a
    case ReserveEvent(user, now) => if user == a.userId then a.(disconnectedAt := Some(now)) else a
    case ReclaimEvent(user, _, _, pick) =>
      if user == a.userId && pick.Some? then a.(disconnectedAt := None) else a
    case AssignEvent(user, i, seatCount) =>
      if user == a.userId && i == seat && 0 <= i < seatCount then Assignment(user, false, None) else a
    case _ => a
  }

  /** e leaves the seat to its occupant: it is aimed elsewhere or refused, no sweep finds the marker too old,
      and time does not reach the deadline the hash has at that moment. */
  predicate Harmless(r: Room, a: Assignment, e: Event, seat: int) {
    match e
    case TakeEvent(user, i, seatCount) => user != a.userId || Take(r, user, i, seatCount).1.Refused?
    case LeaveEvent(user) => user != a.userId
    case AssignEvent(user, i, seatCount) =>
      (user == a.userId <==> i == seat) || Assign(r, user, i, seatCount).1.Refused?
    case LockEvent(i) => i != seat
    case SweepEvent(now, graceMs) => !Stale(a, now, graceMs)
    case ShrinkEvent(newSeatCount) => seat < newSeatCount
    case AdvanceEvent(to) => !Expired(r.seatsExpireAt, to)
    case _ => true
  }

  function KeptRun(a: Assignment, events: seq<Event>, seat: int): Assignment
    decreases |events|
  {
    if events == [] then a else KeptRun(Kept(a, events[0], seat), events[1..], seat)
  }

  predicate HarmlessRun(r: Room, a: Assignment, events: seq<Event>, seat: int)
    decreases |events|
  {
    events == []
    || (Harmless(r, a, events[0], seat)
        && HarmlessRun(Step(r, events[0]), Kept(a, events[0], seat), events[1..], seat))
  }

  ghost predicate EntryStands(r: Room, seat: int, a: Assignment) {
    seat in r.seats && r.seats[seat] == a
  }

  ghost predicate Holds(r: Room, seat: int, a: Assignment) {
    Sound(r) && EntryStands(r, seat, a)
  }

  lemma VacateLeavesEntry(r: Room, gone: set<int>, seat: int, a: Assignment)
    requires EntryStands(r, seat, a)
    ensures EntryStands(HDel(r, gone), seat, a) <==> seat !in gone
    ensures seat in gone ==> seat !in HDel(r, gone).seats
  {
    assert seat in HDel(r, gone).seats <==> seat !in gone;
  }

  lemma TakeLeavesEntry(r: Room, e: Event, seat: int, a: Assignment)
    requires Holds(r, seat, a) && e.TakeEvent?
    ensures EntryStands(Step(r, e), seat, a) <==> Harmless(r, a, e, seat)
    ensures !Harmless(r, a, e, seat) ==> seat !in Step(r, e).seats
  {
    if Take(r, e.user, e.seat, e.seatCount).1.Seated? {
      VacateLeavesEntry(r, SeatsOf(r, e.user) - {e.seat}, seat, a);
    }
  }

  lemma AssignLeavesEntry(r: Room, e: Event, seat: int, a: Assignment)
    requires Holds(r, seat, a) && e.AssignEvent?
    ensures EntryStands(Step(r, e), seat, Kept(a, e, seat)) <==> Harmless(r, a, e, seat)
    ensures !Harmless(r, a, e, seat) ==> seat !in Step(r, e).seats || Step(r, e).seats[seat].userId != a.userId
  {
    if Assign(r, e.user, e.seat, e.seatCount).1.Seated? && e.seat != seat {
      var freed := Displace(r, e.user, e.seat);
      assert EntryStands(freed, seat, a);
      VacateLeavesEntry(freed, SeatsOf(freed, e.user) - {e.seat}, seat, a);
    }
  }

  lemma EvictLeavesEntry(r: Room, hit: (int, Assignment) -> bool, seat: int, a: Assignment)
    requires EntryStands(r, seat, a)
    ensures EntryStands(EvictWhere(r, hit).0, seat, a) <==> !hit(seat, a)
    ensures hit(seat, a) ==> seat !in EvictWhere(r, hit).0.seats
  {
    VacateLeavesEntry(r, Matching(r.seats, hit), seat, a);
  }

  lemma ReserveMarksEntry(r: Room, user: UserId, now: int, seat: int, a: Assignment)
    requires Holds(r, seat, a)
    ensures EntryStands(Reserve(r, user, now).0, seat, Kept(a, ReserveEvent(user, now), seat))
  {
    assert seat in SeatsOf(r, user) <==> user == a.userId;
  }

  /** The occupant holds no other seat, so its reclaim picks this one. */
  lemma ReclaimUnmarksEntry(r: Room, e: Event, seat: int, a: Assignment)
    requires Holds(r, seat, a) && e.ReclaimEvent? && Possible(r, e)
    ensures EntryStands(Step(r, e), seat, Kept(a, e, seat))
  {
    if e.pick.Some? {
      assert r.seats[e.pick.value].userId == e.user;
    }
  }

  /** A step leaves the seat to its occupant, changed only as Kept says, if and only if it is harmless; any
      other step takes it away. */
  lemma SeatKeptIff(r: Room, e: Event, seat: int, a: Assignment)
    requires Holds(r, seat, a) && Possible(r, e)
    ensures EntryStands(Step(r, e), seat, Kept(a, e, seat)) <==> Harmless(r, a, e, seat)
    ensures !Harmless(r, a, e, seat) ==> seat !in Step(r, e).seats || Step(r, e).seats[seat].userId != a.userId
  {
    match e
    case TakeEvent(_, _, _) => TakeLeavesEntry(r, e, seat, a);
    case LeaveEvent(user) =>
      VacateLeavesEntry(r, SeatsOf(r, user), seat, a);
      assert seat in SeatsOf(r, user) <==> user == a.userId;
    case AssignEvent(_, _, _) => AssignLeavesEntry(r, e, seat, a);
    case LockEvent(i) => VacateLeavesEntry(r, {i}, seat, a);
    case ReserveEvent(user, now) => ReserveMarksEntry(r, user, now, seat, a);
    case ReclaimEvent(_, _, _, _) => ReclaimUnmarksEntry(r, e, seat, a);
    case SweepEvent(now, graceMs) => EvictLeavesEntry(r, (i, b: Assignment) => Stale(b, now, graceMs), seat, a);
    case ShrinkEvent(newSeatCount) => EvictLeavesEntry(r, (i, b: Assignment) => newSeatCount <= i, seat, a);
    case _ =>
  }

  lemma {:induction false} HarmlessRunKeepsSeat(r: Room, events: seq<Event>, seat: int, a: Assignment)
    requires Holds(r, seat, a) && PossibleRun(r, events) && HarmlessRun(r, a, events, seat)
    ensures Holds(Run(r, events), seat, KeptRun(a, events, seat))
    ensures KeptRun(a, events, seat).userId == a.userId
    decreases |events|
  {
    if events != [] {
      StepKeepsSound(r, events[0]);
      SeatKeptIff(r, events[0], seat, a);
      HarmlessRunKeepsSeat(Step(r, events[0]), events[1..], seat, Kept(a, events[0], seat));
    }
  }

  /** A mute on that seat, or an assign that seats its occupant there afresh. */
  predicate Remutes(user: UserId, e: Event, seat: int) {
    (e.SetMuteEvent? && e.seat == seat) || (e.AssignEvent? && e.user == user && e.seat == seat)
  }

  /** The mute flag after a run is the one set last on that seat. */
  lemma {:induction false} LastMuteWins(a: Assignment, events: seq<Event>, seat: int, k: nat)
    requires k < |events| && events[k].SetMuteEvent? && events[k].seat == seat
    requires forall j :: k < j < |events| ==> !Remutes(a.userId, events[j], seat)
    ensures KeptRun(a, events, seat).muted == events[k].muted
    decreases |events|
  {
    var b := Kept(a, events[0], seat);
    if k > 0 {
      LastMuteWins(b, events[1..], seat, k - 1);
    } else {
      NoMuteKeepsFlag(b, events[1..], seat);
    }
  }

  lemma {:induction false} NoMuteKeepsFlag(a: Assignment, events: seq<Event>, seat: int)
    requires forall j :: 0 <= j < |events| ==> !Remutes(a.userId, events[j], seat)
    ensures KeptRun(a, events, seat).muted == a.muted
    decreases |events|
  {
    if events != [] {
      assert events[0] == events[..][0];
      NoMuteKeepsFlag(Kept(a, events[0], seat), events[1..], seat);
    }
  }

  lemma HoldsOneSeat(r: Room, user: UserId, seat: int)
    requires Sound(r) && seat in r.seats && r.seats[seat].userId == user
    ensures SeatsOf(r, user) == {seat}
  {
    forall i | i in SeatsOf(r, user) ensures i == seat {
      assert r.seats[i].userId == r.seats[seat].userId;
    }
  }

  /** Main retention result, from the reserve on. */
  lemma ReservedSeatIsRetained(r: Room, user: UserId, t: int, seat: int, events: seq<Event>)
    requires Sound(r) && seat in SeatsOf(r, user)
    requires PossibleRun(Reserve(r, user, t).0, events)
    requires HarmlessRun(Reserve(r, user, t).0, r.seats[seat].(disconnectedAt := Some(t)), events, seat)
    ensures var end := Run(Reserve(r, user, t).0, events);
            var a := KeptRun(r.seats[seat].(disconnectedAt := Some(t)), events, seat);
            && SeatsOf(end, user) == {seat} && end.seats[seat] == a
            && (forall other, seatCount ::
                  Take(end, other, seat, seatCount).0 == end && Take(end, other, seat, seatCount).1.Refused?)
            && (forall now, graceMs :: a.disconnectedAt.Some? && now - a.disconnectedAt.value <= graceMs ==>
                  && seat in SweepExpired(end, now, graceMs).0.seats
                  && (forall pick :: ReclaimPick(end, user, now, graceMs, pick) <==> pick == Some(seat)))
            && SeatedAgain(end, Reclaim(end, user, Some(seat)), user, seat, a.muted)
  {
    var r0 := Reserve(r, user, t).0;
    var a0 := r.seats[seat].(disconnectedAt := Some(t));
    StepKeepsSound(r, ReserveEvent(user, t));
    HarmlessRunKeepsSeat(r0, events, seat, a0);
    var end := Run(r0, events);
    HoldsOneSeat(end, user, seat);
    forall now, graceMs, pick | Reclaimable(end.seats[seat], user, now, graceMs)
      ensures ReclaimPick(end, user, now, graceMs, pick) <==> pick == Some(seat)
    {
      OnlyReclaimableSeat(end, user, seat, now, graceMs, pick);
    }
  }

  /** A reclaim puts the user back on the seat, unmarked, with the mute flag it had, and re-indexed. */
  ghost predicate SeatedAgain(r: Room, r': Room, user: UserId, seat: int, muted: bool) {
    r'.seats == r.seats[seat := Assignment(user, muted, None)]
    && user in r'.index && r'.index[user].seat == seat
  }

  lemma OnlyReclaimableSeat(r: Room, user: UserId, seat: int, now: int, graceMs: int, pick: Option<int>)
    requires SeatsOf(r, user) == {seat} && seat in r.seats && Reclaimable(r.seats[seat], user, now, graceMs)
    ensures ReclaimPick(r, user, now, graceMs, pick) <==> pick == Some(seat)
  {
    var live := Matching(r.seats, (i, a: Assignment) => Reclaimable(a, user, now, graceMs));
    forall i | i in live ensures i == seat { assert i in SeatsOf(r, user); }
    assert seat in live;
  }

  /** At any instant a marked seat is either open to its owner's reclaim or to the sweep, never both. */
  lemma MarkedSeatReclaimableXorSweepable(r: Room, seat: int, now: int, graceMs: int)
    requires seat in r.seats && r.seats[seat].disconnectedAt.Some?
    ensures ReclaimPick(r, r.seats[seat].userId, now, graceMs, Some(seat))
            <==> seat in SweepExpired(r, now, graceMs).0.seats
  {
  }

  /** An eviction removes exactly the seats it aims at, reports each with its occupant, and leaves none of
      the evicted a seat or an index entry. */
  lemma EvictIsExact(r: Room, hit: (int, Assignment) -> bool)
    requires Sound(r)
    ensures var (r', evicted) := EvictWhere(r, hit);
            && (forall i :: i in r'.seats <==> i in r.seats && !hit(i, r.seats[i]))
            && (forall i :: i in r'.seats ==> r'.seats[i] == r.seats[i])
            && (forall i, u :: (i, u) in evicted <==> i in r.seats && r.seats[i].userId == u && hit(i, r.seats[i]))
            && (forall i, u :: (i, u) in evicted ==> u !in r'.index && SeatsOf(r', u) == {})
            && (forall u :: u in r.index && (forall i :: (i, u) !in evicted) ==>
                  u in r'.index && r'.index[u] == r.index[u])
  {
    var (r', evicted) := EvictWhere(r, hit);
    forall i, u | (i, u) in evicted
      ensures SeatsOf(r', u) == {}
    {
      HoldsOneSeat(r, u, i);
      assert forall j :: j in SeatsOf(r', u) ==> j in SeatsOf(r, u) - {i};
    }
    forall u | u in r.index && u !in r'.index
      ensures exists i :: (i, u) in evicted
    {
      var i :| i in Matching(r.seats, hit) && r.seats[i].userId == u;
      assert (i, u) in evicted;
    }
  }

  /** Sweeping removes nothing but stale reservations, and none of those stays. */
  lemma SweepIsExact(r: Room, now: int, graceMs: int)
    requires Sound(r)
    ensures var (r', evicted) := SweepExpired(r, now, graceMs);
            && (forall i :: i in r'.seats <==> i in r.seats && !Stale(r.seats[i], now, graceMs))
            && (forall i, u :: (i, u) in evicted <==>
                  i in r.seats && r.seats[i].userId == u && Stale(r.seats[i], now, graceMs))
            && (forall i, u :: (i, u) in evicted ==> u !in r'.index && SeatsOf(r', u) == {})
  {
    EvictIsExact(r, (i, a: Assignment) => Stale(a, now, graceMs));
  }

  /** Shrinking leaves no seat at or above the new count and touches none below it. */
  lemma ShrinkIsExact(r: Room, newSeatCount: int)
    requires Sound(r)
    ensures var (r', evicted) := ShrinkEvict(r, newSeatCount);
            && (forall i :: i in r'.seats <==> i in r.seats && i < newSeatCount)
            && (forall i :: i in r'.seats ==> r'.seats[i] == r.seats[i])
            && (forall i, u :: (i, u) in evicted <==> i in r.seats && r.seats[i].userId == u && newSeatCount <= i)
            && (forall i, u :: (i, u) in evicted ==> u !in r'.index && SeatsOf(r', u) == {})
  {
    EvictIsExact(r, (i, a: Assignment) => newSeatCount <= i);
  }

  /** Locking empties the seat, sends its occupant away entirely, and bars everybody from it; unlocking
      gives back the lock set there was before and opens the seat again. */
  lemma LockThenUnlock(r: Room, seat: int, user: UserId, seatCount: int)
    requires Sound(r) && seat !in r.locked
    ensures var (r', ok, kicked) := Lock(r, seat);
            && ok && seat !in r'.seats
            && kicked == (if seat in r.seats then Some(r.seats[seat].userId) else None)
            && (kicked.Some? ==> SeatsOf(r', kicked.value) == {} && kicked.value !in r'.index)
            && (forall i :: i != seat ==> (i in r'.seats <==> i in r.seats))
            && Take(r', user, seat, seatCount).1.Refused? && Assign(r', user, seat, seatCount).1.Refused?
            && Unlock(r', seat).0.locked == r.locked
            && (0 <= seat < seatCount ==> Take(Unlock(r', seat).0, user, seat, seatCount).1.Seated?)
  {
    var r' := Lock(r, seat).0;
    if seat in r.seats {
      var gone := r.seats[seat].userId;
      forall j | j in r'.seats ensures r'.seats[j].userId != gone {
        assert j in r.seats && j != seat && r'.seats[j] == r.seats[j];
      }
    }
  }
}
