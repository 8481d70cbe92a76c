/** The seat scripts as they run: Redis commands on three keys, one after the other, with loops over
    a snapshot of the hash. Each script is proved to be the step SeatRoom gives for it. */
module SeatStore {
  import opened Redis
  import opened SeatRoom

  datatype SeatData = SeatData(seat: int, userId: Option<UserId>, muted: bool, locked: bool, reserved: bool)

  class Store {
    var seats: map<int, Assignment>
    var seatsExpireAt: Option<int>
    var locked: set<int>
    var lockedExpireAt: Option<int>
    var index: map<UserId, IndexEntry>
    var clock: int

    ghost function View(): Room
      reads this
    {
      Room(seats, seatsExpireAt, locked, lockedExpireAt, index, clock)
    }

    constructor (clock: int)
      ensures View() == Room(map[], None, {}, None, map[], clock)
    {
      this.seats, this.seatsExpireAt, this.locked, this.lockedExpireAt := map[], None, {}, None;
      this.index, this.clock := map[], clock;
    }

    // ----- Redis commands -----

    /** HGETALL: the fields in whatever order Redis keeps them, and their values at this moment. */
    method HGetAll() returns (fields: seq<int>, all: map<int, Assignment>)
      ensures all == seats && Enumerates(fields, seats.Keys)
    {
      fields, all := [], seats;
      var rest := seats.Keys;
      while rest != {}
        invariant rest <= seats.Keys && Enumerates(fields, seats.Keys - rest)
        decreases |rest|
      {
        var field := AnyOf(rest);
        fields, rest := fields + [field], rest - {field};
      }
    }

    method HSetField(seat: int, a: Assignment)
      modifies this
      ensures View() == HSet(old(View()), seat, a)
    {
      seats := seats[seat := a];
    }

    method HDelField(seat: int)
      modifies this
      ensures View() == HDel(old(View()), {seat})
    {
      if seat in seats {
        seats := map i | i in seats && i != seat :: seats[i];
        if seats == map[] { seatsExpireAt := None; }
      }
      assert View().seats == HDel(old(View()), {seat}).seats;
    }

    method ExpireSeatsKey()
      modifies this
      ensures View() == ExpireSeats(old(View()))
    {
      if seats != map[] { seatsExpireAt := Some(clock + SEAT_KEY_TTL_MS); }
    }

    method SetUserSeat(user: UserId, seat: int)
      modifies this
      ensures View() == SetIndex(old(View()), user, seat)
    {
      index := index[user := IndexEntry(seat, None)];
    }

    method ExpireUserSeat(user: UserId)
      modifies this
      ensures View() == ExpireIndex(old(View()), user)
    {
      if user in index {
        index := index[user := index[user].(expireAt := Some(clock + SEAT_KEY_TTL_MS))];
      }
    }

    method DelUserSeat(user: UserId)
      modifies this
      ensures View() == DelIndex(old(View()), {user})
    {
      index := map u | u in index && u != user :: index[u];
    }

    // ----- the scripts -----

    /** The heal scan shared by TAKE, LEAVE and ASSIGN: drop the user from every seat but `except`. */
    method ClearSeatsOf(user: UserId, except: Option<int>) returns (cleared: seq<int>)
      modifies this
      ensures View() == HDel(old(View()), SeatsApartFrom(old(View()), user, except))
      ensures Enumerates(cleared, SeatsApartFrom(old(View()), user, except))
    {
      cleared := [];
      var fields, all := HGetAll();
      ghost var r0 := View();
      ghost var gone: set<int> := {};
      HDelNone(r0);
      for k := 0 to |fields|
        invariant gone == Hits(fields, all, HeldBy(user, except), k)
        invariant View() == HDel(r0, gone)
        invariant Enumerates(cleared, gone)
      {
        var i := fields[k];
        HitsNext(fields, all, HeldBy(user, except), k);
        if all[i].userId == user && Some(i) != except {
          HDelField(i);
          HDelOneMore(r0, gone, i);
          EnumerateOneMore(cleared, gone, i);
          cleared, gone := cleared + [i], gone + {i};
        }
      }
      HitsAll(fields, all, HeldBy(user, except));
      HeldByMatches(r0, user, except);
    }

    /** TAKE_SEAT_SCRIPT */
    method TakeSeat(user: UserId, seat: int, seatCount: int) returns (error: Option<SeatError>, cleared: seq<int>)
      modifies this
      ensures View() == Take(old(View()), user, seat, seatCount).0
      ensures var reply := Take(old(View()), user, seat, seatCount).1;
              if error.Some? then reply == Refused(error.value) && cleared == []
              else reply.Seated? && Enumerates(cleared, reply.cleared)
    {
      cleared := [];
      if seat < 0 || seat >= seatCount { return Some(SeatInvalid), []; }
      if seat in locked { return Some(SeatLocked), []; }
      if seat in seats { return Some(SeatTaken), []; }
      cleared := ClearSeatsOf(user, Some(seat));
      HSetField(seat, Assignment(user, false, None));
      SetUserSeat(user, seat);
      ExpireSeatsKey();
      ExpireUserSeat(user);
      error := None;
    }

    /** LEAVE_SEAT_SCRIPT: NOT_SEATED exactly when nothing was cleared. */
    method LeaveSeat(user: UserId) returns (cleared: seq<int>)
      modifies this
      ensures View() == Leave(old(View()), user).0
      ensures Enumerates(cleared, Leave(old(View()), user).1)
    {
      cleared := ClearSeatsOf(user, None);
      DelUserSeat(user);
    }

    /** ASSIGN_SEAT_SCRIPT */
    method AssignSeat(user: UserId, seat: int, seatCount: int) returns (error: Option<SeatError>, cleared: seq<int>)
      modifies this
      ensures View() == Assign(old(View()), user, seat, seatCount).0
      ensures var reply := Assign(old(View()), user, seat, seatCount).1;
              if error.Some? then reply == Refused(error.value) && cleared == []
              else reply.Seated? && Enumerates(cleared, reply.cleared)
    {
      cleared := [];
      if seat < 0 || seat >= seatCount { return Some(SeatInvalid), []; }
      if seat in locked { return Some(SeatLocked), []; }
      if seat in seats {
        var displaced := seats[seat].userId;
        if displaced != user { DelUserSeat(displaced); }
        HDelField(seat);
      }
      cleared := ClearSeatsOf(user, Some(seat));
      HSetField(seat, Assignment(user, false, None));
      SetUserSeat(user, seat);
      ExpireSeatsKey();
      ExpireUserSeat(user);
      error := None;
    }

    /** SET_MUTE_SCRIPT */
    method SetMuted(seat: int, muted: bool) returns (found: bool)
      modifies this
      ensures (View(), found) == SetMute(old(View()), seat, muted)
    {
      if seat !in seats { return false; }
      HSetField(seat, seats[seat].(muted := muted));
      found := true;
    }

    /** LOCK_SEAT_SCRIPT */
    method LockSeat(seat: int) returns (success: bool, kicked: Option<UserId>)
      modifies this
      ensures (View(), success, kicked) == Lock(old(View()), seat)
    {
      if seat in locked { return false, None; }
      kicked := None;
      if seat in seats {
        kicked := Some(seats[seat].userId);
        HDelField(seat);
        DelUserSeat(kicked.value);
      }
      locked := locked + {seat};
      lockedExpireAt := Some(clock + SEAT_KEY_TTL_MS);
      success := true;
    }

    /** UNLOCK_SEAT_SCRIPT */
    method UnlockSeat(seat: int) returns (success: bool)
      modifies this
      ensures (View(), success) == Unlock(old(View()), seat)
    {
      if seat !in locked { return false; }
      locked := locked - {seat};
      if locked == {} { lockedExpireAt := None; }
      success := true;
    }

    /** The stamping loop of RESERVE: mark every seat of the user. */
    method StampSeatsOf(user: UserId, now: int) returns (reserved: seq<int>)
      modifies this
      ensures View() == Stamp(old(View()), SeatsOf(old(View()), user), now)
      ensures Enumerates(reserved, SeatsOf(old(View()), user))
    {
      reserved := [];
      var fields, all := HGetAll();
      ghost var r0 := View();
      ghost var held: set<int> := {};
      assert Stamp(r0, {}, now) == r0;
      for k := 0 to |fields|
        invariant held == Hits(fields, all, HeldBy(user, None), k)
        invariant View() == Stamp(r0, held, now)
        invariant Enumerates(reserved, held)
      {
        var i := fields[k];
        HitsNext(fields, all, HeldBy(user, None), k);
        if all[i].userId == user {
          HSetField(i, all[i].(disconnectedAt := Some(now)));
          StampOneMore(r0, held, i, now);
          EnumerateOneMore(reserved, held, i);
          reserved, held := reserved + [i], held + {i};
        }
      }
      HitsAll(fields, all, HeldBy(user, None));
      HeldByMatches(r0, user, None);
    }

    /** RESERVE_SEAT_SCRIPT: an empty answer is NOT_SEATED. */
    method ReserveSeat(user: UserId, now: int) returns (reserved: seq<int>)
      modifies this
      ensures View() == Reserve(old(View()), user, now).0
      ensures Enumerates(reserved, Reserve(old(View()), user, now).1)
    {
      ghost var r0 := View();
      reserved := StampSeatsOf(user, now);
      if |reserved| > 0 {
        assert reserved[0] in SeatsOf(r0, user);
        ExpireSeatsKey();
      } else {
        assert SeatsOf(r0, user) == {};
        assert Stamp(r0, {}, now) == r0;
      }
    }

    /** RECLAIM_SEAT_SCRIPT: the first seat in HGETALL order that carries a live marker of the user. */
    method ReclaimSeat(user: UserId, now: int, graceMs: int) returns (pick: Option<int>, muted: bool)
      modifies this
      ensures ReclaimPick(old(View()), user, now, graceMs, pick)
      ensures View() == Reclaim(old(View()), user, pick)
      ensures pick.Some? ==> muted == old(seats)[pick.value].muted
    {
      var fields, all := HGetAll();
      for k := 0 to |fields|
        invariant View() == old(View())
        invariant forall m :: 0 <= m < k ==> !Reclaimable(all[fields[m]], user, now, graceMs)
      {
        var i := fields[k];
        if all[i].userId == user && all[i].disconnectedAt.Some? {
          if now - all[i].disconnectedAt.value <= graceMs {
            HSetField(i, all[i].(disconnectedAt := None));
            SetUserSeat(user, i);
            ExpireSeatsKey();
            ExpireUserSeat(user);
            return Some(i), all[i].muted;
          }
        }
      }
      pick, muted := None, false;
    }

    /** The scan shared by SWEEP_EXPIRED_SEATS_SCRIPT and SHRINK_EVICT_SCRIPT. */
    method EvictAll(hit: (int, Assignment) -> bool) returns (evicted: seq<(int, UserId)>)
      modifies this
      ensures View() == EvictWhere(old(View()), hit).0
      ensures Enumerates(evicted, EvictWhere(old(View()), hit).1)
    {
      evicted := [];
      var fields, all := HGetAll();
      ghost var r0 := View();
      ghost var gone: set<int> := {};
      EvictNone(r0);
      for k := 0 to |fields|
        invariant gone == Hits(fields, all, hit, k) && gone <= r0.seats.Keys
        invariant View() == Evicted(r0, gone)
        invariant Enumerates(evicted, WithOwners(r0, gone))
      {
        var i := fields[k];
        HitsNext(fields, all, hit, k);
        if hit(i, all[i]) {
          HDelField(i);
          DelUserSeat(all[i].userId);
          EvictOneMore(r0, gone, i);
          EnumerateOneMore(evicted, WithOwners(r0, gone), (i, all[i].userId));
          evicted, gone := evicted + [(i, all[i].userId)], gone + {i};
        }
      }
      HitsAll(fields, all, hit);
    }

    /** SWEEP_EXPIRED_SEATS_SCRIPT */
    method SweepExpiredSeats(now: int, graceMs: int) returns (cleared: seq<(int, UserId)>)
      modifies this
      ensures View() == SweepExpired(old(View()), now, graceMs).0
      ensures Enumerates(cleared, SweepExpired(old(View()), now, graceMs).1)
    {
      cleared := EvictAll((i, a: Assignment) => Stale(a, now, graceMs));
    }

    /** SHRINK_EVICT_SCRIPT */
    method EvictSeatsAboveCount(newSeatCount: int) returns (evicted: seq<(int, UserId)>)
      modifies this
      ensures View() == ShrinkEvict(old(View()), newSeatCount).0
      ensures Enumerates(evicted, ShrinkEvict(old(View()), newSeatCount).1)
    {
      evicted := EvictAll((i, a: Assignment) => newSeatCount <= i);
    }
  }

  /** getSeats: the room as a client sees it, from the answers of HGETALL and SMEMBERS, which may stem from
      different moments. */
  method GetSeats(seatsData: map<int, Assignment>, lockedSet: set<int>, seatCount: nat)
    returns (list: seq<SeatData>)
    ensures |list| == seatCount
    ensures forall i :: 0 <= i < seatCount ==>
      list[i].seat == i && list[i].locked == (i in lockedSet)
      && (list[i].userId.Some? <==> i in seatsData)
      && (i in seatsData ==>
            list[i].userId == Some(seatsData[i].userId) && list[i].muted == seatsData[i].muted
            && list[i].reserved == seatsData[i].disconnectedAt.Some?)
      && (i !in seatsData ==> !list[i].muted && !list[i].reserved)
  {
    list := [];
    for i := 0 to seatCount
      invariant |list| == i
      invariant forall j :: 0 <= j < i ==>
        list[j] == if j in seatsData
                   then SeatData(j, Some(seatsData[j].userId), seatsData[j].muted, j in lockedSet,
                                 seatsData[j].disconnectedAt.Some?)
                   else SeatData(j, None, false, j in lockedSet, false)
    {
      if i in seatsData {
        var data := seatsData[i];
        list := list + [SeatData(i, Some(data.userId), data.muted, i in lockedSet, data.disconnectedAt.Some?)];
      } else {
        list := list + [SeatData(i, None, false, i in lockedSet, false)];
      }
    }
  }

  // ----- what a loop over the snapshot has selected so far -----

  ghost function Hits(fields: seq<int>, all: map<int, Assignment>, hit: (int, Assignment) -> bool, k: nat): set<int>
    requires k <= |fields| && Enumerates(fields, all.Keys)
  {
    set m | 0 <= m < k && hit(fields[m], all[fields[m]]) :: fields[m]
  }

  lemma HitsNext(fields: seq<int>, all: map<int, Assignment>, hit: (int, Assignment) -> bool, k: nat)
    requires k < |fields| && Enumerates(fields, all.Keys)
    ensures fields[k] in all && fields[k] !in Hits(fields, all, hit, k) && Hits(fields, all, hit, k) <= all.Keys
    ensures Hits(fields, all, hit, k + 1)
            == Hits(fields, all, hit, k) + if hit(fields[k], all[fields[k]]) then {fields[k]} else {}
  {
    assert fields[k] in all;
  }

  lemma HitsAll(fields: seq<int>, all: map<int, Assignment>, hit: (int, Assignment) -> bool)
    requires Enumerates(fields, all.Keys)
    ensures Hits(fields, all, hit, |fields|) == Matching(all, hit)
  {
    forall i | i in Matching(all, hit) ensures i in Hits(fields, all, hit, |fields|) {
      assert i in fields;
    }
  }

  ghost function HeldBy(user: UserId, except: Option<int>): (int, Assignment) -> bool {
    (i, a: Assignment) => a.userId == user && Some(i) != except
  }

  ghost function SeatsApartFrom(r: Room, user: UserId, except: Option<int>): set<int> {
    SeatsOf(r, user) - if except.Some? then {except.value} else {}
  }

  lemma HeldByMatches(r: Room, user: UserId, except: Option<int>)
    ensures Matching(r.seats, HeldBy(user, except)) == SeatsApartFrom(r, user, except)
  {
  }

  lemma HDelNone(r: Room)
    ensures HDel(r, {}) == r
  {
  }

  ghost function Evicted(r: Room, gone: set<int>): Room {
    DelIndex(HDel(r, gone), Owners(r, gone))
  }

  ghost function WithOwners(r: Room, gone: set<int>): set<(int, UserId)>
    requires gone <= r.seats.Keys
  {
    set i | i in gone :: (i, r.seats[i].userId)
  }

  lemma EvictNone(r: Room)
    ensures Evicted(r, {}) == r && WithOwners(r, {}) == {}
  {
    assert DelIndex(HDel(r, {}), {}) == r;
  }

  lemma StampOneMore(r: Room, at: set<int>, i: int, now: int)
    requires i in r.seats && i !in at
    ensures HSet(Stamp(r, at, now), i, r.seats[i].(disconnectedAt := Some(now))) == Stamp(r, at + {i}, now)
  {
    assert HSet(Stamp(r, at, now), i, r.seats[i].(disconnectedAt := Some(now))).seats
           == Stamp(r, at + {i}, now).seats;
  }

  lemma HDelOneMore(r: Room, gone: set<int>, i: int)
    requires i in r.seats && i !in gone
    ensures HDel(HDel(r, gone), {i}) == HDel(r, gone + {i})
  {
    assert HDel(HDel(r, gone), {i}).seats == HDel(r, gone + {i}).seats;
    assert i in HDel(r, gone).seats;
  }

  lemma EvictOneMore(r: Room, gone: set<int>, i: int)
    requires i in r.seats && i !in gone && gone <= r.seats.Keys
    ensures DelIndex(HDel(Evicted(r, gone), {i}), {r.seats[i].userId}) == Evicted(r, gone + {i})
    ensures WithOwners(r, gone + {i}) == WithOwners(r, gone) + {(i, r.seats[i].userId)}
    ensures (i, r.seats[i].userId) !in WithOwners(r, gone)
  {
    HDelOneMore(r, gone, i);
    assert Owners(r, gone + {i}) == Owners(r, gone) + {r.seats[i].userId};
  }
}
