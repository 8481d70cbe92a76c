/** One room's seats as the ten Lua scripts of seat.lua-scripts.ts see them: the shared seats
    hash, the locked set and the per-user reverse index, each with its expiry deadline. Every
    script is one atomic step, written here as a function of the room before it. */
module SeatRoom {
  import opened Redis

  const SEAT_KEY_TTL_MS: int := 86_400_000

  /** disconnectedAt is present only while the seat is held for a reconnecting occupant. */
  datatype Assignment = Assignment(userId: UserId, muted: bool, disconnectedAt: Option<int>)

  datatype IndexEntry = IndexEntry(seat: int, expireAt: Option<int>)

  /** An empty seats or locked map is an absent key, and an absent key has no deadline. */
  datatype Room = Room(
    seats: map<int, Assignment>, seatsExpireAt: Option<int>,
    locked: set<int>, lockedExpireAt: Option<int>,
    index: map<UserId, IndexEntry>,
    clock: int)

  datatype SeatError = SeatInvalid | SeatLocked | SeatTaken | NotSeated | AlreadyLocked | NotLocked

  datatype SeatReply = Seated(seat: int, cleared: set<int>) | Refused(error: SeatError)

  // ----- Redis commands on the three keys -----

  function HSet(r: Room, seat: int, a: Assignment): Room {
    r.(seats := r.seats[seat := a])
  }

  /** Deleting the last field deletes the hash together with its deadline. */
  function HDel(r: Room, gone: set<int>): Room {
    var left := map i | i in r.seats && i !in gone :: r.seats[i];
    r.(seats := left,
       seatsExpireAt := if left == map[] && r.seats != map[] then None else r.seatsExpireAt)
  }

  function ExpireSeats(r: Room): Room {
    if r.seats == map[] then r else r.(seatsExpireAt := Some(r.clock + SEAT_KEY_TTL_MS))
  }

  /** SET drops any deadline the key had; the scripts always EXPIRE it again. */
  function SetIndex(r: Room, user: UserId, seat: int): Room {
    r.(index := r.index[user := IndexEntry(seat, None)])
  }

  function ExpireIndex(r: Room, user: UserId): Room {
    if user !in r.index then r
    else r.(index := r.index[user := r.index[user].(expireAt := Some(r.clock + SEAT_KEY_TTL_MS))])
  }

  function DelIndex(r: Room, users: set<UserId>): Room {
    r.(index := map u | u in r.index && u !in users :: r.index[u])
  }

  function SAdd(r: Room, seat: int): Room {
    r.(locked := r.locked + {seat})
  }

  function SRem(r: Room, seat: int): Room {
    var left := r.locked - {seat};
    r.(locked := left, lockedExpireAt := if left == {} && r.locked != {} then None else r.lockedExpireAt)
  }

  function ExpireLocked(r: Room): Room {
    if r.locked == {} then r else r.(lockedExpireAt := Some(r.clock + SEAT_KEY_TTL_MS))
  }

  // ----- what a scan of the hash selects -----

  function Matching(seats: map<int, Assignment>, hit: (int, Assignment) -> bool): set<int> {
    set i | i in seats && hit(i, seats[i])
  }

  function SeatsOf(r: Room, user: UserId): set<int> {
    Matching(r.seats, (i, a: Assignment) => a.userId == user)
  }

  function Owners(r: Room, at: set<int>): set<UserId> {
    set i | i in at && i in r.seats :: r.seats[i].userId
  }

  predicate Stale(a: Assignment, now: int, graceMs: int) {
    a.disconnectedAt.Some? && now - a.disconnectedAt.value > graceMs
  }

  predicate Reclaimable(a: Assignment, user: UserId, now: int, graceMs: int) {
    a.userId == user && a.disconnectedAt.Some? && now - a.disconnectedAt.value <= graceMs
  }

  // ----- the scripts -----

  /** Write a fresh entry and its reverse index, and refresh both deadlines. */
  function Occupy(r: Room, user: UserId, seat: int): Room {
    ExpireIndex(ExpireSeats(SetIndex(HSet(r, seat, Assignment(user, false, None)), user, seat)), user)
  }

  function Take(r: Room, user: UserId, seat: int, seatCount: int): (Room, SeatReply) {
    if seat < 0 || seatCount <= seat then (r, Refused(SeatInvalid))
    else if seat in r.locked then (r, Refused(SeatLocked))
    else if seat in r.seats then (r, Refused(SeatTaken))
    else
      var others := SeatsOf(r, user) - {seat};
      (Occupy(HDel(r, others), user, seat), Seated(seat, others))
  }

  function Leave(r: Room, user: UserId): (Room, set<int>) {
    (DelIndex(HDel(r, SeatsOf(r, user)), {user}), SeatsOf(r, user))
  }

  /** Take the seat away from whoever sits there, reserved or not. */
  function Displace(r: Room, user: UserId, seat: int): Room {
    if seat !in r.seats then r
    else HDel(if r.seats[seat].userId == user then r else DelIndex(r, {r.seats[seat].userId}), {seat})
  }

  function Assign(r: Room, user: UserId, seat: int, seatCount: int): (Room, SeatReply) {
    if seat < 0 || seatCount <= seat then (r, Refused(SeatInvalid))
    else if seat in r.locked then (r, Refused(SeatLocked))
    else
      var freed := Displace(r, user, seat);
      var others := SeatsOf(freed, user) - {seat};
      (Occupy(HDel(freed, others), user, seat), Seated(seat, others))
  }

  function SetMute(r: Room, seat: int, muted: bool): (Room, bool) {
    if seat !in r.seats then (r, false) else (HSet(r, seat, r.seats[seat].(muted := muted)), true)
  }

  /** The occupant, if any, is kicked off the seat being locked. */
  function Lock(r: Room, seat: int): (Room, bool, Option<UserId>) {
    if seat in r.locked then (r, false, None)
    else if seat in r.seats then
      var kicked := r.seats[seat].userId;
      (ExpireLocked(SAdd(DelIndex(HDel(r, {seat}), {kicked}), seat)), true, Some(kicked))
    else (ExpireLocked(SAdd(r, seat)), true, None)
  }

  function Unlock(r: Room, seat: int): (Room, bool) {
    if seat !in r.locked then (r, false) else (SRem(r, seat), true)
  }

  function Stamp(r: Room, at: set<int>, now: int): Room {
    r.(seats := map i | i in r.seats ::
                    if i in at then r.seats[i].(disconnectedAt := Some(now)) else r.seats[i])
  }

  function Reserve(r: Room, user: UserId, now: int): (Room, set<int>) {
    var held := SeatsOf(r, user);
    (if held == {} then r else ExpireSeats(Stamp(r, held, now)), held)
  }

  /** A reclaim may pick any seat that carries a live marker of this user; it must pick one if
      there is one. HGETALL's order decides between several. */
  predicate ReclaimPick(r: Room, user: UserId, now: int, graceMs: int, pick: Option<int>) {
    var live := Matching(r.seats, (i, a: Assignment) => Reclaimable(a, user, now, graceMs));
    if pick.Some? then pick.value in live else live == {}
  }

  function Reclaim(r: Room, user: UserId, pick: Option<int>): Room {
    if pick.None? || pick.value !in r.seats then r
    else ExpireIndex(ExpireSeats(SetIndex(
           HSet(r, pick.value, r.seats[pick.value].(disconnectedAt := None)), user, pick.value)), user)
  }

  /** Delete every matching seat and its owner's reverse index (SWEEP_EXPIRED, SHRINK_EVICT). */
  function EvictWhere(r: Room, hit: (int, Assignment) -> bool): (Room, set<(int, UserId)>) {
    var doomed := Matching(r.seats, hit);
    (DelIndex(HDel(r, doomed), Owners(r, doomed)),
     set i | i in doomed :: (i, r.seats[i].userId))
  }

  function SweepExpired(r: Room, now: int, graceMs: int): (Room, set<(int, UserId)>) {
    EvictWhere(r, (i, a: Assignment) => Stale(a, now, graceMs))
  }

  function ShrinkEvict(r: Room, newSeatCount: int): (Room, set<(int, UserId)>) {
    EvictWhere(r, (i, a: Assignment) => newSeatCount <= i)
  }

  /** Time passes to `to`; keys whose deadline is reached vanish. */
  function Advance(r: Room, to: int): Room {
    Room(if Expired(r.seatsExpireAt, to) then map[] else r.seats,
         if Expired(r.seatsExpireAt, to) then None else r.seatsExpireAt,
         if Expired(r.lockedExpireAt, to) then {} else r.locked,
         if Expired(r.lockedExpireAt, to) then None else r.lockedExpireAt,
         map u | u in r.index && !Expired(r.index[u].expireAt, to) :: r.index[u],
         to)
  }

  // ----- runs -----

  datatype Event =
    | TakeEvent(user: UserId, seat: int, seatCount: int)
    | LeaveEvent(user: UserId)
    | AssignEvent(user: UserId, seat: int, seatCount: int)
    | SetMuteEvent(seat: int, muted: bool)
    | LockEvent(seat: int)
    | UnlockEvent(seat: int)
    | ReserveEvent(user: UserId, now: int)
    | ReclaimEvent(user: UserId, now: int, graceMs: int, pick: Option<int>)
    | SweepEvent(now: int, graceMs: int)
    | ShrinkEvent(newSeatCount: int)
    | AdvanceEvent(to: int)

  /** Only two events constrain each other: time never runs back, and a reclaim picks by the rule. */
  predicate Possible(r: Room, e: Event) {
    match e
    case AdvanceEvent(to) => r.clock <= to
    case ReclaimEvent(user, now, graceMs, pick) => ReclaimPick(r, user, now, graceMs, pick)
    case _ => true
  }

  function Step(r: Room, e: Event): Room {
    match e
    case TakeEvent(user, seat, seatCount) => Take(r, user, seat, seatCount).0
    case LeaveEvent(user) => Leave(r, user).0
    case AssignEvent(user, seat, seatCount) => Assign(r, user, seat, seatCount).0
    case SetMuteEvent(seat, muted) => SetMute(r, seat, muted).0
    case LockEvent(seat) => Lock(r, seat).0
    case UnlockEvent(seat) => Unlock(r, seat).0
    case ReserveEvent(user, now) => Reserve(r, user, now).0
    case ReclaimEvent(user, _, _, pick) => Reclaim(r, user, pick)
    case SweepEvent(now, graceMs) => SweepExpired(r, now, graceMs).0
    case ShrinkEvent(newSeatCount) => ShrinkEvict(r, newSeatCount).0
    case AdvanceEvent(to) => Advance(r, to)
  }

  predicate PossibleRun(r: Room, events: seq<Event>)
    decreases |events|
  {
    events == [] || (Possible(r, events[0]) && PossibleRun(Step(r, events[0]), events[1..]))
  }

  function Run(r: Room, events: seq<Event>): Room
    decreases |events|
  {
    if events == [] then r else Run(Step(r, events[0]), events[1..])
  }
}
