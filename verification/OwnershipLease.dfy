/** The origin-ownership lease of one room (room-registry.ts): a Redis key with a 90 s TTL that many
    instances claim, refresh and clean up, and the 5 s cache each instance keeps of it. */
module OwnershipLease {
  import opened Redis

  const OWNER_TTL_MS: int := 90_000
  const OWNER_CACHE_MS: int := 5_000

  datatype Claim = Claim(owner: InstanceId, expireAt: int)

  datatype RefreshResult = Held | Reclaimed | Lost

  datatype Cached = Cached(owner: Option<InstanceId>, expiresAt: int)

  /** An isOwner call that missed the cache: the clock was read at `at`; once the GET has run, at
      `fetchedAt`, its answer is on the way back. */
  datatype Read =
    | Started(instance: InstanceId, at: int)
    | Fetched(instance: InstanceId, at: int, fetchedAt: int, owner: Option<InstanceId>)

  datatype Fleet = Fleet(key: Option<Claim>, caches: map<InstanceId, Cached>, pending: map<nat, Read>, clock: int)

  // ----- the commands on the key -----

  /** SET NX EX: won exactly when nobody holds the key. */
  function ClaimKey(key: Option<Claim>, i: InstanceId, clock: int): (Option<Claim>, bool) {
    if key.None? then (Some(Claim(i, clock + OWNER_TTL_MS)), true) else (key, false)
  }

  function RefreshKey(key: Option<Claim>, i: InstanceId, allowReclaim: bool, clock: int): (Option<Claim>, RefreshResult) {
    if key.Some? && key.value.owner == i then (Some(Claim(i, clock + OWNER_TTL_MS)), Held)
    else if key.None? && allowReclaim then (Some(Claim(i, clock + OWNER_TTL_MS)), Reclaimed)
    else (key, Lost)
  }

  function OwnerOf(key: Option<Claim>): Option<InstanceId> {
    if key.None? then None else Some(key.value.owner)
  }

  function Drop(key: Option<Claim>, clock: int): Option<Claim> {
    if key.Some? && key.value.expireAt <= clock then None else key
  }

  // ----- the fleet -----

  datatype Event =
    | ClaimEvent(i: InstanceId)
    | RefreshEvent(i: InstanceId, allowReclaim: bool)
    | CleanupEvent
    | ForgetEvent(i: InstanceId)
    | AskEvent(i: InstanceId, r: nat)
    | FetchEvent(r: nat)
    | AnswerEvent(r: nat)
    | AdvanceEvent(to: int)

  predicate CacheLive(s: Fleet, i: InstanceId) {
    i in s.caches && s.clock < s.caches[i].expiresAt
  }

  predicate Possible(s: Fleet, e: Event) {
    match e
    case AskEvent(_, r) => r !in s.pending
    case FetchEvent(r) => r in s.pending && s.pending[r].Started?
    case AnswerEvent(r) => r in s.pending && s.pending[r].Fetched?
    case AdvanceEvent(to) => s.clock <= to
    case _ => true
  }

  /** ForgetEvent drops one cache entry: after a reclaim, a step-down, an eviction or a cleanup. */
  function Step(s: Fleet, e: Event): Fleet
    requires Possible(s, e)
  {
    match e
    case ClaimEvent(i) => s.(key := ClaimKey(s.key, i, s.clock).0)
    case RefreshEvent(i, allowReclaim) => s.(key := RefreshKey(s.key, i, allowReclaim, s.clock).0)
    case CleanupEvent => s.(key := None)
    case ForgetEvent(i) => s.(caches := s.caches - {i})
    case AskEvent(i, r) => if CacheLive(s, i) then s else s.(pending := s.pending[r := Started(i, s.clock)])
    case FetchEvent(r) =>
      s.(pending := s.pending[r := Fetched(s.pending[r].instance, s.pending[r].at, s.clock, OwnerOf(s.key))])
    case AnswerEvent(r) =>
      var read := s.pending[r];
      s.(caches := s.caches[read.instance := Cached(read.owner, read.at + OWNER_CACHE_MS)],
         pending := s.pending - {r})
    case AdvanceEvent(to) => s.(key := Drop(s.key, to), clock := to)
  }

  /** Whom a successful claim or refresh leaves as owner. */
  function Grants(s: Fleet, e: Event): Option<InstanceId> {
    match e
    case ClaimEvent(i) => if ClaimKey(s.key, i, s.clock).1 then Some(i) else None
    case RefreshEvent(i, allowReclaim) =>
      if RefreshKey(s.key, i, allowReclaim, s.clock).1 != Lost then Some(i) else None
    case _ => None
  }

  /** The instance that e tells "you are the owner". */
  function Assures(s: Fleet, e: Event): Option<InstanceId>
    requires Possible(s, e)
  {
    match e
    case AskEvent(i, _) => if CacheLive(s, i) && s.caches[i].owner == Some(i) then Some(i) else None
    case AnswerEvent(r) => if s.pending[r].owner == Some(s.pending[r].instance) then s.pending[r].owner else None
    case _ => None
  }

  // ----- exclusion -----

  predicate PossibleRun(s: Fleet, events: seq<Event>)
    decreases |events|, 0
  {
    events == [] ||
    (var n := |events| - 1; PossibleRun(s, events[..n]) && Possible(Run(s, events[..n]), events[n]))
  }

  function Run(s: Fleet, events: seq<Event>): Fleet
    requires PossibleRun(s, events)
    decreases |events|, 1
  {
    if events == [] then s
    else (var n := |events| - 1; Step(Run(s, events[..n]), events[n]))
  }

  /** For a lease granted to i at time t: until t + 90 s the key is i's and does not expire earlier. */
  ghost predicate LeaseStands(s: Fleet, i: InstanceId, t: int) {
    t + OWNER_TTL_MS <= s.clock
    || (s.key.Some? && s.key.value.owner == i && t + OWNER_TTL_MS <= s.key.value.expireAt)
  }

  lemma {:induction false} LeaseStandsOverRun(s: Fleet, events: seq<Event>, i: InstanceId, t: int)
    requires PossibleRun(s, events) && LeaseStands(s, i, t) && t <= s.clock
    requires CleanupEvent !in events
    ensures LeaseStands(Run(s, events), i, t) && s.clock <= Run(s, events).clock
    decreases |events|
  {
    if events != [] {
      var n := |events| - 1;
      assert events[n] in events;
      LeaseStandsOverRun(s, events[..n], i, t);
    }
  }

  /** Between a grant to i and a later grant to somebody else lie 90 s or a cleanup. */
  lemma LeaseExclusion(s: Fleet, e: Event, between: seq<Event>, e': Event)
    requires Possible(s, e) && PossibleRun(Step(s, e), between)
    requires Grants(s, e).Some? && Grants(Run(Step(s, e), between), e').Some?
    requires Grants(s, e) != Grants(Run(Step(s, e), between), e')
    ensures CleanupEvent in between || s.clock + OWNER_TTL_MS <= Run(Step(s, e), between).clock
  {
    if CleanupEvent !in between {
      LeaseStandsOverRun(Step(s, e), between, Grants(s, e).value, s.clock);
    }
  }

  /** A refresh or claim never touches a live claim of somebody else, and reports that it lost. */
  lemma RivalClaimUntouched(s: Fleet, i: InstanceId, allowReclaim: bool)
    requires s.key.Some? && s.key.value.owner != i
    ensures Step(s, RefreshEvent(i, allowReclaim)) == s && Grants(s, RefreshEvent(i, allowReclaim)).None?
    ensures Step(s, ClaimEvent(i)) == s && Grants(s, ClaimEvent(i)).None?
    ensures RefreshKey(s.key, i, allowReclaim, s.clock).1 == Lost
  {
  }

  // ----- stale belief -----

  /** At the end of this run, or of an earlier part of it, i was the stored owner, not before `since`. */
  ghost predicate WasOwner(s: Fleet, events: seq<Event>, i: InstanceId, since: int)
    requires PossibleRun(s, events)
    decreases |events|
  {
    var end := Run(s, events);
    (OwnerOf(end.key) == Some(i) && since <= end.clock)
    || (events != [] && WasOwner(s, events[..|events| - 1], i, since))
  }

  lemma {:induction false} WasOwnerEarlier(s: Fleet, events: seq<Event>, i: InstanceId, since: int, earlier: int)
    requires PossibleRun(s, events) && WasOwner(s, events, i, since) && earlier <= since
    ensures WasOwner(s, events, i, earlier)
    decreases |events|
  {
    var end := Run(s, events);
    if !(OwnerOf(end.key) == Some(i) && since <= end.clock) {
      WasOwnerEarlier(s, events[..|events| - 1], i, since, earlier);
    }
  }

  /** Whatever a cache or a returning read says was true at the moment it stands for. */
  ghost predicate Founded(s: Fleet, events: seq<Event>)
    requires PossibleRun(s, events)
  {
    var end := Run(s, events);
    && (forall i :: i in end.caches && end.caches[i].owner.Some? ==>
          WasOwner(s, events, end.caches[i].owner.value, end.caches[i].expiresAt - OWNER_CACHE_MS))
    && (forall r :: r in end.pending ==> end.pending[r].at <= end.clock)
    && (forall r :: r in end.pending && end.pending[r].Fetched? ==>
          end.pending[r].at <= end.pending[r].fetchedAt <= end.clock
          && (end.pending[r].owner.Some? ==>
                WasOwner(s, events, end.pending[r].owner.value, end.pending[r].fetchedAt)))
  }

  lemma {:induction false} RunIsFounded(s: Fleet, events: seq<Event>)
    requires PossibleRun(s, events) && s.caches == map[] && s.pending == map[]
    ensures Founded(s, events)
    decreases |events|
  {
    if events != [] {
      var n := |events| - 1;
      RunIsFounded(s, events[..n]);
      var before, end := Run(s, events[..n]), Run(s, events);
      forall i | i in end.caches && end.caches[i].owner.Some?
        ensures WasOwner(s, events, end.caches[i].owner.value, end.caches[i].expiresAt - OWNER_CACHE_MS)
      {
        if !(i in before.caches && end.caches[i] == before.caches[i]) {
          var read := before.pending[events[n].r];
          WasOwnerEarlier(s, events[..n], read.owner.value, read.fetchedAt, read.at);
        }
      }
    }
  }

  /** e assures an instance, and if its answer comes straight from Redis, the GET ran at most `delay` ago. */
  predicate AssuresWithin(s: Fleet, e: Event, delay: int) {
    Possible(s, e) && Assures(s, e).Some?
    && (e.AnswerEvent? ==> s.clock - s.pending[e.r].fetchedAt <= delay)
  }

  function NoClaim(start: int): Fleet {
    Fleet(None, map[], map[], start)
  }

  /** Main result: a "yes" at time t means the instance owned the room at some moment in [t - 5 s, t].
      An answer straight from Redis needs its GET to be no older than that; a cached one needs nothing. */
  lemma StaleBeliefIsBounded(start: int, events: seq<Event>, e: Event)
    requires PossibleRun(NoClaim(start), events) && AssuresWithin(Run(NoClaim(start), events), e, OWNER_CACHE_MS)
    ensures var s := Run(NoClaim(start), events);
            WasOwner(NoClaim(start), events, Assures(s, e).value, s.clock - OWNER_CACHE_MS)
  {
    RunIsFounded(NoClaim(start), events);
    var end := Run(NoClaim(start), events);
    var since := if e.AnswerEvent? then end.pending[e.r].fetchedAt else end.caches[e.i].expiresAt - OWNER_CACHE_MS;
    WasOwnerEarlier(NoClaim(start), events, Assures(end, e).value, since, end.clock - OWNER_CACHE_MS);
  }

  /** So two instances assured at the same moment both owned the room within the last 5 s: ownership
      moved in between. */
  lemma TwoAssuredMeansOwnershipMoved(start: int, events: seq<Event>, e: Event, e': Event)
    requires PossibleRun(NoClaim(start), events)
    requires AssuresWithin(Run(NoClaim(start), events), e, OWNER_CACHE_MS)
    requires AssuresWithin(Run(NoClaim(start), events), e', OWNER_CACHE_MS)
    requires Assures(Run(NoClaim(start), events), e) != Assures(Run(NoClaim(start), events), e')
    ensures var s := Run(NoClaim(start), events);
            var i, j := Assures(s, e).value, Assures(s, e').value;
            && i != j
            && WasOwner(NoClaim(start), events, i, s.clock - OWNER_CACHE_MS)
            && WasOwner(NoClaim(start), events, j, s.clock - OWNER_CACHE_MS)
  {
    StaleBeliefIsBounded(start, events, e);
    StaleBeliefIsBounded(start, events, e');
  }

  // ----- the condition on the read is exact -----

  /** Every assurance of every run in which a GET's answer takes at most `delay` is at most 5 s stale. */
  ghost predicate BeliefBounded(start: int, delay: int) {
    forall events, e :: PossibleRun(NoClaim(start), events) && AssuresWithin(Run(NoClaim(start), events), e, delay) ==>
      WasOwner(NoClaim(start), events, Assures(Run(NoClaim(start), events), e).value,
               Run(NoClaim(start), events).clock - OWNER_CACHE_MS)
  }

  lemma BeliefBoundedIffReadsAreQuick(start: int, delay: int)
    ensures BeliefBounded(start, delay) <==> delay <= OWNER_CACHE_MS
  {
    if delay <= OWNER_CACHE_MS {
      forall events, e | PossibleRun(NoClaim(start), events) && AssuresWithin(Run(NoClaim(start), events), e, delay)
        ensures WasOwner(NoClaim(start), events, Assures(Run(NoClaim(start), events), e).value,
                         Run(NoClaim(start), events).clock - OWNER_CACHE_MS)
      {
        StaleBeliefIsBounded(start, events, e);
      }
    } else {
      SlowReadAssuresFormerOwner(start);
      assert AssuresWithin(Run(NoClaim(start), SlowReadRun(start)), AnswerEvent(0), delay);
    }
  }

  /** Instance 1 reads its own claim in the last millisecond of the lease; the claim lapses, and
      instance 2 takes the room. */
  function SlowReadRun(start: int): seq<Event> {
    [ClaimEvent(1), AdvanceEvent(start + OWNER_TTL_MS - 1), AskEvent(1, 0), FetchEvent(0),
     AdvanceEvent(start + OWNER_TTL_MS + OWNER_CACHE_MS), ClaimEvent(2)]
  }

  /** A GET answered 5001 ms late assures instance 1, which owned nothing in the last 5 s. */
  lemma SlowReadAssuresFormerOwner(start: int)
    ensures var s, events := NoClaim(start), SlowReadRun(start);
            && PossibleRun(s, events)
            && AssuresWithin(Run(s, events), AnswerEvent(0), OWNER_CACHE_MS + 1)
            && Assures(Run(s, events), AnswerEvent(0)) == Some(1)
            && !WasOwner(s, events, 1, Run(s, events).clock - OWNER_CACHE_MS)
            && OwnerOf(Run(s, events).key) == Some(2)
  {
    var lapse, late := start + OWNER_TTL_MS, start + OWNER_TTL_MS + OWNER_CACHE_MS;
    var claim, read := Some(Claim(1, lapse)), Fetched(1, lapse - 1, lapse - 1, Some(1));
    var s1 := Fleet(claim, map[], map[], start);
    var s2 := Fleet(claim, map[], map[], lapse - 1);
    var s3 := Fleet(claim, map[], map[0 := Started(1, lapse - 1)], lapse - 1);
    var s4 := Fleet(claim, map[], map[0 := read], lapse - 1);
    var s5 := Fleet(None, map[], map[0 := read], late);
    var e1 := [] + [ClaimEvent(1)];
    var e2 := e1 + [AdvanceEvent(lapse - 1)];
    var e3 := e2 + [AskEvent(1, 0)];
    var e4 := e3 + [FetchEvent(0)];
    var e5 := e4 + [AdvanceEvent(late)];
    ReachesNext(start, [], NoClaim(start), ClaimEvent(1), s1, 1, lapse);
    ReachesNext(start, e1, s1, AdvanceEvent(lapse - 1), s2, 1, lapse);
    ReachesNext(start, e2, s2, AskEvent(1, 0), s3, 1, lapse);
    ReachesNext(start, e3, s3, FetchEvent(0), s4, 1, lapse);
    ReachesNext(start, e4, s4, AdvanceEvent(late), s5, 1, lapse);
    ReachesNext(start, e5, s5, ClaimEvent(2), s5.(key := Some(Claim(2, late + OWNER_TTL_MS))), 1, lapse);
    assert e5 + [ClaimEvent(2)] == SlowReadRun(start);
  }

  /** These events lead to `end`, and i owned nothing at `since` or later on the way. */
  ghost predicate Reaches(start: int, events: seq<Event>, end: Fleet, i: InstanceId, since: int) {
    PossibleRun(NoClaim(start), events) && Run(NoClaim(start), events) == end
    && !WasOwner(NoClaim(start), events, i, since)
  }

  lemma ReachesNext(start: int, events: seq<Event>, s: Fleet, e: Event, end: Fleet, i: InstanceId, since: int)
    requires Reaches(start, events, s, i, since) && Possible(s, e) && Step(s, e) == end
    requires OwnerOf(end.key) != Some(i) || end.clock < since
    ensures Reaches(start, events + [e], end, i, since)
  {
    assert (events + [e])[..|events|] == events;
  }
}
