/** The music slot as a distributed protocol: plays, releases, takeovers, grant walks and grace
    timers of many instances interleave at every await. Nobody is left waiting for a slot that
    nothing will ever hand on. */
module MusicProtocol {
  import opened Redis
  import opened MusicSlot

  const TIMER_MS: int := GRACE_TTL_MS + 1000

  /** A liveness probe gives up on the other instances after this time and looks at local sockets only. */
  const PROBE_CAP_MS: int := 3_000

  /** A grant walk between two awaits: it probes whether `current`, granted at `grantedAt`, is live. */
  datatype Walk = Walk(current: UserId, grantedAt: int)

  /** A play that was denied: it has enqueued and will promote, or it was promoted and will re-acquire. */
  datatype Play = Enqueued(user: UserId) | Promoted(user: UserId)

  datatype Protocol = Protocol(m: Music, walks: map<nat, Walk>, timers: multiset<int>, plays: map<nat, Play>)

  /** Every step may be taken by anybody at any time. `w` and `p` name the walk or play it starts or moves. */
  datatype Event =
    | AcquireEvent(user: UserId, steal: Option<UserId>)
    | EnqueueEvent(p: nat, user: UserId)
    | PromoteEvent(p: nat, w: nat)
    | ReacquireEvent(p: nat)
    | TakeoverEvent(user: UserId)
    | TrackStored(user: UserId)
    | ReleaseEvent(user: UserId, w: nat)
    | CancelEvent(user: UserId)
    | WalkFindsLive(w: nat)
    | WalkFindsGhost(w: nat)
    | TimerFires(due: int, w: nat)
    | AdvanceEvent(to: int)

  predicate Possible(s: Protocol, e: Event) {
    match e
    case EnqueueEvent(p, _) => p !in s.plays
    case PromoteEvent(p, w) => p in s.plays && s.plays[p].Enqueued? && w !in s.walks
    case ReacquireEvent(p) => p in s.plays && s.plays[p].Promoted?
    case ReleaseEvent(_, w) => w !in s.walks
    case WalkFindsLive(w) => w in s.walks
    case WalkFindsGhost(w) => w in s.walks
    case TimerFires(due, w) => due in s.timers && due <= s.m.clock && w !in s.walks
    case AdvanceEvent(to) => s.m.clock <= to
    case _ => true
  }

  function StartWalk(s: Protocol, w: nat, head: Option<UserId>): Protocol {
    if head.None? then s else s.(walks := s.walks[w := Walk(head.value, s.m.clock)])
  }

  function Step(s: Protocol, e: Event): Protocol
    requires Possible(s, e)
  {
    match e
    case AcquireEvent(user, steal) => s.(m := Acquire(s.m, user, steal).0)
    case EnqueueEvent(p, user) => s.(m := Enqueue(s.m, user).0, plays := s.plays[p := Enqueued(user)])
    case PromoteEvent(p, w) =>
      var (m', head) := PromoteIfFree(s.m);
      if head == Some(s.plays[p].user)
      then s.(m := m', plays := s.plays[p := Promoted(s.plays[p].user)])
      else StartWalk(s.(m := m', plays := s.plays - {p}), w, head)
    case ReacquireEvent(p) => s.(m := Acquire(s.m, s.plays[p].user, None).0, plays := s.plays - {p})
    case TakeoverEvent(user) => s.(m := SetHold(s.m, user, FULL_TTL_MS))
    case TrackStored(user) => s.(m := StoreTrack(s.m, user))
    case ReleaseEvent(user, w) =>
      var (m', result) := ReleaseAndGrant(s.m, user);
      StartWalk(s.(m := m'), w, if result.Released? then result.head else None)
    case CancelEvent(user) => s.(m := Cancel(s.m, user).0)
    case WalkFindsLive(w) =>
      s.(walks := s.walks - {w}, timers := s.timers + multiset{s.m.clock + TIMER_MS})
    case WalkFindsGhost(w) =>
      var (m', result) := ReleaseAndGrant(s.m, s.walks[w].current);
      StartWalk(s.(m := m', walks := s.walks - {w}), w, if result.Released? then result.head else None)
    case TimerFires(due, w) =>
      var (m', head) := PromoteIfFree(s.m);
      StartWalk(s.(m := m', timers := s.timers - multiset{due}), w, head)
    case AdvanceEvent(to) => s.(m := Advance(s.m, to))
  }

  // ----- nobody is stranded -----

  predicate Waiting(s: Protocol) {
    s.m.holder.None? && s.m.queue != []
  }

  predicate PromoterPending(s: Protocol) {
    s.timers != multiset{} || s.plays != map[]
  }

  ghost predicate Backed(s: Protocol, h: Hold) {
    || (exists w :: w in s.walks && s.walks[w] == Walk(h.user, h.since))
    || (exists due :: due in s.timers && h.ExpireAt() < due)
    || (exists p :: p in s.plays && s.plays[p] == Promoted(h.user))
  }

  /** Holds are never past their deadline, and no timer lies further ahead than a fresh one. */
  ghost predicate TimesInOrder(s: Protocol) {
    && (s.m.holder.Some? ==> s.m.holder.value.since <= s.m.clock < s.m.holder.value.ExpireAt())
    && (forall due :: due in s.timers ==> due <= s.m.clock + TIMER_MS)
  }

  ghost predicate NobodyStranded(s: Protocol) {
    && (Waiting(s) ==> PromoterPending(s))
    && (s.m.holder.Some? && s.m.holder.value.Provisional() ==> Backed(s, s.m.holder.value))
    && TimesInOrder(s)
  }

  /** Time passes so that no probe takes longer than `probe`, and no full two-hour hold lapses while
      somebody waits. */
  predicate Timely(s: Protocol, e: Event, probe: int) {
    e.AdvanceEvent? ==>
      && (forall w :: w in s.walks ==> e.to <= s.walks[w].grantedAt + probe)
      && (s.m.holder.Some? && !s.m.holder.value.Provisional() && s.m.holder.value.ExpireAt() <= e.to
          ==> Advance(s.m, e.to).queue == [])
  }

  lemma AdvanceKeepsNobodyStranded(s: Protocol, to: int, probe: int)
    requires NobodyStranded(s) && Possible(s, AdvanceEvent(to)) && Timely(s, AdvanceEvent(to), probe)
    requires probe < GRACE_TTL_MS
    ensures NobodyStranded(Step(s, AdvanceEvent(to)))
  {
  }

  /** A walk that probes the holder goes on, or ends by arming a timer that outlives the hold. */
  lemma WalkStaysOrArms(s: Protocol, e: Event, w: nat)
    requires NobodyStranded(s) && Possible(s, e) && !e.AdvanceEvent?
    requires s.m.holder.Some? && s.m.holder.value.Provisional() && Step(s, e).m.holder == s.m.holder
    requires w in s.walks && s.walks[w] == Walk(s.m.holder.value.user, s.m.holder.value.since)
    ensures Backed(Step(s, e), s.m.holder.value)
  {
    var s' := Step(s, e);
    if e == WalkFindsLive(w) {
      assert s.m.clock + TIMER_MS in s'.timers;
    } else {
      assert w in s'.walks && s'.walks[w] == s.walks[w];
    }
  }

  /** A timer due after the hold's deadline cannot have fired while the hold stands. */
  lemma LaterTimerStays(s: Protocol, e: Event, due: int)
    requires NobodyStranded(s) && Possible(s, e) && !e.AdvanceEvent?
    requires s.m.holder.Some? && due in s.timers && s.m.holder.value.ExpireAt() < due
    ensures due in Step(s, e).timers
  {
  }

  /** A provisional hold that a step leaves in place keeps its backing, or swaps it for a new timer. */
  lemma HoldStaysBacked(s: Protocol, e: Event)
    requires NobodyStranded(s) && Possible(s, e) && !e.AdvanceEvent?
    requires s.m.holder.Some? && s.m.holder.value.Provisional() && Step(s, e).m.holder == s.m.holder
    ensures Backed(Step(s, e), s.m.holder.value)
  {
    var h, s' := s.m.holder.value, Step(s, e);
    if w :| w in s.walks && s.walks[w] == Walk(h.user, h.since) {
      WalkStaysOrArms(s, e, w);
    } else if due :| due in s.timers && h.ExpireAt() < due {
      LaterTimerStays(s, e, due);
    } else {
      var p :| p in s.plays && s.plays[p] == Promoted(h.user);
      PromotedPlayStays(s, e, p);
    }
  }

  /** A promoted play leaves only by re-acquiring, which makes the hold a full one. */
  lemma PromotedPlayStays(s: Protocol, e: Event, p: nat)
    requires Possible(s, e) && p in s.plays && s.plays[p].Promoted?
    requires s.m.holder.Some? && s.m.holder.value.Provisional() && Step(s, e).m.holder == s.m.holder
    requires s.m.holder.value.user == s.plays[p].user
    ensures p in Step(s, e).plays && Step(s, e).plays[p] == s.plays[p]
  {
  }

  /** Every provisional hold a step creates starts with a walk or with a play about to re-acquire. */
  lemma NewHoldIsBacked(s: Protocol, e: Event)
    requires NobodyStranded(s) && Possible(s, e)
    requires Step(s, e).m.holder.Some? && Step(s, e).m.holder.value.Provisional()
    requires Step(s, e).m.holder != s.m.holder
    ensures Backed(Step(s, e), Step(s, e).m.holder.value)
  {
    var h, s' := Step(s, e).m.holder.value, Step(s, e);
    match e
    case PromoteEvent(p, w) =>
      if h.user == s.plays[p].user {
        assert s'.plays[p] == Promoted(h.user);
      } else {
        assert s'.walks[w] == Walk(h.user, h.since);
      }
    case ReleaseEvent(_, w) => assert s'.walks[w] == Walk(h.user, h.since);
    case WalkFindsGhost(w) => assert s'.walks[w] == Walk(h.user, h.since);
    case TimerFires(_, w) => assert s'.walks[w] == Walk(h.user, h.since);
  }

  lemma TakenSlotIsNotWaitedFor(s: Protocol, e: Event)
    requires Possible(s, e)
    requires e.AcquireEvent? || e.PromoteEvent? || e.ReacquireEvent? || e.TakeoverEvent? || e.TimerFires?
    ensures !Waiting(Step(s, e))
  {
  }

  lemma ReleaseNeverStrands(s: Protocol, e: Event)
    requires Possible(s, e) && (e.ReleaseEvent? || e.WalkFindsGhost?)
    ensures Waiting(Step(s, e)) ==> Waiting(s)
    ensures Step(s, e).timers == s.timers && Step(s, e).plays == s.plays
  {
  }

  /** Exactly one kind of step can strand a waiter: time passing over a hold's deadline while somebody
      waits and neither a timer nor a play is pending. */
  lemma StrandingStepIsALapse(s: Protocol, e: Event)
    requires Possible(s, e) && (Waiting(s) ==> PromoterPending(s))
    ensures var s' := Step(s, e);
            Waiting(s') && !PromoterPending(s')
            <==> e.AdvanceEvent? && s.m.holder.Some? && s.m.holder.value.ExpireAt() <= e.to
                 && Advance(s.m, e.to).queue != [] && !PromoterPending(s)
  {
    match e
    case EnqueueEvent(p, _) => assert p in Step(s, e).plays;
    case WalkFindsLive(_) => assert s.m.clock + TIMER_MS in Step(s, e).timers;
    case ReleaseEvent(_, _) => ReleaseNeverStrands(s, e);
    case WalkFindsGhost(_) => ReleaseNeverStrands(s, e);
    case CancelEvent(_) =>
    case TrackStored(_) =>
    case AdvanceEvent(_) =>
    case _ => TakenSlotIsNotWaitedFor(s, e);
  }

  lemma TimersAfter(s: Protocol, e: Event, due: int)
    requires Possible(s, e) && due in Step(s, e).timers
    ensures due in s.timers || due == s.m.clock + TIMER_MS
  {
  }

  /** A step leaves the hold, drops it, or sets a fresh one. */
  lemma HoldAfter(s: Protocol, e: Event)
    requires Possible(s, e) && !e.AdvanceEvent?
    ensures var h := Step(s, e).m.holder;
            h == s.m.holder || h.None?
            || (h.value.since == s.m.clock && h.value.ttl in {GRACE_TTL_MS, FULL_TTL_MS})
  {
  }

  lemma StepKeepsTimes(s: Protocol, e: Event)
    requires TimesInOrder(s) && Possible(s, e)
    ensures TimesInOrder(Step(s, e))
  {
    forall due | due in Step(s, e).timers ensures due <= Step(s, e).m.clock + TIMER_MS {
      TimersAfter(s, e, due);
    }
    if !e.AdvanceEvent? { HoldAfter(s, e); }
  }

  lemma StepKeepsNobodyStranded(s: Protocol, e: Event, probe: int)
    requires NobodyStranded(s) && Possible(s, e) && Timely(s, e, probe) && probe < GRACE_TTL_MS
    ensures NobodyStranded(Step(s, e))
  {
    if e.AdvanceEvent? {
      AdvanceKeepsNobodyStranded(s, e.to, probe);
    } else {
      StrandingStepIsALapse(s, e);
      StepKeepsTimes(s, e);
      var s' := Step(s, e);
      if s'.m.holder.Some? && s'.m.holder.value.Provisional() {
        if s'.m.holder == s.m.holder { HoldStaysBacked(s, e); } else { NewHoldIsBacked(s, e); }
      }
    }
  }

  // ----- runs -----

  function Idle(start: int): Protocol {
    Protocol(Music(None, None, [], None, start), map[], multiset{}, map[])
  }

  predicate PossibleRun(s: Protocol, events: seq<Event>)
    decreases |events|
  {
    events == [] || (Possible(s, events[0]) && PossibleRun(Step(s, events[0]), events[1..]))
  }

  function Run(s: Protocol, events: seq<Event>): Protocol
    requires PossibleRun(s, events)
    decreases |events|
  {
    if events == [] then s else Run(Step(s, events[0]), events[1..])
  }

  predicate TimelyRun(s: Protocol, events: seq<Event>, probe: int)
    requires PossibleRun(s, events)
    decreases |events|
  {
    events == [] || (Timely(s, events[0], probe) && TimelyRun(Step(s, events[0]), events[1..], probe))
  }

  lemma {:induction false} RunKeepsNobodyStranded(s: Protocol, events: seq<Event>, probe: int)
    requires NobodyStranded(s) && PossibleRun(s, events) && TimelyRun(s, events, probe) && probe < GRACE_TTL_MS
    ensures NobodyStranded(Run(s, events))
    decreases |events|
  {
    if events != [] {
      StepKeepsNobodyStranded(s, events[0], probe);
      RunKeepsNobodyStranded(Step(s, events[0]), events[1..], probe);
    }
  }

  /** Main result: if every probe answers within the grace time, a free slot with waiters always has a
      promoter pending, and every provisional hold has somebody who will move it on. */
  lemma NoWaiterIsStranded(start: int, events: seq<Event>, probe: int)
    requires PossibleRun(Idle(start), events) && TimelyRun(Idle(start), events, probe) && probe < GRACE_TTL_MS
    ensures var s := Run(Idle(start), events);
            && (Waiting(s) ==> PromoterPending(s))
            && (s.m.holder.Some? && s.m.holder.value.Provisional() ==> Backed(s, s.m.holder.value))
  {
    RunKeepsNobodyStranded(Idle(start), events, probe);
  }

  /** A pending promoter really hands the free slot on: a timer, due within 16 s, or a play's promote
      grants it to the head of the line; a promoted play takes it for itself. */
  lemma PromoterDelivers(s: Protocol, w: nat)
    requires NobodyStranded(s) && Waiting(s) && w !in s.walks
    ensures forall due :: due in s.timers ==> due <= s.m.clock + TIMER_MS
    ensures forall due :: due in s.timers && due <= s.m.clock ==> GrantsHead(s, Step(s, TimerFires(due, w)))
    ensures forall p :: p in s.plays ==>
      if s.plays[p].Enqueued? then GrantsHead(s, Step(s, PromoteEvent(p, w)))
      else Step(s, ReacquireEvent(p)).m.holder == Some(Hold(s.plays[p].user, s.m.clock, FULL_TTL_MS))
    ensures s.timers != multiset{} || exists p :: p in s.plays
  {
    if s.timers == multiset{} {
      assert s.plays.Keys != {};
      var p := Pick(s.plays.Keys);
      assert p in s.plays;
    }
  }

  predicate GrantsHead(s: Protocol, s': Protocol) {
    && s.m.queue != []
    && s'.m.holder == Some(Hold(s.m.queue[0], s.m.clock, GRACE_TTL_MS))
    && s'.m.queue == s.m.queue[1..]
  }

  // ----- both timing conditions are needed, and the bound on probes is exact -----

  predicate StrandedForGood(s: Protocol) {
    Waiting(s) && !PromoterPending(s) && s.walks == map[]
  }

  predicate Strands(s: Protocol, events: seq<Event>, probe: int) {
    PossibleRun(s, events) && TimelyRun(s, events, probe) && StrandedForGood(Run(s, events))
  }

  /** No run from an idle room, with probes of at most this length, strands anybody. */
  ghost predicate NeverStrands(start: int, probe: int) {
    forall events :: !Strands(Idle(start), events, probe)
  }

  lemma ProbeBoundIsExact(start: int, probe: int)
    ensures NeverStrands(start, probe) <==> probe < GRACE_TTL_MS
  {
    if probe < GRACE_TTL_MS {
      forall events | PossibleRun(Idle(start), events) && TimelyRun(Idle(start), events, probe)
        ensures !StrandedForGood(Run(Idle(start), events))
      {
        NoWaiterIsStranded(start, events, probe);
      }
    } else {
      SlowProbeStrands(start, probe);
    }
  }

  /** A probe is capped, so what it takes from a grant to the release of a ghost is the cap and whatever the
      process or its connection stalls besides: nobody is stranded exactly while that stays below 12 s. */
  lemma StallBoundIsExact(start: int, stall: nat)
    ensures NeverStrands(start, PROBE_CAP_MS + stall) <==> stall < 12_000
  {
    ProbeBoundIsExact(start, PROBE_CAP_MS + stall);
  }

  function DeniedPlay(user: UserId): seq<Event> {
    [EnqueueEvent(0, user), PromoteEvent(0, 0)]
  }

  function SlowProbeTail(start: int): seq<Event> {
    [ReleaseEvent(1, 0), AdvanceEvent(start + GRACE_TTL_MS), WalkFindsGhost(0)]
  }

  function SlowProbeRun(start: int): seq<Event> {
    [AcquireEvent(1, None)] + (DeniedPlay(2) + (DeniedPlay(3) + SlowProbeTail(start)))
  }

  /** A ghost probe that answers only when the grace time is over: the lapsed hold denies the release,
      so the walk stops and the second waiter is forgotten. */
  lemma SlowProbeStrands(start: int, probe: int)
    requires GRACE_TTL_MS <= probe
    ensures Strands(Idle(start), SlowProbeRun(start), probe)
  {
    var s0, s1, tail := Idle(start), FullHold(start, []), SlowProbeTail(start);
    assert [] + [2] == [2] && [2] + [3] == [2, 3];
    assert AfterDeniedPlay(s1, 2) == FullHold(start, [2]) && AfterDeniedPlay(FullHold(start, [2]), 3) == FullHold(start, [2, 3]);
    SlowProbeEnds(start, probe);
    StrandsAfterDeniedPlay(FullHold(start, [2]), 3, tail, probe);
    StrandsAfterDeniedPlay(s1, 2, DeniedPlay(3) + tail, probe);
    assert Step(s0, AcquireEvent(1, None)) == s1;
    StrandsAfter(s0, AcquireEvent(1, None), DeniedPlay(2) + (DeniedPlay(3) + tail), probe);
  }

  function FullHold(start: int, queue: seq<UserId>): Protocol {
    Protocol(Music(Some(Hold(1, start, FULL_TTL_MS)), None, queue, if queue == [] then None else Some(start + FULL_TTL_MS), start),
             map[], multiset{}, map[])
  }

  lemma GhostHeadIsProbed(start: int)
    ensures Step(FullHold(start, [2, 3]), ReleaseEvent(1, 0)) == Probing(start)
  {
    assert [2, 3][1..] == [3];
  }

  /** The head has been granted and is being probed; one more waits. */
  function Probing(start: int): Protocol {
    Protocol(Music(Some(Hold(2, start, GRACE_TTL_MS)), None, [3], Some(start + FULL_TTL_MS), start),
             map[0 := Walk(2, start)], multiset{}, map[])
  }

  lemma SlowProbeEnds(start: int, probe: int)
    requires GRACE_TTL_MS <= probe
    ensures Strands(FullHold(start, [2, 3]), SlowProbeTail(start), probe)
  {
    var e1, e2, e3 := ReleaseEvent(1, 0), AdvanceEvent(start + GRACE_TTL_MS), WalkFindsGhost(0);
    var probing := Probing(start);
    GhostHeadIsProbed(start);
    var lapsed := probing.(m := probing.m.(holder := None, clock := start + GRACE_TTL_MS));
    assert Step(probing, e2) == lapsed;
    assert Strands(Step(lapsed, e3), [], probe);
    StrandsAfter(lapsed, e3, [], probe);
    StrandsAfter(probing, e2, [e3], probe);
    StrandsAfter(FullHold(start, [2, 3]), e1, [e2, e3], probe);
    assert [e1] + [e2, e3] == SlowProbeTail(start);
  }

  lemma StrandsAfter(s: Protocol, e: Event, rest: seq<Event>, probe: int)
    requires Possible(s, e) && Timely(s, e, probe) && Strands(Step(s, e), rest, probe)
    ensures Strands(s, [e] + rest, probe)
  {
    assert ([e] + rest)[1..] == rest;
  }

  /** A play that enqueues behind a live hold and promotes nobody. */
  lemma StrandsAfterDeniedPlay(s: Protocol, user: UserId, rest: seq<Event>, probe: int)
    requires s.m.holder.Some? && s.plays == map[] && s.walks == map[] && user !in s.m.queue
    requires Strands(AfterDeniedPlay(s, user), rest, probe)
    ensures Strands(s, DeniedPlay(user) + rest, probe)
  {
    var queued := Step(s, EnqueueEvent(0, user));
    assert Step(queued, PromoteEvent(0, 0)) == AfterDeniedPlay(s, user);
    StrandsAfter(queued, PromoteEvent(0, 0), rest, probe);
    StrandsAfter(s, EnqueueEvent(0, user), [PromoteEvent(0, 0)] + rest, probe);
    assert [EnqueueEvent(0, user)] + ([PromoteEvent(0, 0)] + rest) == DeniedPlay(user) + rest;
  }

  function AfterDeniedPlay(s: Protocol, user: UserId): Protocol {
    s.(m := s.m.(queue := s.m.queue + [user], queueExpireAt := Some(s.m.clock + FULL_TTL_MS)))
  }

  function LapsedHoldRun(start: int): seq<Event> {
    [AcquireEvent(1, None), AdvanceEvent(start + 1), EnqueueEvent(0, 2), PromoteEvent(0, 0),
     AdvanceEvent(start + FULL_TTL_MS)]
  }

  /** A DJ who plays one track list for two hours: nothing refreshes the mutex, its key lapses, and a
      waiter who joined later than it was set is forgotten, with no probe anywhere. */
  lemma LapsedFullHoldStrands(start: int)
    ensures PossibleRun(Idle(start), LapsedHoldRun(start))
    ensures StrandedForGood(Run(Idle(start), LapsedHoldRun(start)))
  {
    var s0 := Idle(start);
    var e0 := AcquireEvent(1, None);                 var s1 := Step(s0, e0);
    var e1 := AdvanceEvent(start + 1);               var s2 := Step(s1, e1);
    var e2 := EnqueueEvent(0, 2);                    var s3 := Step(s2, e2);
    var e3 := PromoteEvent(0, 0);                    var s4 := Step(s3, e3);
    var e4 := AdvanceEvent(start + FULL_TTL_MS);     var s5 := Step(s4, e4);
    assert s3.m.queue == [2] && s5.m.queue == [2];
    assert StrandedForGood(s5);
    RunOne(s4, e4, []);
    RunOne(s3, e3, [e4]);
    RunOne(s2, e2, [e3, e4]);
    RunOne(s1, e1, [e2, e3, e4]);
    RunOne(s0, e0, [e1, e2, e3, e4]);
  }

  lemma RunOne(s: Protocol, e: Event, rest: seq<Event>)
    requires Possible(s, e) && PossibleRun(Step(s, e), rest)
    ensures PossibleRun(s, [e] + rest) && Run(s, [e] + rest) == Run(Step(s, e), rest)
  {
    assert ([e] + rest)[1..] == rest;
  }
}
