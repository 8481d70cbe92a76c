/** The slot as a lock: who gets it, how it is lost and how not, and whose track is stored beside it. */
module MusicHold {
  import opened Redis
  import opened MusicSlot
  import opened MusicProtocol
  import opened MusicLine

  // ----- who gets the slot -----

  /** A play or takeover of u may take the slot: it is free or u's already, the takeover looks at nobody, and a
      steal names the holder it found dead. */
  predicate Obtains(s: Protocol, e: Event, u: UserId)
    requires Possible(s, e)
  {
    match e
    case AcquireEvent(user, steal) =>
      user == u && (s.m.holder.None? || s.m.holder.value.user == u || steal == Some(s.m.holder.value.user))
    case ReacquireEvent(p) => s.plays[p].user == u && (s.m.holder.None? || s.m.holder.value.user == u)
    case TakeoverEvent(user) => user == u
    case _ => false
  }

  /** A step sets the slot to u's for two hours exactly when u's play or takeover may take it. */
  lemma PlayObtainsIff(s: Protocol, e: Event, u: UserId)
    requires Possible(s, e) && (e.AcquireEvent? || e.ReacquireEvent? || e.TakeoverEvent?)
    ensures Obtains(s, e, u) ==> Step(s, e).m.holder == Some(Hold(u, s.m.clock, FULL_TTL_MS))
    ensures (forall v :: !Obtains(s, e, v)) ==> Step(s, e).m.holder == s.m.holder
    ensures Step(s, e).m.queue == s.m.queue && Step(s, e).m.state == s.m.state
    ensures Step(s, e).m.queueExpireAt == s.m.queueExpireAt && Step(s, e).m.clock == s.m.clock
  {
    match e
    case AcquireEvent(user, _) => assert Obtains(s, e, user) || Step(s, e).m.holder == s.m.holder;
    case ReacquireEvent(p) => assert Obtains(s, e, s.plays[p].user) || Step(s, e).m.holder == s.m.holder;
    case TakeoverEvent(user) => assert Obtains(s, e, user);
  }

  /** The answer to an acquire is the caller exactly when the slot is now the caller's; another answer names
      the holder, who keeps it. */
  lemma AcquireAnswersTruly(m: Music, me: UserId, steal: Option<UserId>)
    ensures var (m', answer) := Acquire(m, me, steal);
            && (answer == me <==> m.holder.None? || m.holder.value.user == me || steal == Some(m.holder.value.user))
            && (answer == me ==> m'.holder == Some(Hold(me, m.clock, FULL_TTL_MS)))
            && (answer != me ==> m' == m && m.holder.Some? && m.holder.value.user == answer)
            && m'.queue == m.queue && m'.state == m.state
  {
  }

  /** Cancelling says whether the user was waiting, and changes the line only. */
  lemma CancelAnswersTruly(m: Music, u: UserId)
    ensures var (m', was) := Cancel(m, u);
            && (was <==> u in m.queue)
            && (forall v :: v in m'.queue <==> v in m.queue && v != u)
            && m'.holder == m.holder && m'.state == m.state && m'.clock == m.clock
            && (m'.queue != [] ==> m'.queueExpireAt == m.queueExpireAt)
  {
  }

  // ----- how the slot is lost -----

  /** The only ways in which the holder u stops holding: a release in u's name (by u, by somebody who removes u,
      or by a walk that found u a ghost) with nobody or somebody else at the head of the line; a takeover; a
      steal that names u; or the end of the hold's time. */
  predicate Ends(s: Protocol, e: Event)
    requires Possible(s, e) && s.m.holder.Some?
  {
    var u := s.m.holder.value.user;
    match e
    case TakeoverEvent(user) => user != u
    case AcquireEvent(user, steal) => user != u && steal == Some(u)
    case AdvanceEvent(to) => s.m.holder.value.ExpireAt() <= to
    case _ => HandsOn(s, e) && !(s.m.queue != [] && s.m.queue[0] == u)
  }

  predicate Holds(s: Protocol, u: UserId) {
    s.m.holder.Some? && s.m.holder.value.user == u
  }

  lemma HolderLosesIff(s: Protocol, e: Event)
    requires Possible(s, e) && s.m.holder.Some?
    ensures Holds(Step(s, e), s.m.holder.value.user) <==> !Ends(s, e)
  {
    match e
    case AcquireEvent(_, _) =>
    case ReacquireEvent(_) =>
    case TakeoverEvent(_) =>
    case AdvanceEvent(_) =>
    case _ =>
      if HandsOn(s, e) && s.m.queue != [] { LineAfter(s, e); }
      else if HandsOn(s, e) { EmptyLineFrees(s, e); }
      else { HoldStands(s, e); }
  }

  lemma EmptyLineFrees(s: Protocol, e: Event)
    requires Possible(s, e) && HandsOn(s, e) && s.m.queue == []
    ensures Step(s, e).m.holder == None
  {
  }

  lemma HoldStands(s: Protocol, e: Event)
    requires Possible(s, e) && s.m.holder.Some? && !HandsOn(s, e)
    requires !e.TakeoverEvent? && !e.AcquireEvent? && !e.ReacquireEvent? && !e.AdvanceEvent?
    ensures Step(s, e).m.holder == s.m.holder
  {
  }

  /** u holds the slot now and after every step of the run. */
  predicate HoldsThroughout(s: Protocol, events: seq<Event>, u: UserId)
    requires PossibleRun(s, events)
    decreases |events|
  {
    Holds(s, u) && (events == [] || HoldsThroughout(Step(s, events[0]), events[1..], u))
  }

  predicate NeverEnds(s: Protocol, events: seq<Event>, u: UserId)
    requires PossibleRun(s, events)
    decreases |events|
  {
    Holds(s, u) && (events == [] || (!Ends(s, events[0]) && NeverEnds(Step(s, events[0]), events[1..], u)))
  }

  /** Main result on the slot: over any run the holder keeps it, and every other acquire is denied, for as long
      as none of those steps occurs, and no longer. */
  lemma {:induction false} HolderKeepsSlotIff(s: Protocol, events: seq<Event>, u: UserId)
    requires PossibleRun(s, events) && Holds(s, u)
    ensures HoldsThroughout(s, events, u) <==> NeverEnds(s, events, u)
    ensures HoldsThroughout(s, events, u) ==> Holds(Run(s, events), u)
    ensures HoldsThroughout(s, events, u) ==>
      forall v, steal :: v != u && steal != Some(u) ==> Acquire(Run(s, events).m, v, steal) == (Run(s, events).m, u)
    decreases |events|
  {
    if events != [] {
      HolderLosesIff(s, events[0]);
      if Holds(Step(s, events[0]), u) { HolderKeepsSlotIff(Step(s, events[0]), events[1..], u); }
    }
  }

  // ----- whose track is stored -----

  /** A store says whose track plays, a release wipes it, and nothing else touches it. */
  lemma TrackAfter(s: Protocol, e: Event)
    requires Possible(s, e)
    ensures Step(s, e).m.state
            == if e.TrackStored? then Some(e.user)
               else if (e.ReleaseEvent? || e.WalkFindsGhost?) && HandsOn(s, e) then None
               else s.m.state
  {
    match e
    case ReleaseEvent(user, _) => ReleaseShiftsLine(s.m, user);
    case WalkFindsGhost(w) => ReleaseShiftsLine(s.m, s.walks[w].current);
    case PromoteEvent(_, _) => PromoteKeepsTrack(s.m);
    case TimerFires(_, _) => PromoteKeepsTrack(s.m);
    case _ =>
  }

  lemma PromoteKeepsTrack(m: Music)
    ensures PromoteIfFree(m).0.state == m.state
  {
  }

  predicate KeepsTrack(s: Protocol, events: seq<Event>, u: UserId)
    requires PossibleRun(s, events)
    decreases |events|
  {
    events == []
    || (var e := events[0];
        && (e.TrackStored? ==> e.user == u)
        && !((e.ReleaseEvent? || e.WalkFindsGhost?) && HandsOn(s, e))
        && KeepsTrack(Step(s, e), events[1..], u))
  }

  /** A late joiner sees the track stored last, until a release. */
  lemma {:induction false} StoredTrackStands(s: Protocol, events: seq<Event>, u: UserId)
    requires PossibleRun(s, events) && s.m.state == Some(u) && KeepsTrack(s, events, u)
    ensures Run(s, events).m.state == Some(u)
    decreases |events|
  {
    if events != [] {
      TrackAfter(s, events[0]);
      StoredTrackStands(Step(s, events[0]), events[1..], u);
    }
  }

  // ----- the other books of the protocol -----

  /** A denied play waits to promote; a live user ends a walk with a timer 16 s ahead and leaves the room as it
      is; a timer that fires is gone. */
  lemma StepsKeepBooks(s: Protocol, e: Event)
    requires Possible(s, e)
    ensures e.EnqueueEvent? ==> Step(s, e).plays == s.plays[e.p := Enqueued(e.user)]
    ensures e.WalkFindsLive? ==>
      Step(s, e) == s.(walks := s.walks - {e.w}, timers := s.timers + multiset{s.m.clock + TIMER_MS})
    ensures e.TimerFires? ==> Step(s, e).timers == s.timers - multiset{e.due}
  {
  }

  /** Every grant starts a walk at its moment, unless the promoting play is granted its own promotion. */
  lemma GrantStartsWalk(s: Protocol, e: Event)
    requires Possible(s, e) && HandsOn(s, e) && s.m.queue != []
    ensures e.PromoteEvent? ==>
      if s.m.queue[0] == s.plays[e.p].user then Step(s, e).plays == s.plays[e.p := Promoted(s.m.queue[0])]
      else Step(s, e).walks == s.walks[e.w := Walk(s.m.queue[0], s.m.clock)] && Step(s, e).plays == s.plays - {e.p}
    ensures e.ReleaseEvent? || e.TimerFires? ==> Step(s, e).walks == s.walks[e.w := Walk(s.m.queue[0], s.m.clock)]
    ensures e.WalkFindsGhost? ==> Step(s, e).walks == (s.walks - {e.w})[e.w := Walk(s.m.queue[0], s.m.clock)]
  {
    LineAfter(s, e);
  }
}
