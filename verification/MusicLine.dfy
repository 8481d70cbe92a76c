/** The waiting line over whole protocol runs: each waiter's ticket is the number of the step at which
    they last joined the end of the line. */
module MusicLine {
  import opened Redis
  import opened MusicSlot
  import opened MusicProtocol

  datatype Ticketed = Ticketed(s: Protocol, ticket: map<UserId, nat>, steps: nat)

  function TicketStep(t: Ticketed, e: Event): Ticketed
    requires Possible(t.s, e)
  {
    var s' := Step(t.s, e);
    Ticketed(s',
             map u | u in s'.m.queue :: if u in t.s.m.queue && u in t.ticket then t.ticket[u] else t.steps,
             t.steps + 1)
  }

  function TicketRun(t: Ticketed, events: seq<Event>): Ticketed
    requires PossibleRun(t.s, events)
    decreases |events|
  {
    if events == [] then t else TicketRun(TicketStep(t, events[0]), events[1..])
  }

  /** Nobody waits twice, and whoever joined earlier stands further ahead. */
  ghost predicate FirstComeFirst(t: Ticketed) {
    && Distinct(t.s.m.queue)
    && (forall u :: u in t.s.m.queue ==> u in t.ticket && t.ticket[u] < t.steps)
    && (forall i, j :: 0 <= i < j < |t.s.m.queue| ==>
          t.ticket[t.s.m.queue[i]] < t.ticket[t.s.m.queue[j]])
  }

  /** e pops the head of a non-empty line and gives it the slot. */
  predicate HandsOn(s: Protocol, e: Event)
    requires Possible(s, e)
  {
    match e
    case PromoteEvent(_, _) => s.m.holder.None?
    case TimerFires(_, _) => s.m.holder.None?
    case ReleaseEvent(user, _) => s.m.holder.Some? && s.m.holder.value.user == user
    case WalkFindsGhost(w) => s.m.holder.Some? && s.m.holder.value.user == s.walks[w].current
    case _ => false
  }

  /** What a step does to the line, case by case. */
  lemma LineAfter(s: Protocol, e: Event)
    requires Possible(s, e)
    ensures var q, q' := s.m.queue, Step(s, e).m.queue;
            if HandsOn(s, e) && q != [] then
              q' == q[1..] && Step(s, e).m.holder == Some(Hold(q[0], s.m.clock, GRACE_TTL_MS))
            else match e
              case CancelEvent(u) => q' == Without(q, u)
              case EnqueueEvent(_, u) => q' == if u in q then q else q + [u]
              case AdvanceEvent(to) => q' == if Expired(s.m.queueExpireAt, to) then [] else q
              case _ => q' == q
  {
  }

  /** Every step leaves the line as it was, with gaps, and lets at most one newcomer join the end. */
  lemma LineKeepsOrder(s: Protocol, e: Event) returns (kept: seq<UserId>, joined: seq<UserId>, place: seq<int>)
    requires Possible(s, e)
    ensures Step(s, e).m.queue == kept + joined && SelectedBy(s.m.queue, kept, place)
    ensures joined == [] || exists u :: joined == [u] && u !in s.m.queue
  {
    var q, q' := s.m.queue, Step(s, e).m.queue;
    joined := [];
    LineAfter(s, e);
    if e.CancelEvent? {
      kept := q';
      place := WithoutSelects(q, e.user);
    } else if e.EnqueueEvent? && q' != q {
      kept, joined, place := q, [e.user], seq(|q|, i => i);
      assert forall j :: 0 <= j < |q| ==> q[j] != e.user;
    } else {
      kept := q';
      place := if q' == q then seq(|q'|, i => i) else seq(|q'|, i => i + 1);
    }
  }

  lemma TicketStepKeepsOrder(t: Ticketed, e: Event)
    requires FirstComeFirst(t) && Possible(t.s, e)
    ensures FirstComeFirst(TicketStep(t, e))
  {
    var kept, joined, place := LineKeepsOrder(t.s, e);
    var q, t' := t.s.m.queue, TicketStep(t, e);
    var q' := t'.s.m.queue;
    forall i | 0 <= i < |q'|
      ensures t'.ticket[q'[i]] == (if i < |kept| then t.ticket[q[place[i]]] else t.steps)
    {
      if i < |kept| { assert q'[i] == q[place[i]]; } else { assert q'[i] == joined[0]; }
    }
    forall i, j | 0 <= i < j < |q'|
      ensures q'[i] != q'[j] && t'.ticket[q'[i]] < t'.ticket[q'[j]]
    {
      assert q'[i] == q[place[i]];
      if j < |kept| { assert place[i] < place[j] && q'[j] == q[place[j]]; }
    }
  }

  lemma {:induction false} TicketRunKeepsOrder(t: Ticketed, events: seq<Event>)
    requires FirstComeFirst(t) && PossibleRun(t.s, events)
    ensures FirstComeFirst(TicketRun(t, events)) && TicketRun(t, events).s == Run(t.s, events)
    decreases |events|
  {
    if events != [] {
      TicketStepKeepsOrder(t, events[0]);
      TicketRunKeepsOrder(TicketStep(t, events[0]), events[1..]);
    }
  }

  /** Over any run of plays, grants, cancels and disconnects the line stays in joining order, without
      repetition, and every grant goes to the one who has waited longest. */
  lemma NobodyIsOvertaken(start: int, events: seq<Event>, e: Event)
    requires PossibleRun(Idle(start), events) && Possible(Run(Idle(start), events), e)
    ensures var t := TicketRun(Ticketed(Idle(start), map[], 0), events);
            var h := Step(Run(Idle(start), events), e).m.holder;
            && t.s == Run(Idle(start), events) && FirstComeFirst(t)
            && (h.Some? && h.value.Provisional() && h != t.s.m.holder ==>
                  h.value.user in t.s.m.queue
                  && forall v :: v in t.s.m.queue ==> t.ticket[h.value.user] <= t.ticket[v])
  {
    var t0 := Ticketed(Idle(start), map[], 0);
    TicketRunKeepsOrder(t0, events);
    var t := TicketRun(t0, events);
    var h := Step(t.s, e).m.holder;
    if h.Some? && h.value.Provisional() && h != t.s.m.holder {
      GrantGoesToHead(t.s, e);
    }
  }

  lemma GrantGoesToHead(s: Protocol, e: Event)
    requires Possible(s, e) && Step(s, e).m.holder != s.m.holder
    requires Step(s, e).m.holder.Some? && Step(s, e).m.holder.value.Provisional()
    ensures s.m.queue != [] && Step(s, e).m.holder.value.user == s.m.queue[0]
  {
  }

  // ----- how a waiter leaves the line -----

  /** The slot is handed to u, u is dequeued, or the key of the whole line reaches its deadline. */
  predicate Leaves(s: Protocol, e: Event, u: UserId)
    requires Possible(s, e)
  {
    || (HandsOn(s, e) && s.m.queue != [] && s.m.queue[0] == u)
    || e == CancelEvent(u)
    || (e.AdvanceEvent? && Expired(s.m.queueExpireAt, e.to))
  }

  lemma WaiterLeavesIff(s: Protocol, e: Event, u: UserId)
    requires Possible(s, e) && Distinct(s.m.queue) && u in s.m.queue
    ensures u !in Step(s, e).m.queue <==> Leaves(s, e, u)
    ensures HandsOn(s, e) ==> Step(s, e).m.holder == Some(Hold(s.m.queue[0], s.m.clock, GRACE_TTL_MS))
  {
    LineAfter(s, e);
    OnlyHeadPopped(s.m.queue, u);
  }

  lemma OnlyHeadPopped(q: seq<UserId>, u: UserId)
    requires Distinct(q) && u in q
    ensures u !in q[1..] <==> u == q[0]
  {
    assert q == [q[0]] + q[1..];
  }

  lemma StepKeepsDistinct(s: Protocol, e: Event)
    requires Possible(s, e) && Distinct(s.m.queue)
    ensures Distinct(Step(s, e).m.queue)
  {
    var kept, joined, place := LineKeepsOrder(s, e);
    var q, q' := s.m.queue, Step(s, e).m.queue;
    forall i, j | 0 <= i < j < |q'| ensures q'[i] != q'[j] {
      assert q'[i] == q[place[i]];
      if j < |kept| { assert place[i] < place[j] && q'[j] == q[place[j]]; }
    }
  }

  lemma {:induction false} RunKeepsDistinct(s: Protocol, events: seq<Event>)
    requires PossibleRun(s, events) && Distinct(s.m.queue)
    ensures Distinct(Run(s, events).m.queue)
    decreases |events|
  {
    if events != [] {
      StepKeepsDistinct(s, events[0]);
      RunKeepsDistinct(Step(s, events[0]), events[1..]);
    }
  }

  /** No step of the run is one by which u leaves. */
  predicate NeverLeaves(s: Protocol, events: seq<Event>, u: UserId)
    requires PossibleRun(s, events)
    decreases |events|
  {
    events == [] || (!Leaves(s, events[0], u) && NeverLeaves(Step(s, events[0]), events[1..], u))
  }

  predicate Enqueues(events: seq<Event>, u: UserId) {
    exists e :: e in events && e.EnqueueEvent? && e.user == u
  }

  lemma {:induction false} AbsentStaysAbsent(s: Protocol, events: seq<Event>, u: UserId)
    requires PossibleRun(s, events) && u !in s.m.queue && !Enqueues(events, u)
    ensures u !in Run(s, events).m.queue
    decreases |events|
  {
    if events != [] {
      assert events[0] in events;
      var kept, joined, place := LineKeepsOrder(s, events[0]);
      assert Step(s, events[0]).m.queue == kept + joined;
      forall i | 0 <= i < |kept| ensures kept[i] != u { assert kept[i] == s.m.queue[place[i]]; }
      if joined != [] { JoinerEnqueued(s, events[0]); }
      AbsentStaysAbsent(Step(s, events[0]), events[1..], u);
    }
  }

  lemma JoinerEnqueued(s: Protocol, e: Event)
    requires Possible(s, e)
    ensures forall v :: v in Step(s, e).m.queue && v !in s.m.queue ==> e.EnqueueEvent? && e.user == v
  {
    LineAfter(s, e);
  }

  /** Main result on waiters: over any run a waiter who does not enqueue again is still in line at the end if
      and only if nobody handed them the slot, nobody dequeued them, and the line's key never lapsed. */
  lemma WaiterStaysIff(start: int, before: seq<Event>, events: seq<Event>, u: UserId)
    requires PossibleRun(Idle(start), before) && PossibleRun(Run(Idle(start), before), events)
    requires u in Run(Idle(start), before).m.queue && !Enqueues(events, u)
    ensures u in Run(Run(Idle(start), before), events).m.queue
            <==> NeverLeaves(Run(Idle(start), before), events, u)
  {
    RunKeepsDistinct(Idle(start), before);
    StaysIff(Run(Idle(start), before), events, u);
  }

  lemma {:induction false} StaysIff(s: Protocol, events: seq<Event>, u: UserId)
    requires PossibleRun(s, events) && Distinct(s.m.queue) && u in s.m.queue && !Enqueues(events, u)
    ensures u in Run(s, events).m.queue <==> NeverLeaves(s, events, u)
    decreases |events|
  {
    if events != [] {
      WaiterLeavesIff(s, events[0], u);
      if Leaves(s, events[0], u) {
        AbsentStaysAbsent(Step(s, events[0]), events[1..], u);
      } else {
        StepKeepsDistinct(s, events[0]);
        StaysIff(Step(s, events[0]), events[1..], u);
      }
    }
  }

  /** The line's deadline is two hours after somebody last asked to join it; nothing else moves it. */
  lemma OnlyEnqueueExtendsTheLine(s: Protocol, e: Event)
    requires Possible(s, e)
    ensures KeepsDeadline(s.m, Step(s, e).m) || e.EnqueueEvent?
    ensures e.EnqueueEvent? ==> Step(s, e).m.queueExpireAt == Some(s.m.clock + FULL_TTL_MS)
  {
    match e
    case PromoteEvent(p, w) => assert KeepsDeadline(s.m, PromoteIfFree(s.m).0);
    case ReleaseEvent(user, w) => assert KeepsDeadline(s.m, ReleaseAndGrant(s.m, user).0);
    case WalkFindsGhost(w) => assert KeepsDeadline(s.m, ReleaseAndGrant(s.m, s.walks[w].current).0);
    case TimerFires(due, w) => assert KeepsDeadline(s.m, PromoteIfFree(s.m).0);
    case _ =>
  }

  predicate KeepsDeadline(m: Music, m': Music) {
    m'.queue == [] || m'.queueExpireAt == m.queueExpireAt
  }

  function LapsedLineRun(start: int): seq<Event> {
    [AcquireEvent(1, None), EnqueueEvent(0, 2), PromoteEvent(0, 0), AdvanceEvent(start + FULL_TTL_MS / 2),
     AcquireEvent(1, None), AdvanceEvent(start + FULL_TTL_MS)]
  }

  /** A DJ who plays on for two hours outlasts the line behind him: a waiter who neither left nor was granted
      anything is gone, with no probe and no lapsing hold anywhere. */
  lemma LapsedLineForgets(start: int)
    ensures var s, events := Idle(start), LapsedLineRun(start);
            && PossibleRun(s, events) && TimelyRun(s, events, 0)
            && Run(s, events).m.queue == [] && Run(s, events).m.holder.Some?
            && Run(s, events).m.holder.value.user == 1
  {
    var s0, waiting := Idle(start), OneWaits(start);
    var e0, e1, e2 := AcquireEvent(1, None), EnqueueEvent(0, 2), PromoteEvent(0, 0);
    var tail := LapsedLineTail(start);
    var s1 := Step(s0, e0);
    var s2 := Step(s1, e1);
    assert Step(s2, e2) == waiting;
    TwoHoursPass(start);
    TimelyOne(s2, e2, tail);
    TimelyOne(s1, e1, [e2] + tail);
    TimelyOne(s0, e0, [e1] + ([e2] + tail));
    assert [e0] + ([e1] + ([e2] + tail)) == LapsedLineRun(start);
  }

  function OneWaits(start: int): Protocol {
    Idle(start).(m := Music(Some(Hold(1, start, FULL_TTL_MS)), None, [2], Some(start + FULL_TTL_MS), start))
  }

  function LapsedLineTail(start: int): seq<Event> {
    [AdvanceEvent(start + FULL_TTL_MS / 2), AcquireEvent(1, None), AdvanceEvent(start + FULL_TTL_MS)]
  }

  lemma TwoHoursPass(start: int)
    ensures var s, events := OneWaits(start), LapsedLineTail(start);
            && PossibleRun(s, events) && TimelyRun(s, events, 0)
            && Run(s, events).m.queue == []
            && Run(s, events).m.holder == Some(Hold(1, start + FULL_TTL_MS / 2, FULL_TTL_MS))
  {
    var s, half := OneWaits(start), start + FULL_TTL_MS / 2;
    var e1, e2, e3 := AdvanceEvent(half), AcquireEvent(1, None), AdvanceEvent(start + FULL_TTL_MS);
    var s1 := s.(m := s.m.(clock := half));
    var s2 := s1.(m := s1.m.(holder := Some(Hold(1, half, FULL_TTL_MS))));
    assert Step(s, e1) == s1 && Step(s1, e2) == s2;
    TimelyOne(s2, e3, []);
    TimelyOne(s1, e2, [e3]);
    TimelyOne(s, e1, [e2, e3]);
    assert [e1] + [e2, e3] == LapsedLineTail(start);
  }

  lemma TimelyOne(s: Protocol, e: Event, rest: seq<Event>)
    requires Possible(s, e) && Timely(s, e, 0)
    requires PossibleRun(Step(s, e), rest) && TimelyRun(Step(s, e), rest, 0)
    ensures PossibleRun(s, [e] + rest) && TimelyRun(s, [e] + rest, 0)
    ensures Run(s, [e] + rest) == Run(Step(s, e), rest)
  {
    assert ([e] + rest)[1..] == rest;
  }

  // ----- a disconnect -----

  /** e is a request of u's own. */
  predicate ByUser(s: Protocol, e: Event, u: UserId)
    requires Possible(s, e)
  {
    match e
    case AcquireEvent(user, _) => user == u
    case EnqueueEvent(_, user) => user == u
    case ReacquireEvent(p) => s.plays[p].user == u
    case TakeoverEvent(user) => user == u
    case _ => false
  }

  predicate RunOfOthers(s: Protocol, events: seq<Event>, u: UserId)
    requires PossibleRun(s, events)
    decreases |events|
  {
    events == [] || (!ByUser(s, events[0], u) && RunOfOthers(Step(s, events[0]), events[1..], u))
  }

  lemma {:induction false} OthersNeverQueueMe(s: Protocol, events: seq<Event>, u: UserId)
    requires PossibleRun(s, events) && RunOfOthers(s, events, u) && u !in s.m.queue
    ensures u !in Run(s, events).m.queue
    decreases |events|
  {
    if events != [] {
      JoinerEnqueued(s, events[0]);
      OthersNeverQueueMe(Step(s, events[0]), events[1..], u);
    }
  }

  /** A disconnect dequeues, then releases; whatever others do in between and at whatever pace, the user
      afterwards neither waits nor holds. */
  lemma DisconnectLeavesNoTrace(s: Protocol, u: UserId, between: seq<Event>, w: nat)
    requires PossibleRun(Step(s, CancelEvent(u)), between)
    requires RunOfOthers(Step(s, CancelEvent(u)), between, u)
    requires Possible(Run(Step(s, CancelEvent(u)), between), ReleaseEvent(u, w))
    ensures u !in Line(Step(Run(Step(s, CancelEvent(u)), between), ReleaseEvent(u, w)).m)
  {
    OthersNeverQueueMe(Step(s, CancelEvent(u)), between, u);
    var m := Run(Step(s, CancelEvent(u)), between).m;
    if m.queue != [] { assert m.queue[0] in m.queue; }
  }
}
