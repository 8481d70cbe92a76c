/** Slot accounting and piping completeness of the media cluster, under every interleaving. */
module MediaSafety {
  import opened Redis
  import opened MediaCluster

  /** The open listener transports and outstanding reservations of one router. */
  function Users(c: Cluster, r: RouterId): set<JoinId> {
    set j | j in c.joins && !c.joins[j].Waiting? && c.joins[j].router == r
  }

  ghost predicate Pooled(c: Cluster, r: RouterId) {
    r in c.pool
  }

  /** Router ids are fresh, the pool lists each pooled router once, and waiters wait for something. */
  ghost predicate WellFormed(c: Cluster) {
    && Distinct(c.pool)
    && (forall r :: r in c.dists <==> Pooled(c, r))
    && (forall r :: r in c.dists ==> r < c.nextRouter)
    && (c.creation.Some? ==> c.creation.value.router < c.nextRouter
                             && (c.creation.value.router in c.dists <==> c.creation.value.Pushed?))
    && (forall j :: j in c.joins ==>
          c.joins[j].router in c.dists
          || (c.joins[j].Waiting? && c.creation.Some? && c.creation.value.router == c.joins[j].router))
    && (forall pr :: pr in c.pipes ==> pr.1 in c.dists)
  }

  ghost predicate SlotsAccounted(c: Cluster) {
    forall r :: r in c.dists ==> c.dists[r].listenerCount == |Users(c, r)| <= c.max
  }

  ghost predicate StampsFresh(c: Cluster) {
    && 0 < c.nextStamp && (forall p :: p in c.sources ==> 0 < c.sources[p] < c.nextStamp)
    && (forall p, q :: p in c.sources && q in c.sources && c.sources[p] == c.sources[q] ==> p == q)
  }

  /** Every pooled router has every source producer piped, or its pipe on the way. */
  ghost predicate PipingComplete(c: Cluster) {
    forall r, p :: r in c.dists && p in c.sources ==> p in c.dists[r].piped || (p, r) in c.pipes
  }

  /** The router being built has every source the iteration went past. */
  ghost predicate CreationOnTrack(c: Cluster) {
    c.creation.Some? && c.creation.value.Piping? ==>
      var cr := c.creation.value;
      && cr.pos < c.nextStamp
      && forall p :: p in c.sources && c.sources[p] <= cr.pos ==> p in cr.piped || p == cr.current
  }

  ghost predicate Sound(c: Cluster) {
    WellFormed(c) && SlotsAccounted(c) && PipingSound(c)
  }

  lemma ReserveKeepsSlots(c: Cluster, j: JoinId, r: RouterId)
    requires SlotsAccounted(c) && HasRoom(c, r) && (j in c.joins ==> c.joins[j].Waiting?)
    ensures SlotsAccounted(Reserve(c, j, r))
  {
    var c' := Reserve(c, j, r);
    forall q | q in c'.dists
      ensures c'.dists[q].listenerCount == |Users(c', q)| <= c'.max
    {
      if q == r {
        assert j !in Users(c, r);
        assert Users(c', r) == Users(c, r) + {j};
      } else {
        assert Users(c', q) == Users(c, q);
      }
    }
  }

  /** A slot is given back only by somebody who had one, so the clamp never bites. */
  lemma GiveBackIsExact(c: Cluster, j: JoinId)
    requires SlotsAccounted(c) && j in c.joins && !c.joins[j].Waiting? && c.joins[j].router in c.dists
    ensures var r := c.joins[j].router;
            var c' := GiveBack(c, j, r);
            SlotsAccounted(c') && c'.dists[r].listenerCount == c.dists[r].listenerCount - 1
  {
    var r := c.joins[j].router;
    var c' := GiveBack(c, j, r);
    assert j in Users(c, r);
    forall q | q in c'.dists
      ensures c'.dists[q].listenerCount == |Users(c', q)| <= c'.max
    {
      if q == r {
        assert Users(c', r) == Users(c, r) - {j};
      } else {
        assert Users(c', q) == Users(c, q);
      }
    }
  }

  /** Steps that leave the slot holders and counts of every old router alone. */
  lemma SameUsersKeepSlots(c: Cluster, c': Cluster)
    requires SlotsAccounted(c) && c'.max == c.max
    requires forall r :: r in c'.dists ==>
      (r in c.dists && c'.dists[r].listenerCount == c.dists[r].listenerCount && Users(c', r) == Users(c, r))
      || (c'.dists[r].listenerCount == 0 && Users(c', r) == {})
    ensures SlotsAccounted(c')
  {
  }

  /** A router is pushed with no listeners, and nobody held a slot on it before. */
  lemma ProceedKeepsSlots(c: Cluster, piped: set<Producer>, next: Option<Producer>)
    requires WellFormed(c) && SlotsAccounted(c) && c.creation.Some? && !c.creation.value.Pushed?
    ensures SlotsAccounted(Proceed(c, c.creation.value.router, piped, next))
  {
    var r := c.creation.value.router;
    var c' := Proceed(c, r, piped, next);
    assert Users(c, r) == {};
    forall q ensures Users(c', q) == Users(c, q) { }
    SameUsersKeepSlots(c, c');
  }

  lemma SameJoinsKeepSlots(c: Cluster, c': Cluster)
    requires SlotsAccounted(c) && c'.max == c.max
    requires forall r :: r in c'.dists ==> r in c.dists && c'.dists[r].listenerCount == c.dists[r].listenerCount
    requires forall j :: j in c'.joins ==>
      j in c.joins && c'.joins[j].router == c.joins[j].router && c'.joins[j].Waiting? == c.joins[j].Waiting?
    requires forall j :: j in c.joins && !c.joins[j].Waiting? ==> j in c'.joins
    ensures SlotsAccounted(c')
  {
    forall r ensures Users(c', r) == Users(c, r) { }
    SameUsersKeepSlots(c, c');
  }

  lemma StepKeepsSlots(c: Cluster, e: Event)
    requires WellFormed(c) && SlotsAccounted(c) && Possible(c, e)
    ensures SlotsAccounted(Step(c, e))
  {
    match e
    case JoinEvent(j) => GetOrCreateKeepsSlots(c, j);
    case ResumeEvent(j) =>
      if HasRoom(c, c.joins[j].router) { ReserveKeepsSlots(c, j, c.joins[j].router); }
      else { GetOrCreateKeepsSlots(c, j); }
    case TransportFails(j) => GiveBackIsExact(c, j);
    case TransportCloses(j) => GiveBackIsExact(c, j);
    case RouterReady(next) => ProceedKeepsSlots(c, {}, next);
    case CreationPiped(next) => ProceedKeepsSlots(c, c.creation.value.piped + {c.creation.value.current}, next);
    case _ => SameJoinsKeepSlots(c, Step(c, e));
  }

  lemma GetOrCreateKeepsSlots(c: Cluster, j: JoinId)
    requires SlotsAccounted(c) && (j in c.joins ==> c.joins[j].Waiting?)
    ensures SlotsAccounted(GetOrCreate(c, j))
  {
    var k := FirstWithRoom(c, 0);
    if k < |c.pool| {
      ReserveKeepsSlots(c, j, c.pool[k]);
    } else {
      var c' := GetOrCreate(c, j);
      forall r ensures Users(c', r) == Users(c, r) { }
      SameUsersKeepSlots(c, c');
    }
  }

  lemma GetOrCreateKeepsWellFormed(c: Cluster, j: JoinId)
    requires WellFormed(c)
    ensures WellFormed(GetOrCreate(c, j))
  {
    var k := FirstWithRoom(c, 0);
    if k < |c.pool| { ReserveKeepsWellFormed(c, j, c.pool[k]); }
  }

  lemma ReserveKeepsWellFormed(c: Cluster, j: JoinId, r: RouterId)
    requires WellFormed(c) && r in c.dists
    ensures WellFormed(Reserve(c, j, r))
  {
  }

  lemma GiveBackKeepsWellFormed(c: Cluster, j: JoinId, r: RouterId)
    requires WellFormed(c)
    ensures WellFormed(GiveBack(c, j, r))
  {
  }

  /** The pushed router is new to the pool. */
  lemma ProceedKeepsWellFormed(c: Cluster, piped: set<Producer>, next: Option<Producer>)
    requires WellFormed(c) && c.creation.Some? && !c.creation.value.Pushed?
    ensures WellFormed(Proceed(c, c.creation.value.router, piped, next))
  {
    var r := c.creation.value.router;
    assert !Pooled(c, r);
    var c' := Proceed(c, r, piped, next);
    if c'.pool != c.pool {
      forall q ensures Pooled(c', q) <==> Pooled(c, q) || q == r { }
    }
  }

  lemma CreationFailsKeepsWellFormed(c: Cluster)
    requires WellFormed(c) && Possible(c, CreationFails)
    ensures WellFormed(Step(c, CreationFails))
  {
    var c' := Step(c, CreationFails);
    forall r ensures Pooled(c', r) <==> Pooled(c, r) { }
  }

  lemma RegisterKeepsWellFormed(c: Cluster, p: Producer)
    requires WellFormed(c)
    ensures WellFormed(Register(c, p))
  {
    var c' := Register(c, p);
    forall pr | pr in c'.pipes ensures pr.1 in c'.dists {
      if pr !in c.pipes { assert Pooled(c, pr.1); }
    }
  }

  lemma StepKeepsWellFormed(c: Cluster, e: Event)
    requires WellFormed(c) && Possible(c, e)
    ensures WellFormed(Step(c, e))
  {
    match e
    case JoinEvent(j) => GetOrCreateKeepsWellFormed(c, j);
    case ResumeEvent(j) =>
      if HasRoom(c, c.joins[j].router) { ReserveKeepsWellFormed(c, j, c.joins[j].router); }
      else { GetOrCreateKeepsWellFormed(c, j); }
    case TransportFails(j) => GiveBackKeepsWellFormed(c, j, c.joins[j].router);
    case TransportCloses(j) => GiveBackKeepsWellFormed(c, j, c.joins[j].router);
    case RouterReady(next) => ProceedKeepsWellFormed(c, {}, next);
    case CreationPiped(next) =>
      ProceedKeepsWellFormed(c, c.creation.value.piped + {c.creation.value.current}, next);
    case CreationFails => CreationFailsKeepsWellFormed(c);
    case RegisterEvent(p) => RegisterKeepsWellFormed(c, p);
    case _ => SamePoolKeepsWellFormed(c, Step(c, e));
  }

  /** Steps that touch neither the pool nor the routers anybody counts on. */
  lemma SamePoolKeepsWellFormed(c: Cluster, c': Cluster)
    requires WellFormed(c)
    requires c'.pool == c.pool && c'.dists.Keys == c.dists.Keys && c'.nextRouter == c.nextRouter
    requires c'.creation == c.creation || (c.creation.Some? && c.creation.value.Pushed? && c'.creation.None?)
    requires c'.joins.Keys == c.joins.Keys
    requires forall j :: j in c.joins ==>
      c'.joins[j] == c.joins[j] || (c'.joins[j].router == c.joins[j].router && c.joins[j].router in c.dists)
    requires c'.pipes <= c.pipes
    ensures WellFormed(c')
  {
    forall r ensures Pooled(c', r) <==> Pooled(c, r) { }
    forall j | j in c'.joins
      ensures c'.joins[j].router in c'.dists
              || (c'.joins[j].Waiting? && c'.creation.Some? && c'.creation.value.router == c'.joins[j].router)
    {
      assert j in c.joins;
    }
  }

  ghost predicate PipingSound(c: Cluster) {
    StampsFresh(c) && PipingComplete(c) && CreationOnTrack(c)
  }

  /** The live iteration moves on, or ends and pushes the router: nothing registered meanwhile is missed. */
  lemma ProceedKeepsPiping(c: Cluster, r: RouterId, pos: nat, piped: set<Producer>, next: Option<Producer>)
    requires PipingSound(c) && IsNext(c, pos, next)
    requires forall p :: p in c.sources && c.sources[p] <= pos ==> p in piped
    ensures PipingSound(Proceed(c, r, piped, next))
  {
    if next.Some? {
      forall p | p in c.sources && c.sources[p] <= c.sources[next.value]
        ensures p in piped || p == next.value
      {
        assert pos < c.sources[p] ==> c.sources[p] == c.sources[next.value];
      }
    }
  }

  lemma RegisterKeepsPiping(c: Cluster, p: Producer)
    requires WellFormed(c) && PipingSound(c)
    ensures PipingSound(Register(c, p))
  {
    var c' := Register(c, p);
    forall r | r in c.dists ensures (p, r) in c'.pipes {
      assert Pooled(c, r);
      var i :| 0 <= i < |c.pool| && c.pool[i] == r;
      assert (p, c.pool[i]) in c'.pipes;
    }
  }

  lemma StepKeepsPiping(c: Cluster, e: Event)
    requires WellFormed(c) && PipingSound(c) && Possible(c, e)
    ensures PipingSound(Step(c, e))
  {
    match e
    case JoinEvent(j) => GetOrCreateKeepsPiping(c, j);
    case ResumeEvent(j) =>
      if HasRoom(c, c.joins[j].router) { ReserveKeepsPiping(c, j, c.joins[j].router); }
      else { GetOrCreateKeepsPiping(c, j); }
    case TransportFails(j) => GiveBackKeepsPiping(c, j, c.joins[j].router);
    case TransportCloses(j) => GiveBackKeepsPiping(c, j, c.joins[j].router);
    case RouterReady(next) => ProceedKeepsPiping(c, c.creation.value.router, 0, {}, next);
    case CreationPiped(next) =>
      var cr := c.creation.value;
      ProceedKeepsPiping(c, cr.router, cr.pos, cr.piped + {cr.current}, next);
    case RegisterEvent(p) => RegisterKeepsPiping(c, p);
    case PipeDone(p, r) => PipeDoneKeepsPiping(c, p, r);
    case SourceCloses(p) => SourceClosesKeepsPiping(c, p);
    case _ => SameSourcesKeepPiping(c, Step(c, e));
  }

  lemma ReserveKeepsPiping(c: Cluster, j: JoinId, r: RouterId)
    requires PipingSound(c)
    ensures PipingSound(Reserve(c, j, r))
  {
    SameSourcesKeepPiping(c, Reserve(c, j, r));
  }

  lemma GiveBackKeepsPiping(c: Cluster, j: JoinId, r: RouterId)
    requires PipingSound(c)
    ensures PipingSound(GiveBack(c, j, r))
  {
    SameSourcesKeepPiping(c, GiveBack(c, j, r));
  }

  lemma GetOrCreateKeepsPiping(c: Cluster, j: JoinId)
    requires PipingSound(c)
    ensures PipingSound(GetOrCreate(c, j))
  {
    var k := FirstWithRoom(c, 0);
    if k < |c.pool| { ReserveKeepsPiping(c, j, c.pool[k]); }
    else { SameSourcesKeepPiping(c, GetOrCreate(c, j)); }
  }

  lemma SourceClosesKeepsPiping(c: Cluster, p: Producer)
    requires PipingSound(c)
    ensures PipingSound(Step(c, SourceCloses(p)))
  {
  }

  lemma PipeDoneKeepsPiping(c: Cluster, p: Producer, r: RouterId)
    requires PipingSound(c) && Possible(c, PipeDone(p, r))
    ensures PipingSound(Step(c, PipeDone(p, r)))
  {
  }

  lemma SameSourcesKeepPiping(c: Cluster, c': Cluster)
    requires PipingSound(c)
    requires c'.sources == c.sources && c'.nextStamp == c.nextStamp && c'.pipes == c.pipes
    requires forall r :: r in c'.dists ==> r in c.dists && c'.dists[r].piped == c.dists[r].piped
    requires c'.creation == c.creation || c'.creation.None? || !c'.creation.value.Piping?
    ensures PipingSound(c')
  {
  }

  lemma StepKeepsSound(c: Cluster, e: Event)
    requires Sound(c) && Possible(c, e)
    ensures Sound(Step(c, e))
  {
    StepKeepsWellFormed(c, e);
    StepKeepsSlots(c, e);
    StepKeepsPiping(c, e);
  }

  lemma {:induction false} RunKeepsSound(c: Cluster, events: seq<Event>)
    requires Sound(c) && PossibleRun(c, events)
    ensures Sound(Run(c, events))
    decreases |events|
  {
    if events != [] {
      StepKeepsSound(c, events[0]);
      RunKeepsSound(Step(c, events[0]), events[1..]);
    }
  }

  /** Main results, from an empty cluster on and in any interleaving. */
  lemma SlotsNeverOverbooked(max: nat, events: seq<Event>)
    requires PossibleRun(Empty(max), events)
    ensures var c := Run(Empty(max), events);
            forall r :: r in c.pool ==> r in c.dists && c.dists[r].listenerCount == |Users(c, r)| <= max
  {
    RunKeepsSound(Empty(max), events);
    RunKeepsMax(Empty(max), events);
    var c := Run(Empty(max), events);
    forall r | r in c.pool ensures r in c.dists { assert Pooled(c, r); }
  }

  lemma {:induction false} RunKeepsMax(c: Cluster, events: seq<Event>)
    requires PossibleRun(c, events)
    ensures Run(c, events).max == c.max
    decreases |events|
  {
    if events != [] { RunKeepsMax(Step(c, events[0]), events[1..]); }
  }

  // ----- who is a source -----

  /** p has registered in this run, and its transport has not closed since. */
  ghost predicate StillRegistered(events: seq<Event>, p: Producer) {
    exists i :: RegisteredAt(events, p, i)
  }

  ghost predicate RegisteredAt(events: seq<Event>, p: Producer, i: int) {
    0 <= i < |events| && events[i] == RegisterEvent(p)
    && forall j :: i < j < |events| ==> events[j] != SourceCloses(p)
  }

  /** A registration adds its producer and no other, behind all present ones unless it is there already; a
      transport close removes its producer and no other; nothing else changes the sources. */
  lemma SourcesAfter(c: Cluster, e: Event)
    requires StampsFresh(c) && Possible(c, e)
    ensures var c' := Step(c, e);
            && (forall p :: p in c'.sources <==> e == RegisterEvent(p) || (p in c.sources && e != SourceCloses(p)))
            && (forall p :: p in c'.sources && p in c.sources ==> c'.sources[p] == c.sources[p])
            && (forall p, q :: p in c'.sources && p !in c.sources && q in c.sources ==> c.sources[q] < c'.sources[p])
  {
    match e
    case JoinEvent(j) => assert Step(c, e).sources == c.sources;
    case ResumeEvent(j) => assert Step(c, e).sources == c.sources;
    case TransportFails(j) => assert Step(c, e).sources == c.sources;
    case TransportCloses(j) => assert Step(c, e).sources == c.sources;
    case _ =>
  }

  lemma {:induction false} SourcesOverRun(c: Cluster, events: seq<Event>, p: Producer)
    requires Sound(c) && PossibleRun(c, events)
    ensures p in Run(c, events).sources
            <==> StillRegistered(events, p) || (p in c.sources && SourceCloses(p) !in events)
    decreases |events|
  {
    if events != [] {
      var e, rest := events[0], events[1..];
      SourcesAfter(c, e);
      StepKeepsSound(c, e);
      SourcesOverRun(Step(c, e), rest, p);
      RegisteredShifts(events, p);
      assert events == [e] + rest;
    }
  }

  lemma RegisteredShifts(events: seq<Event>, p: Producer)
    requires events != []
    ensures StillRegistered(events, p)
            <==> StillRegistered(events[1..], p) || (events[0] == RegisterEvent(p) && SourceCloses(p) !in events[1..])
  {
    var rest := events[1..];
    if i :| RegisteredAt(events, p, i) {
      if i > 0 {
        assert rest[i - 1] == events[i];
        forall j | i - 1 < j < |rest| ensures rest[j] != SourceCloses(p) { assert rest[j] == events[j + 1]; }
        assert RegisteredAt(rest, p, i - 1);
      } else {
        forall j | 0 <= j < |rest| ensures rest[j] != SourceCloses(p) { assert rest[j] == events[j + 1]; }
      }
    }
    if i :| RegisteredAt(rest, p, i) {
      forall j | i + 1 < j < |events| ensures events[j] != SourceCloses(p) { assert events[j] == rest[j - 1]; }
      assert RegisteredAt(events, p, i + 1);
    }
    if events[0] == RegisterEvent(p) && SourceCloses(p) !in rest {
      forall j | 0 < j < |events| ensures events[j] != SourceCloses(p) { assert events[j] == rest[j - 1]; }
      assert RegisteredAt(events, p, 0);
    }
  }

  /** Over every run the sources are exactly the producers registered and not closed since. */
  lemma SourcesAreRegistered(max: nat, events: seq<Event>, p: Producer)
    requires PossibleRun(Empty(max), events)
    ensures p in Run(Empty(max), events).sources <==> StillRegistered(events, p)
  {
    SourcesOverRun(Empty(max), events, p);
  }

  /** Main result: whoever registered and has not closed since reaches every pooled router, or its pipe to it
      is on the way. */
  lemma NoSpeakerIsMissing(max: nat, events: seq<Event>)
    requires PossibleRun(Empty(max), events)
    ensures var c := Run(Empty(max), events);
            forall r, p :: r in c.pool && StillRegistered(events, p) ==>
              r in c.dists && (p in c.dists[r].piped || (p, r) in c.pipes)
  {
    RunKeepsSound(Empty(max), events);
    var c := Run(Empty(max), events);
    forall r, p | r in c.pool && StillRegistered(events, p)
      ensures r in c.dists && (p in c.dists[r].piped || (p, r) in c.pipes)
    {
      assert Pooled(c, r);
      SourcesAreRegistered(max, events, p);
    }
  }

  /** A pipe that finishes delivers its producer to its router, and is the only thing that changes. */
  lemma FinishedPipeDelivers(c: Cluster, p: Producer, r: RouterId)
    requires Possible(c, PipeDone(p, r))
    ensures var c' := Step(c, PipeDone(p, r));
            && p in c'.dists[r].piped && (p, r) !in c'.pipes && c.pipes == c'.pipes + {(p, r)}
            && c'.joins == c.joins && c'.pool == c.pool && c'.creation == c.creation
  {
  }

  // ----- listeners, step by step -----

  /** A listener takes the first pooled router with room; only if there is none it waits, for the router under
      construction if there is one and else for a new one. Other listeners are left alone. */
  lemma JoinAnswers(c: Cluster, j: JoinId)
    requires Sound(c) && Possible(c, JoinEvent(j))
    ensures var c' := Step(c, JoinEvent(j));
            && c'.joins.Keys == c.joins.Keys + {j} && (forall i :: i in c.joins ==> c'.joins[i] == c.joins[i])
            && (AllFull(c) <==> c'.joins[j].Waiting?)
            && (AllFull(c) ==> c'.joins[j] == Waiting(if c.creation.Some? then c.creation.value.router else c.nextRouter))
            && (AllFull(c) && c.creation.Some? ==> c'.creation == c.creation)
            && (!AllFull(c) ==> exists k :: 0 <= k < |c.pool| && c'.joins[j] == Reserved(c.pool[k])
                                  && forall i :: 0 <= i < k ==> !HasRoom(c, c.pool[i]))
  {
    var k := FirstWithRoom(c, 0);
    if k == |c.pool| { FullWhenNoneHasRoom(c); } else { assert HasRoom(c, c.pool[k]); }
  }

  /** A transport that opens can close, and closing frees its slot; one that fails frees it at once. */
  lemma TransportFreesItsSlot(c: Cluster, j: JoinId)
    requires Sound(c) && Possible(c, TransportOpens(j))
    ensures var after := Step(c, TransportOpens(j));
            && after == c.(joins := after.joins) && after.joins == c.joins[j := Open(c.joins[j].router)]
            && Possible(after, TransportCloses(j)) && Possible(c, TransportFails(j))
            && Step(after, TransportCloses(j)).joins == c.joins - {j}
            && Step(c, TransportFails(j)).joins == c.joins - {j}
            && Step(after, TransportCloses(j)).dists == Step(c, TransportFails(j)).dists
            && HasRoom(Step(c, TransportFails(j)), c.joins[j].router)
  {
    var r := c.joins[j].router;
    assert j in Users(c, r);
    var after := Step(c, TransportOpens(j));
    assert after.joins - {j} == c.joins - {j};
    GiveBackIsExact(c, j);
  }

  /** A construction that fails rejects exactly those who wait for it, and lets a new one begin. */
  lemma FailureRejectsItsWaiters(c: Cluster)
    requires Possible(c, CreationFails)
    ensures var c' := Step(c, CreationFails);
            && (forall j :: j in c'.joins <==> j in c.joins && c.joins[j] != Waiting(c.creation.value.router))
            && (forall j :: j in c'.joins ==> c'.joins[j] == c.joins[j])
            && c'.creation.None? && c'.dists == c.dists && c'.pool == c.pool && c'.pipes == c.pipes
  {
  }

  /** The sources the iteration still has to reach. */
  function Ahead(c: Cluster, pos: nat): set<Producer> {
    set p | p in c.sources && pos < c.sources[p]
  }

  /** Every step of a construction pipes a source further on, leaving fewer ahead, or pushes the router with
      all it piped; the promise is then cleared. */
  lemma CreationAdvances(c: Cluster, e: Event)
    requires Sound(c) && Possible(c, e) && (e.RouterReady? || e.CreationPiped?)
    ensures var cr, c' := c.creation.value, Step(c, e);
            var pos := if cr.Piping? then cr.pos else 0;
            var piped := if cr.Piping? then cr.piped + {cr.current} else {};
            && c'.creation.Some? && c'.creation.value.router == cr.router
            && (if e.next.Some? then
                  c'.creation.value.Piping? && c'.creation.value.piped == piped
                  && c'.creation.value.current == e.next.value && e.next.value in Ahead(c, pos)
                  && Ahead(c', c'.creation.value.pos) < Ahead(c, pos)
                else
                  c'.creation.value.Pushed? && c'.pool == c.pool + [cr.router] && Ahead(c, pos) == {}
                  && c'.dists[cr.router] == Dist(0, piped))
    ensures Possible(Step(c, e), CreationSettles) ==> Step(Step(c, e), CreationSettles).creation.None?
  {
    var cr, c' := c.creation.value, Step(c, e);
    var pos := if cr.Piping? then cr.pos else 0;
    if e.next.Some? {
      var next := e.next.value;
      assert next in Ahead(c, pos) && next !in Ahead(c, c.sources[next]);
      forall p | p in Ahead(c, c.sources[next]) ensures p in Ahead(c, pos) { }
      assert Ahead(c', c'.creation.value.pos) == Ahead(c, c.sources[next]);
    } else {
      forall p | p in c.sources ensures p !in Ahead(c, pos) { }
      assert Ahead(c, pos) == {};
    }
  }

  /** A step starts building a router only when none is being built and every pooled one is full. */
  lemma BuildsOnlyWhenFull(c: Cluster, e: Event)
    requires Sound(c) && Possible(c, e)
    requires Step(c, e).nextRouter != c.nextRouter
    ensures c.creation.None? && Step(c, e).creation == Some(Initializing(c.nextRouter))
    ensures forall r :: r in c.pool ==> r in c.dists && c.dists[r].listenerCount == c.max
  {
    forall i | 0 <= i < |c.pool| ensures c.pool[i] in c.dists && !HasRoom(c, c.pool[i]) {
      assert Pooled(c, c.pool[i]);
    }
  }

  /** The live iteration always yields a next source or its end. */
  lemma NextExists(c: Cluster, pos: nat) returns (next: Option<Producer>)
    ensures IsNext(c, pos, next)
  {
    next := None;
    var rest := c.sources.Keys;
    while rest != {}
      invariant rest <= c.sources.Keys
      invariant next.Some? ==>
        next.value in c.sources && pos < c.sources[next.value]
        && forall q :: q in c.sources && q !in rest && pos < c.sources[q] ==> c.sources[next.value] <= c.sources[q]
      invariant next.None? ==> forall q :: q in c.sources && q !in rest ==> c.sources[q] <= pos
      decreases |rest|
    {
      var p := Pick(rest);
      if pos < c.sources[p] && (next.None? || c.sources[p] < c.sources[next.value]) { next := Some(p); }
      rest := rest - {p};
    }
  }

  /** A router under construction can always take its next step towards the pool. */
  lemma CreationCanGoOn(c: Cluster) returns (e: Event)
    requires c.creation.Some?
    ensures Possible(c, e) && (e.RouterReady? || e.CreationPiped? || e.CreationSettles?)
  {
    match c.creation.value
    case Initializing(_) =>
      var next := NextExists(c, 0);
      e := RouterReady(next);
    case Piping(_, pos, _, _) =>
      var next := NextExists(c, pos);
      e := CreationPiped(next);
    case Pushed(_) => e := CreationSettles;
  }

  ghost predicate AllFull(c: Cluster) {
    forall r :: r in c.dists ==> c.dists[r].listenerCount == |Users(c, r)| == c.max
  }

  lemma FullWhenNoneHasRoom(c: Cluster)
    requires Sound(c) && FirstWithRoom(c, 0) == |c.pool|
    ensures AllFull(c)
  {
    forall r | r in c.dists ensures c.dists[r].listenerCount == c.max {
      assert Pooled(c, r);
      var i :| 0 <= i < |c.pool| && c.pool[i] == r;
      assert !HasRoom(c, c.pool[i]);
    }
  }

  /** A listener that waits gets on: while its router is being built the construction can take a step; after
      that the listener can resume, and it then gets a slot, unless others have filled every pooled router,
      the awaited one included, in which case it waits for one more to be built. */
  lemma WaiterCanGoOn(c: Cluster, j: JoinId)
    requires Sound(c) && j in c.joins && c.joins[j].Waiting?
    ensures !Possible(c, ResumeEvent(j)) ==>
      c.creation.Some? && c.creation.value.router == c.joins[j].router
      && exists e: Event :: Possible(c, e) && (e.RouterReady? || e.CreationPiped? || e.CreationSettles?)
    ensures Possible(c, ResumeEvent(j)) ==>
      var c' := Step(c, ResumeEvent(j));
      && c.joins[j].router in c.dists && j in c'.joins
      && c'.joins.Keys == c.joins.Keys && (forall i :: i in c.joins && i != j ==> c'.joins[i] == c.joins[i])
      && (c'.joins[j].Waiting? <==> AllFull(c))
      && (c'.joins[j].Waiting? ==> c'.creation.Some? && c'.creation.value.router == c'.joins[j].router)
      && (!c'.joins[j].Waiting? ==>
            c'.joins[j].Reserved? && HasRoom(c, c'.joins[j].router)
            && c'.dists[c'.joins[j].router].listenerCount == c.dists[c'.joins[j].router].listenerCount + 1)
  {
    if !Possible(c, ResumeEvent(j)) {
      var e := CreationCanGoOn(c);
    } else if FirstWithRoom(c, 0) == |c.pool| {
      FullWhenNoneHasRoom(c);
    }
  }
}
