/** One room's media cluster (roomMediaCluster.ts) between awaits: listeners reserve slots on pooled
    distribution routers, one router at a time is built, and source producers are piped to all of them. */
module MediaCluster {
  import opened Redis

  type RouterId = nat
  type Producer = int
  type JoinId = nat

  datatype Dist = Dist(listenerCount: int, piped: set<Producer>)

  /** A listener waits for a router under construction, has a slot reserved, or has its transport open. */
  datatype Join = Waiting(router: RouterId) | Reserved(router: RouterId) | Open(router: RouterId)

  /** The router in pendingDistRouter: not yet piping; piping `current`, having gone through the source
      set up to stamp `pos`; or already pushed to the pool, with the promise about to be cleared. */
  datatype Creation =
    | Initializing(router: RouterId)
    | Piping(router: RouterId, pos: nat, current: Producer, piped: set<Producer>)
    | Pushed(router: RouterId)

  /** `sources` is the insertion-ordered Set: each member carries the stamp of its insertion. */
  datatype Cluster = Cluster(
    max: nat,
    dists: map<RouterId, Dist>, pool: seq<RouterId>,
    creation: Option<Creation>, nextRouter: RouterId,
    joins: map<JoinId, Join>,
    sources: map<Producer, nat>, nextStamp: nat,
    pipes: set<(Producer, RouterId)>)

  datatype Event =
    | JoinEvent(j: JoinId)
    | ResumeEvent(j: JoinId)
    | TransportOpens(j: JoinId)
    | TransportFails(j: JoinId)
    | TransportCloses(j: JoinId)
    | RouterReady(next: Option<Producer>)
    | CreationPiped(next: Option<Producer>)
    | CreationFails
    | CreationSettles
    | RegisterEvent(p: Producer)
    | PipeDone(p: Producer, router: RouterId)
    | SourceCloses(p: Producer)

  // ----- listener slots -----

  /** The place in the pool of the first router with a free slot, or |pool|. */
  function FirstWithRoom(c: Cluster, from: nat): (k: nat)
    requires from <= |c.pool|
    decreases |c.pool| - from
    ensures from <= k <= |c.pool|
    ensures forall i :: from <= i < k ==> !HasRoom(c, c.pool[i])
    ensures k < |c.pool| ==> HasRoom(c, c.pool[k])
  {
    if from == |c.pool| || HasRoom(c, c.pool[from]) then from else FirstWithRoom(c, from + 1)
  }

  predicate HasRoom(c: Cluster, r: RouterId) {
    r in c.dists && c.dists[r].listenerCount < c.max
  }

  function Reserve(c: Cluster, j: JoinId, r: RouterId): Cluster {
    if r !in c.dists then c
    else c.(dists := c.dists[r := c.dists[r].(listenerCount := c.dists[r].listenerCount + 1)],
            joins := c.joins[j := Reserved(r)])
  }

  /** With the clamp at zero of the source, which in a sound cluster never bites. */
  function GiveBack(c: Cluster, j: JoinId, r: RouterId): Cluster {
    var c' := c.(joins := c.joins - {j});
    if r !in c.dists then c'
    else
      var left := c.dists[r].listenerCount - 1;
      c'.(dists := c.dists[r := c.dists[r].(listenerCount := if left < 0 then 0 else left)])
  }

  /** getOrCreateDistributionRouter up to its await: take a free slot, or wait for the one router being
      built, starting it only when none is. */
  function GetOrCreate(c: Cluster, j: JoinId): Cluster {
    var k := FirstWithRoom(c, 0);
    if k < |c.pool| then Reserve(c, j, c.pool[k])
    else if c.creation.Some? then c.(joins := c.joins[j := Waiting(c.creation.value.router)])
    else c.(creation := Some(Initializing(c.nextRouter)), nextRouter := c.nextRouter + 1,
            joins := c.joins[j := Waiting(c.nextRouter)])
  }

  // ----- pipes -----

  /** next is what the live iteration over the source set yields after stamp pos. */
  predicate IsNext(c: Cluster, pos: nat, next: Option<Producer>) {
    if next.None? then forall p :: p in c.sources ==> c.sources[p] <= pos
    else
      && next.value in c.sources && pos < c.sources[next.value]
      && forall q :: q in c.sources && pos < c.sources[q] ==> c.sources[next.value] <= c.sources[q]
  }

  /** Go on with the next source, or, in the same breath as the loop ends, push the router. */
  function Proceed(c: Cluster, r: RouterId, piped: set<Producer>, next: Option<Producer>): Cluster {
    if next.Some? && next.value in c.sources
    then c.(creation := Some(Piping(r, c.sources[next.value], next.value, piped)))
    else c.(creation := Some(Pushed(r)), pool := c.pool + [r], dists := c.dists[r := Dist(0, piped)])
  }

  function Register(c: Cluster, p: Producer): Cluster {
    c.(sources := if p in c.sources then c.sources else c.sources[p := c.nextStamp],
       nextStamp := c.nextStamp + 1,
       pipes := c.pipes + set i | 0 <= i < |c.pool| :: (p, c.pool[i]))
  }

  // ----- steps -----

  predicate Possible(c: Cluster, e: Event) {
    match e
    case JoinEvent(j) => j !in c.joins
    case ResumeEvent(j) =>
      j in c.joins && c.joins[j].Waiting?
      && (c.creation.Some? ==> c.creation.value.router != c.joins[j].router)
    case TransportOpens(j) => j in c.joins && c.joins[j].Reserved?
    case TransportFails(j) => j in c.joins && c.joins[j].Reserved?
    case TransportCloses(j) => j in c.joins && c.joins[j].Open?
    case RouterReady(next) => c.creation.Some? && c.creation.value.Initializing? && IsNext(c, 0, next)
    case CreationPiped(next) =>
      c.creation.Some? && c.creation.value.Piping? && IsNext(c, c.creation.value.pos, next)
    case CreationFails => c.creation.Some? && !c.creation.value.Pushed?
    case CreationSettles => c.creation.Some? && c.creation.value.Pushed?
    case PipeDone(p, r) => (p, r) in c.pipes && r in c.dists
    case _ => true
  }

  function Step(c: Cluster, e: Event): Cluster
    requires Possible(c, e)
  {
    match e
    case JoinEvent(j) => GetOrCreate(c, j)
    case ResumeEvent(j) =>
      if HasRoom(c, c.joins[j].router) then Reserve(c, j, c.joins[j].router) else GetOrCreate(c, j)
    case TransportOpens(j) => c.(joins := c.joins[j := Open(c.joins[j].router)])
    case TransportFails(j) => GiveBack(c, j, c.joins[j].router)
    case TransportCloses(j) => GiveBack(c, j, c.joins[j].router)
    case RouterReady(next) => Proceed(c, c.creation.value.router, {}, next)
    case CreationPiped(next) =>
      Proceed(c, c.creation.value.router, c.creation.value.piped + {c.creation.value.current}, next)
    case CreationFails =>
      var r := c.creation.value.router;
      c.(creation := None, joins := map j | j in c.joins && c.joins[j] != Waiting(r) :: c.joins[j])
    case CreationSettles => c.(creation := None)
    case RegisterEvent(p) => Register(c, p)
    case PipeDone(p, r) =>
      c.(pipes := c.pipes - {(p, r)}, dists := c.dists[r := c.dists[r].(piped := c.dists[r].piped + {p})])
    case SourceCloses(p) => c.(sources := c.sources - {p})
  }

  predicate PossibleRun(c: Cluster, events: seq<Event>)
    decreases |events|
  {
    events == [] || (Possible(c, events[0]) && PossibleRun(Step(c, events[0]), events[1..]))
  }

  function Run(c: Cluster, events: seq<Event>): Cluster
    requires PossibleRun(c, events)
    decreases |events|
  {
    if events == [] then c else Run(Step(c, events[0]), events[1..])
  }

  function Empty(max: nat): Cluster {
    Cluster(max, map[], [], None, 0, map[], map[], 1, {})
  }
}
