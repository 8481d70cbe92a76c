/** RoomMediaCluster as an object: each method is one stretch of code between two awaits and changes the
    fields the way the cluster model's step does. */
module RoomMediaCluster {
  import opened Redis
  import opened MediaCluster

  class MediaRoom {
    const max: nat
    var dists: map<RouterId, Dist>
    var pool: seq<RouterId>
    var creation: Option<Creation>
    var nextRouter: RouterId
    var joins: map<JoinId, Join>
    var sources: map<Producer, nat>
    var nextStamp: nat
    var pipes: set<(Producer, RouterId)>

    ghost function View(): Cluster
      reads this
    {
      Cluster(max, dists, pool, creation, nextRouter, joins, sources, nextStamp, pipes)
    }

    constructor (max: nat)
      ensures View() == Empty(max)
    {
      this.max := max;
      dists, pool, creation, nextRouter, joins := map[], [], None, 0, map[];
      sources, nextStamp, pipes := map[], 1, {};
    }

    method ReserveSlot(j: JoinId, r: RouterId)
      requires r in dists
      modifies this
      ensures View() == Reserve(old(View()), j, r)
    {
      dists := dists[r := dists[r].(listenerCount := dists[r].listenerCount + 1)];
      joins := joins[j := Reserved(r)];
    }

    /** getOrCreateDistributionRouter: scan the pool, else coalesce on the pending creation. */
    method GetOrCreateRouter(j: JoinId)
      modifies this
      ensures View() == GetOrCreate(old(View()), j)
    {
      for k := 0 to |pool|
        invariant View() == old(View())
        invariant FirstWithRoom(View(), 0) == FirstWithRoom(View(), k)
      {
        if pool[k] in dists && dists[pool[k]].listenerCount < max {
          ReserveSlot(j, pool[k]);
          return;
        }
      }
      if creation.None? {
        creation := Some(Initializing(nextRouter));
        nextRouter := nextRouter + 1;
      }
      joins := joins[j := Waiting(creation.value.router)];
    }

    /** The awaited creation has resolved: re-check its capacity, else start over. */
    method ResumeJoin(j: JoinId)
      requires Possible(View(), ResumeEvent(j))
      modifies this
      ensures View() == Step(old(View()), ResumeEvent(j))
    {
      var created := joins[j].router;
      if created in dists && dists[created].listenerCount < max {
        ReserveSlot(j, created);
      } else {
        GetOrCreateRouter(j);
      }
    }

    method TransportOpened(j: JoinId)
      requires Possible(View(), TransportOpens(j))
      modifies this
      ensures View() == Step(old(View()), TransportOpens(j))
    {
      joins := joins[j := Open(joins[j].router)];
    }

    /** Transport creation failed, or the transport closed: listenerCount = max(0, listenerCount - 1). */
    method ReleaseSlot(j: JoinId)
      requires j in joins && !joins[j].Waiting?
      modifies this
      ensures View() == GiveBack(old(View()), j, old(joins)[j].router)
    {
      var r := joins[j].router;
      joins := joins - {j};
      if r in dists {
        var left := dists[r].listenerCount - 1;
        dists := dists[r := dists[r].(listenerCount := if left < 0 then 0 else left)];
      }
    }

    /** One turn of the live iteration: the member inserted next after stamp `pos`. */
    method NextSource(pos: nat) returns (next: Option<Producer>)
      ensures IsNext(View(), pos, next)
    {
      next := None;
      var rest := sources.Keys;
      while rest != {}
        invariant rest <= sources.Keys
        invariant next.Some? ==>
          next.value in sources && pos < sources[next.value]
          && forall q :: q in sources && q !in rest && pos < sources[q] ==> sources[next.value] <= sources[q]
        invariant next.None? ==> forall q :: q in sources && q !in rest ==> sources[q] <= pos
        decreases |rest|
      {
        var p := AnyOf(rest);
        if pos < sources[p] && (next.None? || sources[p] < sources[next.value]) {
          next := Some(p);
        }
        rest := rest - {p};
      }
    }

    /** createDistributionRouter after initialize, or after one more pipe: pipe the next source, or push
        the finished router. Returns the choice the iteration made. */
    method ContinueCreation() returns (next: Option<Producer>)
      requires creation.Some? && !creation.value.Pushed?
      modifies this
      ensures var e := if old(creation).value.Initializing? then RouterReady(next) else CreationPiped(next);
              Possible(old(View()), e) && View() == Step(old(View()), e)
    {
      var r := creation.value.router;
      var pos := if creation.value.Initializing? then 0 else creation.value.pos;
      var piped := if creation.value.Initializing? then {} else creation.value.piped + {creation.value.current};
      next := NextSource(pos);
      if next.Some? {
        creation := Some(Piping(r, sources[next.value], next.value, piped));
      } else {
        pool := pool + [r];
        dists := dists[r := Dist(0, piped)];
        creation := Some(Pushed(r));
      }
    }

    /** Creation failed: the router is torn down and everybody who awaited it gets the error. */
    method FailCreation()
      requires Possible(View(), CreationFails)
      modifies this
      ensures View() == Step(old(View()), CreationFails)
    {
      var r := creation.value.router;
      creation := None;
      joins := map j | j in joins && joins[j] != Waiting(r) :: joins[j];
    }

    method SettleCreation()
      requires Possible(View(), CreationSettles)
      modifies this
      ensures View() == Step(old(View()), CreationSettles)
    {
      creation := None;
    }

    /** registerProducer up to its await: join the source set, then start a pipe to every pooled router. */
    method RegisterProducer(p: Producer)
      modifies this
      ensures View() == Register(old(View()), p)
    {
      if p !in sources { sources := sources[p := nextStamp]; }
      nextStamp := nextStamp + 1;
      ghost var before := pipes;
      for k := 0 to |pool|
        invariant View() == Register(old(View()), p).(pipes := pipes)
        invariant pipes == before + set i | 0 <= i < k :: (p, pool[i])
      {
        pipes := pipes + {(p, pool[k])};
      }
    }

    method FinishPipe(p: Producer, r: RouterId)
      requires Possible(View(), PipeDone(p, r))
      modifies this
      ensures View() == Step(old(View()), PipeDone(p, r))
    {
      pipes := pipes - {(p, r)};
      dists := dists[r := dists[r].(piped := dists[r].piped + {p})];
    }

    method SourceTransportClosed(p: Producer)
      modifies this
      ensures View() == Step(old(View()), SourceCloses(p))
    {
      sources := sources - {p};
    }
  }
}
