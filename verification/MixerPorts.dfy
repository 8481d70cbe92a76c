/** The instance-wide UDP port pool (mixer-port-registry.ts) and the mixers of many broadcast rooms that
    share it (speaker-mixer.ts), with adds interleaving at their awaits. */
module MixerPorts {
  import opened Redis

  const PORT_STEP: int := 2

  type RoomId = int
  type Producer = int

  // ----- the allocator -----

  /** The search of allocate() from a candidate on; the base itself is taken without a range check. */
  function Probe(used: set<int>, port: int, maxPort: int): Option<int>
    decreases if port < maxPort then maxPort - port else 0
  {
    if port !in used then Some(port)
    else if maxPort <= port + PORT_STEP then None
    else Probe(used, port + PORT_STEP, maxPort)
  }

  predicate Candidate(port: int, basePort: int, maxPort: int) {
    basePort <= port && (port - basePort) % PORT_STEP == 0 && (port == basePort || port < maxPort)
  }

  /** The lowest free stepped port, or nothing exactly when the whole range is taken. */
  lemma {:induction false} ProbeFindsLowestFree(used: set<int>, basePort: int, maxPort: int)
    ensures var found := Probe(used, basePort, maxPort);
            && (found.Some? ==>
                  && Candidate(found.value, basePort, maxPort) && found.value !in used
                  && forall p :: Candidate(p, basePort, maxPort) && p < found.value ==> p in used)
            && (found.None? <==> forall p :: Candidate(p, basePort, maxPort) ==> p in used)
    decreases if basePort < maxPort then maxPort - basePort else 0
  {
    var found := Probe(used, basePort, maxPort);
    assert Candidate(basePort, basePort, maxPort);
    if basePort in used && basePort + PORT_STEP < maxPort {
      ProbeFindsLowestFree(used, basePort + PORT_STEP, maxPort);
      forall p | Candidate(p, basePort, maxPort) && p != basePort
        ensures Candidate(p, basePort + PORT_STEP, maxPort)
      {
      }
      forall p | Candidate(p, basePort + PORT_STEP, maxPort)
        ensures Candidate(p, basePort, maxPort)
      {
      }
    }
  }

  class MixerPortRegistry {
    const basePort: int
    const maxPort: int
    var usedPorts: set<int>

    constructor (basePort: int, maxPort: int)
      ensures this.basePort == basePort && this.maxPort == maxPort && usedPorts == {}
    {
      this.basePort, this.maxPort, usedPorts := basePort, maxPort, {};
    }

    /** None stands for MixerPortsExhaustedError. */
    method Allocate() returns (port: Option<int>)
      modifies this
      ensures port == Probe(old(usedPorts), basePort, maxPort)
      ensures usedPorts == if port.Some? then old(usedPorts) + {port.value} else old(usedPorts)
    {
      var candidate := basePort;
      while candidate in usedPorts
        invariant usedPorts == old(usedPorts)
        invariant Probe(usedPorts, candidate, maxPort) == Probe(usedPorts, basePort, maxPort)
        decreases if candidate < maxPort then maxPort - candidate else 0
      {
        if candidate + PORT_STEP >= maxPort { return None; }
        candidate := candidate + PORT_STEP;
      }
      usedPorts := usedPorts + {candidate};
      port := Some(candidate);
    }

    method Release(port: int)
      modifies this
      ensures usedPorts == old(usedPorts) - {port}
    {
      usedPorts := usedPorts - {port};
    }
  }

  /** The mixer of one room; `connects` says for which producers opening the transport succeeds. */
  class SpeakerMixer {
    const registry: MixerPortRegistry
    var entries: map<Producer, int>

    constructor (registry: MixerPortRegistry)
      ensures this.registry == registry && entries == map[]
    {
      this.registry, entries := registry, map[];
    }

    ghost predicate Valid()
      reads this, registry
    {
      && (forall p :: p in entries ==> entries[p] in registry.usedPorts)
      && (forall p, q :: p in entries && q in entries && entries[p] == entries[q] ==> p == q)
    }

    /** The ports that other rooms' mixers hold. */
    ghost function Foreign(): set<int>
      reads this, registry
    {
      registry.usedPorts - entries.Values
    }

    /** Every port of the range is taken, by this room or another. */
    ghost predicate Exhausted()
      reads registry
    {
      forall port :: Candidate(port, registry.basePort, registry.maxPort) ==> port in registry.usedPorts
    }

    method Add(producer: Producer, connects: bool) returns (added: Option<bool>)
      requires Valid() && producer !in entries
      modifies this`entries, registry
      ensures Valid() && Foreign() == old(Foreign())
      ensures added.None? <==> Probe(old(registry.usedPorts), registry.basePort, registry.maxPort).None?
      ensures added.None? <==> old(Exhausted())
      ensures added == Some(true) ==> entries.Keys == old(entries.Keys) + {producer}
      ensures added == Some(true) ==>
        Candidate(entries[producer], registry.basePort, registry.maxPort) && entries[producer] !in old(registry.usedPorts)
        && forall port :: Candidate(port, registry.basePort, registry.maxPort) && port < entries[producer] ==>
             port in old(registry.usedPorts)
      ensures added != Some(true) ==> entries == old(entries) && registry.usedPorts == old(registry.usedPorts)
      ensures added.Some? ==> added.value == connects
      ensures forall p :: p in old(entries) ==> p in entries && entries[p] == old(entries)[p]
    {
      ProbeFindsLowestFree(registry.usedPorts, registry.basePort, registry.maxPort);
      var port := registry.Allocate();
      if port.None? { return None; }
      if !connects {
        registry.Release(port.value);
        return Some(false);
      }
      ghost var before := entries;
      entries := entries[producer := port.value];
      assert entries.Values == before.Values + {port.value} by {
        assert entries[producer] == port.value;
        forall p | p in before ensures before[p] in entries.Values { assert entries[p] == before[p]; }
      }
      added := Some(true);
    }

    method Remove(producer: Producer)
      requires Valid()
      modifies this`entries, registry
      ensures Valid() && Foreign() == old(Foreign())
      ensures entries == old(entries) - {producer}
    {
      if producer !in entries { return; }
      var port := entries[producer];
      registry.Release(port);
      ghost var before := entries;
      entries := map p | p in entries && p != producer :: entries[p];
      assert before.Values == entries.Values + {port} by {
        assert before[producer] == port;
        forall p | p in before && p != producer ensures before[p] in entries.Values { assert entries[p] == before[p]; }
        forall p | p in entries ensures entries[p] in before.Values { assert before[p] == entries[p]; }
      }
      assert port !in entries.Values;
    }

    /** Remove the producers that left. */
    method RemoveLeavers(producerIds: seq<Producer>) returns (removed: bool)
      requires Valid()
      modifies this`entries, registry
      ensures Valid() && Foreign() == old(Foreign())
      ensures entries == map p | p in old(entries) && p in producerIds :: old(entries)[p]
      ensures removed == (entries.Keys != old(entries.Keys))
    {
      removed := false;
      ghost var before := entries;
      var leaving := set p | p in entries && p !in producerIds;
      while leaving != {}
        invariant Valid() && Foreign() == old(Foreign())
        invariant forall p :: p in leaving ==> p in entries && p !in producerIds
        invariant entries == map p | p in before && (p in producerIds || p in leaving) :: before[p]
        invariant removed == (entries.Keys != before.Keys)
        decreases |leaving|
      {
        var p := AnyOf(leaving);
        Remove(p);
        leaving := leaving - {p};
        removed := true;
        assert p in before.Keys && p !in entries.Keys;
      }
    }

    /** The m-th producer asked for found the pool exhausted; those ahead of it that could connect are in. */
    ghost predicate FailedAt(producerIds: seq<Producer>, connects: Producer -> bool, m: nat)
      reads this, registry
    {
      && m < |producerIds| && producerIds[m] !in entries && Exhausted()
      && forall i :: 0 <= i < m && connects(producerIds[i]) ==> producerIds[i] in entries
    }

    /** Add the producers that joined. None: the port pool is exhausted. */
    method AddJoiners(producerIds: seq<Producer>, connects: Producer -> bool) returns (grown: Option<bool>)
      requires Valid()
      modifies this`entries, registry
      ensures Valid() && Foreign() == old(Foreign())
      ensures forall p :: p in old(entries) ==> p in entries && entries[p] == old(entries)[p]
      ensures forall p :: p in entries ==> p in old(entries) || (p in producerIds && connects(p))
      ensures grown.None? ==> exists m :: FailedAt(producerIds, connects, m)
      ensures grown.Some? ==> forall p :: p in producerIds && connects(p) ==> p in entries
      ensures grown.Some? ==> grown.value == (entries.Keys != old(entries.Keys))
    {
      var flag := false;
      for k := 0 to |producerIds|
        invariant Valid() && Foreign() == old(Foreign())
        invariant forall p :: p in old(entries) ==> p in entries && entries[p] == old(entries)[p]
        invariant forall p :: p in entries ==> p in old(entries) || (p in producerIds && connects(p))
        invariant forall i :: 0 <= i < k && connects(producerIds[i]) ==> producerIds[i] in entries
        invariant flag == (entries.Keys != old(entries.Keys))
      {
        var p := producerIds[k];
        if p !in entries {
          var added := Add(p, connects(p));
          if added.None? {
            assert FailedAt(producerIds, connects, k);
            return None;
          }
          if added.value {
            flag := true;
            assert p in entries.Keys && p !in old(entries.Keys);
          }
        }
      }
      grown := Some(flag);
    }

    /** Reconcile the mix to producerIds; true exactly when the mixed set changed. Other rooms' ports and
        the ports of staying producers are left alone. None: the port pool was exhausted on the way. */
    method Sync(producerIds: seq<Producer>, connects: Producer -> bool) returns (changed: Option<bool>)
      requires Valid()
      modifies this`entries, registry
      ensures Valid() && Foreign() == old(Foreign())
      ensures changed.Some? ==>
        changed.value == (entries.Keys != old(entries.Keys))
        && forall p :: p in entries <==> p in producerIds && (p in old(entries) || connects(p))
      ensures forall p :: p in entries && p in old(entries) ==> entries[p] == old(entries)[p]
      ensures forall p :: p in old(entries) && p in producerIds ==> p in entries
      ensures forall p :: p in entries ==> p in producerIds
      ensures changed.None? ==> exists m :: FailedAt(producerIds, connects, m)
    {
      ghost var before := entries;
      var removed := RemoveLeavers(producerIds);
      ghost var kept := entries;
      var grown := AddJoiners(producerIds, connects);
      if grown.None? { return None; }
      changed := Some(removed || grown.value);
      ghost var desired := set p | p in producerIds;
      assert forall p :: p in kept ==> p in entries;
      assert forall p :: p in entries ==> p in desired;
      SetChanged(before.Keys, kept.Keys, entries.Keys, desired);
    }

    /** Close every transport and free all ports of this room. */
    method Close()
      requires Valid()
      modifies this`entries, registry
      ensures entries == map[] && registry.usedPorts == old(Foreign())
    {
      var left := entries.Keys;
      while left != {}
        invariant Valid() && Foreign() == old(Foreign()) && left == entries.Keys
        decreases |left|
      {
        var p := AnyOf(left);
        Remove(p);
        left := left - {p};
      }
    }
  }

  /** Dropping members outside `desired` and then adding members of it changes the set unless neither
      changed anything. */
  lemma SetChanged<T(!new)>(before: set<T>, kept: set<T>, after: set<T>, desired: set<T>)
    requires forall p :: p in kept <==> p in before && p in desired
    requires forall p :: p in kept ==> p in after
    requires forall p :: p in after ==> p in desired
    ensures after != before <==> kept != before || after != kept
  {
    var gone := before - kept;
    if gone == {} {
      forall p | p in before ensures p in kept { assert p !in gone; }
      assert kept == before;
    } else {
      var p := Pick(gone);
      assert p in before && p !in after;
    }
  }
}
