/** Many rooms' mixers on one port pool. Within a room one operation runs at a time, which BroadcastChain
    derives from the controller's promise chain; across rooms everything interleaves at every await. */
module MixerPool {
  import opened Redis
  import opened MixerPorts

  /** A port held for one producer of one room: by a live entry, or by an add still connecting. */
  datatype Leg = Leg(port: int, live: bool)

  /** A sync in progress: the entries it found, what it aims at, what is left to look at, the add in
      flight, whom it could not connect, and the answer so far. */
  datatype Sync = Sync(before: set<Producer>, desired: set<Producer>, rest: seq<Producer>,
                       adding: Option<Producer>, refused: set<Producer>, changed: bool)

  datatype Pool = Pool(basePort: int, maxPort: int, used: set<int>,
                       legs: map<(RoomId, Producer), Leg>, busy: map<RoomId, Sync>)

  datatype Event =
    | SyncStarts(room: RoomId, producerIds: seq<Producer>)
    | AddStarts(room: RoomId)
    | AddSucceeds(room: RoomId)
    | AddFails(room: RoomId)
    | SyncReturns(room: RoomId)
    | RoomCloses(room: RoomId)

  function Entries(s: Pool, room: RoomId): set<Producer> {
    set k | k in s.legs && k.0 == room && s.legs[k].live :: k.1
  }

  /** Close the transports of these legs and free their ports. */
  function Drop(s: Pool, gone: set<(RoomId, Producer)>): Pool {
    s.(used := s.used - (set k | k in gone && k in s.legs :: s.legs[k].port),
       legs := map k | k in s.legs && k !in gone :: s.legs[k])
  }

  function SetOf(producerIds: seq<Producer>): set<Producer> {
    set p | p in producerIds
  }

  predicate Possible(s: Pool, e: Event) {
    match e
    case SyncStarts(room, _) => room !in s.busy
    case AddStarts(room) => room in s.busy && s.busy[room].adding.None? && s.busy[room].rest != []
    case AddSucceeds(room) => room in s.busy && s.busy[room].adding.Some? && (room, s.busy[room].adding.value) in s.legs
    case AddFails(room) => room in s.busy && s.busy[room].adding.Some? && (room, s.busy[room].adding.value) in s.legs
    case SyncReturns(room) => room in s.busy && s.busy[room].adding.None? && s.busy[room].rest == []
    case RoomCloses(room) => room !in s.busy
  }

  function Step(s: Pool, e: Event): Pool
    requires Possible(s, e)
  {
    match e
    case SyncStarts(room, ids) =>
      var leavers := set k | k in s.legs && k.0 == room && k.1 !in ids;
      Drop(s, leavers).(
        busy := s.busy[room := Sync(Entries(s, room), SetOf(ids), ids, None, {}, leavers != {})])
    case AddStarts(room) =>
      var y := s.busy[room];
      var p := y.rest[0];
      if (room, p) in s.legs then s.(busy := s.busy[room := y.(rest := y.rest[1..])])
      else
        var port := Probe(s.used, s.basePort, s.maxPort);
        if port.None? then s.(busy := s.busy - {room})
        else s.(used := s.used + {port.value},
                legs := s.legs[(room, p) := Leg(port.value, false)],
                busy := s.busy[room := y.(rest := y.rest[1..], adding := Some(p))])
    case AddSucceeds(room) =>
      var y := s.busy[room];
      var k := (room, y.adding.value);
      s.(legs := s.legs[k := s.legs[k].(live := true)],
         busy := s.busy[room := y.(adding := None, changed := true)])
    case AddFails(room) =>
      var y := s.busy[room];
      Drop(s, {(room, y.adding.value)}).(
        busy := s.busy[room := y.(adding := None, refused := y.refused + {y.adding.value})])
    case SyncReturns(room) => s.(busy := s.busy - {room})
    case RoomCloses(room) => Drop(s, set k | k in s.legs && k.0 == room)
  }

  /** Live entries and adds in flight hold pairwise distinct ports, and these are exactly the used ones. */
  ghost predicate PortsExact(s: Pool) {
    && (forall k, l :: k in s.legs && l in s.legs && s.legs[k].port == s.legs[l].port ==> k == l)
    && (forall k :: k in s.legs ==> s.legs[k].port in s.used)
    && (forall port :: port in s.used ==> Held(s, port))
  }

  ghost predicate Held(s: Pool, port: int) {
    exists k :: k in s.legs && s.legs[k].port == port
  }

  /** The leg of an add in flight is the room's only one that is not live. */
  ghost predicate AddsInOrder(s: Pool) {
    && (forall k :: k in s.legs && !s.legs[k].live ==>
          k.0 in s.busy && s.busy[k.0].adding == Some(k.1))
    && (forall room :: room in s.busy && s.busy[room].adding.Some? ==>
          (room, s.busy[room].adding.value) in s.legs && !s.legs[(room, s.busy[room].adding.value)].live
          && s.busy[room].adding.value in s.busy[room].desired)
    && (forall room, p :: room in s.busy && p in s.busy[room].rest ==> p in s.busy[room].desired)
  }

  /** The flag of a sync says whether the room's live set differs from the one it found. */
  ghost predicate FlagTrue(s: Pool, room: RoomId)
    requires room in s.busy
  {
    var y := s.busy[room];
    && (forall p :: p in y.before && p in y.desired ==> p in Entries(s, room))
    && (forall p :: p in Entries(s, room) ==> p in y.desired)
    && y.changed == (Entries(s, room) != y.before)
  }

  /** Whoever a sync aims at is in, still to be looked at, or could not be connected. */
  ghost predicate AllTried(s: Pool, room: RoomId)
    requires room in s.busy
  {
    var y := s.busy[room];
    forall p :: p in y.desired ==> (room, p) in s.legs || p in y.rest || p in y.refused
  }

  ghost predicate NobodySkipped(s: Pool) {
    forall room :: room in s.busy ==> AllTried(s, room)
  }

  lemma DropKeepsPortsExact(s: Pool, gone: set<(RoomId, Producer)>)
    requires PortsExact(s)
    ensures PortsExact(Drop(s, gone))
  {
    var s' := Drop(s, gone);
    forall port | port in s'.used ensures Held(s', port) {
      assert Held(s, port);
      var k :| k in s.legs && s.legs[k].port == port;
      assert k in s'.legs;
    }
  }

  lemma StepKeepsPortsExact(s: Pool, e: Event)
    requires PortsExact(s) && Possible(s, e)
    ensures PortsExact(Step(s, e))
  {
    match e
    case SyncStarts(room, ids) => DropKeepsPortsExact(s, set k | k in s.legs && k.0 == room && k.1 !in ids);
    case AddStarts(room) => AddStartKeepsPortsExact(s, room);
    case AddSucceeds(room) =>
      var s' := Step(s, e);
      forall port | port in s'.used ensures Held(s', port) {
        assert Held(s, port);
        var k :| k in s.legs && s.legs[k].port == port;
        assert k in s'.legs && s'.legs[k].port == port;
      }
    case AddFails(room) => DropKeepsPortsExact(s, {(room, s.busy[room].adding.value)});
    case SyncReturns(room) => SameLegsKeepPortsExact(s, Step(s, e));
    case RoomCloses(room) => DropKeepsPortsExact(s, set k | k in s.legs && k.0 == room);
  }

  lemma SameLegsKeepPortsExact(s: Pool, s': Pool)
    requires PortsExact(s) && s'.legs == s.legs && s'.used == s.used
    ensures PortsExact(s')
  {
    forall port | port in s'.used ensures Held(s', port) {
      assert Held(s, port);
    }
  }

  lemma AddStartKeepsPortsExact(s: Pool, room: RoomId)
    requires PortsExact(s) && Possible(s, AddStarts(room))
    ensures PortsExact(Step(s, AddStarts(room)))
  {
    var s' := Step(s, AddStarts(room));
    ProbeFindsLowestFree(s.used, s.basePort, s.maxPort);
    if s'.legs == s.legs {
      SameLegsKeepPortsExact(s, s');
    } else {
      var key := (room, s.busy[room].rest[0]);
      forall port | port in s'.used ensures Held(s', port) {
        if port == s'.legs[key].port {
          assert key in s'.legs;
        } else {
          assert Held(s, port);
          var k :| k in s.legs && s.legs[k].port == port;
          assert k in s'.legs && s'.legs[k].port == port;
        }
      }
    }
  }

  ghost predicate FlagsTrue(s: Pool) {
    forall room :: room in s.busy ==> FlagTrue(s, room)
  }

  ghost predicate Sound(s: Pool) {
    PortsExact(s) && AddsInOrder(s) && FlagsTrue(s) && NobodySkipped(s)
  }

  lemma StepKeepsNobodySkipped(s: Pool, e: Event)
    requires NobodySkipped(s) && Possible(s, e)
    ensures NobodySkipped(Step(s, e))
  {
    var s' := Step(s, e);
    forall room | room in s'.busy ensures AllTried(s', room) {
      if room != e.room {
        OtherRoomUntouched(s, e, room);
        assert AllTried(s, room);
      } else if !e.SyncStarts? {
        assert AllTried(s, room);
        OwnSyncTriesAll(s, e);
      }
    }
  }

  lemma OwnSyncTriesAll(s: Pool, e: Event)
    requires Possible(s, e) && e.room in Step(s, e).busy && e.room in s.busy && AllTried(s, e.room)
    ensures AllTried(Step(s, e), e.room)
  {
    var y := s.busy[e.room];
    if e.AddStarts? {
      assert y.rest == [y.rest[0]] + y.rest[1..];
    }
  }

  /** A sync is broken off only by an exhausted pool: the next producer has no leg and every port of the
      range is taken. */
  lemma BrokenOffOnlyWhenExhausted(s: Pool, e: Event, room: RoomId)
    requires Possible(s, e) && room in s.busy && room !in Step(s, e).busy
    ensures e.room == room
    ensures e.SyncReturns?
            || (e.AddStarts? && (room, s.busy[room].rest[0]) !in s.legs
                && forall port :: Candidate(port, s.basePort, s.maxPort) ==> port in s.used)
  {
    ProbeFindsLowestFree(s.used, s.basePort, s.maxPort);
  }

  /** A sync that returns leaves in the mix exactly those it aimed at, less those it could not connect, and
      frees its room for the next operation. */
  lemma ReturnedSyncIsComplete(s: Pool, room: RoomId)
    requires Sound(s) && Possible(s, SyncReturns(room))
    ensures forall p :: p in Entries(s, room) ==> p in s.busy[room].desired
    ensures forall p :: p in s.busy[room].desired ==> p in Entries(s, room) || p in s.busy[room].refused
    ensures forall p :: p in s.busy[room].before && p in s.busy[room].desired ==> p in Entries(s, room)
    ensures Step(s, SyncReturns(room)) == s.(busy := s.busy - {room})
  {
    assert FlagTrue(s, room) && AllTried(s, room);
  }

  /** Closing a room's mixer takes all its legs and frees their ports, and touches no other room's. */
  lemma CloseFreesRoom(s: Pool, room: RoomId)
    requires PortsExact(s) && Possible(s, RoomCloses(room))
    ensures var s' := Step(s, RoomCloses(room));
            && (forall k :: k in s'.legs <==> k in s.legs && k.0 != room)
            && (forall k :: k in s'.legs ==> s'.legs[k] == s.legs[k])
            && (forall k :: k in s.legs && k.0 == room ==> s.legs[k].port !in s'.used)
  {
    var gone := set k | k in s.legs && k.0 == room;
    forall k | k in s.legs && k.0 == room ensures s.legs[k].port !in Drop(s, gone).used { assert k in gone; }
  }

  lemma StepKeepsAddsInOrder(s: Pool, e: Event)
    requires AddsInOrder(s) && Possible(s, e)
    ensures AddsInOrder(Step(s, e))
  {
  }

  lemma StepKeepsFlagsTrue(s: Pool, e: Event)
    requires AddsInOrder(s) && FlagsTrue(s) && Possible(s, e)
    ensures FlagsTrue(Step(s, e))
  {
    var s' := Step(s, e);
    forall room | room in s'.busy ensures FlagTrue(s', room) {
      if room != e.room {
        OtherRoomUntouched(s, e, room);
        assert FlagTrue(s, room);
      } else {
        OwnFlagStaysTrue(s, e);
      }
    }
  }

  lemma OtherRoomUntouched(s: Pool, e: Event, room: RoomId)
    requires Possible(s, e) && room != e.room
    ensures Entries(Step(s, e), room) == Entries(s, room)
    ensures room in Step(s, e).busy <==> room in s.busy
    ensures room in s.busy ==> Step(s, e).busy[room] == s.busy[room]
  {
  }

  lemma OwnFlagStaysTrue(s: Pool, e: Event)
    requires AddsInOrder(s) && FlagsTrue(s) && Possible(s, e) && e.room in Step(s, e).busy
    ensures FlagTrue(Step(s, e), e.room)
  {
    match e
    case SyncStarts(room, ids) => StartIsTrue(s, room, ids);
    case AddStarts(room) => AddStartKeepsEntries(s, room); assert FlagTrue(s, room);
    case AddSucceeds(room) => AddIsSeen(s, room);
    case AddFails(room) => AddFailKeepsEntries(s, room); assert FlagTrue(s, room);
    case _ =>
  }

  lemma AddStartKeepsEntries(s: Pool, room: RoomId)
    requires Possible(s, AddStarts(room))
    ensures Entries(Step(s, AddStarts(room)), room) == Entries(s, room)
  {
  }

  lemma AddFailKeepsEntries(s: Pool, room: RoomId)
    requires AddsInOrder(s) && Possible(s, AddFails(room))
    ensures Entries(Step(s, AddFails(room)), room) == Entries(s, room)
  {
  }

  lemma AddIsSeen(s: Pool, room: RoomId)
    requires AddsInOrder(s) && FlagsTrue(s) && Possible(s, AddSucceeds(room))
    ensures FlagTrue(Step(s, AddSucceeds(room)), room)
  {
    var s' := Step(s, AddSucceeds(room));
    assert FlagTrue(s, room);
    var p := s.busy[room].adding.value;
    assert Entries(s', room) == Entries(s, room) + {p};
    assert p !in Entries(s, room) && p !in s.busy[room].before;
  }

  lemma StartIsTrue(s: Pool, room: RoomId, ids: seq<Producer>)
    requires AddsInOrder(s) && room !in s.busy
    ensures FlagTrue(Step(s, SyncStarts(room, ids)), room)
  {
    var s' := Step(s, SyncStarts(room, ids));
    var leavers := set k | k in s.legs && k.0 == room && k.1 !in ids;
    assert forall p :: p in Entries(s, room) <==> (room, p) in s.legs;
    assert forall p :: p in Entries(s', room) <==> (room, p) in s.legs && p in ids;
    if leavers != {} {
      var k := Pick(leavers);
      assert k.1 in Entries(s, room) && k.1 !in Entries(s', room);
    } else {
      forall p | p in Entries(s, room) ensures p in Entries(s', room) { assert (room, p) !in leavers; }
      assert Entries(s', room) == Entries(s, room);
    }
  }

  // ----- runs -----

  predicate PossibleRun(s: Pool, events: seq<Event>)
    decreases |events|
  {
    events == [] || (Possible(s, events[0]) && PossibleRun(Step(s, events[0]), events[1..]))
  }

  function Run(s: Pool, events: seq<Event>): Pool
    requires PossibleRun(s, events)
    decreases |events|
  {
    if events == [] then s else Run(Step(s, events[0]), events[1..])
  }

  lemma StepKeepsSound(s: Pool, e: Event)
    requires Sound(s) && Possible(s, e)
    ensures Sound(Step(s, e))
  {
    StepKeepsPortsExact(s, e);
    StepKeepsAddsInOrder(s, e);
    StepKeepsFlagsTrue(s, e);
    StepKeepsNobodySkipped(s, e);
  }

  lemma {:induction false} RunKeepsSound(s: Pool, events: seq<Event>)
    requires Sound(s) && PossibleRun(s, events)
    ensures Sound(Run(s, events))
    decreases |events|
  {
    if events != [] {
      StepKeepsSound(s, events[0]);
      RunKeepsSound(Step(s, events[0]), events[1..]);
    }
  }

  /** Main result: however the rooms' syncs and closes interleave, no two legs share a port, no port leaks,
      and when a sync returns, its answer is whether its room's mix changed. */
  lemma PortsNeverCollideOrLeak(basePort: int, maxPort: int, events: seq<Event>)
    requires PossibleRun(Pool(basePort, maxPort, {}, map[], map[]), events)
    ensures var s := Run(Pool(basePort, maxPort, {}, map[], map[]), events);
            && (forall k, l :: k in s.legs && l in s.legs && k != l ==> s.legs[k].port != s.legs[l].port)
            && (forall port :: port in s.used <==> Held(s, port))
            && (forall room :: Possible(s, SyncReturns(room)) ==>
                  s.busy[room].changed == (Entries(s, room) != s.busy[room].before))
  {
    RunKeepsSound(Pool(basePort, maxPort, {}, map[], map[]), events);
    var s := Run(Pool(basePort, maxPort, {}, map[], map[]), events);
    forall room | Possible(s, SyncReturns(room))
      ensures s.busy[room].changed == (Entries(s, room) != s.busy[room].before)
    {
      assert FlagTrue(s, room);
    }
  }
}
