/** RoomRegistry as one instance runs it: the shared owner keys in Redis, this instance's read cache,
    and the ownership heartbeat of RoomManager. */
module RoomRegistry {
  import opened Redis
  import opened OwnershipLease

  type RoomId = int

  /** The owner keys of all rooms; a key at or past its deadline reads as absent. */
  class OwnerKeys {
    var claims: map<RoomId, Claim>
    var clock: int

    constructor (clock: int)
      ensures claims == map[] && this.clock == clock
    {
      claims, this.clock := map[], clock;
    }

    function Key(room: RoomId): Option<Claim>
      reads this
    {
      if room in claims then Drop(Some(claims[room]), clock) else None
    }

    method Put(room: RoomId, owner: InstanceId)
      modifies this
      ensures Key(room) == Some(Claim(owner, clock + OWNER_TTL_MS)) && clock == old(clock)
      ensures forall other :: other != room ==> Key(other) == old(Key(other))
    {
      claims := claims[room := Claim(owner, clock + OWNER_TTL_MS)];
    }

    /** What other instances make of a room's key. */
    method Become(room: RoomId, claim: Option<Claim>)
      requires claim.Some? ==> clock < claim.value.expireAt
      modifies this
      ensures Key(room) == claim && clock == old(clock)
      ensures forall other :: other != room ==> Key(other) == old(Key(other))
    {
      if claim.Some? { claims := claims[room := claim.value]; }
      else { claims := map r | r in claims && r != room :: claims[r]; }
    }

    method Del(room: RoomId)
      modifies this
      ensures Key(room) == None && clock == old(clock)
      ensures forall other :: other != room ==> Key(other) == old(Key(other))
    {
      claims := map r | r in claims && r != room :: claims[r];
    }
  }

  /** r is a read of this instance, begun at `now`, to which Redis has replied with this owner. */
  predicate Answers(s: Fleet, r: nat, self: InstanceId, now: int, owner: Option<InstanceId>) {
    && r in s.pending && s.pending[r].Fetched?
    && s.pending[r].instance == self && s.pending[r].at == now && s.pending[r].owner == owner
  }

  class Registry {
    const redis: OwnerKeys
    const self: InstanceId
    var ownerCache: map<RoomId, Cached>

    constructor (redis: OwnerKeys, self: InstanceId)
      ensures this.redis == redis && this.self == self && ownerCache == map[]
    {
      this.redis, this.self, ownerCache := redis, self, map[];
    }

    /** s is the lease machine's state for this room, as far as this instance and Redis know it. */
    ghost predicate Mirrors(room: RoomId, s: Fleet)
      reads this, redis
    {
      && s.key == redis.Key(room) && s.clock == redis.clock
      && (self in s.caches <==> room in ownerCache)
      && (room in ownerCache ==> s.caches[self] == ownerCache[room])
    }

    /** The SET NX of claimOwnership. */
    method TryClaim(room: RoomId) returns (won: bool)
      modifies redis
      ensures (redis.Key(room), won) == ClaimKey(old(redis.Key(room)), self, redis.clock)
      ensures redis.clock == old(redis.clock)
      ensures forall s :: old(Mirrors(room, s)) ==> Mirrors(room, Step(s, ClaimEvent(self)))
      ensures forall other :: other != room ==> redis.Key(other) == old(redis.Key(other))
    {
      won := redis.Key(room).None?;
      if won { redis.Put(room, self); }
    }

    /** claimOwnership: on a loss a second command reads the winner; `later` is the key as that GET finds it,
        after whatever the other instances did meanwhile. A key that has vanished makes the loser report
        itself as owner although nobody holds the room. */
    method ClaimOwnership(room: RoomId, later: Option<Claim>) returns (won: bool, owner: InstanceId)
      modifies redis
      ensures (redis.Key(room), won) == ClaimKey(old(redis.Key(room)), self, redis.clock)
      ensures forall other :: other != room ==> redis.Key(other) == old(redis.Key(other))
      ensures won ==> owner == self
      ensures !won && later.Some? ==> owner == later.value.owner
      ensures won || owner == self <==> old(redis.Key(room)).None? || OwnerOf(later) in {None, Some(self)}
    {
      won := TryClaim(room);
      owner := if won || later.None? then self else later.value.owner;
    }

    method RefreshOwnership(room: RoomId, allowReclaim: bool) returns (result: RefreshResult)
      modifies this`ownerCache, redis
      ensures (redis.Key(room), result) == RefreshKey(old(redis.Key(room)), self, allowReclaim, redis.clock)
      ensures result == Held <==> OwnerOf(old(redis.Key(room))) == Some(self)
      ensures result == Reclaimed <==> old(redis.Key(room)).None? && allowReclaim
      ensures result == Lost ==> redis.Key(room) == old(redis.Key(room))
      ensures result != Lost ==> redis.Key(room) == Some(Claim(self, redis.clock + OWNER_TTL_MS))
      ensures redis.clock == old(redis.clock)
      ensures forall other :: other != room ==> redis.Key(other) == old(redis.Key(other))
      ensures old(redis.Key(room)).None? && allowReclaim ==> ownerCache == old(ownerCache) - {room}
      ensures old(redis.Key(room)).Some? || !allowReclaim ==> ownerCache == old(ownerCache)
      ensures forall s :: old(Mirrors(room, s)) ==>
        var s' := Step(s, RefreshEvent(self, allowReclaim));
        && (result != Lost <==> Grants(s, RefreshEvent(self, allowReclaim)) == Some(self))
        && Mirrors(room, if result == Reclaimed then Step(s', ForgetEvent(self)) else s')
    {
      var cur := redis.Key(room);
      if cur.Some? && cur.value.owner == self {
        redis.Put(room, self);
        result := Held;
      } else if cur.None? && allowReclaim {
        redis.Put(room, self);
        ForgetOwnerCache(room);
        result := Reclaimed;
      } else {
        result := Lost;
      }
    }

    /** isOwner up to its await: a live cache entry answers at once, else the machine's read starts. */
    method AskOwner(room: RoomId, now: int) returns (answer: Option<bool>)
      ensures var hit := room in ownerCache && now < ownerCache[room].expiresAt;
        answer == if hit then Some(ownerCache[room].owner == Some(self)) else None
      ensures forall s, r :: Mirrors(room, s) && now == s.clock && Possible(s, AskEvent(self, r)) ==>
        var s' := Step(s, AskEvent(self, r));
        && Mirrors(room, s')
        && s' == (if answer.Some? then s else s.(pending := s.pending[r := Started(self, now)]))
        && (answer == Some(true) <==> Assures(s, AskEvent(self, r)) == Some(self))
    {
      if room in ownerCache && ownerCache[room].expiresAt > now {
        return Some(ownerCache[room].owner == Some(self));
      }
      answer := None;
    }

    /** isOwner from the GET's reply on: `now` was read before the GET was sent, and the cache entry counts
        from there, whatever has been cached or forgotten meanwhile: the machine's answer to that read. */
    method AnswerOwner(room: RoomId, now: int, owner: Option<InstanceId>) returns (answer: bool)
      modifies this`ownerCache
      ensures answer == (owner == Some(self))
      ensures ownerCache == old(ownerCache)[room := Cached(owner, now + OWNER_CACHE_MS)]
      ensures forall s, r :: old(Mirrors(room, s)) && Answers(s, r, self, now, owner) ==>
        && Mirrors(room, Step(s, AnswerEvent(r)))
        && (answer <==> Assures(s, AnswerEvent(r)) == Some(self))
    {
      ownerCache := ownerCache[room := Cached(owner, now + OWNER_CACHE_MS)];
      answer := owner == Some(self);
    }

    method ForgetOwnerCache(room: RoomId)
      modifies this`ownerCache
      ensures ownerCache == old(ownerCache) - {room}
      ensures forall s :: old(Mirrors(room, s)) ==> Mirrors(room, Step(s, ForgetEvent(self)))
    {
      ownerCache := map r | r in ownerCache && r != room :: ownerCache[r];
    }

    method Cleanup(room: RoomId)
      modifies this`ownerCache, redis
      ensures redis.Key(room) == None && ownerCache == old(ownerCache) - {room}
      ensures forall s :: old(Mirrors(room, s)) ==> Mirrors(room, Step(Step(s, CleanupEvent), ForgetEvent(self)))
      ensures forall other :: other != room ==> redis.Key(other) == old(redis.Key(other))
    {
      redis.Del(room);
      ForgetOwnerCache(room);
    }

    /** What the heartbeat does when the answer of a room's refresh comes back. */
    method HandleRefresh(room: RoomId, isEdgeRoom: bool, result: RefreshResult) returns (steppedDown: bool)
      modifies this`ownerCache
      ensures steppedDown <==> !isEdgeRoom && result == Lost
      ensures ownerCache == if steppedDown then old(ownerCache) - {room} else old(ownerCache)
    {
      steppedDown := false;
      if isEdgeRoom { return; }
      if result == Lost {
        ForgetOwnerCache(room);
        steppedDown := true;
      }
    }

    /** One heartbeat over the rooms this instance hosts; `found` is each room's key as its refresh finds it,
        after whatever the other instances did since the sweep began. A room it is origin of ends held for
        another 90 s, or, when a rival has it, untouched and without a cached belief; an edge room is never
        reclaimed. */
    method Heartbeat(rooms: seq<RoomId>, edges: set<RoomId>, found: nat -> Option<Claim>)
      returns (steppedDown: seq<RoomId>)
      requires Distinct(rooms)
      requires forall k :: found(k).Some? ==> redis.clock < found(k).value.expireAt
      modifies this`ownerCache, redis
      ensures forall k :: 0 <= k < |rooms| ==>
        redis.Key(rooms[k]) == RefreshKey(found(k), self, rooms[k] !in edges, redis.clock).0
      ensures forall room :: room !in rooms ==> redis.Key(room) == old(redis.Key(room))
      ensures forall k :: 0 <= k < |rooms| ==>
        (rooms[k] in steppedDown <==> rooms[k] !in edges && found(k).Some? && found(k).value.owner != self)
      ensures forall room :: room in steppedDown ==> room in rooms && room !in ownerCache
      ensures forall room :: room in ownerCache ==>
        room in old(ownerCache) && ownerCache[room] == old(ownerCache)[room]
    {
      steppedDown := [];
      for k := 0 to |rooms|
        invariant redis.clock == old(redis.clock)
        invariant forall i :: 0 <= i < k ==>
          redis.Key(rooms[i]) == RefreshKey(found(i), self, rooms[i] !in edges, redis.clock).0
        invariant forall room :: room !in rooms[..k] ==> redis.Key(room) == old(redis.Key(room))
        invariant forall i :: 0 <= i < k ==>
          (rooms[i] in steppedDown <==> rooms[i] !in edges && found(i).Some? && found(i).value.owner != self)
        invariant forall room :: room in steppedDown ==> room in rooms[..k] && room !in ownerCache
        invariant forall room :: room in ownerCache ==>
          room in old(ownerCache) && ownerCache[room] == old(ownerCache)[room]
      {
        var room := rooms[k];
        assert room !in rooms[..k] && rooms[..k + 1] == rooms[..k] + [room];
        redis.Become(room, found(k));
        var left := RefreshAndHandle(room, room in edges);
        if left { steppedDown := steppedDown + [room]; }
      }
      assert rooms[..|rooms|] == rooms;
    }

    /** One room of the sweep. */
    method RefreshAndHandle(room: RoomId, isEdgeRoom: bool) returns (steppedDown: bool)
      modifies this`ownerCache, redis
      ensures redis.clock == old(redis.clock)
      ensures redis.Key(room) == RefreshKey(old(redis.Key(room)), self, !isEdgeRoom, redis.clock).0
      ensures forall other :: other != room ==> redis.Key(other) == old(redis.Key(other))
      ensures steppedDown <==> !isEdgeRoom && old(redis.Key(room)).Some? && old(redis.Key(room)).value.owner != self
      ensures steppedDown ==> room !in ownerCache
      ensures forall other :: other in ownerCache ==>
        other in old(ownerCache) && ownerCache[other] == old(ownerCache)[other]
    {
      var result := RefreshOwnership(room, !isEdgeRoom);
      steppedDown := HandleRefresh(room, isEdgeRoom, result);
    }
  }
}
