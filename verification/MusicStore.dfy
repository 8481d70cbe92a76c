/** The music scripts as they run on the room's Redis keys, and the ghost-skipping grant walk. */
module MusicStore {
  import opened Redis
  import opened MusicSlot

  /** How a grant walk ended: a live user holds the slot, nobody is left, or a rival took the slot. */
  datatype WalkEnd = Granted | Drained | Stopped

  class Store {
    var holder: Option<Hold>
    var state: Option<UserId>
    var queue: seq<UserId>
    var queueExpireAt: Option<int>
    var clock: int

    ghost function View(): Music
      reads this
    {
      Music(holder, state, queue, queueExpireAt, clock)
    }

    constructor (clock: int)
      ensures View() == Music(None, None, [], None, clock)
    {
      holder, state, queue, queueExpireAt, this.clock := None, None, [], None, clock;
    }

    // ----- Redis commands -----

    method SetSlot(user: UserId, ttl: int)
      modifies this
      ensures View() == SetHold(old(View()), user, ttl)
    {
      holder := Some(Hold(user, clock, ttl));
    }

    method LPop() returns (head: Option<UserId>)
      modifies this
      ensures head == if old(queue) == [] then None else Some(old(queue)[0])
      ensures View() == if old(queue) == [] then old(View()) else SetQueue(old(View()), old(queue)[1..])
    {
      if queue == [] { return None; }
      head, queue := Some(queue[0]), queue[1..];
      if queue == [] { queueExpireAt := None; }
    }

    method RPush(user: UserId)
      modifies this
      ensures View() == old(View()).(queue := old(queue) + [user])
    {
      queue := queue + [user];
    }

    /** LPOS: the first place of the user, found from the head on. */
    method LPos(user: UserId) returns (pos: Option<nat>)
      ensures pos.None? <==> user !in queue
      ensures pos.Some? ==> pos.value < |queue| && IndexOf(queue, user) == pos.value
    {
      for k := 0 to |queue|
        invariant forall j :: 0 <= j < k ==> queue[j] != user
      {
        if queue[k] == user {
          return Some(k);
        }
      }
      pos := None;
    }

    // ----- the scripts -----

    /** ENQUEUE_MUSIC_WAITER_LUA */
    method EnqueueWaiter(user: UserId) returns (position: nat)
      modifies this
      ensures (View(), position) == Enqueue(old(View()), user)
    {
      var pos := LPos(user);
      if pos.Some? {
        queueExpireAt := Some(clock + FULL_TTL_MS);
        return pos.value + 1;
      }
      assert IndexOf(queue, user) == |queue|;
      RPush(user);
      queueExpireAt := Some(clock + FULL_TTL_MS);
      position := |queue|;
    }

    /** RELEASE_AND_GRANT_LUA */
    method ReleaseSlot(user: UserId) returns (result: Release)
      modifies this
      ensures (View(), result) == ReleaseAndGrant(old(View()), user)
    {
      if holder.None? { return Denied(None); }
      if holder.value.user != user { return Denied(Some(holder.value.user)); }
      state := None;
      var head := LPop();
      if head.Some? { SetSlot(head.value, GRACE_TTL_MS); } else { holder := None; }
      result := Released(head);
    }

    /** PROMOTE_IF_FREE_LUA */
    method Promote() returns (head: Option<UserId>)
      modifies this
      ensures (View(), head) == PromoteIfFree(old(View()))
    {
      if holder.Some? { return None; }
      head := LPop();
      if head.Some? { SetSlot(head.value, GRACE_TTL_MS); }
    }

    /** ACQUIRE_MUSIC_SLOT_LUA */
    method AcquireSlot(me: UserId, steal: Option<UserId>) returns (result: UserId)
      modifies this
      ensures (View(), result) == Acquire(old(View()), me, steal)
    {
      if holder.None? || holder.value.user == me || (steal.Some? && holder.value.user == steal.value) {
        SetSlot(me, FULL_TTL_MS);
        result := me;
      } else {
        result := holder.value.user;
      }
    }

    /** The owner's takeover overwrites the slot without looking at it. */
    method TakeOver(owner: UserId)
      modifies this
      ensures View() == SetHold(old(View()), owner, FULL_TTL_MS)
    {
      SetSlot(owner, FULL_TTL_MS);
    }

    /** The SETEX that follows a successful play or takeover. */
    method StoreNowPlaying(user: UserId)
      modifies this
      ensures View() == StoreTrack(old(View()), user)
    {
      state := Some(user);
    }

    /** While a caller awaits, the room's keys become whatever time and other callers make of them. */
    method Become(m: Music)
      modifies this
      ensures View() == m
    {
      holder, state, queue, queueExpireAt, clock := m.holder, m.state, m.queue, m.queueExpireAt, m.clock;
    }

    /** acquireMusicSlot: free or mine, else a compare-and-set steal from a holder found dead. `later` is the
        room as the liveness probe leaves it. */
    method AcquireMusicSlot(me: UserId, live: set<UserId>, later: Music) returns (acquired: bool)
      modifies this
      ensures var h := old(holder);
        if h.None? || h.value.user == me then acquired && View() == SetHold(old(View()), me, FULL_TTL_MS)
        else
          && acquired == (h.value.user !in live
                          && (later.holder.None? || later.holder.value.user in {me, h.value.user}))
          && View() == if acquired then SetHold(later, me, FULL_TTL_MS) else later
      ensures acquired ==> holder == Some(Hold(me, clock, FULL_TTL_MS))
    {
      var phase1 := AcquireSlot(me, None);
      if phase1 == me { return true; }
      Become(later);
      if phase1 in live { return false; }
      var stolen := AcquireSlot(me, Some(phase1));
      acquired := stolen == me;
    }

    /** grantChain. `found` gives the room as the k-th liveness probe leaves it, with whoever joined, left,
        took the slot or let it lapse meanwhile (later probes find nothing changed); alive(k) is the probe's
        answer. Each probe but the first is of the head of the line as it stood when its predecessor was
        released. */
    method GrantChain(head: UserId, found: seq<Music>, alive: nat -> bool)
      returns (end: WalkEnd, ghost probed: seq<UserId>, ghost states: seq<Music>)
      modifies this
      ensures IsWalk(old(View()), head, found, probed, states)
      ensures var k := |probed| - 1;
        && (forall j :: 0 <= j < k ==> !alive(j))
        && end == (if alive(k) then Granted else if !HeldBy(states[k], probed[k]) then Stopped else Drained)
        && (end.Drained? ==> states[k].queue == [])
        && View() == if end.Drained? then ReleaseAndGrant(states[k], probed[k]).0 else states[k]
    {
      var current := head;
      var k := 0;
      ghost var start := View();
      probed, states := [], [];
      while true
        invariant k == |probed| == |states|
        invariant forall j :: 0 <= j < k ==> !alive(j)
        invariant k > 0 ==> IsWalk(start, head, found, probed, states) && Moved(states[k - 1], probed[k - 1], current)
        invariant if k == 0 then current == head && View() == start
                  else View() == ReleaseAndGrant(states[k - 1], probed[k - 1]).0
        decreases if k < |found| then |found| - k else 0, |queue|
      {
        if k < |found| { Become(found[k]); }
        WalkGoesOn(start, head, found, probed, states, current, View());
        probed, states := probed + [current], states + [View()];
        if alive(k) { return Granted, probed, states; }
        var result := ReleaseSlot(current);
        if result.Denied? { return Stopped, probed, states; }
        if result.head.None? { return Drained, probed, states; }
        current, k := result.head.value, k + 1;
      }
    }
  }

  // ----- what a walk is -----

  predicate HeldBy(m: Music, u: UserId) {
    m.holder.Some? && m.holder.value.user == u
  }

  /** u held the slot, was released, and next was the head of the line then. */
  predicate Moved(m: Music, u: UserId, next: UserId) {
    HeldBy(m, u) && m.queue != [] && m.queue[0] == next
  }

  /** The room in which the j-th probe of a walk starts. */
  function Before(start: Music, probed: seq<UserId>, states: seq<Music>, j: nat): Music
    requires j <= |probed| == |states|
  {
    if j == 0 then start else ReleaseAndGrant(states[j - 1], probed[j - 1]).0
  }

  predicate IsWalk(start: Music, head: UserId, found: seq<Music>, probed: seq<UserId>, states: seq<Music>) {
    && 0 < |probed| == |states| && probed[0] == head
    && (forall j :: 0 <= j < |states| ==>
          states[j] == if j < |found| then found[j] else Before(start, probed, states, j))
    && (forall j :: 1 <= j < |states| ==> Moved(states[j - 1], probed[j - 1], probed[j]))
  }

  lemma WalkGoesOn(start: Music, head: UserId, found: seq<Music>, probed: seq<UserId>, states: seq<Music>,
                   current: UserId, m: Music)
    requires |probed| == |states|
    requires if probed == [] then current == head
             else IsWalk(start, head, found, probed, states) && Moved(states[|states| - 1], probed[|probed| - 1], current)
    requires m == if |states| < |found| then found[|states|] else Before(start, probed, states, |states|)
    ensures IsWalk(start, head, found, probed + [current], states + [m])
  {
    var probed', states' := probed + [current], states + [m];
    forall j | 0 <= j < |states'|
      ensures states'[j] == if j < |found| then found[j] else Before(start, probed', states', j)
    {
      assert Before(start, probed', states', j) == Before(start, probed, states, j);
    }
  }

  // ----- a walk that nobody joins or leaves -----

  /** What a probe does to the room if the line is left alone: time passes, and a rival may take the slot. */
  function Awaited(m: Music, pause: nat, rival: Option<UserId>): Music {
    var a := Advance(m, m.clock + pause);
    if rival.Some? then SetHold(a, rival.value, FULL_TTL_MS) else a
  }

  /** The slot as the probe of u leaves it. */
  function Found(u: UserId, clock: int, pause: nat, rival: Option<UserId>): Option<Hold> {
    if rival.Some? then Some(Hold(rival.value, clock, FULL_TTL_MS))
    else if GRACE_TTL_MS <= pause then None else Some(Hold(u, clock - pause, GRACE_TTL_MS))
  }

  /** In the j-th probe u is probed with these waiters behind, out of a line that started with `deadline`. */
  predicate AtPlace(m: Music, u: UserId, waiters: seq<UserId>, deadline: Option<int>, pause: nat, rival: Option<UserId>) {
    && m.holder == Found(u, m.clock, pause, rival)
    && m.queue == (if Expired(deadline, m.clock) then [] else waiters)
    && (m.queue != [] ==> m.queueExpireAt == deadline)
  }

  /** A probe of u starts: u has just been granted the slot, with these waiters behind. */
  predicate Starts(m: Music, u: UserId, waiters: seq<UserId>, deadline: Option<int>) {
    && m.holder == Some(Hold(u, m.clock, GRACE_TTL_MS))
    && m.queue == (if Expired(deadline, m.clock) then [] else waiters)
    && (m.queue != [] ==> m.queueExpireAt == deadline)
  }

  lemma ProbeKeepsPlace(m: Music, u: UserId, waiters: seq<UserId>, deadline: Option<int>, pause: nat,
                        rival: Option<UserId>)
    requires Starts(m, u, waiters, deadline)
    ensures AtPlace(Awaited(m, pause, rival), u, waiters, deadline, pause, rival)
    ensures Awaited(m, pause, rival).clock == m.clock + pause
  {
  }

  lemma NextStarts(m: Music, u: UserId, waiters: seq<UserId>, deadline: Option<int>, pause: nat,
                   rival: Option<UserId>, next: UserId)
    requires AtPlace(m, u, waiters, deadline, pause, rival) && Moved(m, u, next)
    ensures waiters != [] && next == waiters[0]
    ensures Starts(ReleaseAndGrant(m, u).0, next, waiters[1..], deadline) && ReleaseAndGrant(m, u).0.clock == m.clock
    ensures if rival.Some? then rival.value == u else pause < GRACE_TTL_MS
  {
  }

  /** Then the walk probes the line in order: its j-th probe is of the line's j-th place, behind it stand the
      others or, once the line's key has lapsed, nobody; and a waiter is passed only as a ghost that still
      holds the slot, which a rival or 15 s end. */
  lemma {:induction false} QuietWalk(start: Music, head: UserId, found: seq<Music>, probed: seq<UserId>,
                                     states: seq<Music>, pause: nat -> nat, rival: nat -> Option<UserId>, j: nat)
    requires IsWalk(start, head, found, probed, states) && j < |probed|
    requires start.holder == Some(Hold(head, start.clock, GRACE_TTL_MS)) && !Expired(start.queueExpireAt, start.clock)
    requires forall i :: 0 <= i < |states| ==>
      states[i] == Awaited(Before(start, probed, states, i), pause(i), rival(i))
    ensures j <= |start.queue| && probed[j] == ([head] + start.queue)[j]
    ensures AtPlace(states[j], probed[j], start.queue[j..], start.queueExpireAt, pause(j), rival(j))
    ensures start.clock <= states[j].clock
    ensures j + 1 < |probed| ==> if rival(j).Some? then rival(j).value == probed[j] else pause(j) < GRACE_TTL_MS
  {
    var deadline := start.queueExpireAt;
    if j == 0 {
      assert start.queue[0..] == start.queue;
      ProbeKeepsPlace(start, head, start.queue, deadline, pause(0), rival(0));
    } else {
      QuietWalk(start, head, found, probed, states, pause, rival, j - 1);
      var m, before, i := states[j - 1], Before(start, probed, states, j), j - 1;
      NextStarts(m, probed[i], start.queue[i..], deadline, pause(i), rival(i), probed[j]);
      assert start.queue[i..][0] == start.queue[i] && start.queue[i..][1..] == start.queue[j..];
      ProbeKeepsPlace(before, probed[j], start.queue[j..], deadline, pause(j), rival(j));
    }
    if j + 1 < |probed| {
      assert Moved(states[j + 1 - 1], probed[j + 1 - 1], probed[j + 1]);
      NextStarts(states[j], probed[j], start.queue[j..], deadline, pause(j), rival(j), probed[j + 1]);
    }
  }
}
