/** The music mutex of one room and the FIFO of waiters beside it. Each Lua script of
    audio-player.queue.ts and audio-player.handler.ts is one atomic step. */
module MusicSlot {
  import opened Redis

  const FULL_TTL_MS: int := 7_200_000
  const GRACE_TTL_MS: int := 15_000

  /** Who holds the slot, since when, and with which of the two TTLs the key was last SET. */
  datatype Hold = Hold(user: UserId, since: int, ttl: int) {
    predicate Provisional() { ttl == GRACE_TTL_MS }
    function ExpireAt(): int { since + ttl }
  }

  /** `state` says whose now-playing metadata is stored for new joiners. */
  datatype Music = Music(
    holder: Option<Hold>, state: Option<UserId>,
    queue: seq<UserId>, queueExpireAt: Option<int>,
    clock: int)

  datatype Release = Denied(holder: Option<UserId>) | Released(head: Option<UserId>)

  /** The place of u in q, or |q| when u does not wait. */
  function IndexOf(q: seq<UserId>, u: UserId): (k: nat)
    ensures k <= |q|
    ensures k < |q| ==> q[k] == u
    ensures forall j :: 0 <= j < k ==> q[j] != u
  {
    if q == [] then 0 else if q[0] == u then 0 else 1 + IndexOf(q[1..], u)
  }

  /** LREM with count 0: every occurrence goes, the others keep their order. */
  function Without(q: seq<UserId>, u: UserId): (left: seq<UserId>)
    ensures forall v :: v in left <==> v in q && v != u
  {
    if q == [] then [] else if q[0] == u then Without(q[1..], u) else [q[0]] + Without(q[1..], u)
  }

  function SetHold(m: Music, user: UserId, ttl: int): Music {
    m.(holder := Some(Hold(user, m.clock, ttl)))
  }

  /** A list that becomes empty is deleted with its deadline. */
  function SetQueue(m: Music, q: seq<UserId>): Music {
    m.(queue := q, queueExpireAt := if q == [] then None else m.queueExpireAt)
  }

  /** LPOP the head and give it the slot for the grace time, or leave the slot empty. */
  function GrantHead(m: Music): (Music, Option<UserId>) {
    if m.queue == [] then (m.(holder := None), None)
    else (SetHold(SetQueue(m, m.queue[1..]), m.queue[0], GRACE_TTL_MS), Some(m.queue[0]))
  }

  // ----- the scripts -----

  function Enqueue(m: Music, u: UserId): (Music, nat) {
    var k := IndexOf(m.queue, u);
    var q := if k < |m.queue| then m.queue else m.queue + [u];
    (m.(queue := q, queueExpireAt := Some(m.clock + FULL_TTL_MS)), k + 1)
  }

  function ReleaseAndGrant(m: Music, u: UserId): (Music, Release) {
    if m.holder.None? then (m, Denied(None))
    else if m.holder.value.user != u then (m, Denied(Some(m.holder.value.user)))
    else
      var (granted, head) := GrantHead(m.(state := None));
      (granted, Released(head))
  }

  function PromoteIfFree(m: Music): (Music, Option<UserId>) {
    if m.holder.Some? then (m, None) else GrantHead(m)
  }

  /** Returns the resulting holder: success is "the result is me". */
  function Acquire(m: Music, me: UserId, steal: Option<UserId>): (Music, UserId) {
    if m.holder.None? || m.holder.value.user == me || steal == Some(m.holder.value.user)
    then (SetHold(m, me, FULL_TTL_MS), me)
    else (m, m.holder.value.user)
  }

  /** SETEX of the now-playing metadata, which a play or takeover issues after it got the slot. */
  function StoreTrack(m: Music, user: UserId): Music {
    m.(state := Some(user))
  }

  function Cancel(m: Music, u: UserId): (Music, bool) {
    (SetQueue(m, Without(m.queue, u)), u in m.queue)
  }

  /** Time passes to `to`; the hold and the queue vanish once their TTL is over. */
  function Advance(m: Music, to: int): Music {
    var queueGone := Expired(m.queueExpireAt, to);
    m.(holder := if m.holder.Some? && m.holder.value.ExpireAt() <= to then None else m.holder,
       queue := if queueGone then [] else m.queue,
       queueExpireAt := if queueGone then None else m.queueExpireAt,
       clock := to)
  }

  // ----- the queue as a line -----

  /** Enqueue reports the user's true 1-based place, joins the end only when new, and repeating it
      changes nothing. */
  lemma EnqueueIsIdempotent(m: Music, u: UserId)
    requires Distinct(m.queue)
    ensures var (m', pos) := Enqueue(m, u);
            && Distinct(m'.queue)
            && 1 <= pos <= |m'.queue| && m'.queue[pos - 1] == u
            && m'.queue == (if u in m.queue then m.queue else m.queue + [u])
            && Enqueue(m', u) == (m', pos)
  {
    var k := IndexOf(m.queue, u);
    var (m', pos) := Enqueue(m, u);
    assert m'.queue[k] == u;
  }

  /** A release by the holder hands the slot to the head of the line for the grace time and wipes the
      stored track; by anybody else it changes nothing. Holder and waiters together lose exactly u. */
  lemma ReleaseShiftsLine(m: Music, u: UserId)
    ensures var (m', result) := ReleaseAndGrant(m, u);
            && (result.Released? <==> m.holder.Some? && m.holder.value.user == u)
            && (result.Denied? ==>
                  m' == m && result.holder == if m.holder.Some? then Some(m.holder.value.user) else None)
            && (result.Released? ==>
                  && m'.state.None?
                  && [u] + Line(m') == Line(m)
                  && (m'.holder.None? <==> m.queue == [])
                  && (m'.holder.Some? ==> result.head == Some(m'.holder.value.user)
                                          && m'.holder.value.ExpireAt() == m.clock + GRACE_TTL_MS))
  {
    if m.queue != [] { assert [m.queue[0]] + m.queue[1..] == m.queue; }
  }

  /** The holder, if any, followed by the waiters. */
  function Line(m: Music): seq<UserId> {
    (if m.holder.Some? then [m.holder.value.user] else []) + m.queue
  }

  /** A disconnect that released first and dequeued second would grant the slot to the user who is leaving,
      exactly when a DJ heads its own line. */
  lemma ReleaseFirstGrantsSelf(m: Music, u: UserId)
    ensures u in Line(Cancel(ReleaseAndGrant(m, u).0, u).0)
            <==> m.holder.Some? && m.holder.value.user == u && m.queue != [] && m.queue[0] == u
  {
  }

  /** What LREM leaves is the old line with gaps: an increasing selection of its places. */
  ghost predicate SelectedBy(q: seq<UserId>, left: seq<UserId>, place: seq<int>) {
    && |place| == |left|
    && (forall i :: 0 <= i < |place| ==> 0 <= place[i] < |q| && q[place[i]] == left[i])
    && (forall i, j :: 0 <= i < j < |place| ==> place[i] < place[j])
  }

  lemma ShiftSelects(q: seq<UserId>, left: seq<UserId>, place: seq<int>) returns (shifted: seq<int>)
    requires q != [] && SelectedBy(q[1..], left, place)
    ensures SelectedBy(q, left, shifted) && forall i :: 0 <= i < |shifted| ==> 0 < shifted[i]
  {
    shifted := seq(|place|, i requires 0 <= i < |place| => place[i] + 1);
    forall i | 0 <= i < |place| ensures q[shifted[i]] == left[i] { assert q[1..][place[i]] == left[i]; }
  }

  lemma HeadSelects(q: seq<UserId>, left: seq<UserId>, place: seq<int>)
    requires q != [] && SelectedBy(q, left, place) && forall i :: 0 <= i < |place| ==> 0 < place[i]
    ensures SelectedBy(q, [q[0]] + left, [0] + place)
  {
    var all, places := [q[0]] + left, [0] + place;
    forall i | 0 <= i < |places| ensures 0 <= places[i] < |q| && q[places[i]] == all[i] {
      if i > 0 { assert places[i] == place[i - 1] && all[i] == left[i - 1]; }
    }
    forall i, j | 0 <= i < j < |places| ensures places[i] < places[j] {
      assert places[j] == place[j - 1];
      if i > 0 { assert places[i] == place[i - 1]; }
    }
  }

  lemma {:induction false} WithoutSelects(q: seq<UserId>, u: UserId) returns (place: seq<int>)
    ensures SelectedBy(q, Without(q, u), place)
  {
    if q == [] {
      place := [];
    } else {
      var left := Without(q[1..], u);
      var tail := WithoutSelects(q[1..], u);
      place := ShiftSelects(q, left, tail);
      if q[0] != u {
        HeadSelects(q, left, place);
        place := [0] + place;
      }
    }
  }
}
