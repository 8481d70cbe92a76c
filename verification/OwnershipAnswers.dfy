/** What claim, refresh and isOwner answer, and how long a lease and a cached answer last: neither shorter nor
    longer than they should. */
module OwnershipAnswers {
  import opened Redis
  import opened OwnershipLease

  /** In terms of the key alone: held means the caller's own claim was live, reclaimed that no claim was and
      reclaiming was allowed, lost everything else; only the first two extend the key, by 90 s from now. */
  lemma RefreshAnswers(key: Option<Claim>, i: InstanceId, allowReclaim: bool, clock: int)
    ensures var (key', result) := RefreshKey(key, i, allowReclaim, clock);
            && (result == Held <==> OwnerOf(key) == Some(i))
            && (result == Reclaimed <==> key.None? && allowReclaim)
            && (result == Lost <==> OwnerOf(key) != Some(i) && (key.Some? || !allowReclaim))
            && (result == Lost ==> key' == key)
            && (result != Lost ==> key' == Some(Claim(i, clock + OWNER_TTL_MS)))
  {
  }

  /** A claim wins exactly a free key, for 90 s; a cleanup frees it for anybody. */
  lemma ClaimAnswers(s: Fleet, i: InstanceId)
    ensures ClaimKey(s.key, i, s.clock).1 <==> s.key.None?
    ensures s.key.None? ==> Step(s, ClaimEvent(i)).key == Some(Claim(i, s.clock + OWNER_TTL_MS))
    ensures Step(s, ClaimEvent(i)).caches == s.caches && Step(s, ClaimEvent(i)).pending == s.pending
    ensures Grants(Step(s, CleanupEvent), ClaimEvent(i)) == Some(i)
    ensures Step(s, CleanupEvent) == s.(key := None)
  {
  }

  // ----- how long a lease lasts -----

  predicate NoGrantTo(s: Fleet, events: seq<Event>, i: InstanceId)
    requires PossibleRun(s, events)
    decreases |events|
  {
    events == []
    || (var n := |events| - 1;
        NoGrantTo(s, events[..n], i) && Grants(Run(s, events[..n]), events[n]) != Some(i))
  }

  /** From a grant to i at time t on, without another one: i is the stored owner exactly until 90 s are over or
      the room is cleaned up. */
  lemma {:induction false} LeaseLastsIff(s: Fleet, events: seq<Event>, i: InstanceId, t: int)
    requires s.key == Some(Claim(i, t + OWNER_TTL_MS)) && s.clock < t + OWNER_TTL_MS
    requires PossibleRun(s, events) && NoGrantTo(s, events, i)
    ensures var end := Run(s, events);
            OwnerOf(end.key) == Some(i) <==> CleanupEvent !in events && end.clock < t + OWNER_TTL_MS
    ensures OwnerOf(Run(s, events).key) == Some(i) ==> Run(s, events).key == s.key
    ensures s.clock <= Run(s, events).clock
    decreases |events|
  {
    if events != [] {
      var n := |events| - 1;
      LeaseLastsIff(s, events[..n], i, t);
      var before, e := Run(s, events[..n]), events[n];
      assert events == events[..n] + [e];
      if OwnerOf(before.key) == Some(i) { OwnLeaseStep(before, e, i, t); } else { OthersLeaseStep(before, e, i); }
    }
  }

  lemma OwnLeaseStep(s: Fleet, e: Event, i: InstanceId, t: int)
    requires s.key == Some(Claim(i, t + OWNER_TTL_MS)) && Possible(s, e) && Grants(s, e) != Some(i)
    requires s.clock < t + OWNER_TTL_MS
    ensures OwnerOf(Step(s, e).key) == Some(i) <==> e != CleanupEvent && Step(s, e).clock < t + OWNER_TTL_MS
    ensures OwnerOf(Step(s, e).key) == Some(i) ==> Step(s, e).key == s.key
  {
  }

  lemma OthersLeaseStep(s: Fleet, e: Event, i: InstanceId)
    requires OwnerOf(s.key) != Some(i) && Possible(s, e) && Grants(s, e) != Some(i)
    ensures OwnerOf(Step(s, e).key) != Some(i)
  {
  }

  // ----- what a read answers -----

  /** While the reply to a GET is on its way, it keeps telling who owned the key when the GET ran. */
  lemma {:induction false} ReplyKeepsItsOwner(s: Fleet, events: seq<Event>, r: nat)
    requires r in s.pending && s.pending[r].Fetched? && PossibleRun(s, events) && AnswerEvent(r) !in events
    ensures r in Run(s, events).pending && Run(s, events).pending[r] == s.pending[r]
    decreases |events|
  {
    if events != [] {
      var n := |events| - 1;
      assert events == events[..n] + [events[n]];
      ReplyKeepsItsOwner(s, events[..n], r);
    }
  }

  /** An answer straight from Redis is yes exactly when the asker owned the key at the moment of its GET. */
  lemma AnswerTellsTheOwner(s: Fleet, r: nat, events: seq<Event>)
    requires Possible(s, FetchEvent(r)) && PossibleRun(Step(s, FetchEvent(r)), events) && AnswerEvent(r) !in events
    ensures var end, i := Run(Step(s, FetchEvent(r)), events), s.pending[r].instance;
            && Possible(end, AnswerEvent(r))
            && (Assures(end, AnswerEvent(r)) == Some(i) <==> OwnerOf(s.key) == Some(i))
            && Step(end, AnswerEvent(r))
               == end.(caches := end.caches[i := Cached(OwnerOf(s.key), s.pending[r].at + OWNER_CACHE_MS)],
                       pending := end.pending - {r})
  {
    ReplyKeepsItsOwner(Step(s, FetchEvent(r)), events, r);
  }

  // ----- how long a cached answer lasts -----

  /** Nothing in the run replaces or drops the cached answer of i. */
  predicate LeavesCache(s: Fleet, events: seq<Event>, i: InstanceId)
    requires PossibleRun(s, events)
    decreases |events|
  {
    events == []
    || (var n := |events| - 1;
        LeavesCache(s, events[..n], i) && events[n] != ForgetEvent(i)
        && (events[n].AnswerEvent? ==> Run(s, events[..n]).pending[events[n].r].instance != i))
  }

  lemma {:induction false} CacheStands(s: Fleet, events: seq<Event>, i: InstanceId)
    requires i in s.caches && PossibleRun(s, events) && LeavesCache(s, events, i)
    ensures i in Run(s, events).caches && Run(s, events).caches[i] == s.caches[i]
    decreases |events|
  {
    if events != [] { CacheStands(s, events[..|events| - 1], i); }
  }

  /** After an answer to a read begun at time t, i is told the same without asking Redis exactly until
      t + 5 s; from then on a new read begins. */
  lemma CachedAnswerLastsIff(s: Fleet, r: nat, events: seq<Event>, r': nat)
    requires Possible(s, AnswerEvent(r)) && PossibleRun(Step(s, AnswerEvent(r)), events)
    requires LeavesCache(Step(s, AnswerEvent(r)), events, s.pending[r].instance)
    requires r' !in Run(Step(s, AnswerEvent(r)), events).pending
    ensures var i, end := s.pending[r].instance, Run(Step(s, AnswerEvent(r)), events);
            var ask := AskEvent(i, r');
            if end.clock < s.pending[r].at + OWNER_CACHE_MS then
              Step(end, ask) == end && (Assures(end, ask) == Some(i) <==> s.pending[r].owner == Some(i))
            else
              Step(end, ask) == end.(pending := end.pending[r' := Started(i, end.clock)]) && Assures(end, ask) == None
  {
    CacheStands(Step(s, AnswerEvent(r)), events, s.pending[r].instance);
  }

  /** A forgotten belief, after a reclaim or a step-down, is never answered from: the next question begins a
      read, and other instances' beliefs stay. */
  lemma ForgottenIsAskedAgain(s: Fleet, i: InstanceId, r: nat)
    requires r !in s.pending
    ensures var s' := Step(s, ForgetEvent(i));
            && Step(s', AskEvent(i, r)) == s'.(pending := s'.pending[r := Started(i, s'.clock)])
            && Assures(s', AskEvent(i, r)) == None
            && (forall j :: j != i ==> (j in s'.caches <==> j in s.caches))
            && (forall j :: j in s'.caches ==> s'.caches[j] == s.caches[j])
            && s'.key == s.key
  {
  }
}
