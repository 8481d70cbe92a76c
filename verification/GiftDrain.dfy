/** Termination: which entries a backlog drains of, whatever Laravel answers, and which can keep the flushes
    busy for ever. */
module GiftDrain {
  import opened Redis
  import opened GiftLedger
  import opened GiftConservation

  /** Entries that cannot be re-queued for ever: all but an array, which never keeps its count, and an object
      whose count never compares at or above the limit. */
  predicate Drains(e: Entry, maxRetries: int) {
    match e
    case List(_) => maxRetries <= 1
    case Buffered(_, r) => r != Other(None)
    case _ => true
  }

  /** How many more flushes a draining entry can go through. */
  function Lives(e: Entry, maxRetries: int): nat {
    match e
    case Buffered(_, Number(n)) => if n + 1 < maxRetries then maxRetries - n else 1
    case Buffered(_, Other(until)) => if until.Some? then until.value + 1 else 1
    case _ => 1
  }

  lemma RequeueCostsALife(e: Entry, maxRetries: int)
    requires Drains(e, maxRetries) && AfterThrow(e, maxRetries).Requeues?
    ensures var again := AfterThrow(e, maxRetries).entry;
            Drains(again, maxRetries) && Lives(again, maxRetries) == Lives(e, maxRetries) - 1
  {
  }

  /** Ten per remaining life, less `off` for each stage the entry has passed in its current flush. */
  function Cost(s: seq<Entry>, maxRetries: int, off: int): int {
    if s == [] then 0 else 10 * Lives(s[0], maxRetries) - off + Cost(s[1..], maxRetries, off)
  }

  function CostInHand(x: Flush, maxRetries: int): int {
    match x
    case Idle => 0
    case Sorting(rest, transactions) => Cost(rest, maxRetries, 5) + Cost(transactions, maxRetries, 6) + 4
    case Posting(transactions) => Cost(transactions, maxRetries, 6) + 3
    case Fallback(rest, requeue, _) => Cost(rest, maxRetries, 6) + Cost(requeue, maxRetries, -1) + 2
  }

  function CostInFlight(flushes: seq<Flush>, maxRetries: int): int {
    if flushes == [] then 0 else CostInHand(flushes[0], maxRetries) + CostInFlight(flushes[1..], maxRetries)
  }

  function TotalCost(l: Ledger): int {
    Cost(l.queue, l.maxRetries, 0) + CostInFlight(l.flushes, l.maxRetries)
  }

  ghost predicate AllDrain(s: seq<Entry>, maxRetries: int) {
    forall x :: x in s ==> Drains(x, maxRetries)
  }

  ghost predicate HandsDrain(x: Flush, maxRetries: int) {
    match x
    case Idle => true
    case Sorting(rest, transactions) => AllDrain(rest, maxRetries) && AllDrain(transactions, maxRetries)
    case Posting(transactions) => AllDrain(transactions, maxRetries)
    case Fallback(rest, requeue, _) => AllDrain(rest, maxRetries) && AllDrain(requeue, maxRetries)
  }

  ghost predicate Draining(l: Ledger) {
    && AllDrain(l.queue, l.maxRetries)
    && forall f :: 0 <= f < |l.flushes| ==> HandsDrain(l.flushes[f], l.maxRetries)
  }

  /** Neither a new gift nor a pop that finds the queue empty. */
  predicate Working(l: Ledger, e: Event) {
    !e.EnqueueEvent? && (e.PopEvent? ==> l.queue != [])
  }

  lemma {:induction false} CostConcat(s: seq<Entry>, t: seq<Entry>, maxRetries: int, off: int)
    ensures Cost(s + t, maxRetries, off) == Cost(s, maxRetries, off) + Cost(t, maxRetries, off)
  {
    if s == [] {
      assert s + t == t;
    } else {
      CostConcat(s[1..], t, maxRetries, off);
      assert (s + t)[1..] == s[1..] + t;
    }
  }

  lemma CostOne(s: seq<Entry>, x: Entry, maxRetries: int, off: int)
    ensures Cost(s + [x], maxRetries, off) == Cost(s, maxRetries, off) + 10 * Lives(x, maxRetries) - off
  {
    CostConcat(s, [x], maxRetries, off);
    assert [x][1..] == [];
  }

  lemma {:induction false} CostOff(s: seq<Entry>, maxRetries: int, off: int)
    requires off <= 6
    ensures Cost(s, maxRetries, off) == Cost(s, maxRetries, 0) - off * |s|
    ensures 4 * |s| <= Cost(s, maxRetries, off)
  {
    if s != [] { CostOff(s[1..], maxRetries, off); }
  }

  lemma {:induction false} CostUpdate(flushes: seq<Flush>, f: nat, x: Flush, maxRetries: int)
    requires f < |flushes|
    ensures CostInFlight(flushes[f := x], maxRetries) + CostInHand(flushes[f], maxRetries)
            == CostInFlight(flushes, maxRetries) + CostInHand(x, maxRetries)
  {
    if f == 0 {
      assert flushes[0 := x][1..] == flushes[1..];
    } else {
      CostUpdate(flushes[1..], f - 1, x, maxRetries);
      assert flushes[f := x][1..] == flushes[1..][f - 1 := x];
    }
  }

  lemma {:induction false} CostInFlightNonNegative(flushes: seq<Flush>, maxRetries: int)
    ensures 0 <= CostInFlight(flushes, maxRetries)
  {
    if flushes != [] {
      CostInFlightNonNegative(flushes[1..], maxRetries);
      HandNonNegative(flushes[0], maxRetries);
    }
  }

  lemma HandNonNegative(x: Flush, maxRetries: int)
    ensures 0 <= CostInHand(x, maxRetries)
  {
    match x
    case Idle =>
    case Sorting(rest, transactions) => CostOff(rest, maxRetries, 5); CostOff(transactions, maxRetries, 6);
    case Posting(transactions) => CostOff(transactions, maxRetries, 6);
    case Fallback(rest, requeue, _) => CostOff(rest, maxRetries, 6); CostOff(requeue, maxRetries, -1);
  }

  lemma TotalCostNonNegative(l: Ledger)
    ensures 0 <= TotalCost(l)
  {
    CostOff(l.queue, l.maxRetries, 0);
    CostInFlightNonNegative(l.flushes, l.maxRetries);
  }

  /** What one step spends in the queue and in the hands of the flush that takes it. */
  lemma HandSpends(l: Ledger, e: Event)
    requires Possible(l, e) && Working(l, e) && HandsDrain(l.flushes[e.f], l.maxRetries)
    ensures var l' := Step(l, e);
            Cost(l'.queue, l.maxRetries, 0) + CostInHand(l'.flushes[e.f], l.maxRetries)
            < Cost(l.queue, l.maxRetries, 0) + CostInHand(l.flushes[e.f], l.maxRetries)
  {
    match e
    case PopEvent(f) => PopSpends(l, f);
    case SortEvent(f) => SortSpends(l, f);
    case PostedEvent(f, _) => CostOff(l.flushes[f].transactions, l.maxRetries, 6);
    case PostThrows(f) =>
    case ItemEvent(f, reply) => if reply.ItemThrows? { ThrowSpends(l, f); } else { ItemSpends(l, f, reply); }
    case ExecEvent(f) => ExecSpends(l, f);
  }

  lemma PopSpends(l: Ledger, f: nat)
    requires Possible(l, PopEvent(f)) && l.queue != []
    ensures var l' := Step(l, PopEvent(f));
            Cost(l'.queue, l.maxRetries, 0) + CostInHand(l'.flushes[f], l.maxRetries) < Cost(l.queue, l.maxRetries, 0)
  {
    var n := Min(|l.queue|, MAX_BATCH_SIZE);
    CostConcat(l.queue[..n], l.queue[n..], l.maxRetries, 0);
    assert l.queue[..n] + l.queue[n..] == l.queue;
    CostOff(l.queue[..n], l.maxRetries, 5);
  }

  lemma ExecSpends(l: Ledger, f: nat)
    requires Possible(l, ExecEvent(f))
    ensures var l' := Step(l, ExecEvent(f));
            Cost(l'.queue, l.maxRetries, 0) + CostInHand(l'.flushes[f], l.maxRetries)
            < Cost(l.queue, l.maxRetries, 0) + CostInHand(l.flushes[f], l.maxRetries)
  {
    var requeue := l.flushes[f].requeue;
    CostConcat(l.queue, requeue, l.maxRetries, 0);
    CostOff(requeue, l.maxRetries, -1);
  }

  lemma SortSpends(l: Ledger, f: nat)
    requires Possible(l, SortEvent(f))
    ensures var l' := Step(l, SortEvent(f));
            l'.queue == l.queue
            && CostInHand(l'.flushes[f], l.maxRetries) < CostInHand(l.flushes[f], l.maxRetries)
  {
    var s, m := l.flushes[f], l.maxRetries;
    if s.rest == [] {
      CostOff(s.transactions, m, 6);
    } else {
      CostOne(s.transactions, s.rest[0], m, 6);
    }
  }

  lemma ItemSpends(l: Ledger, f: nat, reply: ItemReply)
    requires Possible(l, ItemEvent(f, reply)) && !reply.ItemThrows?
    ensures var l' := Step(l, ItemEvent(f, reply));
            l'.queue == l.queue
            && CostInHand(l'.flushes[f], l.maxRetries) < CostInHand(l.flushes[f], l.maxRetries)
  {
  }

  lemma ThrowSpends(l: Ledger, f: nat)
    requires Possible(l, ItemEvent(f, ItemThrows)) && HandsDrain(l.flushes[f], l.maxRetries)
    ensures Throw(l, f).queue == l.queue
    ensures CostInHand(Throw(l, f).flushes[f], l.maxRetries) < CostInHand(l.flushes[f], l.maxRetries)
  {
    var fb, m := l.flushes[f], l.maxRetries;
    var x := fb.rest[0];
    assert Drains(x, m);
    match AfterThrow(x, m)
    case DeadLetters =>
    case Requeues(again) =>
      RequeueCostsALife(x, m);
      CostOne(fb.requeue, again, m, -1);
    case Breaks => CostOff(fb.rest, m, 6); CostOff(fb.requeue, m, -1);
  }

  lemma OnlyOneHandMoves(l: Ledger, e: Event)
    requires Possible(l, e) && !e.EnqueueEvent?
    ensures |Step(l, e).flushes| == |l.flushes|
    ensures Step(l, e).flushes == l.flushes[e.f := Step(l, e).flushes[e.f]]
    ensures Step(l, e).maxRetries == l.maxRetries
  {
  }

  lemma StepSpends(l: Ledger, e: Event)
    requires Draining(l) && Possible(l, e) && Working(l, e)
    ensures TotalCost(Step(l, e)) < TotalCost(l)
  {
    assert HandsDrain(l.flushes[e.f], l.maxRetries);
    HandSpends(l, e);
    OnlyOneHandMoves(l, e);
    CostUpdate(l.flushes, e.f, Step(l, e).flushes[e.f], l.maxRetries);
  }

  lemma HandStaysDraining(l: Ledger, e: Event)
    requires Possible(l, e) && !e.EnqueueEvent?
    requires AllDrain(l.queue, l.maxRetries) && HandsDrain(l.flushes[e.f], l.maxRetries)
    ensures AllDrain(Step(l, e).queue, l.maxRetries) && HandsDrain(Step(l, e).flushes[e.f], l.maxRetries)
  {
    if e.ItemEvent? && e.reply.ItemThrows? {
      var x := l.flushes[e.f].rest[0];
      assert Drains(x, l.maxRetries);
      if AfterThrow(x, l.maxRetries).Requeues? { RequeueCostsALife(x, l.maxRetries); }
    }
  }

  lemma StepKeepsDraining(l: Ledger, e: Event)
    requires Draining(l) && Possible(l, e) && (e.EnqueueEvent? ==> Drains(e.entry, l.maxRetries))
    ensures Draining(Step(l, e)) && Step(l, e).maxRetries == l.maxRetries
  {
    if !e.EnqueueEvent? {
      assert HandsDrain(l.flushes[e.f], l.maxRetries);
      HandStaysDraining(l, e);
      OnlyOneHandMoves(l, e);
    }
  }

  predicate WorkingRun(l: Ledger, events: seq<Event>)
    requires PossibleRun(l, events)
    decreases |events|
  {
    events == [] ||
    (var n := |events| - 1; WorkingRun(l, events[..n]) && Working(Run(l, events[..n]), events[n]))
  }

  /** A run without new gifts over draining entries has at most TotalCost working steps. */
  lemma {:induction false} DrainTerminates(l: Ledger, events: seq<Event>)
    requires Draining(l) && PossibleRun(l, events) && WorkingRun(l, events)
    ensures Draining(Run(l, events))
    ensures |events| + TotalCost(Run(l, events)) <= TotalCost(l)
    ensures |events| <= TotalCost(l)
    decreases |events|
  {
    if events != [] {
      var n := |events| - 1;
      DrainTerminates(l, events[..n]);
      StepSpends(Run(l, events[..n]), events[n]);
      StepKeepsDraining(Run(l, events[..n]), events[n]);
    }
    TotalCostNonNegative(Run(l, events));
  }

  lemma {:induction false} RunKeepsDraining(l: Ledger, events: seq<Event>, admitted: iset<Entry>)
    requires Draining(l) && PossibleRun(l, events) && OnlyAdmits(events, admitted)
    requires forall e :: e in admitted ==> Drains(e, l.maxRetries)
    ensures Draining(Run(l, events)) && Run(l, events).maxRetries == l.maxRetries
    decreases |events|
  {
    if events != [] {
      var n := |events| - 1;
      RunKeepsDraining(l, events[..n], admitted);
      StepKeepsDraining(Run(l, events[..n]), events[n]);
    }
  }

  ghost predicate EndsWithin(l: Ledger, n: nat) {
    forall events :: PossibleRun(l, events) && WorkingRun(l, events) ==> |events| <= n
  }

  /** After this run, once gifts stop arriving, only so many steps of work are left. */
  ghost predicate BacklogEnds(maxRetries: int, instances: nat, before: seq<Event>, admitted: iset<Entry>) {
    PossibleRun(Fresh(maxRetries, instances), before) && OnlyAdmits(before, admitted) ==>
      exists n :: EndsWithin(Run(Fresh(maxRetries, instances), before), n)
  }

  /** Main result: every backlog of admitted entries drains, on any number of instances and whatever Laravel
      answers, if and only if each admitted entry drains. */
  lemma BacklogsDrainIffEntriesDo(admitted: iset<Entry>, maxRetries: int)
    ensures (forall instances, before :: BacklogEnds(maxRetries, instances, before, admitted))
            <==> forall e :: e in admitted ==> Drains(e, maxRetries)
  {
    if forall e :: e in admitted ==> Drains(e, maxRetries) {
      forall instances: nat, before ensures BacklogEnds(maxRetries, instances, before, admitted) {
        if PossibleRun(Fresh(maxRetries, instances), before) && OnlyAdmits(before, admitted) {
          RunKeepsDraining(Fresh(maxRetries, instances), before, admitted);
          DrainingEnds(Run(Fresh(maxRetries, instances), before));
        }
      }
    } else {
      var e :| e in admitted && !Drains(e, maxRetries);
      var before := [] + [EnqueueEvent(e)];
      Next(Fresh(maxRetries, 1), [], Fresh(maxRetries, 1), EnqueueEvent(e), Alone(e, maxRetries));
      StubbornEntryNeverDrains(e, maxRetries);
      assert OnlyAdmits(before, admitted);
      assert !BacklogEnds(maxRetries, 1, before, admitted);
    }
  }

  lemma DrainingEnds(l: Ledger)
    requires Draining(l)
    ensures exists n :: EndsWithin(l, n)
  {
    TotalCostNonNegative(l);
    forall events | PossibleRun(l, events) && WorkingRun(l, events) ensures |events| <= TotalCost(l) {
      DrainTerminates(l, events);
    }
    assert EndsWithin(l, TotalCost(l));
  }

  /** ... and a backlog can only stop for good with an empty queue and nothing in flight. */
  lemma StoppedMeansDrained(l: Ledger)
    requires |l.flushes| > 0
    requires forall e :: Possible(l, e) ==> !Working(l, e)
    ensures l.queue == []
    ensures forall f :: 0 <= f < |l.flushes| ==> l.flushes[f].Idle?
  {
    forall f | 0 <= f < |l.flushes|
      ensures l.flushes[f].Idle?
    {
      match l.flushes[f] {
        case Idle =>
        case Sorting(_, _) => assert Possible(l, SortEvent(f)); assert false;
        case Posting(_) => assert Possible(l, PostThrows(f)); assert false;
        case Fallback(rest, _, _) =>
          assert Possible(l, if rest == [] then ExecEvent(f) else ItemEvent(f, ItemThrows));
          assert false;
      }
    }
    assert Possible(l, PopEvent(0));
  }

  // ----- entries that never leave -----

  function Alone(e: Entry, maxRetries: int): Ledger {
    Fresh(maxRetries, 1).(queue := [e], arrived := [e])
  }

  lemma StubbornEntryNeverDrains(e: Entry, maxRetries: int)
    requires !Drains(e, maxRetries)
    ensures forall n :: !EndsWithin(Alone(e, maxRetries), n)
  {
    forall n: nat ensures !EndsWithin(Alone(e, maxRetries), n) {
      var events := Cycles(e, maxRetries, n + 1);
    }
  }

  /** Any number of flushes, each refused twice, brings the queue back to where it was. */
  lemma {:induction false} Cycles(e: Entry, maxRetries: int, k: nat) returns (events: seq<Event>)
    requires !Drains(e, maxRetries)
    ensures var l := Alone(e, maxRetries);
            PossibleRun(l, events) && WorkingRun(l, events) && Run(l, events) == l && |events| == 6 * k
  {
    var l := Alone(e, maxRetries);
    if k == 0 {
      events := [];
    } else {
      var before := Cycles(e, maxRetries, k - 1);
      OnePass(e, maxRetries);
      OneRefusal(e, maxRetries);
      OneRequeue(e, maxRetries);
      var popped, sorted := l.(queue := [], flushes := [Sorting([e], [])]), l.(queue := [], flushes := [Sorting([], [e])]);
      var posting, fallback := l.(queue := [], flushes := [Posting([e])]), l.(queue := [], flushes := [Fallback([e], [], [])]);
      var e1 := NextWorking(l, before, l, PopEvent(0), popped);
      var e2 := NextWorking(l, e1, popped, SortEvent(0), sorted);
      var e3 := NextWorking(l, e2, sorted, SortEvent(0), posting);
      var e4 := NextWorking(l, e3, posting, PostThrows(0), fallback);
      var e5 := NextWorking(l, e4, fallback, ItemEvent(0, ItemThrows), l.(queue := [], flushes := [Fallback([], [e], [])]));
      events := NextWorking(l, e5, l.(queue := [], flushes := [Fallback([], [e], [])]), ExecEvent(0), l);
    }
  }

  lemma NextWorking(base: Ledger, events: seq<Event>, l: Ledger, e: Event, l': Ledger) returns (more: seq<Event>)
    requires PossibleRun(base, events) && WorkingRun(base, events) && Run(base, events) == l
    requires Possible(l, e) && Working(l, e) && Step(l, e) == l'
    ensures PossibleRun(base, more) && WorkingRun(base, more) && Run(base, more) == l' && |more| == |events| + 1
  {
    Extend(base, events, e);
    more := events + [e];
    assert more[..|events|] == events;
  }

  lemma OnePass(e: Entry, maxRetries: int)
    requires !Drains(e, maxRetries)
    ensures var l := Alone(e, maxRetries).(queue := []);
            var popped, sorted := l.(flushes := [Sorting([e], [])]), l.(flushes := [Sorting([], [e])]);
            && Step(Alone(e, maxRetries), PopEvent(0)) == popped
            && Step(popped, SortEvent(0)) == sorted
            && Step(sorted, SortEvent(0)) == l.(flushes := [Posting([e])])
  {
    assert [e][..1] == [e] && [e][1..] == [] && [] + [e] == [e];
    assert !HasUntimed([e]);
  }

  lemma OneRefusal(e: Entry, maxRetries: int)
    requires !Drains(e, maxRetries)
    ensures var l := Alone(e, maxRetries).(queue := []);
            var posting, fallback := l.(flushes := [Posting([e])]), l.(flushes := [Fallback([e], [], [])]);
            var requeued := l.(flushes := [Fallback([], [e], [])]);
            Step(posting, PostThrows(0)) == fallback && Step(fallback, ItemEvent(0, ItemThrows)) == requeued
  {
    assert [e][1..] == [] && [] + [e] == [e];
    assert AfterThrow(e, maxRetries) == Requeues(e);
  }

  lemma OneRequeue(e: Entry, maxRetries: int)
    ensures Step(Alone(e, maxRetries).(queue := [], flushes := [Fallback([], [e], [])]), ExecEvent(0))
            == Alone(e, maxRetries)
  {
    assert Fresh(maxRetries, 1).flushes == [Idle];
    assert [] + [e] == [e];
  }

  // ----- retry counts -----

  ghost predicate BelowMax(s: seq<Entry>, maxRetries: int) {
    forall x :: x in s && x.Buffered? && x.retries.Number? ==> x.retries.n < maxRetries
  }

  ghost predicate HandsBelowMax(x: Flush, maxRetries: int) {
    x.Fallback? ==> BelowMax(x.requeue, maxRetries)
  }

  ghost predicate RetriesBounded(l: Ledger) {
    && BelowMax(l.queue, l.maxRetries)
    && forall f :: 0 <= f < |l.flushes| ==> HandsBelowMax(l.flushes[f], l.maxRetries)
  }

  lemma HandStaysBelowMax(l: Ledger, e: Event)
    requires Possible(l, e) && !e.EnqueueEvent?
    requires BelowMax(l.queue, l.maxRetries) && HandsBelowMax(l.flushes[e.f], l.maxRetries)
    ensures BelowMax(Step(l, e).queue, l.maxRetries) && HandsBelowMax(Step(l, e).flushes[e.f], l.maxRetries)
  {
  }

  lemma StepKeepsRetriesBounded(l: Ledger, e: Event)
    requires RetriesBounded(l) && Possible(l, e)
    requires e.EnqueueEvent? && e.entry.Buffered? && e.entry.retries.Number? ==> e.entry.retries.n < l.maxRetries
    ensures RetriesBounded(Step(l, e)) && Step(l, e).maxRetries == l.maxRetries
  {
    if !e.EnqueueEvent? {
      assert HandsBelowMax(l.flushes[e.f], l.maxRetries);
      HandStaysBelowMax(l, e);
      OnlyOneHandMoves(l, e);
    }
  }

  /** No queued count ever reaches the retry limit: the retry that would reach it goes to the dead letter. */
  lemma {:induction false} QueuedGiftsHaveRetriesLeft(l: Ledger, events: seq<Event>, admitted: iset<Entry>)
    requires RetriesBounded(l) && PossibleRun(l, events)
    requires OnlyAdmits(events, admitted)
    requires forall e :: e in admitted && e.Buffered? && e.retries.Number? ==> e.retries.n < l.maxRetries
    ensures RetriesBounded(Run(l, events)) && Run(l, events).maxRetries == l.maxRetries
    decreases |events|
  {
    if events != [] {
      var n := |events| - 1;
      QueuedGiftsHaveRetriesLeft(l, events[..n], admitted);
      StepKeepsRetriesBounded(Run(l, events[..n]), events[n]);
    }
  }
}
