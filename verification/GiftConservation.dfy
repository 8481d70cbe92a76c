/** No gift appears, disappears or is settled twice, except that a fatal entry may take its whole batch with
    it; which entries are fatal, and that without them nothing is lost. */
module GiftConservation {
  import opened GiftLedger

  lemma {:induction false} CountConcat(s: seq<Entry>, t: seq<Entry>, b: Entry)
    ensures Count(s + t, b) == Count(s, b) + Count(t, b)
  {
    if s == [] {
      assert s + t == t;
    } else {
      CountConcat(s[1..], t, b);
      assert (s + t)[1..] == s[1..] + t;
    }
  }

  lemma CountSplit(s: seq<Entry>, n: nat, b: Entry)
    requires n <= |s|
    ensures Count(s, b) == Count(s[..n], b) + Count(s[n..], b)
  {
    CountConcat(s[..n], s[n..], b);
    assert s[..n] + s[n..] == s;
  }

  lemma {:induction false} SelectPartitions(s: seq<Entry>, refused: set<Entry>, b: Entry)
    ensures Count(s, b) == Count(Select(s, refused, false), b) + Count(Select(s, refused, true), b)
  {
    if s != [] {
      SelectPartitions(s[1..], refused, b);
      var hit := Body(s[0]) in refused;
      CountConcat([s[0]], Select(s[1..], refused, hit), b);
      assert [] + Select(s[1..], refused, !hit) == Select(s[1..], refused, !hit);
    }
  }

  /** What a flush has popped and not yet settled. */
  function InHand(x: Flush, b: Entry): nat {
    match x
    case Idle => 0
    case Sorting(rest, transactions) => Count(rest, b) + Count(transactions, b)
    case Posting(transactions) => Count(transactions, b)
    case Fallback(rest, requeue, toDead) => Count(rest, b) + Count(requeue, b) + Count(toDead, b)
  }

  function InFlight(flushes: seq<Flush>, b: Entry): nat {
    if flushes == [] then 0 else InHand(flushes[0], b) + InFlight(flushes[1..], b)
  }

  lemma {:induction false} InFlightUpdate(flushes: seq<Flush>, f: nat, x: Flush, b: Entry)
    requires f < |flushes|
    ensures InFlight(flushes[f := x], b) + InHand(flushes[f], b) == InFlight(flushes, b) + InHand(x, b)
  {
    if f == 0 {
      assert flushes[0 := x][1..] == flushes[1..];
    } else {
      InFlightUpdate(flushes[1..], f - 1, x, b);
      assert flushes[f := x][1..] == flushes[1..][f - 1 := x];
    }
  }

  function Settled(l: Ledger, b: Entry): nat {
    Count(l.accepted, b) + Count(l.failed, b) + Count(l.dead, b) + Count(l.trimmed, b) + Count(l.lost, b)
  }

  /** The books balance: each gift is as often queued, in flight or settled as it ever arrived. */
  ghost predicate Balanced(l: Ledger, b: Entry) {
    Count(l.arrived, b) == Count(l.queue, b) + InFlight(l.flushes, b) + Settled(l, b)
  }

  lemma PushDeadKeepsBalance(l: Ledger, more: seq<Entry>, b: Entry)
    ensures var l' := PushDeadTrimmed(l, more);
            && Count(l'.dead, b) + Count(l'.trimmed, b) == Count(l.dead, b) + Count(more, b) + Count(l.trimmed, b)
            && l' == l.(dead := l'.dead, trimmed := l'.trimmed)
            && (more != [] ==> |l'.dead| <= DEAD_LETTER_MAX_LENGTH)
  {
    if more != [] {
      var all := l.dead + more;
      var surplus := |all| - Min(|all|, DEAD_LETTER_MAX_LENGTH);
      CountConcat(l.dead, more, b);
      CountSplit(all, surplus, b);
      CountConcat(l.trimmed, all[..surplus], b);
    }
  }

  /** One flush moves entries between its hands, the queue and the settled books. */
  lemma MoveBalances(l: Ledger, l': Ledger, f: nat, b: Entry)
    requires Balanced(l, b) && f < |l.flushes| && |l'.flushes| == |l.flushes|
    requires l'.flushes == l.flushes[f := l'.flushes[f]] && l'.arrived == l.arrived
    requires Count(l'.queue, b) + InHand(l'.flushes[f], b) + Settled(l', b)
             == Count(l.queue, b) + InHand(l.flushes[f], b) + Settled(l, b)
    ensures Balanced(l', b)
  {
    InFlightUpdate(l.flushes, f, l'.flushes[f], b);
  }

  lemma CountOne(s: seq<Entry>, x: Entry, b: Entry)
    ensures Count(s + [x], b) == Count(s, b) + (if Body(x) == Body(b) then 1 else 0)
  {
    CountConcat(s, [x], b);
    assert [x][1..] == [];
  }

  lemma EndSortBalances(l: Ledger, f: nat, transactions: seq<Entry>, b: Entry)
    requires Balanced(l, b) && f < |l.flushes| && l.flushes[f] == Sorting([], transactions)
    ensures Balanced(EndSort(l, f, transactions), b)
  {
    if transactions == [] {
      MoveBalances(l, SetFlush(l, f, Idle), f, b);
    } else if HasUntimed(transactions) {
      CountConcat(l.lost, transactions, b);
      MoveBalances(l, SetFlush(l, f, Idle).(lost := l.lost + transactions), f, b);
    } else {
      MoveBalances(l, SetFlush(l, f, Posting(transactions)), f, b);
    }
  }

  lemma SortBalances(l: Ledger, f: nat, x: Entry, rest: seq<Entry>, transactions: seq<Entry>, b: Entry)
    requires Balanced(l, b) && f < |l.flushes| && l.flushes[f] == Sorting([x] + rest, transactions)
    ensures Balanced(SetFlush(l, f, Sorting(rest, transactions)).(dead := l.dead + [x]), b)
    ensures Balanced(SetFlush(l, f, Sorting(rest, transactions + [x])), b)
  {
    CountOne(l.dead, x, b);
    CountOne(transactions, x, b);
    assert ([x] + rest)[1..] == rest;
    MoveBalances(l, SetFlush(l, f, Sorting(rest, transactions)).(dead := l.dead + [x]), f, b);
    MoveBalances(l, SetFlush(l, f, Sorting(rest, transactions + [x])), f, b);
  }

  lemma PostedBalances(l: Ledger, f: nat, refused: set<Entry>, b: Entry)
    requires Balanced(l, b) && Possible(l, PostedEvent(f, refused))
    ensures Balanced(Step(l, PostedEvent(f, refused)), b)
  {
    var t := l.flushes[f].transactions;
    InFlightUpdate(l.flushes, f, Idle, b);
    SelectPartitions(t, refused, b);
    CountConcat(l.accepted, Select(t, refused, false), b);
    CountConcat(l.failed, Select(t, refused, true), b);
  }

  lemma ItemAcceptedBalances(l: Ledger, f: nat, b: Entry)
    requires Balanced(l, b) && Possible(l, ItemEvent(f, ItemAccepted))
    ensures Balanced(Step(l, ItemEvent(f, ItemAccepted)), b)
  {
    CountOne(l.accepted, l.flushes[f].rest[0], b);
    MoveBalances(l, Step(l, ItemEvent(f, ItemAccepted)), f, b);
  }

  lemma ItemFailedBalances(l: Ledger, f: nat, b: Entry)
    requires Balanced(l, b) && Possible(l, ItemEvent(f, ItemFailed))
    ensures Balanced(Step(l, ItemEvent(f, ItemFailed)), b)
  {
    CountOne(l.failed, l.flushes[f].rest[0], b);
    MoveBalances(l, Step(l, ItemEvent(f, ItemFailed)), f, b);
  }

  /** A re-queued entry is the same gift with another count. */
  lemma RequeueKeepsBody(x: Entry, maxRetries: int)
    requires AfterThrow(x, maxRetries).Requeues?
    ensures Body(AfterThrow(x, maxRetries).entry) == Body(x)
  {
  }

  lemma BreakBalances(l: Ledger, f: nat, b: Entry)
    requires Balanced(l, b) && f < |l.flushes| && l.flushes[f].Fallback?
    ensures Balanced(Break(l, f), b)
  {
    var fb := l.flushes[f];
    CountConcat(l.lost, fb.rest, b);
    CountConcat(l.lost + fb.rest, fb.requeue, b);
    CountConcat(l.lost + fb.rest + fb.requeue, fb.toDead, b);
    MoveBalances(l, Break(l, f), f, b);
  }

  lemma ItemThrowBalances(l: Ledger, f: nat, b: Entry)
    requires Balanced(l, b) && Possible(l, ItemEvent(f, ItemThrows))
    ensures Balanced(Step(l, ItemEvent(f, ItemThrows)), b)
  {
    var fb := l.flushes[f];
    match AfterThrow(fb.rest[0], l.maxRetries)
    case DeadLetters =>
      CountOne(fb.toDead, fb.rest[0], b);
      MoveBalances(l, Throw(l, f), f, b);
    case Requeues(entry) =>
      RequeueKeepsBody(fb.rest[0], l.maxRetries);
      CountOne(fb.requeue, entry, b);
      MoveBalances(l, Throw(l, f), f, b);
    case Breaks => BreakBalances(l, f, b);
  }

  lemma EnqueueBalances(l: Ledger, entry: Entry, b: Entry)
    requires Balanced(l, b)
    ensures Balanced(Step(l, EnqueueEvent(entry)), b)
  {
    CountOne(l.queue, entry, b);
    CountOne(l.arrived, entry, b);
  }

  lemma PopBalances(l: Ledger, f: nat, b: Entry)
    requires Balanced(l, b) && Possible(l, PopEvent(f))
    ensures Balanced(Step(l, PopEvent(f)), b)
  {
    var n := Min(|l.queue|, MAX_BATCH_SIZE);
    if n > 0 {
      var popped := SetFlush(l, f, Sorting(l.queue[..n], [])).(queue := l.queue[n..]);
      CountSplit(l.queue, n, b);
      assert Count([], b) == 0;
      MoveBalances(l, popped, f, b);
    }
  }

  lemma PostThrowBalances(l: Ledger, f: nat, b: Entry)
    requires Balanced(l, b) && Possible(l, PostThrows(f))
    ensures Balanced(Step(l, PostThrows(f)), b)
  {
    InFlightUpdate(l.flushes, f, Fallback(l.flushes[f].transactions, [], []), b);
  }

  lemma SortEventBalances(l: Ledger, f: nat, b: Entry)
    requires Balanced(l, b) && Possible(l, SortEvent(f))
    ensures Balanced(Step(l, SortEvent(f)), b)
  {
    var s := l.flushes[f];
    if s.rest == [] {
      EndSortBalances(l, f, s.transactions, b);
    } else {
      assert [s.rest[0]] + s.rest[1..] == s.rest;
      SortBalances(l, f, s.rest[0], s.rest[1..], s.transactions, b);
    }
  }

  lemma ExecBalances(l: Ledger, f: nat, b: Entry)
    requires Balanced(l, b) && Possible(l, ExecEvent(f))
    ensures Balanced(Step(l, ExecEvent(f)), b)
  {
    var fb := l.flushes[f];
    InFlightUpdate(l.flushes, f, Idle, b);
    CountConcat(l.queue, fb.requeue, b);
    PushDeadKeepsBalance(SetFlush(l, f, Idle).(queue := l.queue + fb.requeue), fb.toDead, b);
  }

  lemma StepBalances(l: Ledger, e: Event, b: Entry)
    requires Balanced(l, b) && Possible(l, e)
    ensures Balanced(Step(l, e), b)
  {
    match e
    case EnqueueEvent(entry) => EnqueueBalances(l, entry, b);
    case PopEvent(f) => PopBalances(l, f, b);
    case SortEvent(f) => SortEventBalances(l, f, b);
    case PostedEvent(f, refused) => PostedBalances(l, f, refused, b);
    case PostThrows(f) => PostThrowBalances(l, f, b);
    case ItemEvent(f, reply) =>
      match reply {
        case ItemAccepted => ItemAcceptedBalances(l, f, b);
        case ItemFailed => ItemFailedBalances(l, f, b);
        case ItemThrows => ItemThrowBalances(l, f, b);
      }
    case ExecEvent(f) => ExecBalances(l, f, b);
  }

  lemma {:induction false} IdleHoldsNothing(flushes: seq<Flush>, b: Entry)
    requires forall f :: 0 <= f < |flushes| ==> flushes[f].Idle?
    ensures InFlight(flushes, b) == 0
  {
    if flushes != [] { IdleHoldsNothing(flushes[1..], b); }
  }

  lemma {:induction false} RunBalances(l: Ledger, events: seq<Event>, b: Entry)
    requires Balanced(l, b) && PossibleRun(l, events)
    ensures Balanced(Run(l, events), b)
    decreases |events|
  {
    if events != [] {
      var n := |events| - 1;
      RunBalances(l, events[..n], b);
      StepBalances(Run(l, events[..n]), events[n], b);
    }
  }

  /** Main result: over every interleaving of flushes and arrivals each gift b that ever arrived is queued,
      in flight, accepted, reported failed, dead-lettered or trimmed, or was in a batch that an exception lost. */
  lemma {:induction false} GiftsAreConserved(maxRetries: int, instances: nat, events: seq<Event>, b: Entry)
    requires PossibleRun(Fresh(maxRetries, instances), events)
    ensures var l := Run(Fresh(maxRetries, instances), events);
            Count(l.arrived, b)
            == Count(l.queue, b) + InFlight(l.flushes, b) + Count(l.accepted, b) + Count(l.failed, b)
               + Count(l.dead, b) + Count(l.trimmed, b) + Count(l.lost, b)
  {
    IdleHoldsNothing(Fresh(maxRetries, instances).flushes, b);
    RunBalances(Fresh(maxRetries, instances), events, b);
  }

  // ----- the two ways to lose gifts -----

  /** A step loses gifts exactly when it ends a parse that let an untimed entry through, or when the own POST
      of an item throws that cannot take a retry count. */
  lemma StepLosesIff(l: Ledger, e: Event)
    requires Possible(l, e)
    ensures Step(l, e).lost != l.lost <==>
      || (e.SortEvent? && l.flushes[e.f].rest == [] && HasUntimed(l.flushes[e.f].transactions))
      || (e.ItemEvent? && e.reply.ItemThrows? && AfterThrow(l.flushes[e.f].rest[0], l.maxRetries).Breaks?)
  {
    if e.SortEvent? {
      var t := l.flushes[e.f].transactions;
      assert t != [] ==> |l.lost + t| > |l.lost|;
    } else if e.ItemEvent? {
      var fb := l.flushes[e.f];
      assert |l.lost + fb.rest + fb.requeue + fb.toDead| > |l.lost|;
    }
  }

  /** Entries that can take their batch with them; one look at the text tells. */
  predicate Fatal(e: Entry, maxRetries: int) {
    match e
    case Untimed(_) => true
    case Nested(_) => true
    case Primitive(_) => 1 < maxRetries
    case Buffered(_, r) => r.Inconvertible?
    case _ => false
  }

  ghost predicate NoneFatal(s: seq<Entry>, maxRetries: int) {
    forall x :: x in s ==> !Fatal(x, maxRetries)
  }

  ghost predicate Parsed(s: seq<Entry>) {
    forall x :: x in s ==> !x.Corrupt?
  }

  ghost predicate HandsSafe(x: Flush, maxRetries: int) {
    match x
    case Idle => true
    case Sorting(rest, transactions) =>
      NoneFatal(rest, maxRetries) && NoneFatal(transactions, maxRetries) && Parsed(transactions)
    case Posting(transactions) => NoneFatal(transactions, maxRetries) && Parsed(transactions)
    case Fallback(rest, requeue, _) =>
      NoneFatal(rest, maxRetries) && Parsed(rest) && NoneFatal(requeue, maxRetries)
  }

  ghost predicate Safe(l: Ledger) {
    && l.lost == [] && NoneFatal(l.queue, l.maxRetries)
    && forall f :: 0 <= f < |l.flushes| ==> HandsSafe(l.flushes[f], l.maxRetries)
  }

  lemma ThrowStaysSafe(l: Ledger, f: nat)
    requires Possible(l, ItemEvent(f, ItemThrows)) && HandsSafe(l.flushes[f], l.maxRetries)
    ensures var l' := Throw(l, f);
            l'.flushes == l.flushes[f := l'.flushes[f]] && HandsSafe(l'.flushes[f], l.maxRetries)
            && l' == l.(flushes := l'.flushes)
  {
    var x := l.flushes[f].rest[0];
    assert !Fatal(x, l.maxRetries) && !x.Corrupt?;
  }

  lemma HandStaysSafe(l: Ledger, e: Event)
    requires Possible(l, e) && !e.EnqueueEvent? && l.lost == []
    requires NoneFatal(l.queue, l.maxRetries) && HandsSafe(l.flushes[e.f], l.maxRetries)
    ensures var l' := Step(l, e);
            && |l'.flushes| == |l.flushes| && l'.flushes == l.flushes[e.f := l'.flushes[e.f]]
            && l'.maxRetries == l.maxRetries && l'.lost == []
            && NoneFatal(l'.queue, l.maxRetries) && HandsSafe(l'.flushes[e.f], l.maxRetries)
  {
    match e
    case ItemEvent(f, reply) => if reply.ItemThrows? { ThrowStaysSafe(l, f); }
    case _ =>
  }

  lemma StepKeepsSafe(l: Ledger, e: Event)
    requires Safe(l) && Possible(l, e) && (e.EnqueueEvent? ==> !Fatal(e.entry, l.maxRetries))
    ensures Safe(Step(l, e)) && Step(l, e).maxRetries == l.maxRetries
  {
    if !e.EnqueueEvent? {
      assert HandsSafe(l.flushes[e.f], l.maxRetries);
      HandStaysSafe(l, e);
    }
  }

  /** Every entry enqueued in this run is one of these. */
  ghost predicate OnlyAdmits(events: seq<Event>, admitted: iset<Entry>) {
    forall i :: 0 <= i < |events| && events[i].EnqueueEvent? ==> events[i].entry in admitted
  }

  lemma {:induction false} RunKeepsSafe(l: Ledger, events: seq<Event>, admitted: iset<Entry>)
    requires Safe(l) && PossibleRun(l, events) && OnlyAdmits(events, admitted)
    requires forall e :: e in admitted ==> !Fatal(e, l.maxRetries)
    ensures Safe(Run(l, events)) && Run(l, events).maxRetries == l.maxRetries
    decreases |events|
  {
    if events != [] {
      var n := |events| - 1;
      RunKeepsSafe(l, events[..n], admitted);
      StepKeepsSafe(Run(l, events[..n]), events[n]);
    }
  }

  /** Main result on losses: over all runs of any number of instances nothing is lost if and only if none of
      the entries that may be enqueued is fatal. */
  lemma NothingLostIffNoneFatal(admitted: iset<Entry>, maxRetries: int)
    ensures (forall instances, events :: LosesNothing(maxRetries, instances, events, admitted))
            <==> forall e :: e in admitted ==> !Fatal(e, maxRetries)
  {
    if forall e :: e in admitted ==> !Fatal(e, maxRetries) {
      forall instances: nat, events ensures LosesNothing(maxRetries, instances, events, admitted) {
        if PossibleRun(Fresh(maxRetries, instances), events) && OnlyAdmits(events, admitted) {
          RunKeepsSafe(Fresh(maxRetries, instances), events, admitted);
        }
      }
    } else {
      var e :| e in admitted && Fatal(e, maxRetries);
      FatalTakesNeighbourDown(e, e, maxRetries);
      assert !LosesNothing(maxRetries, 1, FatalRun(e, e), admitted);
    }
  }

  ghost predicate LosesNothing(maxRetries: int, instances: nat, events: seq<Event>, admitted: iset<Entry>) {
    PossibleRun(Fresh(maxRetries, instances), events) && OnlyAdmits(events, admitted) ==>
      Run(Fresh(maxRetries, instances), events).lost == []
  }

  function FatalPop(e: Entry, neighbour: Entry): seq<Event> {
    [EnqueueEvent(e), EnqueueEvent(neighbour), PopEvent(0)]
  }

  /** An untimed entry breaks the timestamp loop, any other fatal one the fallback that a refused batch leads to. */
  function FatalRun(e: Entry, neighbour: Entry): seq<Event> {
    FatalPop(e, neighbour) + [SortEvent(0), SortEvent(0), SortEvent(0)]
    + if e.Untimed? || neighbour.Untimed? then [] else [PostThrows(0), ItemEvent(0, ItemThrows)]
  }

  /** Whatever valid entry is popped beside a fatal one vanishes with it: neither queued, accepted, failed
      nor dead-lettered. */
  lemma FatalTakesNeighbourDown(e: Entry, neighbour: Entry, maxRetries: int)
    requires Fatal(e, maxRetries) && !neighbour.Corrupt?
    ensures PossibleRun(Fresh(maxRetries, 1), FatalRun(e, neighbour))
    ensures var end := Run(Fresh(maxRetries, 1), FatalRun(e, neighbour));
            end.lost == [e, neighbour] && end.flushes == [Idle] && end.queue == []
            && end.accepted == end.failed == end.dead == end.trimmed == []
  {
    FatalIsParsed(e, neighbour, maxRetries);
    if e.Untimed? || neighbour.Untimed? {
      TimingBreaks(e, neighbour, maxRetries);
    } else {
      FallbackBreaks(e, neighbour, maxRetries);
    }
  }

  /** What every stage of the run has in common: everything that arrived is in the one flush's hands. */
  function InHands(e: Entry, neighbour: Entry, maxRetries: int, hands: Flush): Ledger {
    Fresh(maxRetries, 1).(arrived := [e, neighbour], flushes := [hands])
  }

  function FatalParse(e: Entry, neighbour: Entry): seq<Event> {
    FatalPop(e, neighbour) + [SortEvent(0), SortEvent(0)]
  }

  lemma ParseTwo(e: Entry, neighbour: Entry, maxRetries: int)
    requires !e.Corrupt? && !neighbour.Corrupt?
    ensures var s3 := InHands(e, neighbour, maxRetries, Sorting([e, neighbour], []));
            var s4 := InHands(e, neighbour, maxRetries, Sorting([neighbour], [e]));
            Step(s3, SortEvent(0)) == s4
            && Step(s4, SortEvent(0)) == InHands(e, neighbour, maxRetries, Sorting([], [e, neighbour]))
  {
    assert [e, neighbour][1..] == [neighbour] && [neighbour][1..] == [];
    assert [] + [e] == [e] && [e] + [neighbour] == [e, neighbour];
  }

  lemma FatalIsParsed(e: Entry, neighbour: Entry, maxRetries: int)
    requires !e.Corrupt? && !neighbour.Corrupt?
    ensures PossibleRun(Fresh(maxRetries, 1), FatalParse(e, neighbour))
    ensures Run(Fresh(maxRetries, 1), FatalParse(e, neighbour))
            == InHands(e, neighbour, maxRetries, Sorting([], [e, neighbour]))
  {
    var l0, e3 := Fresh(maxRetries, 1), FatalPop(e, neighbour);
    FatalIsPopped(e, neighbour, maxRetries);
    ParseTwo(e, neighbour, maxRetries);
    var s4 := InHands(e, neighbour, maxRetries, Sorting([neighbour], [e]));
    Next(l0, e3, InHands(e, neighbour, maxRetries, Sorting([e, neighbour], [])), SortEvent(0), s4);
    Next(l0, e3 + [SortEvent(0)], s4, SortEvent(0), InHands(e, neighbour, maxRetries, Sorting([], [e, neighbour])));
    assert e3 + [SortEvent(0)] + [SortEvent(0)] == FatalParse(e, neighbour);
  }

  lemma TimingBreaks(e: Entry, neighbour: Entry, maxRetries: int)
    requires e.Untimed? || neighbour.Untimed?
    requires PossibleRun(Fresh(maxRetries, 1), FatalParse(e, neighbour))
    requires Run(Fresh(maxRetries, 1), FatalParse(e, neighbour))
             == InHands(e, neighbour, maxRetries, Sorting([], [e, neighbour]))
    ensures PossibleRun(Fresh(maxRetries, 1), FatalRun(e, neighbour))
    ensures Run(Fresh(maxRetries, 1), FatalRun(e, neighbour))
            == InHands(e, neighbour, maxRetries, Idle).(lost := [e, neighbour])
  {
    var batch, e5 := [e, neighbour], FatalParse(e, neighbour);
    assert e in batch && neighbour in batch;
    var s5 := InHands(e, neighbour, maxRetries, Sorting([], batch));
    assert [] + batch == batch;
    Next(Fresh(maxRetries, 1), e5, s5, SortEvent(0), InHands(e, neighbour, maxRetries, Idle).(lost := batch));
    assert e5 + [SortEvent(0)] == FatalRun(e, neighbour);
  }

  lemma FallbackBreaks(e: Entry, neighbour: Entry, maxRetries: int)
    requires !e.Untimed? && !neighbour.Untimed? && Fatal(e, maxRetries)
    requires PossibleRun(Fresh(maxRetries, 1), FatalParse(e, neighbour))
    requires Run(Fresh(maxRetries, 1), FatalParse(e, neighbour))
             == InHands(e, neighbour, maxRetries, Sorting([], [e, neighbour]))
    ensures PossibleRun(Fresh(maxRetries, 1), FatalRun(e, neighbour))
    ensures Run(Fresh(maxRetries, 1), FatalRun(e, neighbour))
            == InHands(e, neighbour, maxRetries, Idle).(lost := [e, neighbour])
  {
    var l0, batch, e5 := Fresh(maxRetries, 1), [e, neighbour], FatalParse(e, neighbour);
    var s6 := InHands(e, neighbour, maxRetries, Posting(batch));
    var s7 := InHands(e, neighbour, maxRetries, Fallback(batch, [], []));
    RefusedBatchBreaks(e, neighbour, maxRetries);
    Next(l0, e5, InHands(e, neighbour, maxRetries, Sorting([], batch)), SortEvent(0), s6);
    var e6 := e5 + [SortEvent(0)];
    Next(l0, e6, s6, PostThrows(0), s7);
    var e7 := e6 + [PostThrows(0)];
    Next(l0, e7, s7, ItemEvent(0, ItemThrows), InHands(e, neighbour, maxRetries, Idle).(lost := batch));
    assert e7 + [ItemEvent(0, ItemThrows)] == FatalRun(e, neighbour);
  }

  lemma RefusedBatchBreaks(e: Entry, neighbour: Entry, maxRetries: int)
    requires !e.Untimed? && !neighbour.Untimed? && Fatal(e, maxRetries)
    ensures var batch := [e, neighbour];
            var s5 := InHands(e, neighbour, maxRetries, Sorting([], batch));
            var s6 := InHands(e, neighbour, maxRetries, Posting(batch));
            var s7 := InHands(e, neighbour, maxRetries, Fallback(batch, [], []));
            && Step(s5, SortEvent(0)) == s6 && Step(s6, PostThrows(0)) == s7
            && Step(s7, ItemEvent(0, ItemThrows)) == InHands(e, neighbour, maxRetries, Idle).(lost := batch)
  {
    var batch := [e, neighbour];
    assert !HasUntimed(batch);
    assert [] + batch + [] + [] == batch;
    assert AfterThrow(batch[0], maxRetries).Breaks?;
  }

  lemma FatalIsPopped(e: Entry, neighbour: Entry, maxRetries: int)
    ensures PossibleRun(Fresh(maxRetries, 1), FatalPop(e, neighbour))
    ensures Run(Fresh(maxRetries, 1), FatalPop(e, neighbour))
            == Fresh(maxRetries, 1).(arrived := [e, neighbour], flushes := [Sorting([e, neighbour], [])])
  {
    var l0, batch := Fresh(maxRetries, 1), [e, neighbour];
    assert l0.flushes == [Idle] && [] + [e] == [e] && [e] + [neighbour] == batch;
    var s1 := l0.(queue := [e], arrived := [e]);
    var s2 := l0.(queue := batch, arrived := batch);
    Next(l0, [], l0, EnqueueEvent(e), s1);
    var e1 := [] + [EnqueueEvent(e)];
    Next(l0, e1, s1, EnqueueEvent(neighbour), s2);
    var e2 := e1 + [EnqueueEvent(neighbour)];
    assert batch[..2] == batch && batch[2..] == [];
    Next(l0, e2, s2, PopEvent(0), l0.(arrived := batch, flushes := [Sorting(batch, [])]));
    assert e2 + [PopEvent(0)] == FatalPop(e, neighbour);
  }

  /** One step of a concrete run. */
  lemma Next(base: Ledger, events: seq<Event>, l: Ledger, e: Event, l': Ledger)
    requires PossibleRun(base, events) && Run(base, events) == l && Possible(l, e) && Step(l, e) == l'
    ensures PossibleRun(base, events + [e]) && Run(base, events + [e]) == l'
  {
    Extend(base, events, e);
  }
}
