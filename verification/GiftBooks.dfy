/** Which book each answer puts a gift in, and in which order gifts travel. */
module GiftBooks {
  import opened Redis
  import opened GiftLedger
  import opened GiftConservation

  // ----- Laravel's answers -----

  lemma {:induction false} SelectCounts(s: seq<Entry>, refused: set<Entry>, failed: bool, b: Entry)
    ensures Count(Select(s, refused, failed), b) == if (Body(b) in refused) == failed then Count(s, b) else 0
  {
    if s != [] {
      SelectCounts(s[1..], refused, failed, b);
      var head := if (Body(s[0]) in refused) == failed then [s[0]] else [];
      CountConcat(head, Select(s[1..], refused, failed), b);
    }
  }

  /** What a step books as accepted, and as failed, of b: of a batch, the rows not refused and those refused;
      of a single item, the item according to its answer. */
  function NewlyAccepted(l: Ledger, e: Event, b: Entry): nat
    requires Possible(l, e)
  {
    match e
    case PostedEvent(f, refused) => if Body(b) in refused then 0 else Count(l.flushes[f].transactions, b)
    case ItemEvent(f, ItemAccepted) => Count([l.flushes[f].rest[0]], b)
    case _ => 0
  }

  function NewlyFailed(l: Ledger, e: Event, b: Entry): nat
    requires Possible(l, e)
  {
    match e
    case PostedEvent(f, refused) => if Body(b) in refused then Count(l.flushes[f].transactions, b) else 0
    case ItemEvent(f, ItemFailed) => Count([l.flushes[f].rest[0]], b)
    case _ => 0
  }

  /** A refused row is booked as failed and no other way, an accepted one as accepted and no other way. */
  lemma AnswersAreBooked(l: Ledger, e: Event, b: Entry)
    requires Possible(l, e)
    ensures Count(Step(l, e).accepted, b) == Count(l.accepted, b) + NewlyAccepted(l, e, b)
    ensures Count(Step(l, e).failed, b) == Count(l.failed, b) + NewlyFailed(l, e, b)
  {
    match e
    case PostedEvent(f, refused) =>
      var t := l.flushes[f].transactions;
      SelectCounts(t, refused, false, b);
      SelectCounts(t, refused, true, b);
      CountConcat(l.accepted, Select(t, refused, false), b);
      CountConcat(l.failed, Select(t, refused, true), b);
    case ItemEvent(f, reply) => ItemIsBooked(l, f, reply, b);
    case _ =>
  }

  lemma ItemIsBooked(l: Ledger, f: nat, reply: ItemReply, b: Entry)
    requires Possible(l, ItemEvent(f, reply))
    ensures Count(Step(l, ItemEvent(f, reply)).accepted, b)
            == Count(l.accepted, b) + NewlyAccepted(l, ItemEvent(f, reply), b)
    ensures Count(Step(l, ItemEvent(f, reply)).failed, b) == Count(l.failed, b) + NewlyFailed(l, ItemEvent(f, reply), b)
  {
    var x := l.flushes[f].rest[0];
    CountConcat(l.accepted, [x], b);
    CountConcat(l.failed, [x], b);
  }

  function AcceptedOver(l: Ledger, events: seq<Event>, b: Entry): nat
    requires PossibleRun(l, events)
    decreases |events|
  {
    if events == [] then 0
    else
      var n := |events| - 1;
      AcceptedOver(l, events[..n], b) + NewlyAccepted(Run(l, events[..n]), events[n], b)
  }

  function FailedOver(l: Ledger, events: seq<Event>, b: Entry): nat
    requires PossibleRun(l, events)
    decreases |events|
  {
    if events == [] then 0
    else
      var n := |events| - 1;
      FailedOver(l, events[..n], b) + NewlyFailed(Run(l, events[..n]), events[n], b)
  }

  /** Main result on the answers: over any run the accepted book holds exactly what answers did not refuse, and
      the failed book exactly what they refused. */
  lemma {:induction false} BooksFollowAnswers(l: Ledger, events: seq<Event>, b: Entry)
    requires PossibleRun(l, events)
    ensures Count(Run(l, events).accepted, b) == Count(l.accepted, b) + AcceptedOver(l, events, b)
    ensures Count(Run(l, events).failed, b) == Count(l.failed, b) + FailedOver(l, events, b)
    decreases |events|
  {
    if events != [] {
      var n := |events| - 1;
      BooksFollowAnswers(l, events[..n], b);
      AnswersAreBooked(Run(l, events[..n]), events[n], b);
    }
  }

  // ----- order and destination -----

  /** The queue is a queue: entries join its end, a pop takes the oldest, fifty at most, into its flush in
      that order, and what a flush re-queues joins the end when its pipeline is executed. */
  lemma QueueIsFifo(l: Ledger, e: Event)
    requires Possible(l, e)
    ensures e.EnqueueEvent? ==> Step(l, e).queue == l.queue + [e.entry]
    ensures e.PopEvent? && l.queue != [] ==>
      var x := Step(l, e).flushes[e.f];
      x.Sorting? && x.transactions == [] && x.rest + Step(l, e).queue == l.queue
      && 0 < |x.rest| <= MAX_BATCH_SIZE && (Step(l, e).queue != [] ==> |x.rest| == MAX_BATCH_SIZE)
    ensures e.PopEvent? && l.queue == [] ==> Step(l, e) == l
    ensures e.ExecEvent? ==> Step(l, e).queue == l.queue + l.flushes[e.f].requeue
    ensures !e.EnqueueEvent? && !e.PopEvent? && !e.ExecEvent? ==> Step(l, e).queue == l.queue
  {
    if e.PopEvent? {
      var n := Min(|l.queue|, MAX_BATCH_SIZE);
      assert l.queue[..n] + l.queue[n..] == l.queue;
    }
  }

  /** The dead letters grow at the end only, and lose only their oldest, what exceeds ten thousand. */
  lemma DeadLettersKeepNewest(l: Ledger, e: Event)
    requires Possible(l, e)
    ensures var more := if e.ExecEvent? then l.flushes[e.f].toDead
                        else if e.SortEvent? && l.flushes[e.f].rest != [] && l.flushes[e.f].rest[0].Corrupt?
                        then [l.flushes[e.f].rest[0]] else [];
            var gone := Step(l, e).trimmed[|l.trimmed|..];
            && l.trimmed <= Step(l, e).trimmed
            && gone + Step(l, e).dead == l.dead + more
            && (gone != [] ==> e.ExecEvent? && |Step(l, e).dead| == DEAD_LETTER_MAX_LENGTH)
            && (e.ExecEvent? && more != [] ==> |Step(l, e).dead| <= DEAD_LETTER_MAX_LENGTH)
  {
    if e.ExecEvent? && l.flushes[e.f].toDead != [] {
      var all := l.dead + l.flushes[e.f].toDead;
      var surplus := |all| - Min(|all|, DEAD_LETTER_MAX_LENGTH);
      assert all[..surplus] + all[surplus..] == all;
      assert (l.trimmed + all[..surplus])[|l.trimmed|..] == all[..surplus];
    } else {
      assert Step(l, e).trimmed == l.trimmed && l.trimmed[|l.trimmed|..] == [];
      assert l.dead + [] == l.dead;
      if e.ExecEvent? { assert [] + l.dead == l.dead; }
    }
  }

  /** What parsing decides: unreadable text is dead-lettered, everything else goes to the POST, in order. */
  lemma ParseSorts(l: Ledger, f: nat)
    requires Possible(l, SortEvent(f)) && l.flushes[f].rest != []
    ensures var s, l' := l.flushes[f], Step(l, SortEvent(f));
            var x := s.rest[0];
            && l'.flushes[f] == Sorting(s.rest[1..], if x.Corrupt? then s.transactions else s.transactions + [x])
            && l'.dead == (if x.Corrupt? then l.dead + [x] else l.dead)
            && l'.accepted == l.accepted && l'.failed == l.failed && l'.lost == l.lost
  {
  }

  // ----- retries -----

  /** A gift with an integer count is dead-lettered by the throw that brings its count to the limit, not
      earlier and not later. */
  lemma DeadLetteredAtLimit(gift: int, n: int, maxRetries: int)
    ensures AfterThrow(Buffered(gift, Number(n)), maxRetries)
            == if maxRetries <= n + 1 then DeadLetters else Requeues(Buffered(gift, Number(n + 1)))
  {
  }

  /** What k own throws in a row make of an entry, each but the last one re-queueing it. */
  function AfterThrows(x: Entry, maxRetries: int, k: nat): Verdict
    requires k > 0
    decreases k
  {
    if k == 1 then AfterThrow(x, maxRetries)
    else
      match AfterThrows(x, maxRetries, k - 1)
      case Requeues(y) => AfterThrow(y, maxRetries)
      case v => v
  }

  /** A fresh gift survives exactly maxRetries - 1 own throws. */
  lemma {:induction false} FreshGiftIsTriedToTheLimit(gift: int, maxRetries: int, k: nat)
    requires 0 < k
    ensures AfterThrows(Buffered(gift, Number(0)), maxRetries, k)
            == if k < maxRetries then Requeues(Buffered(gift, Number(k))) else DeadLetters
    decreases k
  {
    if k > 1 { FreshGiftIsTriedToTheLimit(gift, maxRetries, k - 1); }
  }
}
