/** GiftBuffer.flush as the code runs it, proved to be a run of the ledger machine in which gifts may
    arrive at every await. */
module GiftBuffer {
  import opened Redis
  import opened GiftLedger
  import opened GiftDrain

  class Buffer {
    const maxRetries: int
    var queue: seq<Entry>
    var deadLetter: seq<Entry>
    var isFlushing: bool
    /** The local variables of the flush in progress. */
    var hand: Flush
    ghost var arrived: seq<Entry>
    ghost var accepted: seq<Entry>
    ghost var failed: seq<Entry>
    ghost var trimmed: seq<Entry>
    ghost var lost: seq<Entry>

    ghost function View(): Ledger
      reads this
    {
      Ledger(maxRetries, queue, deadLetter, [hand], arrived, accepted, failed, trimmed, lost)
    }

    ghost predicate Valid()
      reads this
    {
      isFlushing <==> !hand.Idle?
    }

    constructor (maxRetries: int)
      ensures Valid() && View() == Fresh(maxRetries, 1)
    {
      this.maxRetries := maxRetries;
      queue, deadLetter, isFlushing, hand := [], [], false, Idle;
      arrived, accepted, failed, trimmed, lost := [], [], [], [], [];
      new;
      assert View().flushes == Fresh(maxRetries, 1).flushes;
    }

    method Enqueue(entry: Entry)
      modifies this
      ensures View() == Step(old(View()), EnqueueEvent(entry)) && isFlushing == old(isFlushing)
    {
      queue := queue + [entry];
      arrived := arrived + [entry];
    }

    // ----- the stretches of flush() between two awaits -----

    /** ATOMIC_LPOP_N_LUA */
    method PopBatch()
      requires hand.Idle?
      modifies this
      ensures View() == Step(old(View()), PopEvent(0)) && isFlushing == old(isFlushing)
      ensures old(queue) != [] ==> hand.Sorting?
    {
      var n := Min(|queue|, MAX_BATCH_SIZE);
      if n > 0 {
        hand := Sorting(queue[..n], []);
        queue := queue[n..];
      }
    }

    /** JSON.parse of one item; text that does not parse goes to the dead letter. */
    method ParseOne()
      requires hand.Sorting? && hand.rest != []
      modifies this
      ensures View() == Step(old(View()), SortEvent(0)) && isFlushing == old(isFlushing)
      ensures hand.Sorting? && hand.rest == old(hand).rest[1..]
    {
      var item := hand.rest[0];
      if item.Corrupt? {
        deadLetter := deadLetter + [item];
        hand := Sorting(hand.rest[1..], hand.transactions);
      } else {
        hand := Sorting(hand.rest[1..], hand.transactions + [item]);
      }
    }

    /** Compute every wait; if one throws, the exception leaves flush() and the batch is gone. */
    method ObserveWaits() returns (threw: bool)
      requires hand.Sorting? && hand.rest == []
      modifies this
      ensures View() == Step(old(View()), SortEvent(0)) && isFlushing == old(isFlushing)
      ensures if threw then hand.Idle? else hand.Posting?
    {
      var transactions := hand.transactions;
      if transactions == [] { hand := Idle; return true; }
      for k := 0 to |transactions|
        invariant View() == old(View()) && isFlushing == old(isFlushing)
        invariant forall j :: 0 <= j < k ==> !transactions[j].Untimed?
      {
        if transactions[k].Untimed? {
          hand, lost := Idle, lost + transactions;
          return true;
        }
      }
      hand := Posting(transactions);
      threw := false;
    }

    /** The batch POST answered; rows named in `refused` are reported to their senders. */
    method SettleBatch(refused: set<Entry>)
      requires hand.Posting?
      modifies this
      ensures View() == Step(old(View()), PostedEvent(0, refused)) && isFlushing == old(isFlushing)
      ensures hand.Idle?
    {
      accepted := accepted + Select(hand.transactions, refused, false);
      failed := failed + Select(hand.transactions, refused, true);
      hand := Idle;
    }

    method BatchThrew()
      requires hand.Posting?
      modifies this
      ensures View() == Step(old(View()), PostThrows(0)) && isFlushing == old(isFlushing)
      ensures hand.Fallback?
    {
      hand := Fallback(hand.transactions, [], []);
    }

    /** One item of the per-item fallback. An exception outside its own try leaves flush() before the
        pipeline is executed. */
    method PostItem(reply: ItemReply) returns (threw: bool)
      requires hand.Fallback? && hand.rest != []
      modifies this
      ensures View() == Step(old(View()), ItemEvent(0, reply)) && isFlushing == old(isFlushing)
      ensures if threw then hand.Idle? else hand.Fallback? && hand.rest == old(hand).rest[1..]
    {
      var item, rest := hand.rest[0], hand.rest[1..];
      threw := false;
      match reply {
        case ItemAccepted =>
          accepted := accepted + [item];
          hand := Fallback(rest, hand.requeue, hand.toDead);
        case ItemFailed =>
          failed := failed + [item];
          hand := Fallback(rest, hand.requeue, hand.toDead);
        case ItemThrows =>
          var adds := item.Buffered? ==> !item.retries.Inconvertible?;
          var reached := if item.Buffered? then LimitReached(item.retries, maxRetries) else 1 >= maxRetries;
          var takesCount := item.Buffered? || item.List?;
          if item.Untimed? || item.Corrupt? || item.Nested? || !adds || (!reached && !takesCount) {
            lost := lost + hand.rest + hand.requeue + hand.toDead;
            hand, threw := Idle, true;
          } else if reached {
            hand := Fallback(rest, hand.requeue, hand.toDead + [item]);
          } else {
            // JSON.stringify writes an object's new count and drops an array's.
            var again := if item.Buffered? then item.(retries := Bumped(item.retries)) else item;
            hand := Fallback(rest, hand.requeue + [again], hand.toDead);
          }
      }
    }

    /** pipeline.exec(): the re-queued gifts, the dead letters, and one LTRIM if there were any. */
    method ExecPipeline()
      requires hand.Fallback? && hand.rest == []
      modifies this
      ensures View() == Step(old(View()), ExecEvent(0)) && isFlushing == old(isFlushing)
      ensures hand.Idle?
    {
      var more := hand.toDead;
      queue, hand := queue + hand.requeue, Idle;
      assert View() == SetFlush(old(View()), 0, Idle).(queue := queue);
      if more != [] {
        var all := deadLetter + more;
        var surplus := |all| - Min(|all|, DEAD_LETTER_MAX_LENGTH);
        deadLetter := all[surplus..];
        trimmed := trimmed + all[..surplus];
      }
    }

    /** Gifts that arrive while flush() awaits. */
    method Await(more: seq<Entry>, ghost base: Ledger, ghost events: seq<Event>, ghost quiet: bool)
      returns (ghost events': seq<Event>)
      requires OnTrack(base, events, View(), quiet) && (quiet ==> more == [])
      modifies this
      ensures OnTrack(base, events', View(), quiet) && events <= events'
      ensures Answers(events') == Answers(events)
      ensures hand == old(hand) && isFlushing == old(isFlushing)
    {
      events' := events;
      for k := 0 to |more|
        invariant OnTrack(base, events', View(), quiet) && events <= events'
        invariant Answers(events') == Answers(events)
        invariant hand == old(hand) && isFlushing == old(isFlushing)
      {
        Arrived(base, events', View(), more[k]);
        AnswersSnoc(events', EnqueueEvent(more[k]));
        events' := events' + [EnqueueEvent(more[k])];
        Enqueue(more[k]);
      }
    }

    /** The parse loop of flush(), with an await after each dead letter. */
    method ParseAll(arrivals: nat -> seq<Entry>, ghost base: Ledger, ghost events: seq<Event>, ghost quiet: bool)
      returns (ghost events': seq<Event>)
      requires hand.Sorting? && OnTrack(base, events, View(), quiet)
      requires quiet ==> forall k :: arrivals(k) == []
      modifies this
      ensures hand.Sorting? && hand.rest == [] && isFlushing == old(isFlushing)
      ensures OnTrack(base, events', View(), quiet) && events <= events' && Answers(events') == Answers(events)
    {
      events' := events;
      var turn: nat := 0;
      while hand.rest != []
        invariant hand.Sorting? && isFlushing == old(isFlushing) && events <= events'
        invariant Answers(events') == Answers(events)
        invariant OnTrack(base, events', View(), quiet)
        decreases |hand.rest|
      {
        if hand.rest[0].Corrupt? {
          events' := Await(arrivals(turn), base, events', quiet);
          turn := turn + 1;
        }
        Took(base, events', View(), SortEvent(0), quiet);
        AnswersSnoc(events', SortEvent(0));
        events' := events' + [SortEvent(0)];
        ParseOne();
      }
    }

    /** The per-item fallback loop of flush(). */
    method PostEach(items: nat -> ItemReply, arrivals: nat -> seq<Entry>,
                    ghost base: Ledger, ghost events: seq<Event>, ghost quiet: bool)
      returns (threw: bool, ghost events': seq<Event>)
      requires hand.Fallback? && OnTrack(base, events, View(), quiet)
      requires quiet ==> forall k :: arrivals(k) == []
      modifies this
      ensures if threw then hand.Idle? else hand.Fallback? && hand.rest == []
      ensures isFlushing == old(isFlushing)
      ensures OnTrack(base, events', View(), quiet) && events <= events'
      ensures exists k :: Answers(events') == Answers(events) + Replies(items, k)
    {
      events' := events;
      threw := false;
      var k: nat := 0;
      while hand.rest != []
        invariant hand.Fallback? && isFlushing == old(isFlushing) && events <= events'
        invariant Answers(events') == Answers(events) + Replies(items, k)
        invariant OnTrack(base, events', View(), quiet)
        decreases |hand.rest|
      {
        events' := Await(arrivals(k), base, events', quiet);
        Took(base, events', View(), ItemEvent(0, items(k)), quiet);
        AnswersSnoc(events', ItemEvent(0, items(k)));
        events' := events' + [ItemEvent(0, items(k))];
        assert Answers(events') == Answers(events) + Replies(items, k + 1);
        threw := PostItem(items(k));
        if threw { return; }
        k := k + 1;
      }
    }

    /** From the batch POST on: settle the batch, or fall back to one POST per item and one pipeline. */
    method PostBatch(batch: Option<set<Entry>>, items: nat -> ItemReply,
                     itemArrivals: nat -> seq<Entry>, execArrivals: seq<Entry>,
                     ghost base: Ledger, ghost events: seq<Event>, ghost quiet: bool)
      returns (ghost events': seq<Event>)
      requires hand.Posting? && OnTrack(base, events, View(), quiet)
      requires quiet ==> execArrivals == [] && forall k :: itemArrivals(k) == []
      modifies this
      ensures hand.Idle? && isFlushing == old(isFlushing)
      ensures OnTrack(base, events', View(), quiet) && events <= events'
      ensures exists k :: Answers(events') == Answers(events) + AsAnswered(batch, items, k)
    {
      if batch.Some? {
        AnswersSnoc(events, PostedEvent(0, batch.value));
        assert Replies(items, 0) == [];
        assert AsAnswered(batch, items, 0) == [PostedEvent(0, batch.value)];
        Took(base, events, View(), PostedEvent(0, batch.value), quiet);
        events' := events + [PostedEvent(0, batch.value)];
        SettleBatch(batch.value);
        return;
      }
      Took(base, events, View(), PostThrows(0), quiet);
      AnswersSnoc(events, PostThrows(0));
      events' := events + [PostThrows(0)];
      BatchThrew();
      var threw: bool;
      threw, events' := PostEach(items, itemArrivals, base, events', quiet);
      ghost var k :| Answers(events') == Answers(events) + [PostThrows(0)] + Replies(items, k);
      assert Answers(events') == Answers(events) + AsAnswered(batch, items, k);
      if threw { return; }
      events' := Await(execArrivals, base, events', quiet);
      Took(base, events', View(), ExecEvent(0), quiet);
      AnswersSnoc(events', ExecEvent(0));
      events' := events' + [ExecEvent(0)];
      ExecPipeline();
    }

    /** flush(). `batch` is Laravel's answer to the batch POST (None: it threw), `items` the answers of
        the per-item fallback, and the `arrivals` are enqueued during the awaits of the parse loop, of the
        batch POST, of the fallback loop and of the final pipeline. */
    method FlushQueue(batch: Option<set<Entry>>, items: nat -> ItemReply,
                      sortArrivals: nat -> seq<Entry>, postArrivals: seq<Entry>,
                      itemArrivals: nat -> seq<Entry>, execArrivals: seq<Entry>, ghost quiet: bool)
      returns (ghost events: seq<Event>)
      requires Valid()
      requires quiet ==> Draining(View()) && postArrivals == [] && execArrivals == []
                         && forall k :: sortArrivals(k) == [] && itemArrivals(k) == []
      modifies this
      ensures Valid() && isFlushing == old(isFlushing)
      ensures PossibleRun(old(View()), events) && View() == Run(old(View()), events)
      ensures old(isFlushing) ==> View() == old(View())
      ensures !old(isFlushing) && old(queue) != [] ==> PopEvent(0) in events && hand.Idle?
      ensures Answers(events) == [] || exists k :: Answers(events) == AsAnswered(batch, items, k)
      ensures !old(isFlushing) && old(queue) != [] && quiet ==> TotalCost(View()) < TotalCost(old(View()))
    {
      events := [];
      if isFlushing { return; }
      ghost var base := View();
      if queue == [] { return; }
      isFlushing := true;
      Took(base, events, base, PopEvent(0), quiet);
      AnswersSnoc(events, PopEvent(0));
      events := events + [PopEvent(0)];
      PopBatch();
      events := ParseAll(sortArrivals, base, events, quiet);
      Took(base, events, View(), SortEvent(0), quiet);
      AnswersSnoc(events, SortEvent(0));
      events := events + [SortEvent(0)];
      assert Answers(events) == [];
      var threw := ObserveWaits();
      if !threw {
        events := Await(postArrivals, base, events, quiet);
        ghost var before := events;
        events := PostBatch(batch, items, itemArrivals, execArrivals, base, events, quiet);
        ghost var k :| Answers(events) == Answers(before) + AsAnswered(batch, items, k);
        assert Answers(events) == AsAnswered(batch, items, k);
      }
      isFlushing := false;
    }
  }

  /** The steps of a run in which Laravel answers. */
  function Answers(events: seq<Event>): seq<Event> {
    if events == [] then []
    else
      var n := |events| - 1;
      var rest := Answers(events[..n]);
      if events[n].PostedEvent? || events[n].PostThrows? || events[n].ItemEvent? then rest + [events[n]] else rest
  }

  lemma AnswersSnoc(events: seq<Event>, e: Event)
    ensures Answers(events + [e])
            == Answers(events) + if e.PostedEvent? || e.PostThrows? || e.ItemEvent? then [e] else []
  {
    assert (events + [e])[..|events|] == events;
  }

  /** The first k answers to single items, in order. */
  ghost function Replies(items: nat -> ItemReply, k: nat): seq<Event> {
    seq(k, i requires 0 <= i < k => ItemEvent(0, items(i)))
  }

  /** The answer to the batch and, if that threw, those to the first k items. */
  ghost function AsAnswered(batch: Option<set<Entry>>, items: nat -> ItemReply, k: nat): seq<Event> {
    if batch.Some? then [PostedEvent(0, batch.value)] else [PostThrows(0)] + Replies(items, k)
  }

  /** The buffer is where the run says, and a quiet run has paid one unit of cost per step. */
  ghost predicate OnTrack(base: Ledger, events: seq<Event>, l: Ledger, quiet: bool) {
    && PossibleRun(base, events) && l == Run(base, events)
    && (quiet ==> Draining(l) && TotalCost(l) + |events| <= TotalCost(base))
  }

  lemma Took(base: Ledger, events: seq<Event>, l: Ledger, e: Event, quiet: bool)
    requires OnTrack(base, events, l, quiet) && Possible(l, e) && Working(l, e)
    ensures OnTrack(base, events + [e], Step(l, e), quiet)
  {
    if quiet {
      StepSpends(l, e);
      StepKeepsDraining(l, e);
    }
    Extend(base, events, e);
  }

  lemma Arrived(base: Ledger, events: seq<Event>, l: Ledger, entry: Entry)
    requires OnTrack(base, events, l, false)
    ensures OnTrack(base, events + [EnqueueEvent(entry)], Step(l, EnqueueEvent(entry)), false)
  {
    Extend(base, events, EnqueueEvent(entry));
  }
}
