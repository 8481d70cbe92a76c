/** The gift buffer (giftBuffer.ts) as a machine: any number of instances flush the shared Redis queue,
    each a few awaits at a time, while gifts keep arriving. The ledger records where every gift went. */
module GiftLedger {
  import opened Redis

  const MAX_BATCH_SIZE: nat := 50
  const DEAD_LETTER_MAX_LENGTH: nat := 10_000

  /** What an object's retryCount is.
      Number: an integer between -2^53 and 2^53; absent, null and false count as 0, true as 1, and a fraction
      as the integer below it.
      Inconvertible: an object or array whose conversion to a primitive throws, so that adding throws.
      Other: the rest, known by how many increments it takes until the result compares at or above the limit.
      An increment appends the digit 1 to a string, and to the string form of an object or array: "4" turns
      to "41", which compares as 41, while "x", "-4", "0." and {} never get there. An integer below
      -2^53 - 2 is rounded back to itself or to another such and never does; one above 2^53 already has, and
      minus infinity is written as null and starts again from 0. */
  datatype Retries = Number(n: int) | Other(until: Option<nat>) | Inconvertible

  /** A queue entry by what the flush makes of its text: JSON.parse rejects it; it parses to null or to an
      object whose timestamp cannot be converted to a number, so that computing its wait throws; to a number,
      string or boolean; to a value nested too deeply for JSON.stringify to write again; to another array; or
      to another object. */
  datatype Entry =
    | Corrupt(text: int)
    | Untimed(text: int)
    | Primitive(value: int)
    | Nested(text: int)
    | List(value: int)
    | Buffered(gift: int, retries: Retries)

  /** What one flush() holds in its local variables between awaits. */
  datatype Flush =
    | Idle
    | Sorting(rest: seq<Entry>, transactions: seq<Entry>)
    | Posting(transactions: seq<Entry>)
    | Fallback(rest: seq<Entry>, requeue: seq<Entry>, toDead: seq<Entry>)

  datatype ItemReply = ItemAccepted | ItemFailed | ItemThrows

  datatype Ledger = Ledger(
    maxRetries: int,
    queue: seq<Entry>, dead: seq<Entry>, flushes: seq<Flush>,
    // history: where entries came from and went to
    arrived: seq<Entry>, accepted: seq<Entry>, failed: seq<Entry>, trimmed: seq<Entry>, lost: seq<Entry>)

  datatype Event =
    | EnqueueEvent(entry: Entry)
    | PopEvent(f: nat)
    | SortEvent(f: nat)
    | PostedEvent(f: nat, refused: set<Entry>)
    | PostThrows(f: nat)
    | ItemEvent(f: nat, reply: ItemReply)
    | ExecEvent(f: nat)

  /** The entry without its retry count, which flush bumps in place. */
  function Body(e: Entry): Entry {
    if e.Buffered? then Buffered(e.gift, Number(0)) else e
  }

  /** How often the entry b occurs in s, whatever its retry count. */
  function Count(s: seq<Entry>, b: Entry): nat {
    if s == [] then 0 else (if Body(s[0]) == Body(b) then 1 else 0) + Count(s[1..], b)
  }

  predicate HasUntimed(s: seq<Entry>) {
    exists x :: x in s && x.Untimed?
  }

  function Min(a: nat, b: nat): nat { if a < b then a else b }

  /** The rows Laravel's answer refuses, or the others. */
  function Select(s: seq<Entry>, refused: set<Entry>, failed: bool): seq<Entry> {
    if s == [] then []
    else (if (Body(s[0]) in refused) == failed then [s[0]] else []) + Select(s[1..], refused, failed)
  }

  // ----- an item whose own POST threw -----

  datatype Verdict = DeadLetters | Requeues(entry: Entry) | Breaks

  predicate LimitReached(r: Retries, maxRetries: int) {
    match r
    case Number(n) => n + 1 >= maxRetries
    case Other(until) => until == Some(0)
    case Inconvertible => false
  }

  function Bumped(r: Retries): Retries {
    match r
    case Number(n) => Number(n + 1)
    case Other(until) => if until.Some? && until.value > 0 then Other(Some(until.value - 1)) else r
    case Inconvertible => r
  }

  /** An array takes the new count but does not serialise it; a primitive cannot take it and throws, as does
      a count that cannot be incremented, and writing a too deeply nested value, be it to the queue or to the
      dead letters: these exceptions leave flush(). */
  function AfterThrow(x: Entry, maxRetries: int): Verdict {
    match x
    case Buffered(gift, r) =>
      if r.Inconvertible? then Breaks
      else if LimitReached(r, maxRetries) then DeadLetters
      else Requeues(Buffered(gift, Bumped(r)))
    case List(_) => if 1 >= maxRetries then DeadLetters else Requeues(x)
    case Primitive(_) => if 1 >= maxRetries then DeadLetters else Breaks
    case _ => Breaks
  }

  function SetFlush(l: Ledger, f: nat, x: Flush): Ledger
    requires f < |l.flushes|
  {
    l.(flushes := l.flushes[f := x])
  }

  /** LTRIM key -10000 -1 after pushing: the oldest surplus goes. */
  function PushDeadTrimmed(l: Ledger, more: seq<Entry>): Ledger {
    if more == [] then l
    else
      var all := l.dead + more;
      var surplus := |all| - Min(|all|, DEAD_LETTER_MAX_LENGTH);
      l.(dead := all[surplus..], trimmed := l.trimmed + all[..surplus])
  }

  predicate Possible(l: Ledger, e: Event) {
    match e
    case EnqueueEvent(_) => true
    case PopEvent(f) => f < |l.flushes| && l.flushes[f].Idle?
    case SortEvent(f) => f < |l.flushes| && l.flushes[f].Sorting?
    case PostedEvent(f, _) => f < |l.flushes| && l.flushes[f].Posting?
    case PostThrows(f) => f < |l.flushes| && l.flushes[f].Posting?
    case ItemEvent(f, _) => f < |l.flushes| && l.flushes[f].Fallback? && l.flushes[f].rest != []
    case ExecEvent(f) => f < |l.flushes| && l.flushes[f].Fallback? && l.flushes[f].rest == []
  }

  /** After the parse loop: nothing parsed, an entry that makes the timestamp loop throw, or the POST. */
  function EndSort(l: Ledger, f: nat, transactions: seq<Entry>): Ledger
    requires f < |l.flushes|
  {
    if transactions == [] then SetFlush(l, f, Idle)
    else if HasUntimed(transactions) then SetFlush(l, f, Idle).(lost := l.lost + transactions)
    else SetFlush(l, f, Posting(transactions))
  }

  /** An exception in the fallback: the pipeline is never executed. */
  function Break(l: Ledger, f: nat): Ledger
    requires f < |l.flushes| && l.flushes[f].Fallback?
  {
    var fb := l.flushes[f];
    SetFlush(l, f, Idle).(lost := l.lost + fb.rest + fb.requeue + fb.toDead)
  }

  function Throw(l: Ledger, f: nat): Ledger
    requires f < |l.flushes| && l.flushes[f].Fallback? && l.flushes[f].rest != []
  {
    var fb := l.flushes[f];
    match AfterThrow(fb.rest[0], l.maxRetries)
    case DeadLetters => SetFlush(l, f, Fallback(fb.rest[1..], fb.requeue, fb.toDead + [fb.rest[0]]))
    case Requeues(entry) => SetFlush(l, f, Fallback(fb.rest[1..], fb.requeue + [entry], fb.toDead))
    case Breaks => Break(l, f)
  }

  function Step(l: Ledger, e: Event): Ledger
    requires Possible(l, e)
  {
    match e
    case EnqueueEvent(entry) => l.(queue := l.queue + [entry], arrived := l.arrived + [entry])
    case PopEvent(f) =>
      var n := Min(|l.queue|, MAX_BATCH_SIZE);
      if n == 0 then l
      else SetFlush(l, f, Sorting(l.queue[..n], [])).(queue := l.queue[n..])
    case SortEvent(f) =>
      var s := l.flushes[f];
      if s.rest == [] then EndSort(l, f, s.transactions)
      else if s.rest[0].Corrupt? then
        SetFlush(l, f, Sorting(s.rest[1..], s.transactions)).(dead := l.dead + [s.rest[0]])
      else SetFlush(l, f, Sorting(s.rest[1..], s.transactions + [s.rest[0]]))
    case PostedEvent(f, refused) =>
      var t := l.flushes[f].transactions;
      SetFlush(l, f, Idle).(
        accepted := l.accepted + Select(t, refused, false),
        failed := l.failed + Select(t, refused, true))
    case PostThrows(f) => SetFlush(l, f, Fallback(l.flushes[f].transactions, [], []))
    case ItemEvent(f, reply) =>
      var fb := l.flushes[f];
      var x := fb.rest[0];
      if reply.ItemThrows? then Throw(l, f)
      else
        var next := SetFlush(l, f, Fallback(fb.rest[1..], fb.requeue, fb.toDead));
        if reply.ItemAccepted? then next.(accepted := l.accepted + [x]) else next.(failed := l.failed + [x])
    case ExecEvent(f) =>
      var fb := l.flushes[f];
      PushDeadTrimmed(SetFlush(l, f, Idle).(queue := l.queue + fb.requeue), fb.toDead)
  }

  predicate PossibleRun(l: Ledger, events: seq<Event>)
    decreases |events|, 0
  {
    events == [] ||
    (var n := |events| - 1; PossibleRun(l, events[..n]) && Possible(Run(l, events[..n]), events[n]))
  }

  function Run(l: Ledger, events: seq<Event>): Ledger
    requires PossibleRun(l, events)
    decreases |events|, 1
  {
    if events == [] then l
    else (var n := |events| - 1; Step(Run(l, events[..n]), events[n]))
  }

  lemma Extend(l: Ledger, events: seq<Event>, e: Event)
    requires PossibleRun(l, events) && Possible(Run(l, events), e)
    ensures PossibleRun(l, events + [e]) && Run(l, events + [e]) == Step(Run(l, events), e)
  {
    assert (events + [e])[..|events|] == events;
  }

  function Fresh(maxRetries: int, instances: nat): Ledger {
    Ledger(maxRetries, [], [], seq(instances, i => Idle), [], [], [], [], [])
  }
}
