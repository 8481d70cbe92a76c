/** The per-socket token bucket (socketEventBudget.ts), over the reals. It grants exactly the calls that
    no stretch of the past forbids. */
module TokenBucket {
  datatype Bucket = Bucket(capacity: real, rate: real, tokens: real, lastRefillAt: int)

  /** Tokens that accrue from one clock reading to another; the clock is in milliseconds. */
  function Accrued(rate: real, from: int, to: int): real {
    (to - from) as real / 1000.0 * rate
  }

  function Refill(b: Bucket, now: int): Bucket {
    if now <= b.lastRefillAt then b
    else
      var more := b.tokens + Accrued(b.rate, b.lastRefillAt, now);
      b.(tokens := if more < b.capacity then more else b.capacity, lastRefillAt := now)
  }

  function Consume(b: Bucket, now: int, cost: real): (Bucket, bool) {
    var r := Refill(b, now);
    if r.tokens < cost then (r, false) else (r.(tokens := r.tokens - cost), true)
  }

  class SocketBudget {
    const capacity: real
    const refillPerSecond: real
    var tokens: real
    var lastRefillAt: int

    ghost function View(): Bucket
      reads this
    {
      Bucket(capacity, refillPerSecond, tokens, lastRefillAt)
    }

    /** Starts full. */
    constructor (capacity: real, refillPerSecond: real, now: int)
      ensures View() == Bucket(capacity, refillPerSecond, capacity, now)
    {
      this.capacity, this.refillPerSecond, tokens, lastRefillAt := capacity, refillPerSecond, capacity, now;
    }

    method RefillTokens(now: int)
      modifies this
      ensures View() == Refill(old(View()), now)
    {
      var elapsedSeconds := (now - lastRefillAt) as real / 1000.0;
      if elapsedSeconds <= 0.0 { return; }
      var more := tokens + elapsedSeconds * refillPerSecond;
      tokens := if more < capacity then more else capacity;
      lastRefillAt := now;
    }

    method TryConsume(now: int, cost: real) returns (granted: bool)
      modifies this
      ensures (View(), granted) == Consume(old(View()), now, cost)
    {
      RefillTokens(now);
      if tokens < cost { return false; }
      tokens := tokens - cost;
      granted := true;
    }
  }

  // ----- runs -----

  datatype Call = Call(at: int, cost: real)

  /** A moment of the past: the latest clock seen by then and the tokens granted by then. */
  datatype Mark = Mark(clock: int, granted: real)

  /** A bucket with its past: one mark at the start and one at each call, before its grant. */
  datatype History = History(bucket: Bucket, granted: real, marks: seq<Mark>)

  function Later(a: int, b: int): int { if a < b then b else a }

  function Take(h: History, call: Call): (History, bool) {
    var (b, ok) := Consume(h.bucket, call.at, call.cost);
    (History(b, if ok then h.granted + call.cost else h.granted,
             h.marks + [Mark(Later(h.bucket.lastRefillAt, call.at), h.granted)]), ok)
  }

  function Run(h: History, calls: seq<Call>): History
    decreases |calls|
  {
    if calls == [] then h else Run(Take(h, calls[0]).0, calls[1..])
  }

  function Start(capacity: real, rate: real, clock: int): History {
    History(Bucket(capacity, rate, capacity, clock), 0.0, [Mark(clock, 0.0)])
  }

  /** What a stretch beginning at mark m still allows: a full bucket and the refill since, less the grants. */
  function Slack(h: History, m: Mark): real {
    h.bucket.capacity + Accrued(h.bucket.rate, m.clock, h.bucket.lastRefillAt) - (h.granted - m.granted)
  }

  /** The tokens in the bucket are the least slack of all stretches of the past. */
  ghost predicate Exact(h: History) {
    && 0.0 <= h.bucket.tokens <= h.bucket.capacity && 0.0 <= h.bucket.rate
    && (forall k :: 0 <= k < |h.marks| ==>
          h.marks[k].clock <= h.bucket.lastRefillAt && h.bucket.tokens <= Slack(h, h.marks[k]))
    && exists k :: 0 <= k < |h.marks| && h.bucket.tokens == Slack(h, h.marks[k])
  }

  lemma AccruedAdds(rate: real, a: int, b: int, c: int)
    ensures Accrued(rate, a, b) + Accrued(rate, b, c) == Accrued(rate, a, c)
  {
    assert (b - a) as real + (c - b) as real == (c - a) as real;
  }

  lemma AccruedNonNegative(rate: real, a: int, b: int)
    requires 0.0 <= rate && a <= b
    ensures 0.0 <= Accrued(rate, a, b)
  {
  }

  /** Refilling, together with the mark it sets, keeps the tokens the least slack. */
  lemma RefillKeepsExact(h: History, now: int)
    requires Exact(h)
    ensures Exact(History(Refill(h.bucket, now), h.granted,
                          h.marks + [Mark(Later(h.bucket.lastRefillAt, now), h.granted)]))
  {
    var b := Refill(h.bucket, now);
    var m := Mark(Later(h.bucket.lastRefillAt, now), h.granted);
    var h' := History(b, h.granted, h.marks + [m]);
    var gain := Accrued(b.rate, h.bucket.lastRefillAt, b.lastRefillAt);
    AccruedNonNegative(b.rate, h.bucket.lastRefillAt, b.lastRefillAt);
    forall k | 0 <= k < |h.marks|
      ensures h'.marks[k] == h.marks[k] && Slack(h', h'.marks[k]) == Slack(h, h.marks[k]) + gain
    {
      AccruedAdds(b.rate, h.marks[k].clock, h.bucket.lastRefillAt, b.lastRefillAt);
    }
    assert h'.marks[|h.marks|] == m && Slack(h', m) == b.capacity;
    var k :| 0 <= k < |h.marks| && h.bucket.tokens == Slack(h, h.marks[k]);
    if b.tokens == b.capacity {
      assert b.tokens == Slack(h', h'.marks[|h.marks|]);
    } else {
      assert b.tokens == Slack(h', h'.marks[k]);
    }
  }

  lemma TakeKeepsExact(h: History, call: Call)
    requires Exact(h) && 0.0 <= call.cost
    ensures Exact(Take(h, call).0)
  {
    RefillKeepsExact(h, call.at);
    var refilled := History(Refill(h.bucket, call.at), h.granted,
                            h.marks + [Mark(Later(h.bucket.lastRefillAt, call.at), h.granted)]);
    var h' := Take(h, call).0;
    if Take(h, call).1 {
      forall k | 0 <= k < |h'.marks|
        ensures Slack(h', h'.marks[k]) == Slack(refilled, refilled.marks[k]) - call.cost
      {
      }
      var k :| 0 <= k < |refilled.marks| && refilled.bucket.tokens == Slack(refilled, refilled.marks[k]);
      assert h'.bucket.tokens == Slack(h', h'.marks[k]);
    }
  }

  lemma {:induction false} RunKeepsExact(h: History, calls: seq<Call>)
    requires Exact(h) && forall i :: 0 <= i < |calls| ==> 0.0 <= calls[i].cost
    ensures Exact(Run(h, calls))
    ensures Run(h, calls).bucket.capacity == h.bucket.capacity && Run(h, calls).bucket.rate == h.bucket.rate
    decreases |calls|
  {
    if calls != [] {
      assert 0.0 <= calls[0].cost;
      forall i | 0 <= i < |calls| - 1 ensures calls[1..][i] == calls[i + 1] { }
      TakeKeepsExact(h, calls[0]);
      RunKeepsExact(Take(h, calls[0]).0, calls[1..]);
    }
  }

  /** Upper bound: over no stretch of the run are more tokens granted than capacity + rate x elapsed, time
      being the latest clock seen; clocks running backwards create nothing. */
  lemma GrantsAreBounded(capacity: real, rate: real, clock: int, calls: seq<Call>, k: nat)
    requires 0.0 <= capacity && 0.0 <= rate && forall i :: 0 <= i < |calls| ==> 0.0 <= calls[i].cost
    requires k < |Run(Start(capacity, rate, clock), calls).marks|
    ensures var h := Run(Start(capacity, rate, clock), calls);
            && h.granted - h.marks[k].granted <= capacity + Accrued(rate, h.marks[k].clock, h.bucket.lastRefillAt)
            && 0.0 <= h.bucket.tokens <= capacity
  {
    StartIsExact(capacity, rate, clock);
    RunKeepsExact(Start(capacity, rate, clock), calls);
  }

  lemma StartIsExact(capacity: real, rate: real, clock: int)
    requires 0.0 <= capacity && 0.0 <= rate
    ensures Exact(Start(capacity, rate, clock))
  {
    var h := Start(capacity, rate, clock);
    assert h.bucket.tokens == Slack(h, h.marks[0]);
  }

  /** The converse: after any run a call is granted exactly when it keeps every stretch within the bound. */
  lemma GrantedIffEveryStretchAllows(capacity: real, rate: real, clock: int, calls: seq<Call>, call: Call)
    requires 0.0 <= capacity && 0.0 <= rate && 0.0 <= call.cost
    requires forall i :: 0 <= i < |calls| ==> 0.0 <= calls[i].cost
    ensures var h := Run(Start(capacity, rate, clock), calls);
            var now := Later(h.bucket.lastRefillAt, call.at);
            Take(h, call).1 <==>
              call.cost <= capacity
              && forall k :: 0 <= k < |h.marks| ==>
                   h.granted - h.marks[k].granted + call.cost
                   <= capacity + Accrued(rate, h.marks[k].clock, now)
  {
    StartIsExact(capacity, rate, clock);
    RunKeepsExact(Start(capacity, rate, clock), calls);
    GrantedIffSlackAllows(Run(Start(capacity, rate, clock), calls), call);
  }

  lemma GrantedIffSlackAllows(h: History, call: Call)
    requires Exact(h) && 0.0 <= call.cost
    ensures var now := Later(h.bucket.lastRefillAt, call.at);
            Take(h, call).1 <==>
              call.cost <= h.bucket.capacity
              && forall k :: 0 <= k < |h.marks| ==>
                   h.granted - h.marks[k].granted + call.cost
                   <= h.bucket.capacity + Accrued(h.bucket.rate, h.marks[k].clock, now)
  {
    RefillKeepsExact(h, call.at);
    var m := Mark(Later(h.bucket.lastRefillAt, call.at), h.granted);
    var refilled := History(Refill(h.bucket, call.at), h.granted, h.marks + [m]);
    forall k | 0 <= k < |h.marks| ensures refilled.marks[k] == h.marks[k] { }
    assert refilled.marks[|h.marks|] == m && Slack(refilled, m) == h.bucket.capacity;
    var k :| 0 <= k < |refilled.marks| && refilled.bucket.tokens == Slack(refilled, refilled.marks[k]);
    assert k < |h.marks| ==> refilled.marks[k] == h.marks[k];
  }

  function TotalCost(calls: seq<Call>): real {
    if calls == [] then 0.0 else calls[0].cost + TotalCost(calls[1..])
  }

  /** A burst that fits into the tokens at hand is granted in full, at whatever times its calls come. */
  lemma {:induction false} BurstIsGrantedInFull(h: History, calls: seq<Call>)
    requires 0.0 <= h.bucket.rate && h.bucket.tokens <= h.bucket.capacity
    requires TotalCost(calls) <= h.bucket.tokens
    requires forall i :: 0 <= i < |calls| ==> 0.0 <= calls[i].cost
    ensures Run(h, calls).granted == h.granted + TotalCost(calls)
    decreases |calls|
  {
    if calls != [] {
      assert 0.0 <= calls[0].cost;
      forall i | 0 <= i < |calls| - 1 ensures calls[1..][i] == calls[i + 1] { }
      TotalCostNonNegative(calls[1..]);
      if h.bucket.lastRefillAt < calls[0].at {
        AccruedNonNegative(h.bucket.rate, h.bucket.lastRefillAt, calls[0].at);
      }
      BurstIsGrantedInFull(Take(h, calls[0]).0, calls[1..]);
    }
  }

  lemma {:induction false} TotalCostNonNegative(calls: seq<Call>)
    requires forall i :: 0 <= i < |calls| ==> 0.0 <= calls[i].cost
    ensures 0.0 <= TotalCost(calls)
  {
    if calls != [] {
      assert 0.0 <= calls[0].cost;
      forall i | 0 <= i < |calls| - 1 ensures calls[1..][i] == calls[i + 1] { }
      TotalCostNonNegative(calls[1..]);
    }
  }
}
