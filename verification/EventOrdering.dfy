/** Last-write-wins guards for reordered events (event-ordering.ts) and their use by the event router, which
    first awaits the guard's verdict and then the write it guards: which deliveries are accepted, whatever
    order they come in and however often, and when the guarded state ends at the newest event. */
module EventOrdering {
  import opened Redis

  datatype Marker = Marker(version: int, expireAt: int)

  function Read(m: Option<Marker>, clock: int): Option<Marker> {
    if m.Some? && m.value.expireAt <= clock then None else m
  }

  /** ACCEPT_IF_NOT_OLDER: only a strictly older version is rejected. */
  function Accept(m: Option<Marker>, version: int, clock: int, ttlMs: int): (Option<Marker>, bool) {
    var cur := Read(m, clock);
    if cur.Some? && cur.value.version > version then (cur, false)
    else (Some(Marker(version, clock + ttlMs)), true)
  }

  /** WRITE_IF_NEWER: a tie is rejected too, so a replay does not even extend the deadline. */
  function Write(m: Option<Marker>, version: int, clock: int, ttlMs: int): (Option<Marker>, bool) {
    var cur := Read(m, clock);
    if cur.Some? && cur.value.version >= version then (cur, false)
    else (Some(Marker(version, clock + ttlMs)), true)
  }

  /** Date.parse of the optional timestamp; without a usable one every guard is skipped. */
  function EventVersionMs(timestamp: Option<string>, parse: string -> Option<int>): Option<int> {
    if timestamp.None? || timestamp.value == "" then None else parse(timestamp.value)
  }

  class VersionKeys {
    var markers: map<int, Marker>

    constructor ()
      ensures markers == map[]
    {
      markers := map[];
    }

    function MarkerOf(key: int): Option<Marker>
      reads this
    {
      if key in markers then Some(markers[key]) else None
    }

    method AcceptIfNotOlder(key: int, version: int, clock: int, ttlMs: int) returns (accepted: bool)
      modifies this
      ensures accepted == Accept(old(MarkerOf(key)), version, clock, ttlMs).1
      ensures Read(MarkerOf(key), clock) == Read(Accept(old(MarkerOf(key)), version, clock, ttlMs).0, clock)
      ensures forall other :: other != key ==> MarkerOf(other) == old(MarkerOf(other))
    {
      var current := Read(MarkerOf(key), clock);
      if current.Some? {
        if current.value.version > version { return false; }
      }
      markers := markers[key := Marker(version, clock + ttlMs)];
      accepted := true;
    }

    method WriteIfNewer(key: int, version: int, clock: int, ttlMs: int) returns (written: bool)
      modifies this
      ensures written == Write(old(MarkerOf(key)), version, clock, ttlMs).1
      ensures Read(MarkerOf(key), clock) == Read(Write(old(MarkerOf(key)), version, clock, ttlMs).0, clock)
      ensures forall other :: other != key ==> MarkerOf(other) == old(MarkerOf(other))
    {
      var current := Read(MarkerOf(key), clock);
      if current.Some? {
        if current.value.version >= version { return false; }
      }
      markers := markers[key := Marker(version, clock + ttlMs)];
      written := true;
    }
  }

  // ----- deliveries -----

  /** One delivery of an event: when it arrives, its version if it carries one, and what it would set. */
  datatype Delivery = Delivery(at: int, version: Option<int>, payload: int)

  function Received(timestamp: Option<string>, payload: int, at: int, parse: string -> Option<int>): Delivery {
    Delivery(at, EventVersionMs(timestamp, parse), payload)
  }

  /** The version marker, the accepted deliveries whose write is still awaited, and those written, in the
      order of their writes. */
  datatype Guarded = Guarded(marker: Option<Marker>, waiting: seq<Delivery>, applied: seq<Delivery>)

  datatype Event = Arrives(d: Delivery) | Applies(k: nat)

  const Unset: Guarded := Guarded(None, [], [])

  function State(g: Guarded): Option<int> {
    if g.applied == [] then None else Some(g.applied[|g.applied| - 1].payload)
  }

  predicate Possible(g: Guarded, e: Event) {
    e.Applies? ==> e.k < |g.waiting|
  }

  function Step(g: Guarded, e: Event, ttlMs: int): Guarded
    requires Possible(g, e)
  {
    match e
    case Arrives(d) =>
      if d.version.None? then g.(waiting := g.waiting + [d])
      else
        var (marker, ok) := Accept(g.marker, d.version.value, d.at, ttlMs);
        g.(marker := marker, waiting := if ok then g.waiting + [d] else g.waiting)
    case Applies(k) =>
      g.(waiting := g.waiting[..k] + g.waiting[k + 1..], applied := g.applied + [g.waiting[k]])
  }

  predicate PossibleFrom(g: Guarded, events: seq<Event>, ttlMs: int)
    decreases |events|, 0
  {
    events == []
    || (var n := |events| - 1;
        PossibleFrom(g, events[..n], ttlMs) && Possible(RunFrom(g, events[..n], ttlMs), events[n]))
  }

  function RunFrom(g: Guarded, events: seq<Event>, ttlMs: int): Guarded
    requires PossibleFrom(g, events, ttlMs)
    decreases |events|, 1
  {
    if events == [] then g
    else (var n := |events| - 1; Step(RunFrom(g, events[..n], ttlMs), events[n], ttlMs))
  }

  predicate PossibleRun(events: seq<Event>, ttlMs: int) {
    PossibleFrom(Unset, events, ttlMs)
  }

  function Run(events: seq<Event>, ttlMs: int): Guarded
    requires PossibleRun(events, ttlMs)
  {
    RunFrom(Unset, events, ttlMs)
  }

  lemma {:induction false} RunSplits(g: Guarded, a: seq<Event>, b: seq<Event>, ttlMs: int)
    ensures PossibleFrom(g, a + b, ttlMs)
            <==> PossibleFrom(g, a, ttlMs) && PossibleFrom(RunFrom(g, a, ttlMs), b, ttlMs)
    ensures PossibleFrom(g, a + b, ttlMs) ==> RunFrom(g, a + b, ttlMs) == RunFrom(RunFrom(g, a, ttlMs), b, ttlMs)
    decreases |b|
  {
    if b == [] {
      assert a + b == a;
    } else {
      var n := |b| - 1;
      RunSplits(g, a, b[..n], ttlMs);
      assert (a + b)[..|a| + n] == a + b[..n];
    }
  }

  lemma RunExtends(g: Guarded, events: seq<Event>, e: Event, ttlMs: int)
    requires PossibleFrom(g, events, ttlMs) && Possible(RunFrom(g, events, ttlMs), e)
    ensures PossibleFrom(g, events + [e], ttlMs)
    ensures RunFrom(g, events + [e], ttlMs) == Step(RunFrom(g, events, ttlMs), e, ttlMs)
  {
    assert (events + [e])[..|events|] == events;
  }

  function Arrivals(events: seq<Event>): seq<Delivery> {
    if events == [] then []
    else
      var n := |events| - 1;
      var rest := Arrivals(events[..n]);
      if events[n].Arrives? then rest + [events[n].d] else rest
  }

  // ----- which deliveries are accepted -----

  /** The marker after these arrivals, which no write ever touches. */
  function MarkerAfter(ds: seq<Delivery>, ttlMs: int): Option<Marker> {
    if ds == [] then None
    else
      var n := |ds| - 1;
      if ds[n].version.None? then MarkerAfter(ds[..n], ttlMs)
      else Accept(MarkerAfter(ds[..n], ttlMs), ds[n].version.value, ds[n].at, ttlMs).0
  }

  lemma MarkerSnoc(ds: seq<Delivery>, d: Delivery, ttlMs: int)
    ensures MarkerAfter(ds + [d], ttlMs)
            == if d.version.None? then MarkerAfter(ds, ttlMs)
               else Accept(MarkerAfter(ds, ttlMs), d.version.value, d.at, ttlMs).0
  {
    assert (ds + [d])[..|ds|] == ds;
  }

  lemma {:induction false} MarkerIgnoresWrites(events: seq<Event>, ttlMs: int)
    requires PossibleRun(events, ttlMs)
    ensures Run(events, ttlMs).marker == MarkerAfter(Arrivals(events), ttlMs)
    decreases |events|
  {
    if events != [] {
      var n := |events| - 1;
      MarkerIgnoresWrites(events[..n], ttlMs);
      if events[n].Arrives? { MarkerSnoc(Arrivals(events[..n]), events[n].d, ttlMs); }
    }
  }

  /** Every delivery carries a version, equal versions are the same event, times do not run back, and the
      whole schedule fits into one TTL. */
  ghost predicate Schedule(ds: seq<Delivery>, ttlMs: int) {
    && (forall i :: 0 <= i < |ds| ==> ds[i].version.Some?)
    && (forall i, j :: 0 <= i < |ds| && 0 <= j < |ds| ==>
          (ds[i].version == ds[j].version <==> ds[i].payload == ds[j].payload))
    && (forall i, j :: 0 <= i < j < |ds| ==> ds[i].at <= ds[j].at)
    && (forall i, j :: 0 <= i < |ds| && 0 <= j < |ds| ==> ds[j].at - ds[i].at < ttlMs)
  }

  /** The last delivery of the newest event. */
  ghost predicate LastNewest(ds: seq<Delivery>, k: nat) {
    && k < |ds| && ds[k].version.Some?
    && (forall i :: 0 <= i < |ds| ==> ds[i].version.Some? && ds[i].version.value <= ds[k].version.value)
    && (forall i :: k < i < |ds| ==> ds[i].version.value < ds[k].version.value)
  }

  lemma {:induction false} LastNewestOf(ds: seq<Delivery>) returns (k: nat)
    requires ds != [] && forall i :: 0 <= i < |ds| ==> ds[i].version.Some?
    ensures LastNewest(ds, k)
  {
    k := 0;
    for i := 1 to |ds|
      invariant k < i
      invariant forall j :: 0 <= j < i ==> ds[j].version.value <= ds[k].version.value
      invariant forall j :: k < j < i ==> ds[j].version.value < ds[k].version.value
    {
      if ds[k].version.value <= ds[i].version.value { k := i; }
    }
  }

  lemma PrefixIsSchedule(ds: seq<Delivery>, n: nat, ttlMs: int)
    requires Schedule(ds, ttlMs) && n <= |ds|
    ensures Schedule(ds[..n], ttlMs)
  {
    forall i | 0 <= i < n ensures ds[..n][i] == ds[i] { }
  }

  /** The marker holds the newest version, and its deadline runs from that event's last delivery: a replay
      extends it. */
  lemma {:induction false} MarkerIsNewest(ds: seq<Delivery>, ttlMs: int, k: nat)
    requires Schedule(ds, ttlMs) && LastNewest(ds, k)
    ensures MarkerAfter(ds, ttlMs) == Some(Marker(ds[k].version.value, ds[k].at + ttlMs))
    decreases |ds|
  {
    var n := |ds| - 1;
    var before := ds[..n];
    if n > 0 {
      PrefixIsSchedule(ds, n, ttlMs);
      forall i | 0 <= i < n ensures before[i] == ds[i] { }
      var l := LastNewestOf(before);
      MarkerIsNewest(before, ttlMs, l);
      if k < n { assert before[k] == ds[k]; SameLastNewest(before, k, l); }
    } else {
      assert MarkerAfter(before, ttlMs) == None;
    }
  }

  lemma SameLastNewest(ds: seq<Delivery>, k: nat, l: nat)
    requires LastNewest(ds, k) && LastNewest(ds, l)
    ensures k == l
  {
  }

  /** A delivery passes when nothing newer was delivered before it. */
  ghost predicate Passes(ds: seq<Delivery>, n: nat)
    requires n < |ds| && forall i :: 0 <= i < |ds| ==> ds[i].version.Some?
  {
    forall i :: 0 <= i < n ==> ds[i].version.value <= ds[n].version.value
  }

  /** Within one TTL the guard accepts exactly the deliveries that are not older than anything before them. */
  lemma AcceptedIffPasses(ds: seq<Delivery>, n: nat, ttlMs: int)
    requires Schedule(ds, ttlMs) && n < |ds|
    ensures Accept(MarkerAfter(ds[..n], ttlMs), ds[n].version.value, ds[n].at, ttlMs).1 <==> Passes(ds, n)
  {
    var before := ds[..n];
    forall i | 0 <= i < n ensures before[i] == ds[i] { }
    if n > 0 {
      PrefixIsSchedule(ds, n, ttlMs);
      var k := LastNewestOf(before);
      MarkerIsNewest(before, ttlMs, k);
    } else {
      assert MarkerAfter(before, ttlMs) == None;
    }
  }

  /** Once a schedule is over, a delivery older than its newest event is accepted if and only if it comes at
      least one TTL after the last delivery of that event, which is the last one the guard accepted. */
  lemma StaleWinsExactlyAfterTtl(ds: seq<Delivery>, k: nat, older: Delivery, ttlMs: int)
    requires Schedule(ds, ttlMs) && LastNewest(ds, k)
    requires older.version.Some? && older.version.value < ds[k].version.value
    ensures Accept(MarkerAfter(ds, ttlMs), older.version.value, older.at, ttlMs).1 <==> ds[k].at + ttlMs <= older.at
    ensures forall n :: k < n < |ds| ==> !Passes(ds, n)
    ensures Passes(ds, k)
  {
    MarkerIsNewest(ds, ttlMs, k);
    forall n | k < n < |ds| ensures !Passes(ds, n) { assert ds[n].version.value < ds[k].version.value; }
  }

  // ----- which state remains -----

  /** Which deliveries the guard let through, in order. */
  function Accepted(ds: seq<Delivery>, ttlMs: int): seq<Delivery> {
    if ds == [] then []
    else
      var n := |ds| - 1;
      var rest := Accepted(ds[..n], ttlMs);
      if LetsThrough(ds[..n], ds[n], ttlMs) then rest + [ds[n]] else rest
  }

  predicate LetsThrough(ds: seq<Delivery>, d: Delivery, ttlMs: int) {
    d.version.None? || Accept(MarkerAfter(ds, ttlMs), d.version.value, d.at, ttlMs).1
  }

  lemma AcceptedSnoc(ds: seq<Delivery>, d: Delivery, ttlMs: int)
    ensures Accepted(ds + [d], ttlMs) == Accepted(ds, ttlMs) + if LetsThrough(ds, d, ttlMs) then [d] else []
  {
    assert (ds + [d])[..|ds|] == ds;
  }

  function Versioned(ds: seq<Delivery>): seq<Delivery> {
    if ds == [] then []
    else
      var n := |ds| - 1;
      if ds[n].version.Some? then Versioned(ds[..n]) + [ds[n]] else Versioned(ds[..n])
  }

  lemma VersionedSnoc(ds: seq<Delivery>, d: Delivery)
    ensures Versioned(ds + [d]) == Versioned(ds) + if d.version.Some? then [d] else []
  {
    assert (ds + [d])[..|ds|] == ds;
  }

  /** Deliveries without a version change nothing for the others. */
  lemma {:induction false} UnversionedAreInvisible(ds: seq<Delivery>, ttlMs: int)
    ensures MarkerAfter(Versioned(ds), ttlMs) == MarkerAfter(ds, ttlMs)
    ensures Accepted(Versioned(ds), ttlMs) == Versioned(Accepted(ds, ttlMs))
    decreases |ds|
  {
    if ds != [] {
      var n := |ds| - 1;
      var before, d := ds[..n], ds[n];
      UnversionedAreInvisible(before, ttlMs);
      if LetsThrough(before, d, ttlMs) { VersionedSnoc(Accepted(before, ttlMs), d); }
      if d.version.Some? {
        MarkerSnoc(Versioned(before), d, ttlMs);
        AcceptedSnoc(Versioned(before), d, ttlMs);
      }
    }
  }

  lemma {:induction false} VersionedDrops(before: seq<Delivery>, d: Delivery, after: seq<Delivery>)
    requires d.version.None?
    ensures Versioned(before + [d] + after) == Versioned(before + after)
    decreases |after|
  {
    if after == [] {
      VersionedSnoc(before, d);
      assert before + [d] + after == before + [d] && before + after == before;
    } else {
      var n := |after| - 1;
      VersionedDrops(before, d, after[..n]);
      VersionedSnoc(before + [d] + after[..n], after[n]);
      VersionedSnoc(before + after[..n], after[n]);
      assert before + [d] + after[..n] + [after[n]] == before + [d] + after;
      assert before + after[..n] + [after[n]] == before + after;
    }
  }

  lemma {:induction false} UnversionedIsAccepted(before: seq<Delivery>, d: Delivery, after: seq<Delivery>, ttlMs: int)
    requires d.version.None?
    ensures d in Accepted(before + [d] + after, ttlMs)
    decreases |after|
  {
    if after == [] {
      AcceptedSnoc(before, d, ttlMs);
      assert before + [d] + after == before + [d];
    } else {
      var n := |after| - 1;
      UnversionedIsAccepted(before, d, after[..n], ttlMs);
      AcceptedSnoc(before + [d] + after[..n], after[n], ttlMs);
      assert before + [d] + after[..n] + [after[n]] == before + [d] + after;
    }
  }

  /** An event without a usable timestamp is applied wherever it turns up, and whether it does makes no
      difference to the marker or to which of the other events are applied. */
  lemma NoTimestampNoGuard(before: seq<Delivery>, after: seq<Delivery>, timestamp: Option<string>, payload: int,
                           at: int, parse: string -> Option<int>, ttlMs: int)
    requires timestamp.None? || timestamp.value == "" || parse(timestamp.value).None?
    ensures var d := Received(timestamp, payload, at, parse);
            var with, without := before + [d] + after, before + after;
            && d in Accepted(with, ttlMs)
            && MarkerAfter(with, ttlMs) == MarkerAfter(without, ttlMs)
            && Versioned(Accepted(with, ttlMs)) == Versioned(Accepted(without, ttlMs))
  {
    var d := Received(timestamp, payload, at, parse);
    UnversionedIsAccepted(before, d, after, ttlMs);
    VersionedDrops(before, d, after);
    UnversionedAreInvisible(before + [d] + after, ttlMs);
    UnversionedAreInvisible(before + after, ttlMs);
  }

  /** A usable timestamp is the version by which the event is judged: within one TTL of the others it is applied
      exactly when no event with a later timestamp came before it. */
  lemma TimestampDecides(before: seq<Delivery>, timestamp: string, payload: int, at: int,
                         parse: string -> Option<int>, ttlMs: int)
    requires timestamp != "" && parse(timestamp).Some?
    requires Schedule(before + [Delivery(at, parse(timestamp), payload)], ttlMs)
    ensures var d := Received(Some(timestamp), payload, at, parse);
            && d == Delivery(at, parse(timestamp), payload)
            && (LetsThrough(before, d, ttlMs)
                <==> forall i :: 0 <= i < |before| && before[i].version.Some? ==>
                       before[i].version.value <= parse(timestamp).value)
  {
    var d := Received(Some(timestamp), payload, at, parse);
    var ds := before + [d];
    AcceptedIffPasses(ds, |before|, ttlMs);
    assert ds[..|before|] == before;
    forall i | 0 <= i < |before| ensures ds[i] == before[i] { }
  }

  /** A step lets exactly the accepted arrivals join those waiting or applied. */
  lemma StepKeepsDelivery(g: Guarded, e: Event, ttlMs: int, d: Delivery)
    requires Possible(g, e)
    ensures var g' := Step(g, e, ttlMs);
            (d in g'.waiting || d in g'.applied)
            <==> d in g.waiting || d in g.applied
                 || (e.Arrives? && e.d == d
                     && (d.version.None? || Accept(g.marker, d.version.value, d.at, ttlMs).1))
  {
    if e.Applies? { TakenOut(g.waiting, e.k, d); }
  }

  lemma TakenOut(s: seq<Delivery>, k: nat, d: Delivery)
    requires k < |s|
    ensures d in s <==> d == s[k] || d in s[..k] + s[k + 1..]
  {
    assert s == s[..k] + [s[k]] + s[k + 1..];
  }

  /** Exactly the accepted deliveries are waiting or applied. */
  lemma {:induction false} AcceptedAreWaitingOrApplied(events: seq<Event>, ttlMs: int, d: Delivery)
    requires PossibleRun(events, ttlMs)
    ensures var g := Run(events, ttlMs);
            d in Accepted(Arrivals(events), ttlMs) <==> d in g.waiting || d in g.applied
    decreases |events|
  {
    if events != [] {
      var n := |events| - 1;
      AcceptedAreWaitingOrApplied(events[..n], ttlMs, d);
      MarkerIgnoresWrites(events[..n], ttlMs);
      StepKeepsDelivery(Run(events[..n], ttlMs), events[n], ttlMs, d);
      if events[n].Arrives? { AcceptedSnoc(Arrivals(events[..n]), events[n].d, ttlMs); }
    }
  }

  lemma {:induction false} AcceptedWereDelivered(ds: seq<Delivery>, ttlMs: int)
    ensures forall d :: d in Accepted(ds, ttlMs) ==> d in ds
  {
    if ds != [] {
      var n := |ds| - 1;
      AcceptedWereDelivered(ds[..n], ttlMs);
      assert ds[..n] + [ds[n]] == ds;
      AcceptedSnoc(ds[..n], ds[n], ttlMs);
    }
  }

  /** Over a schedule the last delivery accepted is the newest event's last one. */
  lemma {:induction false} AcceptedEndsAtNewest(ds: seq<Delivery>, ttlMs: int, k: nat)
    requires Schedule(ds, ttlMs) && LastNewest(ds, k)
    ensures var a := Accepted(ds, ttlMs); a != [] && a[|a| - 1] == ds[k]
    decreases |ds|
  {
    var n := |ds| - 1;
    var before := ds[..n];
    AcceptedIffPasses(ds, n, ttlMs);
    assert before + [ds[n]] == ds;
    AcceptedSnoc(before, ds[n], ttlMs);
    if k < n {
      PrefixIsSchedule(ds, n, ttlMs);
      PrefixLastNewest(ds, n, k);
      AcceptedEndsAtNewest(before, ttlMs, k);
    }
  }

  lemma PrefixLastNewest(ds: seq<Delivery>, n: nat, k: nat)
    requires k < n <= |ds| && LastNewest(ds, k)
    ensures LastNewest(ds[..n], k)
  {
    forall i | 0 <= i < n ensures ds[..n][i] == ds[i] { }
  }

  /** The accepted versions never go down. */
  lemma {:induction false} AcceptedAscends(ds: seq<Delivery>, ttlMs: int)
    requires Schedule(ds, ttlMs)
    ensures Ascending(Accepted(ds, ttlMs))
    decreases |ds|
  {
    if ds != [] {
      var n := |ds| - 1;
      var before := ds[..n];
      PrefixIsSchedule(ds, n, ttlMs);
      AcceptedAscends(before, ttlMs);
      assert before + [ds[n]] == ds;
      AcceptedSnoc(before, ds[n], ttlMs);
      if LetsThrough(before, ds[n], ttlMs) {
        AcceptedIffPasses(ds, n, ttlMs);
        AcceptedWereDelivered(before, ttlMs);
        forall d | d in Accepted(before, ttlMs)
          ensures d.version.Some? && d.version.value <= ds[n].version.value
        {
          PassesAll(ds, n, d);
        }
        AscendingSnoc(Accepted(before, ttlMs), ds[n]);
      }
    }
  }

  lemma PassesAll(ds: seq<Delivery>, n: nat, d: Delivery)
    requires n < |ds| && (forall i :: 0 <= i < |ds| ==> ds[i].version.Some?) && Passes(ds, n) && d in ds[..n]
    ensures d.version.Some? && d.version.value <= ds[n].version.value
  {
    var i :| 0 <= i < n && ds[..n][i] == d;
    assert ds[i] == d;
  }

  lemma AscendingSnoc(a: seq<Delivery>, d: Delivery)
    requires Ascending(a) && d.version.Some?
    requires forall x :: x in a ==> x.version.Some? && x.version.value <= d.version.value
    ensures Ascending(a + [d])
  {
  }

  ghost predicate Ascending(a: seq<Delivery>) {
    && (forall i :: 0 <= i < |a| ==> a[i].version.Some?)
    && (forall i, j :: 0 <= i < j < |a| ==> a[i].version.value <= a[j].version.value)
  }

  lemma SameEvent(ds: seq<Delivery>, ttlMs: int, d: Delivery, e: Delivery)
    requires Schedule(ds, ttlMs) && d in ds && e in ds
    ensures d.version == e.version <==> d.payload == e.payload
  {
    var i :| 0 <= i < |ds| && ds[i] == d;
    var j :| 0 <= j < |ds| && ds[j] == e;
  }

  lemma WaitingWasDelivered(events: seq<Event>, ttlMs: int, d: Delivery)
    requires PossibleRun(events, ttlMs) && d in Run(events, ttlMs).waiting
    ensures d in Arrivals(events)
  {
    AcceptedAreWaitingOrApplied(events, ttlMs, d);
    AcceptedWereDelivered(Arrivals(events), ttlMs);
  }

  // ----- what is decided when the newest event is accepted -----

  /** All later arrivals are no newer than v, come within one TTL of `from`, and are that event exactly when
      they carry its version. */
  ghost predicate NoneNewer(events: seq<Event>, v: int, payload: int, from: int, ttlMs: int) {
    forall i :: 0 <= i < |events| && events[i].Arrives? ==>
      var d := events[i].d;
      d.version.Some? && d.version.value <= v && from <= d.at < from + ttlMs
      && (d.version.value == v <==> d.payload == payload)
  }

  /** A continuation of g with such arrivals, and with writes in any order, that completes every write. */
  ghost predicate Completes(g: Guarded, events: seq<Event>, v: int, payload: int, from: int, ttlMs: int) {
    && PossibleFrom(g, events, ttlMs) && NoneNewer(events, v, payload, from, ttlMs)
    && RunFrom(g, events, ttlMs).waiting == []
  }

  /** However g goes on, the state ends at this payload. */
  ghost predicate Settled(g: Guarded, v: int, payload: int, from: int, ttlMs: int) {
    forall events :: Completes(g, events, v, payload, from, ttlMs) ==>
      State(RunFrom(g, events, ttlMs)) == Some(payload)
  }

  ghost predicate OnlyVersion(waiting: seq<Delivery>, v: int) {
    forall i :: 0 <= i < |waiting| ==> waiting[i].version == Some(v)
  }

  /** Version v has been accepted at `from`, its write is still awaited, and payloads tell it from others. */
  ghost predicate JustAccepted(g: Guarded, v: int, payload: int, from: int, ttlMs: int) {
    && g.marker == Some(Marker(v, from + ttlMs)) && g.waiting != []
    && forall i :: 0 <= i < |g.waiting| ==> (g.waiting[i].version == Some(v) <==> g.waiting[i].payload == payload)
  }

  /** From a state with `base` writes done on, only version v is ever written or waited for. */
  ghost predicate OnlyNewest(g: Guarded, v: int, payload: int, until: int, base: nat, total: nat) {
    && g.marker.Some? && g.marker.value.version == v && until <= g.marker.value.expireAt
    && (forall i :: 0 <= i < |g.waiting| ==> g.waiting[i].payload == payload)
    && base <= |g.applied| && total <= |g.applied| + |g.waiting|
    && (base < |g.applied| ==> State(g) == Some(payload))
  }

  lemma StepKeepsOnlyNewest(g: Guarded, e: Event, v: int, payload: int, from: int, base: nat, total: nat, ttlMs: int)
    requires OnlyNewest(g, v, payload, from + ttlMs, base, total) && Possible(g, e)
    requires NoneNewer([e], v, payload, from, ttlMs)
    ensures OnlyNewest(Step(g, e, ttlMs), v, payload, from + ttlMs, base, total)
  {
    if e.Arrives? { assert [e][0].Arrives?; }
  }

  lemma {:induction false} RunKeepsOnlyNewest(g: Guarded, events: seq<Event>, v: int, payload: int, from: int,
                                              base: nat, total: nat, ttlMs: int)
    requires OnlyNewest(g, v, payload, from + ttlMs, base, total)
    requires PossibleFrom(g, events, ttlMs) && NoneNewer(events, v, payload, from, ttlMs)
    ensures OnlyNewest(RunFrom(g, events, ttlMs), v, payload, from + ttlMs, base, total)
    decreases |events|
  {
    if events != [] {
      var n := |events| - 1;
      RunKeepsOnlyNewest(g, events[..n], v, payload, from, base, total, ttlMs);
      assert [events[n]][0] == events[n];
      StepKeepsOnlyNewest(RunFrom(g, events[..n], ttlMs), events[n], v, payload, from, base, total, ttlMs);
    }
  }

  /** Any pending write can be the last one. */
  lemma {:induction false} OthersFirst(g: Guarded, i: nat, ttlMs: int) returns (events: seq<Event>)
    requires i < |g.waiting|
    ensures PossibleFrom(g, events, ttlMs) && forall j :: 0 <= j < |events| ==> events[j].Applies?
    ensures RunFrom(g, events, ttlMs).waiting == []
    ensures State(RunFrom(g, events, ttlMs)) == Some(g.waiting[i].payload)
    decreases |g.waiting|
  {
    if |g.waiting| == 1 {
      RunExtends(g, [], Applies(0), ttlMs);
      events := [] + [Applies(0)];
    } else {
      var k := if i == 0 then 1 else 0;
      RunExtends(g, [], Applies(k), ttlMs);
      var first := [] + [Applies(k)];
      var rest := OthersFirst(Step(g, Applies(k), ttlMs), if i == 0 then 0 else i - 1, ttlMs);
      RunSplits(g, first, rest, ttlMs);
      events := first + rest;
    }
  }

  /** The state is bound to end at the newest event if and only if, at the moment it has been accepted, no
      other accepted write is still awaited. */
  lemma SettledIff(g: Guarded, v: int, payload: int, from: int, ttlMs: int)
    requires JustAccepted(g, v, payload, from, ttlMs)
    ensures Settled(g, v, payload, from, ttlMs) <==> OnlyVersion(g.waiting, v)
  {
    if OnlyVersion(g.waiting, v) {
      forall events | Completes(g, events, v, payload, from, ttlMs)
        ensures State(RunFrom(g, events, ttlMs)) == Some(payload)
      {
        RunKeepsOnlyNewest(g, events, v, payload, from, |g.applied|, |g.applied| + |g.waiting|, ttlMs);
      }
    } else {
      var i :| 0 <= i < |g.waiting| && g.waiting[i].version != Some(v);
      var events := OthersFirst(g, i, ttlMs);
      assert Completes(g, events, v, payload, from, ttlMs);
    }
  }

  /** The newest arrival of a schedule so far is accepted, beside what was awaited before. */
  lemma NewestIsAccepted(before: seq<Event>, newest: Delivery, ttlMs: int)
    requires PossibleRun(before, ttlMs) && NewestOf(before, newest, ttlMs)
    ensures PossibleRun(before + [Arrives(newest)], ttlMs)
    ensures var g, g' := Run(before, ttlMs), Run(before + [Arrives(newest)], ttlMs);
            g'.waiting == g.waiting + [newest] && g'.applied == g.applied
            && g'.marker == Some(Marker(newest.version.value, newest.at + ttlMs))
  {
    var ds := Arrivals(before) + [newest];
    RunExtends(Unset, before, Arrives(newest), ttlMs);
    MarkerIgnoresWrites(before, ttlMs);
    AcceptedIffPasses(ds, |ds| - 1, ttlMs);
    assert ds[..|ds| - 1] == Arrivals(before);
  }

  ghost predicate NewestOf(before: seq<Event>, newest: Delivery, ttlMs: int) {
    var ds := Arrivals(before) + [newest];
    Schedule(ds, ttlMs) && LastNewest(ds, |ds| - 1)
  }

  lemma NewestIsJustAccepted(before: seq<Event>, newest: Delivery, ttlMs: int)
    requires PossibleRun(before, ttlMs) && NewestOf(before, newest, ttlMs)
    ensures PossibleRun(before + [Arrives(newest)], ttlMs)
    ensures JustAccepted(Run(before + [Arrives(newest)], ttlMs), newest.version.value, newest.payload, newest.at, ttlMs)
  {
    NewestIsAccepted(before, newest, ttlMs);
    var waiting, ds := Run(before, ttlMs).waiting, Arrivals(before) + [newest];
    forall d | d in waiting ensures d.version == newest.version <==> d.payload == newest.payload {
      WaitingWasDelivered(before, ttlMs, d);
      SameEvent(ds, ttlMs, d, newest);
    }
  }

  /** Main result on the state, for any run so far: once the newest event has been accepted, every way to go
      on, with nothing newer arriving, within the TTL and with writes landing in any order, ends at it if and
      only if no accepted older write was still awaited when it arrived. */
  lemma NewestWinsIff(before: seq<Event>, newest: Delivery, ttlMs: int)
    requires PossibleRun(before, ttlMs) && NewestOf(before, newest, ttlMs)
    ensures PossibleRun(before + [Arrives(newest)], ttlMs)
    ensures Settled(Run(before + [Arrives(newest)], ttlMs), newest.version.value, newest.payload, newest.at, ttlMs)
            <==> OnlyVersion(Run(before, ttlMs).waiting, newest.version.value)
  {
    NewestIsAccepted(before, newest, ttlMs);
    NewestIsJustAccepted(before, newest, ttlMs);
    var g, v := Run(before + [Arrives(newest)], ttlMs), newest.version.value;
    SettledIff(g, v, newest.payload, newest.at, ttlMs);
    assert g.waiting[|g.waiting| - 1] == newest;
    var waiting := Run(before, ttlMs).waiting;
    forall i | 0 <= i < |waiting| ensures waiting[i] == g.waiting[i] { }
  }

  /** Writes that land in the order of acceptance are enough. */
  lemma WritesInOrderSuffice(events: seq<Event>, ttlMs: int, k: nat)
    requires PossibleRun(events, ttlMs) && Run(events, ttlMs).waiting == []
    requires Schedule(Arrivals(events), ttlMs) && LastNewest(Arrivals(events), k)
    requires InOrder(events)
    ensures State(Run(events, ttlMs)) == Some(Arrivals(events)[k].payload)
  {
    var g := Run(events, ttlMs);
    InOrderAppliesAccepted(events, ttlMs);
    assert g.applied + g.waiting == g.applied;
    AcceptedEndsAtNewest(Arrivals(events), ttlMs, k);
  }

  predicate InOrder(events: seq<Event>) {
    forall i :: 0 <= i < |events| && events[i].Applies? ==> events[i].k == 0
  }

  lemma {:induction false} InOrderAppliesAccepted(events: seq<Event>, ttlMs: int)
    requires PossibleRun(events, ttlMs) && InOrder(events)
    ensures var g := Run(events, ttlMs); g.applied + g.waiting == Accepted(Arrivals(events), ttlMs)
    decreases |events|
  {
    if events != [] {
      var n := |events| - 1;
      InOrderAppliesAccepted(events[..n], ttlMs);
      MarkerIgnoresWrites(events[..n], ttlMs);
      InOrderStep(Run(events[..n], ttlMs), events[n], ttlMs);
      if events[n].Arrives? { AcceptedSnoc(Arrivals(events[..n]), events[n].d, ttlMs); }
    }
  }

  lemma InOrderStep(g: Guarded, e: Event, ttlMs: int)
    requires Possible(g, e) && (e.Applies? ==> e.k == 0)
    ensures var g' := Step(g, e, ttlMs);
            g'.applied + g'.waiting
            == g.applied + g.waiting
               + if e.Arrives? && (e.d.version.None? || Accept(g.marker, e.d.version.value, e.d.at, ttlMs).1)
                 then [e.d] else []
  {
    if e.Applies? { assert g.waiting == [g.waiting[0]] + g.waiting[1..] && g.waiting[..0] == []; }
  }

  /** Any two overlapping deliveries can lose the newer one inside the TTL: older accepted, newer accepted and
      written, older written. */
  lemma OverlapLosesNewest(older: Delivery, newer: Delivery, ttlMs: int)
    requires older.version.Some? && newer.version.Some? && older.version.value < newer.version.value
    requires older.at <= newer.at
    ensures PossibleRun(OverlapRun(older, newer), ttlMs)
    ensures Run(OverlapRun(older, newer), ttlMs).waiting == []
    ensures State(Run(OverlapRun(older, newer), ttlMs)) == Some(older.payload)
  {
    var e1 := [] + [Arrives(older)];
    var e2 := e1 + [Arrives(newer)];
    var e3 := e2 + [Applies(1)];
    RunExtends(Unset, [], Arrives(older), ttlMs);
    RunExtends(Unset, e1, Arrives(newer), ttlMs);
    assert Run(e2, ttlMs).waiting == [older, newer];
    RunExtends(Unset, e2, Applies(1), ttlMs);
    assert Run(e3, ttlMs).waiting == [older];
    RunExtends(Unset, e3, Applies(0), ttlMs);
    assert e3 + [Applies(0)] == OverlapRun(older, newer);
  }

  function OverlapRun(older: Delivery, newer: Delivery): seq<Event> {
    [Arrives(older), Arrives(newer), Applies(1), Applies(0)]
  }

  // ----- any order, any repetition -----

  ghost function Events(ds: seq<Delivery>): set<(Option<int>, int)> {
    set i | 0 <= i < |ds| :: (ds[i].version, ds[i].payload)
  }

  lemma {:induction false} ArrivalsSplit(a: seq<Event>, b: seq<Event>)
    ensures Arrivals(a + b) == Arrivals(a) + Arrivals(b)
    decreases |b|
  {
    if b == [] {
      assert a + b == a;
    } else {
      var n := |b| - 1;
      ArrivalsSplit(a, b[..n]);
      assert (a + b)[..|a| + n] == a + b[..n];
    }
  }

  lemma {:induction false} ArrivedIsIn(events: seq<Event>, i: nat)
    requires i < |events| && events[i].Arrives?
    ensures events[i].d in Arrivals(events)
    decreases |events|
  {
    var n := |events| - 1;
    if i < n { ArrivedIsIn(events[..n], i); }
  }

  /** At some delivery of the newest event nothing older is in flight. */
  ghost predicate CalmAt(events: seq<Event>, ttlMs: int, n: nat, v: int)
    requires PossibleRun(events, ttlMs)
  {
    && n < |events| && events[n].Arrives? && events[n].d.version == Some(v)
    && PossibleRun(events[..n], ttlMs)
    && OnlyVersion(Run(events[..n], ttlMs).waiting, v)
  }

  ghost predicate Calm(events: seq<Event>, ttlMs: int, v: int)
    requires PossibleRun(events, ttlMs)
  {
    exists n :: CalmAt(events, ttlMs, n, v)
  }

  lemma RestIsNoneNewer(ds: seq<Delivery>, newest: Delivery, rest: seq<Event>, all: seq<Delivery>, ttlMs: int, k: nat)
    requires all == ds + [newest] + Arrivals(rest) && Schedule(all, ttlMs)
    requires LastNewest(all, k) && all[k].version == newest.version
    ensures NoneNewer(rest, newest.version.value, newest.payload, newest.at, ttlMs)
  {
    var m := |ds|;
    assert all[m] == newest;
    forall i | 0 <= i < |rest| && rest[i].Arrives?
      ensures var d := rest[i].d;
              d.version.Some? && d.version.value <= newest.version.value && newest.at <= d.at < newest.at + ttlMs
              && (d.version.value == newest.version.value <==> d.payload == newest.payload)
    {
      ArrivedIsIn(rest, i);
      var j :| 0 <= j < |Arrivals(rest)| && Arrivals(rest)[j] == rest[i].d;
      assert all[m + 1 + j] == rest[i].d;
      assert all[m].at <= all[m + 1 + j].at && all[m + 1 + j].at - all[m].at < ttlMs;
    }
  }

  lemma PrefixIsNewestOf(ds: seq<Delivery>, newest: Delivery, later: seq<Delivery>, all: seq<Delivery>, ttlMs: int, k: nat)
    requires all == ds + [newest] + later && Schedule(all, ttlMs)
    requires LastNewest(all, k) && all[k].version == newest.version
    ensures Schedule(ds + [newest], ttlMs) && LastNewest(ds + [newest], |ds|)
  {
    assert all[..|ds| + 1] == ds + [newest];
    PrefixIsSchedule(all, |ds| + 1, ttlMs);
    forall i | 0 <= i < |ds| ensures (ds + [newest])[i] == all[i] { }
  }

  /** A run that is calm at some delivery of its newest event ends at it. */
  lemma CalmRunEndsAtNewest(events: seq<Event>, ttlMs: int, k: nat, n: nat)
    requires PossibleRun(events, ttlMs) && Run(events, ttlMs).waiting == []
    requires Schedule(Arrivals(events), ttlMs) && LastNewest(Arrivals(events), k)
    requires CalmAt(events, ttlMs, n, Arrivals(events)[k].version.value)
    ensures State(Run(events, ttlMs)) == Some(Arrivals(events)[k].payload)
  {
    var before, newest, rest, all := events[..n], events[n].d, events[n + 1..], Arrivals(events);
    var upTo := before + [events[n]];
    assert events == upTo + rest;
    ArrivalsSplit(upTo, rest);
    assert upTo[..n] == before;
    assert all == Arrivals(before) + [newest] + Arrivals(rest);
    PrefixIsNewestOf(Arrivals(before), newest, Arrivals(rest), all, ttlMs, k);
    RestIsNoneNewer(Arrivals(before), newest, rest, all, ttlMs, k);
    NewestWinsIff(before, newest, ttlMs);
    RunSplits(Unset, upTo, rest, ttlMs);
    assert events[n] == Arrives(newest);
    assert Completes(Run(upTo, ttlMs), rest, newest.version.value, newest.payload, newest.at, ttlMs);
    SameEvent(all, ttlMs, newest, all[k]);
  }

  /** Main result: two runs that deliver the same events, in any order, with any repetition and with writes
      landing whenever they do, leave the same version; and the same state, if each had nothing older in
      flight at some delivery of the newest event (which NewestWinsIff shows is what decides it). */
  lemma DeliveryOrderIsIrrelevant(events: seq<Event>, events': seq<Event>, ttlMs: int, k: nat, k': nat)
    requires PossibleRun(events, ttlMs) && PossibleRun(events', ttlMs)
    requires Schedule(Arrivals(events), ttlMs) && LastNewest(Arrivals(events), k)
    requires Schedule(Arrivals(events'), ttlMs) && LastNewest(Arrivals(events'), k')
    requires Events(Arrivals(events)) == Events(Arrivals(events'))
    ensures var g, g' := Run(events, ttlMs), Run(events', ttlMs);
            var version := Arrivals(events)[k].version.value;
            && g.marker.Some? && g'.marker.Some? && g.marker.value.version == g'.marker.value.version == version
            && (g.waiting == [] && g'.waiting == [] && Calm(events, ttlMs, version) && Calm(events', ttlMs, version)
                ==> State(g) == State(g') == Some(Arrivals(events)[k].payload))
  {
    var ds, es := Arrivals(events), Arrivals(events');
    MarkerIgnoresWrites(events, ttlMs);
    MarkerIgnoresWrites(events', ttlMs);
    MarkerIsNewest(ds, ttlMs, k);
    MarkerIsNewest(es, ttlMs, k');
    SameNewest(ds, es, k, k');
    SameNewest(es, ds, k', k);
    NewestHasSamePayload(ds, es, k, k', ttlMs);
    var v := ds[k].version.value;
    if Run(events, ttlMs).waiting == [] && Run(events', ttlMs).waiting == []
       && Calm(events, ttlMs, v) && Calm(events', ttlMs, v) {
      var n :| CalmAt(events, ttlMs, n, v);
      var n' :| CalmAt(events', ttlMs, n', v);
      CalmRunEndsAtNewest(events, ttlMs, k, n);
      CalmRunEndsAtNewest(events', ttlMs, k', n');
    }
  }

  lemma SameNewest(ds: seq<Delivery>, es: seq<Delivery>, k: nat, l: nat)
    requires LastNewest(ds, k) && LastNewest(es, l) && Events(ds) == Events(es)
    ensures ds[k].version.value <= es[l].version.value
  {
    assert (ds[k].version, ds[k].payload) in Events(es);
  }

  lemma NewestHasSamePayload(ds: seq<Delivery>, es: seq<Delivery>, k: nat, l: nat, ttlMs: int)
    requires LastNewest(ds, k) && LastNewest(es, l) && Schedule(es, ttlMs) && Events(ds) == Events(es)
    requires ds[k].version == es[l].version
    ensures ds[k].payload == es[l].payload
  {
    assert (ds[k].version, ds[k].payload) in Events(es);
    var i :| 0 <= i < |es| && es[i].version == ds[k].version && es[i].payload == ds[k].payload;
    assert es[i].version == es[l].version;
  }

  // ----- the revocation watermark -----

  function WriteAll(m: Option<Marker>, writes: seq<(int, int)>, ttlMs: int): Option<Marker> {
    if writes == [] then m
    else (var n := |writes| - 1; Write(WriteAll(m, writes[..n], ttlMs), writes[n].0, writes[n].1, ttlMs).0)
  }

  /** Writes (version, time) within one TTL leave exactly the maximum, stamped when it first arrived. */
  lemma {:induction false} WatermarkIsMaximum(writes: seq<(int, int)>, ttlMs: int, k: nat)
    requires k < |writes|
    requires forall i :: 0 <= i < |writes| ==> writes[i].0 <= writes[k].0
    requires forall i :: 0 <= i < k ==> writes[i].0 < writes[k].0
    requires forall i, j :: 0 <= i < j < |writes| ==> writes[i].1 <= writes[j].1 < writes[i].1 + ttlMs
    ensures WriteAll(None, writes, ttlMs) == Some(Marker(writes[k].0, writes[k].1 + ttlMs))
    decreases |writes|
  {
    var n := |writes| - 1;
    var before := writes[..n];
    if k < n {
      WatermarkIsMaximum(before, ttlMs, k);
    } else if n > 0 {
      var l := FirstMaximum(before);
      WatermarkIsMaximum(before, ttlMs, l);
      assert before[l] == writes[l];
    } else {
      assert WriteAll(None, before, ttlMs) == None;
    }
  }

  /** Within one TTL a write says that it was made exactly when it is strictly newer than all before it. */
  lemma WrittenIffNewest(writes: seq<(int, int)>, version: int, clock: int, ttlMs: int)
    requires forall i, j :: 0 <= i < j < |writes| ==> writes[i].1 <= writes[j].1 < writes[i].1 + ttlMs
    requires forall i :: 0 <= i < |writes| ==> writes[i].1 <= clock < writes[i].1 + ttlMs
    ensures var (marker, written) := Write(WriteAll(None, writes, ttlMs), version, clock, ttlMs);
            && (written <==> forall i :: 0 <= i < |writes| ==> writes[i].0 < version)
            && (written ==> marker == Some(Marker(version, clock + ttlMs)))
            && (!written ==> marker == WriteAll(None, writes, ttlMs))
  {
    if writes != [] {
      var l := FirstMaximum(writes);
      WatermarkIsMaximum(writes, ttlMs, l);
    }
  }

  lemma {:induction false} FirstMaximum(writes: seq<(int, int)>) returns (l: nat)
    requires writes != []
    ensures l < |writes| && forall i :: 0 <= i < |writes| ==> writes[i].0 <= writes[l].0
    ensures forall i :: 0 <= i < l ==> writes[i].0 < writes[l].0
  {
    l := 0;
    for i := 1 to |writes|
      invariant l < i && forall j :: 0 <= j < i ==> writes[j].0 <= writes[l].0
      invariant forall j :: 0 <= j < l ==> writes[j].0 < writes[l].0
    {
      if writes[l].0 < writes[i].0 { l := i; }
    }
  }
}
