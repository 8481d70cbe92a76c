/** The sliding-window rate limiter (rateLimiter.ts). The Redis form keeps one pruned sorted set per key
    under an expiring key; it is shown to decide exactly as a limiter that remembers every admission. */
module SlidingWindow {
  import opened Redis

  /** The sorted set of one key: its scores in order, and the key's deadline. */
  datatype Window = Window(scores: seq<int>, expireAt: Option<int>)

  /** ZREMRANGEBYSCORE key 0 upTo */
  function Prune(scores: seq<int>, upTo: int): seq<int> {
    if scores == [] then []
    else (if 0 <= scores[0] <= upTo then [] else [scores[0]]) + Prune(scores[1..], upTo)
  }

  function Read(w: Window, clock: int): Window {
    if Expired(w.expireAt, clock) then Window([], None) else w
  }

  /** SLIDING_WINDOW_LUA: `now` is the calling instance's clock, `clock` the one Redis expires keys by. */
  function Check(w: Window, now: int, clock: int, windowMs: nat, limit: nat): (Window, bool) {
    var kept := Prune(Read(w, clock).scores, now - windowMs);
    if |kept| < limit then (Window(kept + [now], Some(clock + windowMs)), true)
    else (Window(kept, if kept == [] then None else Read(w, clock).expireAt), false)
  }

  class RateLimiter {
    var windows: map<int, Window>

    constructor ()
      ensures windows == map[]
    {
      windows := map[];
    }

    function WindowOf(key: int): Window
      reads this
    {
      if key in windows then windows[key] else Window([], None)
    }

    method IsAllowed(key: int, limit: nat, windowMs: nat, now: int, clock: int) returns (allowed: bool)
      modifies this
      ensures (WindowOf(key), allowed) == Check(old(WindowOf(key)), now, clock, windowMs, limit)
      ensures forall other :: other != key ==> WindowOf(other) == old(WindowOf(other))
    {
      var w := Read(WindowOf(key), clock);
      var kept := ZRemRangeByScore(w.scores, now - windowMs);
      if |kept| < limit {
        windows := windows[key := Window(kept + [now], Some(clock + windowMs))];
        allowed := true;
      } else {
        windows := windows[key := Window(kept, if kept == [] then None else w.expireAt)];
        allowed := false;
      }
    }
  }

  method ZRemRangeByScore(scores: seq<int>, upTo: int) returns (kept: seq<int>)
    ensures kept == Prune(scores, upTo)
  {
    kept := [];
    for k := 0 to |scores|
      invariant kept + Prune(scores[k..], upTo) == Prune(scores, upTo)
    {
      assert scores[k..][1..] == scores[k + 1..];
      if !(0 <= scores[k] <= upTo) { kept := kept + [scores[k]]; }
    }
  }

  // ----- the simple limiter: remember every admission -----

  /** How many of the times lie in the half-open interval (a, b]. */
  function CountIn(times: seq<int>, a: int, b: int): nat {
    if times == [] then 0 else (if a < times[0] <= b then 1 else 0) + CountIn(times[1..], a, b)
  }

  predicate Admits(log: seq<int>, now: int, windowMs: nat, limit: nat) {
    CountIn(log, now - windowMs, now) < limit
  }

  function Logged(log: seq<int>, now: int, windowMs: nat, limit: nat): seq<int> {
    if Admits(log, now, windowMs, limit) then log + [now] else log
  }

  ghost predicate Sorted(times: seq<int>) {
    forall i, j :: 0 <= i < j < |times| ==> times[i] <= times[j]
  }

  // ----- refinement -----

  /** The set holds the admissions from the dropped-th on; the dropped ones are out of every window to
      come, and the key outlives the newest one by exactly one window. */
  ghost predicate Remembers(w: Window, log: seq<int>, dropped: nat, last: int, windowMs: nat) {
    && dropped <= |log| && w.scores == log[dropped..]
    && Sorted(log) && (forall i :: 0 <= i < |log| ==> 0 <= log[i] <= last)
    && (forall i :: 0 <= i < dropped ==> log[i] <= last - windowMs)
    && (w.scores != [] ==> w.expireAt == Some(log[|log| - 1] + windowMs))
  }

  lemma {:induction false} PruneSorted(s: seq<int>, upTo: int) returns (j: nat)
    requires Sorted(s) && forall i :: 0 <= i < |s| ==> 0 <= s[i]
    ensures j <= |s| && Prune(s, upTo) == s[j..]
    ensures forall i :: 0 <= i < j ==> s[i] <= upTo
    ensures forall i :: j <= i < |s| ==> upTo < s[i]
  {
    if s == [] {
      j := 0;
    } else {
      var tail := PruneSorted(s[1..], upTo);
      if s[0] <= upTo {
        j := tail + 1;
        assert s[j..] == s[1..][tail..];
        forall i | 0 <= i < j ensures s[i] <= upTo { assert i > 0 ==> s[i] == s[1..][i - 1]; }
        forall i | j <= i < |s| ensures upTo < s[i] { assert s[i] == s[1..][i - 1]; }
      } else {
        j := 0;
        forall i | 0 <= i < |s| - 1 ensures upTo < s[1..][i] { assert s[0] <= s[i + 1]; }
        assert tail == 0;
        assert [s[0]] + s[1..] == s;
      }
    }
  }

  lemma {:induction false} CountSuffix(times: seq<int>, j: nat, a: int, b: int)
    requires j <= |times|
    requires forall i :: 0 <= i < j ==> times[i] <= a
    requires forall i :: j <= i < |times| ==> a < times[i] <= b
    ensures CountIn(times, a, b) == |times| - j
  {
    if times != [] {
      forall i | 0 <= i < |times| - 1 ensures times[1..][i] == times[i + 1] { }
      CountSuffix(times[1..], if j == 0 then 0 else j - 1, a, b);
    }
  }

  /** Pruning, or the key's expiry, leaves exactly the admissions of the trailing window. */
  lemma PruneLeavesWindow(w: Window, log: seq<int>, dropped: nat, last: int, now: int, windowMs: nat)
    returns (dropped': nat)
    requires Remembers(w, log, dropped, last, windowMs) && 0 <= last <= now
    ensures dropped' <= |log| && Prune(Read(w, now).scores, now - windowMs) == log[dropped'..]
    ensures forall i :: 0 <= i < dropped' ==> log[i] <= now - windowMs
    ensures forall i :: dropped' <= i < |log| ==> now - windowMs < log[i] <= now
  {
    if w.scores == [] || Expired(w.expireAt, now) {
      dropped' := |log|;
    } else {
      var j := PruneSorted(w.scores, now - windowMs);
      dropped' := dropped + j;
      assert w.scores[j..] == log[dropped'..];
      forall i | dropped <= i < |log| ensures log[i] == w.scores[i - dropped] { }
      forall i | dropped' <= i < |log| ensures now - windowMs < log[i] { assert j <= i - dropped < |w.scores|; }
    }
  }

  /** One call: the pruned, expiring set decides as the full log does and goes on remembering it. */
  lemma CheckRefinesLog(w: Window, log: seq<int>, dropped: nat, last: int, now: int, windowMs: nat, limit: nat)
    returns (dropped': nat)
    requires Remembers(w, log, dropped, last, windowMs) && 0 <= last <= now
    ensures Check(w, now, now, windowMs, limit).1 == Admits(log, now, windowMs, limit)
    ensures Remembers(Check(w, now, now, windowMs, limit).0, Logged(log, now, windowMs, limit), dropped', now, windowMs)
  {
    dropped' := PruneLeavesWindow(w, log, dropped, last, now, windowMs);
    CountSuffix(log, dropped', now - windowMs, now);
    var kept := log[dropped'..];
    if Admits(log, now, windowMs, limit) {
      assert Check(w, now, now, windowMs, limit).0 == Window(kept + [now], Some(now + windowMs));
      AdmittedIsRemembered(log, dropped', now, windowMs);
    } else {
      assert kept != [] ==> Read(w, now) == w;
    }
  }

  lemma AdmittedIsRemembered(log: seq<int>, dropped: nat, now: int, windowMs: nat)
    requires dropped <= |log| && Sorted(log) && 0 <= now
    requires forall i :: 0 <= i < |log| ==> 0 <= log[i] <= now
    requires forall i :: 0 <= i < dropped ==> log[i] <= now - windowMs
    ensures Remembers(Window(log[dropped..] + [now], Some(now + windowMs)), log + [now], dropped, now, windowMs)
  {
    assert (log + [now])[dropped..] == log[dropped..] + [now];
  }

  // ----- whole runs -----

  function RunChecks(w: Window, times: seq<int>, windowMs: nat, limit: nat): (r: (Window, seq<bool>))
    ensures |r.1| == |times|
    decreases |times|
  {
    if times == [] then (w, [])
    else
      var (w', allowed) := Check(w, times[0], times[0], windowMs, limit);
      var (end, rest) := RunChecks(w', times[1..], windowMs, limit);
      (end, [allowed] + rest)
  }

  /** The simple limiter over the same calls, starting from the admissions in log. */
  function RunLog(log: seq<int>, times: seq<int>, windowMs: nat, limit: nat): (r: (seq<int>, seq<bool>))
    ensures |r.1| == |times|
    decreases |times|
  {
    if times == [] then (log, [])
    else
      var (end, rest) := RunLog(Logged(log, times[0], windowMs, limit), times[1..], windowMs, limit);
      (end, [Admits(log, times[0], windowMs, limit)] + rest)
  }

  lemma {:induction false} RunRefinesLog(w: Window, log: seq<int>, dropped: nat, last: int,
                                         times: seq<int>, windowMs: nat, limit: nat)
    requires Remembers(w, log, dropped, last, windowMs) && 0 <= last
    requires Sorted([last] + times)
    ensures RunChecks(w, times, windowMs, limit).1 == RunLog(log, times, windowMs, limit).1
    decreases |times|
  {
    if times != [] {
      SortedTail(last, times);
      var dropped' := CheckRefinesLog(w, log, dropped, last, times[0], windowMs, limit);
      var w' := Check(w, times[0], times[0], windowMs, limit).0;
      var log' := Logged(log, times[0], windowMs, limit);
      RunRefinesLog(w', log', dropped', times[0], times[1..], windowMs, limit);
      assert RunChecks(w, times, windowMs, limit).1
             == [Admits(log, times[0], windowMs, limit)] + RunChecks(w', times[1..], windowMs, limit).1;
    }
  }

  lemma SortedTail(last: int, times: seq<int>)
    requires Sorted([last] + times) && times != []
    ensures last <= times[0] && Sorted([times[0]] + times[1..])
  {
    var all := [last] + times;
    assert all[0] <= all[1];
    forall i, j | 0 <= i < j < |times| ensures times[i] <= times[j] { assert all[i + 1] <= all[j + 1]; }
    assert [times[0]] + times[1..] == times;
  }

  /** Main refinement: on a fresh key, pruning and PEXPIRE never change a decision. */
  lemma LimiterIsExact(times: seq<int>, windowMs: nat, limit: nat)
    requires Sorted(times) && forall i :: 0 <= i < |times| ==> 0 <= times[i]
    ensures RunChecks(Window([], None), times, windowMs, limit).1 == RunLog([], times, windowMs, limit).1
  {
    assert Sorted([0] + times);
    RunRefinesLog(Window([], None), [], 0, 0, times, windowMs, limit);
  }

  /** No interval (a, a + window] holds more than `limit` admissions. */
  ghost predicate NeverOver(log: seq<int>, windowMs: nat, limit: nat) {
    forall a :: InWindow(log, a, windowMs) <= limit
  }

  function InWindow(log: seq<int>, a: int, windowMs: nat): nat {
    CountIn(log, a, a + windowMs)
  }

  lemma {:induction false} CountAppend(log: seq<int>, t: int, a: int, b: int)
    ensures CountIn(log + [t], a, b) == CountIn(log, a, b) + (if a < t <= b then 1 else 0)
  {
    if log == [] {
      assert [] + [t] == [t];
      assert [t][1..] == [];
    } else {
      CountAppend(log[1..], t, a, b);
      assert (log + [t])[1..] == log[1..] + [t];
    }
  }

  lemma {:induction false} CountNarrower(log: seq<int>, a: int, b: int, a': int, b': int)
    requires a' <= a && forall i :: 0 <= i < |log| ==> log[i] <= b'
    ensures CountIn(log, a, b) <= CountIn(log, a', b')
  {
    if log != [] {
      assert log[0] <= b';
      forall i | 0 <= i < |log| - 1 ensures log[1..][i] == log[i + 1] { }
      CountNarrower(log[1..], a, b, a', b');
    }
  }

  lemma {:induction false} LogNeverOver(log: seq<int>, times: seq<int>, windowMs: nat, limit: nat)
    requires NeverOver(log, windowMs, limit)
    requires Sorted(times) && forall i, j :: 0 <= i < |log| && 0 <= j < |times| ==> log[i] <= times[j]
    ensures NeverOver(RunLog(log, times, windowMs, limit).0, windowMs, limit)
    decreases |times|
  {
    if times != [] {
      var now := times[0];
      var log' := Logged(log, now, windowMs, limit);
      forall a ensures InWindow(log', a, windowMs) <= limit {
        assert InWindow(log, a, windowMs) <= limit;
        CountAppend(log, now, a, a + windowMs);
        if Admits(log, now, windowMs, limit) && a < now <= a + windowMs {
          CountNarrower(log, a, a + windowMs, now - windowMs, now);
        }
      }
      forall i, j | 0 <= i < |log'| && 0 <= j < |times[1..]| ensures log'[i] <= times[1..][j] {
        assert times[1..][j] == times[j + 1];
      }
      forall i, j | 0 <= i < j < |times[1..]| ensures times[1..][i] <= times[1..][j] {
        assert times[i + 1] <= times[j + 1];
      }
      LogNeverOver(log', times[1..], windowMs, limit);
    }
  }

  /** The times of the calls that were let through. */
  function Admitted(times: seq<int>, decisions: seq<bool>): seq<int>
    requires |decisions| == |times|
    decreases |times|
  {
    if times == [] then []
    else (if decisions[0] then [times[0]] else []) + Admitted(times[1..], decisions[1..])
  }

  lemma {:induction false} LogIsAdmitted(log: seq<int>, times: seq<int>, windowMs: nat, limit: nat)
    ensures RunLog(log, times, windowMs, limit).0
            == log + Admitted(times, RunLog(log, times, windowMs, limit).1)
    decreases |times|
  {
    if times != [] {
      LogIsAdmitted(Logged(log, times[0], windowMs, limit), times[1..], windowMs, limit);
      var decisions := RunLog(log, times, windowMs, limit).1;
      assert decisions[1..] == RunLog(Logged(log, times[0], windowMs, limit), times[1..], windowMs, limit).1;
    }
  }

  /** The admissions before the i-th of some calls, given the decisions on them. */
  function LogBefore(log: seq<int>, times: seq<int>, decisions: seq<bool>, i: nat): seq<int>
    requires |decisions| == |times| && i <= |times|
  {
    log + Admitted(times[..i], decisions[..i])
  }

  lemma LogBeforeSteps(log: seq<int>, times: seq<int>, decisions: seq<bool>, i: nat)
    requires |decisions| == |times| && 0 < i <= |times|
    ensures LogBefore(log, times, decisions, i)
            == LogBefore(if decisions[0] then log + [times[0]] else log, times[1..], decisions[1..], i - 1)
  {
    assert times[..i][1..] == times[1..][..i - 1] && decisions[..i][1..] == decisions[1..][..i - 1];
    var rest := Admitted(times[1..][..i - 1], decisions[1..][..i - 1]);
    assert log + ([times[0]] + rest) == log + [times[0]] + rest;
    assert [] + rest == rest;
  }

  lemma FirstDecision(log: seq<int>, times: seq<int>, windowMs: nat, limit: nat)
    requires times != []
    ensures var decisions := RunLog(log, times, windowMs, limit).1;
            && decisions[0] == Admits(log, times[0], windowMs, limit)
            && decisions[1..] == RunLog(Logged(log, times[0], windowMs, limit), times[1..], windowMs, limit).1
  {
  }

  /** The i-th decision looks at the admissions among the calls before it. */
  lemma {:induction false} LogDecides(log: seq<int>, times: seq<int>, windowMs: nat, limit: nat, i: nat)
    requires i < |times|
    ensures var decisions := RunLog(log, times, windowMs, limit).1;
            decisions[i] == Admits(LogBefore(log, times, decisions, i), times[i], windowMs, limit)
    decreases |times|
  {
    var decisions := RunLog(log, times, windowMs, limit).1;
    FirstDecision(log, times, windowMs, limit);
    if i == 0 {
      assert LogBefore(log, times, decisions, 0) == log;
    } else {
      LogDecides(Logged(log, times[0], windowMs, limit), times[1..], windowMs, limit, i - 1);
      LogBeforeSteps(log, times, decisions, i);
    }
  }

  /** Main result for the Redis limiter, whatever calls come at whatever non-decreasing times: no window
      holds more than `limit` admissions, and a call is refused exactly when its trailing window already
      holds `limit` of them. */
  lemma LimiterIsTight(times: seq<int>, windowMs: nat, limit: nat)
    requires Sorted(times) && forall i :: 0 <= i < |times| ==> 0 <= times[i]
    ensures var decisions := RunChecks(Window([], None), times, windowMs, limit).1;
            && (forall a :: InWindow(Admitted(times, decisions), a, windowMs) <= limit)
            && (forall i :: 0 <= i < |times| ==>
                  decisions[i] == (CountIn(Admitted(times[..i], decisions[..i]), times[i] - windowMs, times[i]) < limit))
  {
    LimiterIsExact(times, windowMs, limit);
    assert NeverOver([], windowMs, limit);
    LogNeverOver([], times, windowMs, limit);
    LogIsAdmitted([], times, windowMs, limit);
    var decisions := RunLog([], times, windowMs, limit).1;
    assert RunLog([], times, windowMs, limit).0 == Admitted(times, decisions);
    forall i | 0 <= i < |times|
      ensures decisions[i] == (CountIn(Admitted(times[..i], decisions[..i]), times[i] - windowMs, times[i]) < limit)
    {
      LogDecides([], times, windowMs, limit, i);
      assert LogBefore([], times, decisions, i) == Admitted(times[..i], decisions[..i]);
    }
  }

  // ----- instances whose clocks disagree -----

  /** A call: the instance's clock and Redis' clock when its script runs. */
  datatype Call = Call(now: int, clock: int)

  /** Redis' clock never runs back, and no instance's clock is more than `back` behind or `ahead` of it. */
  ghost predicate Skewed(clock: int, calls: seq<Call>, back: nat, ahead: nat)
    decreases |calls|
  {
    calls == []
    || (var c := calls[0];
        clock <= c.clock && 0 <= c.now && c.clock - back <= c.now <= c.clock + ahead
        && Skewed(c.clock, calls[1..], back, ahead))
  }

  /** The calls let through, in order. */
  function LetThrough(w: Window, calls: seq<Call>, windowMs: nat, limit: nat): seq<Call>
    decreases |calls|
  {
    if calls == [] then []
    else
      var (w', allowed) := Check(w, calls[0].now, calls[0].clock, windowMs, limit);
      (if allowed then [calls[0]] else []) + LetThrough(w', calls[1..], windowMs, limit)
  }

  /** The times the instances stamped on their calls. */
  function Stamps(calls: seq<Call>): seq<int> {
    seq(|calls|, i requires 0 <= i < |calls| => calls[i].now)
  }

  /** The times of the calls by the one clock of Redis. */
  function Times(calls: seq<Call>): seq<int> {
    seq(|calls|, i requires 0 <= i < |calls| => calls[i].clock)
  }

  ghost predicate StampsLagAtMost(calls: seq<Call>, back: nat) {
    forall i :: 0 <= i < |calls| ==> calls[i].clock - back <= calls[i].now
  }

  lemma {:induction false} LaterCallsHaveLaterStamps(calls: seq<Call>, a: int, back: nat)
    requires StampsLagAtMost(calls, back)
    ensures CountAbove(Times(calls), a) <= CountAbove(Stamps(calls), a - back)
  {
    if calls != [] {
      LaterCallsHaveLaterStamps(calls[1..], a, back);
      assert Times(calls)[1..] == Times(calls[1..]) && Stamps(calls)[1..] == Stamps(calls[1..]);
    }
  }

  function CountAbove(times: seq<int>, a: int): nat {
    if times == [] then 0 else (if a < times[0] then 1 else 0) + CountAbove(times[1..], a)
  }

  lemma {:induction false} CountAboveAppend(s: seq<int>, t: int, a: int)
    ensures CountAbove(s + [t], a) == CountAbove(s, a) + (if a < t then 1 else 0)
  {
    if s == [] {
      assert [] + [t] == [t];
    } else {
      CountAboveAppend(s[1..], t, a);
      assert (s + [t])[1..] == s[1..] + [t];
    }
  }

  lemma {:induction false} CountAboveBounds(s: seq<int>, a: int, a': int, b: int)
    requires a <= a'
    ensures CountIn(s, a', b) <= CountAbove(s, a') <= CountAbove(s, a) <= |s|
  {
    if s != [] { CountAboveBounds(s[1..], a, a', b); }
  }

  predicate AllWithin(s: seq<int>, low: int, high: int) {
    forall i :: 0 <= i < |s| ==> low <= s[i] <= high
  }

  lemma {:induction false} PruneKeepsAbove(s: seq<int>, upTo: int, a: int, high: int)
    requires AllWithin(s, 0, high)
    ensures AllWithin(Prune(s, upTo), 0, high)
    ensures CountAbove(Prune(s, upTo), a) <= CountAbove(s, a)
    ensures upTo <= a ==> CountAbove(Prune(s, upTo), a) == CountAbove(s, a)
    ensures a <= upTo ==> CountAbove(Prune(s, upTo), a) == |Prune(s, upTo)|
  {
    if s != [] {
      forall i | 0 <= i < |s| - 1 ensures s[1..][i] == s[i + 1] { }
      PruneKeepsAbove(s[1..], upTo, a, high);
      var rest := Prune(s[1..], upTo);
      assert ([s[0]] + rest)[1..] == rest && [] + rest == rest;
      assert 0 <= s[0] <= high;
    }
  }

  lemma {:induction false} PruneShortens(s: seq<int>, upTo: int)
    ensures |Prune(s, upTo)| <= |s|
  {
    if s != [] { PruneShortens(s[1..], upTo); }
  }

  lemma {:induction false} NoneAbove(s: seq<int>, a: int)
    requires AllWithin(s, 0, a)
    ensures CountAbove(s, a) == 0
  {
    if s != [] {
      forall i | 0 <= i < |s| - 1 ensures s[1..][i] == s[i + 1] { }
      NoneAbove(s[1..], a);
    }
  }

  /** The set holds no more than the log, and everything of it that is younger than a window by the fastest
      clock; the key outlives every entry by a window, give or take `ahead`. */
  ghost predicate Recalls(w: Window, log: seq<int>, clock: int, windowMs: nat, ahead: nat) {
    && (forall a :: CountAbove(w.scores, a) <= CountAbove(log, a))
    && (forall a :: clock + ahead - windowMs <= a ==> CountAbove(w.scores, a) == CountAbove(log, a))
    && (w.scores != [] ==> w.expireAt.Some? && AllWithin(w.scores, 0, w.expireAt.value - windowMs + ahead))
  }

  lemma ExpiryRecalls(w: Window, log: seq<int>, clock: int, later: int, windowMs: nat, ahead: nat)
    requires Recalls(w, log, clock, windowMs, ahead) && clock <= later
    ensures Recalls(Read(w, later), log, later, windowMs, ahead)
  {
    if Expired(w.expireAt, later) {
      forall a | later + ahead - windowMs <= a ensures CountAbove(log, a) == 0 {
        if w.scores != [] { NoneAbove(w.scores, a); }
        assert CountAbove(w.scores, a) == CountAbove(log, a);
      }
    }
  }

  lemma PruneRecalls(w: Window, log: seq<int>, clock: int, now: int, windowMs: nat, ahead: nat)
    requires Recalls(w, log, clock, windowMs, ahead) && now <= clock + ahead
    ensures Recalls(Window(Prune(w.scores, now - windowMs), w.expireAt), log, clock, windowMs, ahead)
    ensures |Prune(w.scores, now - windowMs)| <= CountAbove(log, now - windowMs)
  {
    var kept := Prune(w.scores, now - windowMs);
    if w.scores == [] { return; }
    var high := w.expireAt.value - windowMs + ahead;
    forall a
      ensures CountAbove(kept, a) <= CountAbove(w.scores, a)
      ensures clock + ahead - windowMs <= a ==> CountAbove(kept, a) == CountAbove(log, a)
    {
      PruneKeepsAbove(w.scores, now - windowMs, a, high);
      assert clock + ahead - windowMs <= a ==> CountAbove(w.scores, a) == CountAbove(log, a);
    }
    PruneKeepsAbove(w.scores, now - windowMs, now - windowMs, high);
    assert CountAbove(w.scores, now - windowMs) <= CountAbove(log, now - windowMs);
  }

  lemma AdmitRecalls(scores: seq<int>, expireAt: Option<int>, log: seq<int>, clock: int, now: int, windowMs: nat, ahead: nat)
    requires Recalls(Window(scores, expireAt), log, clock, windowMs, ahead)
    requires 0 <= now <= clock + ahead && (scores != [] ==> expireAt.Some? && expireAt.value <= clock + windowMs)
    ensures Recalls(Window(scores + [now], Some(clock + windowMs)), log + [now], clock, windowMs, ahead)
  {
    var w := Window(scores, expireAt);
    forall a
      ensures CountAbove(scores + [now], a) <= CountAbove(log + [now], a)
      ensures clock + ahead - windowMs <= a ==> CountAbove(scores + [now], a) == CountAbove(log + [now], a)
    {
      CountAboveAppend(scores, now, a);
      CountAboveAppend(log, now, a);
      assert CountAbove(w.scores, a) <= CountAbove(log, a);
    }
  }

  /** No deadline lies further ahead than a fresh one. */
  predicate DeadlineBounded(w: Window, clock: int, windowMs: nat) {
    w.expireAt.Some? ==> w.expireAt.value <= clock + windowMs
  }

  /** One call under skew: an admission saw fewer than `limit` others in the shortened trailing window, or in
      anything later; a refusal saw `limit` of them later than one window ago. */
  lemma SkewedCheck(w: Window, log: seq<int>, clock: int, c: Call, windowMs: nat, limit: nat, back: nat, ahead: nat)
    requires Recalls(w, log, clock, windowMs, ahead) && DeadlineBounded(w, clock, windowMs) && clock <= c.clock
    requires 0 <= c.now && c.clock - back <= c.now <= c.clock + ahead
    ensures var (w', allowed) := Check(w, c.now, c.clock, windowMs, limit);
            && Recalls(w', if allowed then log + [c.now] else log, c.clock, windowMs, ahead)
            && DeadlineBounded(w', c.clock, windowMs)
            && (allowed ==> CountAbove(log, c.clock - windowMs + ahead) < limit
                            && CountAbove(log, c.now - windowMs + back + ahead) < limit)
            && (!allowed ==> limit <= CountAbove(log, c.now - windowMs))
  {
    var expireAt := Read(w, c.clock).expireAt;
    var kept := Prune(Read(w, c.clock).scores, c.now - windowMs);
    AfterPrune(w, log, clock, c, windowMs, ahead);
    KeptCovers(kept, expireAt, log, c, windowMs, back, ahead);
    if |kept| < limit {
      AdmitRecalls(kept, expireAt, log, c.clock, c.now, windowMs, ahead);
    }
  }

  lemma AfterPrune(w: Window, log: seq<int>, clock: int, c: Call, windowMs: nat, ahead: nat)
    requires Recalls(w, log, clock, windowMs, ahead) && DeadlineBounded(w, clock, windowMs)
    requires clock <= c.clock && c.now <= c.clock + ahead
    ensures var r := Read(w, c.clock);
            var kept := Window(Prune(r.scores, c.now - windowMs), r.expireAt);
            && Recalls(kept, log, c.clock, windowMs, ahead) && DeadlineBounded(kept, c.clock, windowMs)
            && |kept.scores| <= CountAbove(log, c.now - windowMs)
  {
    ExpiryRecalls(w, log, clock, c.clock, windowMs, ahead);
    PruneRecalls(Read(w, c.clock), log, c.clock, c.now, windowMs, ahead);
  }

  lemma KeptCovers(kept: seq<int>, expireAt: Option<int>, log: seq<int>, c: Call, windowMs: nat, back: nat, ahead: nat)
    requires Recalls(Window(kept, expireAt), log, c.clock, windowMs, ahead) && c.clock - back <= c.now
    ensures CountAbove(log, c.clock - windowMs + ahead) <= |kept|
    ensures CountAbove(log, c.now - windowMs + back + ahead) <= |kept|
    ensures kept != [] ==> expireAt.Some?
  {
    var w, a := Window(kept, expireAt), c.clock - windowMs + ahead;
    assert CountAbove(w.scores, a) == CountAbove(log, a);
    CountAboveBounds(kept, a, a, a);
    CountAboveBounds(log, a, c.now - windowMs + back + ahead, a);
  }

  /** An admission with fewer than `limit` others later than `length` ago overfills no interval of that length. */
  lemma AdmissionKeepsNeverOver(log: seq<int>, now: int, length: nat, limit: nat)
    requires NeverOver(log, length, limit) && CountAbove(log, now - length) < limit
    ensures NeverOver(log + [now], length, limit)
  {
    forall a ensures InWindow(log + [now], a, length) <= limit {
      assert InWindow(log, a, length) <= limit;
      CountAppend(log, now, a, a + length);
      if a < now <= a + length { CountAboveBounds(log, now - length, a, a + length); }
    }
  }

  /** Neither by the stamps nor by Redis' clock does an interval of this length hold more than `limit`. */
  ghost predicate KeepsLimit(log: seq<Call>, length: nat, limit: nat) {
    NeverOver(Stamps(log), length, limit) && NeverOver(Times(log), length, limit)
  }

  lemma AdmissionKeepsLimit(log: seq<Call>, c: Call, windowMs: nat, limit: nat, back: nat, ahead: nat)
    requires back + ahead <= windowMs && KeepsLimit(log, windowMs - back - ahead, limit) && StampsLagAtMost(log, back)
    requires CountAbove(Stamps(log), c.clock - windowMs + ahead) < limit
    requires CountAbove(Stamps(log), c.now - windowMs + back + ahead) < limit
    ensures KeepsLimit(log + [c], windowMs - back - ahead, limit)
  {
    var length := windowMs - back - ahead;
    AdmissionKeepsNeverOver(Stamps(log), c.now, length, limit);
    LaterCallsHaveLaterStamps(log, c.clock - length, back);
    AdmissionKeepsNeverOver(Times(log), c.clock, length, limit);
    assert Stamps(log + [c]) == Stamps(log) + [c.now] && Times(log + [c]) == Times(log) + [c.clock];
  }

  lemma {:induction false} SkewNeverOver(w: Window, log: seq<Call>, clock: int, calls: seq<Call>,
                                         windowMs: nat, limit: nat, back: nat, ahead: nat)
    requires Recalls(w, Stamps(log), clock, windowMs, ahead) && DeadlineBounded(w, clock, windowMs)
    requires Skewed(clock, calls, back, ahead) && back + ahead <= windowMs
    requires KeepsLimit(log, windowMs - back - ahead, limit) && StampsLagAtMost(log, back)
    ensures KeepsLimit(log + LetThrough(w, calls, windowMs, limit), windowMs - back - ahead, limit)
    decreases |calls|
  {
    if calls == [] {
      assert log + LetThrough(w, calls, windowMs, limit) == log;
    } else {
      var c, rest := calls[0], calls[1..];
      var (w', allowed) := Check(w, c.now, c.clock, windowMs, limit);
      SkewedCheck(w, Stamps(log), clock, c, windowMs, limit, back, ahead);
      var log' := if allowed then log + [c] else log;
      if allowed {
        AdmissionKeepsLimit(log, c, windowMs, limit, back, ahead);
        assert Stamps(log + [c]) == Stamps(log) + [c.now];
      }
      SkewNeverOver(w', log', c.clock, rest, windowMs, limit, back, ahead);
      LogGoesOn(w, log, calls, windowMs, limit);
    }
  }

  lemma LogGoesOn(w: Window, log: seq<Call>, calls: seq<Call>, windowMs: nat, limit: nat)
    requires calls != []
    ensures var (w', allowed) := Check(w, calls[0].now, calls[0].clock, windowMs, limit);
            (if allowed then log + [calls[0]] else log) + LetThrough(w', calls[1..], windowMs, limit)
            == log + LetThrough(w, calls, windowMs, limit)
  {
  }

  lemma NarrowNeverOver(log: seq<int>, narrow: nat, wide: nat, limit: nat)
    requires NeverOver(log, wide, limit) && narrow <= wide
    ensures NeverOver(log, narrow, limit)
  {
    forall a ensures InWindow(log, a, narrow) <= limit {
      CountInMonotone(log, a, a + narrow, a + wide);
      assert InWindow(log, a, wide) <= limit;
    }
  }

  lemma {:induction false} CountInMonotone(log: seq<int>, a: int, b: int, b': int)
    requires b <= b'
    ensures CountIn(log, a, b) <= CountIn(log, a, b')
  {
    if log != [] { CountInMonotone(log[1..], a, b, b'); }
  }

  /** Over all calls with that skew and any limit, no interval of this length of Redis' clock overfills. */
  ghost predicate Protects(length: nat, windowMs: nat, back: nat, ahead: nat) {
    forall calls, limit :: Skewed(0, calls, back, ahead) ==>
      NeverOver(Times(LetThrough(Window([], None), calls, windowMs, limit)), length, limit)
  }

  /** The same for intervals between the stamps of the instances. */
  ghost predicate ProtectsStamps(length: nat, windowMs: nat, back: nat, ahead: nat) {
    forall calls, limit :: Skewed(0, calls, back, ahead) ==>
      NeverOver(Stamps(LetThrough(Window([], None), calls, windowMs, limit)), length, limit)
  }

  /** Main result for disagreeing clocks: the limit is kept over intervals of a length, of real time or of
      stamps, if and only if the window exceeds that length by the whole spread of the clocks. */
  lemma SkewBoundIsExact(length: nat, windowMs: nat, back: nat, ahead: nat)
    requires back + ahead <= windowMs
    ensures Protects(length, windowMs, back, ahead) <==> length <= windowMs - back - ahead
    ensures ProtectsStamps(length, windowMs, back, ahead) <==> length <= windowMs - back - ahead
  {
    if length <= windowMs - back - ahead {
      forall calls, limit: nat | Skewed(0, calls, back, ahead)
        ensures KeepsLimit(LetThrough(Window([], None), calls, windowMs, limit), length, limit)
      {
        SkewKeepsLimit(calls, length, windowMs, limit, back, ahead);
      }
    } else {
      SkewOverfills(length, windowMs, back, ahead);
    }
  }

  lemma SkewKeepsLimit(calls: seq<Call>, length: nat, windowMs: nat, limit: nat, back: nat, ahead: nat)
    requires Skewed(0, calls, back, ahead) && length + back + ahead <= windowMs
    ensures KeepsLimit(LetThrough(Window([], None), calls, windowMs, limit), length, limit)
  {
    assert Stamps([]) == [] && Times([]) == [];
    SkewNeverOver(Window([], None), [], 0, calls, windowMs, limit, back, ahead);
    var log := LetThrough(Window([], None), calls, windowMs, limit);
    assert [] + log == log;
    NarrowNeverOver(Stamps(log), length, windowMs - back - ahead, limit);
    NarrowNeverOver(Times(log), length, windowMs - back - ahead, limit);
  }

  /** Two calls by the slowest clock, then, just before their window is over, one by the fastest clock, which
      drops them, and one more by the slowest. */
  function OverfillRun(windowMs: nat, back: nat, ahead: nat): seq<Call> {
    var late := windowMs - ahead;
    [Call(0, back), Call(0, back), Call(windowMs, late), Call(late - back, late)]
  }

  lemma SkewOverfills(length: nat, windowMs: nat, back: nat, ahead: nat)
    requires back + ahead <= windowMs < length + back + ahead
    ensures Skewed(0, OverfillRun(windowMs, back, ahead), back, ahead)
    ensures var log := LetThrough(Window([], None), OverfillRun(windowMs, back, ahead), windowMs, 2);
            !NeverOver(Stamps(log), length, 2) && !NeverOver(Times(log), length, 2)
  {
    var calls, late, narrow := OverfillRun(windowMs, back, ahead), windowMs - ahead, windowMs - ahead - back + 1;
    OverfillIsSkewed(windowMs, back, ahead);
    AllFourAdmitted(windowMs, back, ahead);
    assert Stamps(calls) == [0, 0, windowMs, late - back] && Times(calls) == [back, back, late, late];
    ThreeInWindow(0, windowMs, late - back);
    ThreeInWindow(back, late, late);
    assert !NeverOver(Stamps(calls), narrow, 2) by { assert 2 < InWindow(Stamps(calls), -1, narrow); }
    assert !NeverOver(Times(calls), narrow, 2) by { assert 2 < InWindow(Times(calls), back - 1, narrow); }
    if NeverOver(Stamps(calls), length, 2) { NarrowNeverOver(Stamps(calls), narrow, length, 2); }
    if NeverOver(Times(calls), length, 2) { NarrowNeverOver(Times(calls), narrow, length, 2); }
  }

  lemma AllFourAdmitted(windowMs: nat, back: nat, ahead: nat)
    requires back + ahead <= windowMs
    ensures LetThrough(Window([], None), OverfillRun(windowMs, back, ahead), windowMs, 2)
            == OverfillRun(windowMs, back, ahead)
  {
    var w0, late, c0 := Window([], None), windowMs - ahead, Call(0, back);
    var tail := [Call(windowMs, late), Call(late - back, late)];
    EarlyCallsAdmitted(windowMs, back);
    var w1 := Check(w0, 0, back, windowMs, 2).0;
    var w2 := Check(w1, 0, back, windowMs, 2).0;
    LetThroughFirst(w0, c0, [c0] + tail, windowMs, 2);
    LetThroughFirst(w1, c0, tail, windowMs, 2);
    TailAdmitted(w2, windowMs, back, ahead);
    assert [c0] + ([c0] + tail) == OverfillRun(windowMs, back, ahead);
  }

  lemma TailAdmitted(w2: Window, windowMs: nat, back: nat, ahead: nat)
    requires back + ahead <= windowMs && AllWithin(w2.scores, 0, 0)
    ensures var late := windowMs - ahead;
            var tail := [Call(windowMs, late), Call(late - back, late)];
            LetThrough(w2, tail, windowMs, 2) == tail
  {
    var late := windowMs - ahead;
    var c2, c3 := Call(windowMs, late), Call(late - back, late);
    LateCallsAdmitted(w2, windowMs, back, ahead);
    var w3 := Check(w2, windowMs, late, windowMs, 2).0;
    OneCall(w3, c3, windowMs, 2);
    LetThroughFirst(w2, c2, [c3], windowMs, 2);
    assert [c2] + [c3] == [c2, c3];
  }

  lemma OneCall(w: Window, c: Call, windowMs: nat, limit: nat)
    ensures LetThrough(w, [c], windowMs, limit)
            == if Check(w, c.now, c.clock, windowMs, limit).1 then [c] else []
  {
    assert [c][1..] == [];
  }

  lemma OverfillIsSkewed(windowMs: nat, back: nat, ahead: nat)
    requires back + ahead <= windowMs
    ensures Skewed(0, OverfillRun(windowMs, back, ahead), back, ahead)
  {
    var all := OverfillRun(windowMs, back, ahead);
    assert all[1..][1..] == all[2..] && all[2..][1..] == all[3..] && all[3..][1..] == [];
    assert Skewed(windowMs - ahead, all[3..], back, ahead);
    assert Skewed(0, all[2..], back, ahead);
  }

  lemma LetThroughFirst(w: Window, c: Call, rest: seq<Call>, windowMs: nat, limit: nat)
    ensures var (w', allowed) := Check(w, c.now, c.clock, windowMs, limit);
            LetThrough(w, [c] + rest, windowMs, limit)
            == (if allowed then [c] else []) + LetThrough(w', rest, windowMs, limit)
  {
    assert ([c] + rest)[1..] == rest;
  }

  lemma EarlyCallsAdmitted(windowMs: nat, clock: int)
    ensures var (w1, first) := Check(Window([], None), 0, clock, windowMs, 2);
            var (w2, second) := Check(w1, 0, clock, windowMs, 2);
            first && second && AllWithin(w2.scores, 0, 0)
  {
    var w1 := Check(Window([], None), 0, clock, windowMs, 2).0;
    assert w1.scores == [0];
    var scores := Read(w1, clock).scores;
    assert AllWithin(scores, 0, 0) && |scores| <= 1;
    PruneKeepsAbove(scores, 0 - windowMs, 0, 0);
    PruneShortens(scores, 0 - windowMs);
  }

  lemma LateCallsAdmitted(w2: Window, windowMs: nat, back: nat, ahead: nat)
    requires back + ahead <= windowMs && AllWithin(w2.scores, 0, 0)
    ensures var late := windowMs - ahead;
            var (w3, third) := Check(w2, windowMs, late, windowMs, 2);
            third && Check(w3, late - back, late, windowMs, 2).1
  {
    var late := windowMs - ahead;
    PruneKeepsAbove(Read(w2, late).scores, 0, 0, 0);
    NoneAbove(Prune(Read(w2, late).scores, 0), 0);
    var w3 := Check(w2, windowMs, late, windowMs, 2).0;
    assert w3.scores == [windowMs];
    PruneShortens(Read(w3, late).scores, late - back - windowMs);
  }

  lemma ThreeInWindow(first: int, third: int, last: int)
    requires first <= last
    ensures 3 <= InWindow([first, first, third, last], first - 1, last - first + 1)
  {
    var s, a := [first, first, third, last], first - 1;
    assert s[1..][1..] == [third, last] && [third, last][1..] == [last] && [last][1..] == [];
    assert CountIn([last], a, last) == 1;
    assert CountIn(s[1..], a, last) >= 2;
  }
}
