/** The sliding-window request limiter, against a log that never forgets. */
module RateLimit {
  import opened Collections

  /** Sixty seconds, in nanoseconds. */
  const WINDOW := 60_000_000_000

  type Instants = seq<int>

  /** Time since `t`, never negative. */
  function Since(now: int, t: int): int { if now >= t then now - t else 0 }

  // ---------------------------------------------------------------------
  // The tracker
  // ---------------------------------------------------------------------

  function Entry(queues: map<string, Instants>, key: string): Instants {
    if key in queues then queues[key] else []
  }

  /** The queue without the expired instants at its front. */
  function Prune(queue: Instants, now: int): (r: Instants)
    ensures |r| <= |queue| && r == queue[|queue| - |r|..]
  {
    if queue != [] && Since(now, queue[0]) > WINDOW then Prune(queue[1..], now) else queue
  }

  datatype Call = Call(key: string, limit: nat, now: int)

  predicate Allows(queues: map<string, Instants>, c: Call) {
    |Prune(Entry(queues, c.key), c.now)| < c.limit
  }

  function After(queues: map<string, Instants>, c: Call): map<string, Instants> {
    var kept := Prune(Entry(queues, c.key), c.now);
    queues[c.key := if |kept| < c.limit then kept + [c.now] else kept]
  }

  class RpmTracker {
    var queues: map<string, Instants>

    constructor ()
      ensures queues == map[]
    {
      queues := map[];
    }

    /** Drops what has left the window, then admits and records the request if there is room. */
    method CheckAndRecord(key: string, limit: nat, now: int) returns (allowed: bool)
      modifies this
      ensures allowed == Allows(old(queues), Call(key, limit, now))
      ensures queues == After(old(queues), Call(key, limit, now))
    {
      var queue := Entry(queues, key);
      while queue != [] && Since(now, queue[0]) > WINDOW
        invariant Prune(queue, now) == Prune(Entry(old(queues), key), now)
        decreases |queue|
      {
        queue := queue[1..];
      }
      queues := queues[key := queue];
      if |queue| >= limit {
        return false;
      }
      queues := queues[key := queue + [now]];
      return true;
    }
  }

  function Decisions(queues: map<string, Instants>, calls: seq<Call>): (r: seq<bool>)
    ensures |r| == |calls|
    decreases |calls|
  {
    if calls == [] then [] else [Allows(queues, calls[0])] + Decisions(After(queues, calls[0]), calls[1..])
  }

  // ---------------------------------------------------------------------
  // The log that never forgets
  // ---------------------------------------------------------------------

  /** How many instants of the log lie in the closed interval. */
  function CountIn(log: Instants, from: int, to: int): nat {
    if log == [] then 0
    else CountIn(log[..|log| - 1], from, to) + if from <= log[|log| - 1] <= to then 1 else 0
  }

  /** All admissions of each key so far, in order. */
  type Logs = map<string, Instants>

  predicate LogAllows(logs: Logs, c: Call) {
    CountIn(Entry(logs, c.key), c.now - 60 * 1_000_000_000, c.now) < c.limit
  }

  function LogAfter(logs: Logs, c: Call): Logs {
    if LogAllows(logs, c) then logs[c.key := Entry(logs, c.key) + [c.now]] else logs
  }

  function LogRun(logs: Logs, calls: seq<Call>): Logs
    decreases |calls|
  {
    if calls == [] then logs else LogRun(LogAfter(logs, calls[0]), calls[1..])
  }

  function LogDecisions(logs: Logs, calls: seq<Call>): (r: seq<bool>)
    ensures |r| == |calls|
    decreases |calls|
  {
    if calls == [] then [] else [LogAllows(logs, calls[0])] + LogDecisions(LogAfter(logs, calls[0]), calls[1..])
  }

  // ---------------------------------------------------------------------
  // The tracker agrees with the log
  // ---------------------------------------------------------------------

  predicate Ascending(s: Instants) { forall i, j :: 0 <= i < j < |s| ==> s[i] <= s[j] }

  /** Calls arrive with a clock that does not go back, from `start` on. */
  predicate ClockRuns(calls: seq<Call>, start: int)
    decreases |calls|
  {
    calls == [] || (start <= calls[0].now && ClockRuns(calls[1..], calls[0].now))
  }

  /** The queue is what is left of the log after dropping instants more than a window before `now`. */
  ghost predicate Tracks(queue: Instants, log: Instants, now: int) {
    && |queue| <= |log| && queue == log[|log| - |queue|..]
    && Ascending(log)
    && (forall k :: 0 <= k < |log| ==> log[k] <= now)
    && (forall k :: 0 <= k < |log| - |queue| ==> log[k] < now - WINDOW)
  }

  ghost predicate AllTrack(queues: map<string, Instants>, logs: Logs, now: int) {
    forall key :: Tracks(Entry(queues, key), Entry(logs, key), now)
  }

  lemma {:induction false} CountOutside(log: Instants, from: int, to: int)
    requires forall k :: 0 <= k < |log| ==> log[k] < from
    ensures CountIn(log, from, to) == 0
  {
    if log != [] {
      CountOutside(log[..|log| - 1], from, to);
    }
  }

  lemma {:induction false} CountAll(log: Instants, from: int, to: int)
    requires forall k :: 0 <= k < |log| ==> from <= log[k] <= to
    ensures CountIn(log, from, to) == |log|
  {
    if log != [] {
      CountAll(log[..|log| - 1], from, to);
    }
  }

  lemma {:induction false} CountConcat(a: Instants, b: Instants, from: int, to: int)
    ensures CountIn(a + b, from, to) == CountIn(a, from, to) + CountIn(b, from, to)
  {
    if b == [] {
      assert a + b == a;
    } else {
      assert (a + b)[..|a + b| - 1] == a + b[..|b| - 1];
      CountConcat(a, b[..|b| - 1], from, to);
    }
  }

  /** Pruning stops at the first instant within the window. */
  lemma {:induction false} PruneSplits(queue: Instants, now: int)
    ensures var r := Prune(queue, now);
            && (forall k :: 0 <= k < |queue| - |r| ==> Since(now, queue[k]) > WINDOW)
            && (r != [] ==> Since(now, r[0]) <= WINDOW)
    decreases |queue|
  {
    if queue != [] && Since(now, queue[0]) > WINDOW {
      PruneSplits(queue[1..], now);
      var r := Prune(queue, now);
      forall k | 0 <= k < |queue| - |r| ensures Since(now, queue[k]) > WINDOW {
        if k > 0 { assert queue[k] == queue[1..][k - 1]; }
      }
    }
  }

  lemma SuffixOfSuffix<T>(a: seq<T>, b: seq<T>, c: seq<T>)
    requires |b| <= |a| && b == a[|a| - |b|..] && |c| <= |b| && c == b[|b| - |c|..]
    ensures c == a[|a| - |c|..]
  {
  }

  /** `kept` is the part of the log within the last window. */
  ghost predicate IsWindow(kept: Instants, log: Instants, now: int) {
    && |kept| <= |log| && kept == log[|log| - |kept|..]
    && (forall k :: 0 <= k < |log| - |kept| ==> log[k] < now - WINDOW)
    && (forall k :: 0 <= k < |kept| ==> now - WINDOW <= kept[k] <= now)
  }

  lemma PrunedAreOld(queue: Instants, log: Instants, now: int, k: nat)
    requires Tracks(queue, log, now) && k < |log| - |Prune(queue, now)|
    ensures log[k] < now - WINDOW
  {
    hide Prune;
    PruneSplits(queue, now);
    var gone := |log| - |queue|;
    if k >= gone { assert log[k] == queue[k - gone]; }
  }

  lemma KeptAreRecent(queue: Instants, log: Instants, now: int, k: nat)
    requires Tracks(queue, log, now) && k < |Prune(queue, now)|
    ensures now - WINDOW <= Prune(queue, now)[k] <= now
  {
    hide Prune;
    var r := Prune(queue, now);
    PruneSplits(queue, now);
    SuffixOfSuffix(log, queue, r);
    var first := |log| - |r|;
    assert r[0] == log[first..][0] && r[k] == log[first..][k];
    assert log[first] <= log[first + k];
  }

  /** Pruning keeps exactly the instants of the last window. */
  lemma PruneTracks(queue: Instants, log: Instants, now: int)
    requires Tracks(queue, log, now)
    ensures Tracks(Prune(queue, now), log, now) && IsWindow(Prune(queue, now), log, now)
  {
    var r := Prune(queue, now);
    SuffixOfSuffix(log, queue, r);
    forall k | 0 <= k < |log| - |r| ensures log[k] < now - WINDOW {
      PrunedAreOld(queue, log, now, k);
    }
    forall k | 0 <= k < |r| ensures now - WINDOW <= r[k] <= now {
      KeptAreRecent(queue, log, now, k);
    }
  }

  /** What the queue counts is what the log counts. */
  lemma QueueCountsWindow(queue: Instants, log: Instants, now: int)
    requires Tracks(queue, log, now)
    ensures |Prune(queue, now)| == CountIn(log, now - WINDOW, now)
  {
    PruneTracks(queue, log, now);
    SuffixCounts(Prune(queue, now), log, now);
  }

  lemma SuffixCounts(kept: Instants, log: Instants, now: int)
    requires IsWindow(kept, log, now)
    ensures |kept| == CountIn(log, now - WINDOW, now)
  {
    var gone := log[..|log| - |kept|];
    assert log == gone + kept;
    CountConcat(gone, kept, now - WINDOW, now);
    CountOutside(gone, now - WINDOW, now);
    CountAll(kept, now - WINDOW, now);
  }

  lemma TracksLater(queue: Instants, log: Instants, now: int, later: int)
    requires Tracks(queue, log, now) && now <= later
    ensures Tracks(queue, log, later)
  {
  }

  lemma TracksAdmission(queue: Instants, log: Instants, now: int)
    requires Tracks(queue, log, now)
    ensures Tracks(queue + [now], log + [now], now)
  {
  }

  lemma StepTracksKey(queues: map<string, Instants>, logs: Logs, c: Call)
    requires Tracks(Entry(queues, c.key), Entry(logs, c.key), c.now)
    ensures Allows(queues, c) == LogAllows(logs, c)
    ensures Tracks(Entry(After(queues, c), c.key), Entry(LogAfter(logs, c), c.key), c.now)
  {
    hide Prune, Tracks, IsWindow, CountIn;
    var queue, log := Entry(queues, c.key), Entry(logs, c.key);
    QueueCountsWindow(queue, log, c.now);
    PruneTracks(queue, log, c.now);
    TracksAdmission(Prune(queue, c.now), log, c.now);
  }

  lemma OtherKeysStay(queues: map<string, Instants>, logs: Logs, c: Call, key: string)
    requires key != c.key
    ensures Entry(After(queues, c), key) == Entry(queues, key)
    ensures Entry(LogAfter(logs, c), key) == Entry(logs, key)
  {
  }

  lemma StepTracks(queues: map<string, Instants>, logs: Logs, c: Call, start: int)
    requires AllTrack(queues, logs, start) && start <= c.now
    ensures Allows(queues, c) == LogAllows(logs, c)
    ensures AllTrack(After(queues, c), LogAfter(logs, c), c.now)
  {
    forall key ensures Tracks(Entry(queues, key), Entry(logs, key), c.now) {
      TracksLater(Entry(queues, key), Entry(logs, key), start, c.now);
    }
    StepTracksKey(queues, logs, c);
    forall key ensures Tracks(Entry(After(queues, c), key), Entry(LogAfter(logs, c), key), c.now) {
      if key != c.key {
        OtherKeysStay(queues, logs, c, key);
      }
    }
  }

  lemma {:induction false} RunTracks(queues: map<string, Instants>, logs: Logs, calls: seq<Call>, start: int)
    requires AllTrack(queues, logs, start) && ClockRuns(calls, start)
    ensures Decisions(queues, calls) == LogDecisions(logs, calls)
    decreases |calls|
  {
    if calls != [] {
      StepTracks(queues, logs, calls[0], start);
      RunTracks(After(queues, calls[0]), LogAfter(logs, calls[0]), calls[1..], calls[0].now);
    }
  }

  /** Over every run with a clock that does not go back, and whatever limits the calls carry, a request
      is rejected exactly when the full history holds its limit or more admissions of the key in the
      last sixty seconds. */
  lemma TrackerIsExact(calls: seq<Call>, start: int)
    requires ClockRuns(calls, start)
    ensures Decisions(map[], calls) == LogDecisions(map[], calls)
  {
    assert AllTrack(map[], map[], start);
    RunTracks(map[], map[], calls, start);
  }

  // ---------------------------------------------------------------------
  // No window is ever over its limit
  // ---------------------------------------------------------------------

  /** No closed interval of that width holds more than `limit` instants. */
  ghost predicate WithinLimit(log: Instants, limit: nat, width: int) {
    forall from, to {:trigger CountIn(log, from, to)} :: to - from <= width ==> CountIn(log, from, to) <= limit
  }

  lemma {:induction false} CountWider(log: Instants, from: int, to: int, lo: int, hi: int)
    requires lo <= from && to <= hi
    ensures CountIn(log, from, to) <= CountIn(log, lo, hi)
  {
    if log != [] {
      CountWider(log[..|log| - 1], from, to, lo, hi);
    }
  }

  /** An interval that holds the new admission holds nothing more than a window before it. */
  lemma AdmissionWithinLimit(log: Instants, now: int, limit: nat)
    requires WithinLimit(log, limit, WINDOW) && CountIn(log, now - WINDOW, now) < limit
    requires forall k :: 0 <= k < |log| ==> log[k] <= now
    ensures WithinLimit(log + [now], limit, WINDOW)
  {
    var l := log + [now];
    assert l[..|l| - 1] == log;
    forall from, to | to - from <= WINDOW ensures CountIn(l, from, to) <= limit {
      if from <= now <= to {
        UpToNow(log, from, to, now);
        CountWider(log, from, now, now - WINDOW, now);
      } else {
        assert CountIn(log, from, to) <= limit;
      }
    }
  }

  lemma {:induction false} UpToNow(log: Instants, from: int, to: int, now: int)
    requires (forall k :: 0 <= k < |log| ==> log[k] <= now) && now <= to
    ensures CountIn(log, from, to) == CountIn(log, from, now)
  {
    if log != [] {
      UpToNow(log[..|log| - 1], from, to, now);
    }
  }

  /** Over every such run, a key whose calls carry limits of at most `limit` never has more than `limit`
      admissions in any closed interval of sixty seconds. */
  lemma {:induction false} WindowNeverOver(logs: Logs, calls: seq<Call>, start: int, key: string, limit: nat)
    requires ClockRuns(calls, start) && WithinLimit(Entry(logs, key), limit, WINDOW)
    requires forall k :: 0 <= k < |Entry(logs, key)| ==> Entry(logs, key)[k] <= start
    requires forall c :: c in calls && c.key == key ==> c.limit <= limit
    ensures WithinLimit(Entry(LogRun(logs, calls), key), limit, WINDOW)
    decreases |calls|
  {
    if calls != [] {
      var c := calls[0];
      if LogAllows(logs, c) && c.key == key {
        AdmissionWithinLimit(Entry(logs, key), c.now, limit);
      }
      WindowNeverOver(LogAfter(logs, c), calls[1..], c.now, key, limit);
    }
  }

  /** The instants at which requests of the key were admitted. */
  function Admissions(calls: seq<Call>, decisions: seq<bool>, key: string): Instants
    requires |calls| == |decisions|
    decreases |calls|
  {
    if calls == [] then []
    else (if decisions[0] && calls[0].key == key then [calls[0].now] else [])
         + Admissions(calls[1..], decisions[1..], key)
  }

  lemma {:induction false} LogHoldsAdmissions(logs: Logs, calls: seq<Call>, key: string)
    ensures Entry(LogRun(logs, calls), key) == Entry(logs, key) + Admissions(calls, LogDecisions(logs, calls), key)
    decreases |calls|
  {
    if calls != [] {
      LogHoldsAdmissions(LogAfter(logs, calls[0]), calls[1..], key);
    }
  }

  /** The limiter's promise: over every run with a clock that does not go back, no closed interval of sixty
      seconds holds more admissions of a key than the limit its calls carry. */
  lemma TrackerNeverOver(calls: seq<Call>, start: int, key: string, limit: nat)
    requires ClockRuns(calls, start)
    requires forall c :: c in calls && c.key == key ==> c.limit <= limit
    ensures WithinLimit(Admissions(calls, Decisions(map[], calls), key), limit, 60 * 1_000_000_000)
  {
    var none: Logs := map[];
    var admitted := Admissions(calls, LogDecisions(none, calls), key);
    TrackerIsExact(calls, start);
    LogHoldsAdmissions(none, calls, key);
    assert Entry(LogRun(none, calls), key) == admitted by {
      assert Entry(none, key) + admitted == admitted;
    }
    WindowNeverOver(none, calls, start, key, limit);
  }

  // ---------------------------------------------------------------------
  // Clocks read before the lock is taken
  // ---------------------------------------------------------------------

  function Later(x: int, y: int): int { if x >= y then x else y }

  /** In the order in which calls of the key take the lock, no clock is more than `lag` behind an earlier
      one, `latest` being the latest so far. Other keys do not matter. */
  predicate LagsBy(calls: seq<Call>, key: string, latest: int, lag: nat)
    decreases |calls|
  {
    calls == []
    || if calls[0].key != key then LagsBy(calls[1..], key, latest, lag)
       else latest - lag <= calls[0].now && LagsBy(calls[1..], key, Later(latest, calls[0].now), lag)
  }

  /** The queue is what is left of the admissions after dropping some older than a window before `latest`. */
  ghost predicate Trails(queue: Instants, log: Instants, latest: int) {
    && |queue| <= |log| && queue == log[|log| - |queue|..]
    && forall k :: 0 <= k < |log| - |queue| ==> log[k] < latest - WINDOW
  }

  lemma PruneTrails(queue: Instants, log: Instants, latest: int, now: int)
    requires Trails(queue, log, latest)
    ensures Trails(Prune(queue, now), log, Later(latest, now))
  {
    hide Prune;
    var r := Prune(queue, now);
    PruneSplits(queue, now);
    SuffixOfSuffix(log, queue, r);
    var gone := |log| - |queue|;
    forall k | 0 <= k < |log| - |r| ensures log[k] < Later(latest, now) - WINDOW {
      if k >= gone { assert log[k] == queue[k - gone]; }
    }
  }

  lemma TrailsAdmission(queue: Instants, log: Instants, latest: int, now: int)
    requires Trails(queue, log, latest)
    ensures Trails(queue + [now], log + [now], latest)
  {
  }

  lemma {:induction false} CountAtMost(log: Instants, from: int, to: int)
    ensures CountIn(log, from, to) <= |log|
  {
    if log != [] {
      CountAtMost(log[..|log| - 1], from, to);
    }
  }

  /** What has been dropped is too old to share an interval shortened by the lag with the new admission. */
  lemma LaggingAdmission(queue: Instants, log: Instants, latest: int, lag: nat, now: int, limit: nat)
    requires Trails(queue, log, latest) && latest - lag <= now && |queue| < limit
    requires WithinLimit(log, limit, WINDOW - lag)
    ensures WithinLimit(log + [now], limit, WINDOW - lag)
  {
    var l := log + [now];
    assert l[..|l| - 1] == log;
    var gone := log[..|log| - |queue|];
    assert log == gone + queue;
    forall from, to | to - from <= WINDOW - lag ensures CountIn(l, from, to) <= limit {
      if from <= now <= to {
        CountConcat(gone, queue, from, to);
        CountOutside(gone, from, to);
        CountAtMost(queue, from, to);
      } else {
        assert CountIn(log, from, to) <= limit;
      }
    }
  }

  lemma EntryOf(queues: map<string, Instants>, key: string, queue: Instants)
    ensures Entry(queues[key := queue], key) == queue
  {
  }

  lemma CallOnQueue(queues: map<string, Instants>, c: Call)
    ensures var kept := Prune(Entry(queues, c.key), c.now);
            && (Allows(queues, c) <==> |kept| < c.limit)
            && Entry(After(queues, c), c.key) == if Allows(queues, c) then kept + [c.now] else kept
  {
    hide Prune, Entry;
    var kept := Prune(Entry(queues, c.key), c.now);
    EntryOf(queues, c.key, if |kept| < c.limit then kept + [c.now] else kept);
  }

  /** One call of the key: the queue still trails the admissions, and those stay within the limit. */
  lemma LaggingStep(queues: map<string, Instants>, log: Instants, c: Call, latest: int, lag: nat, limit: nat)
    requires Trails(Entry(queues, c.key), log, latest) && latest - lag <= c.now && c.limit <= limit
    requires WithinLimit(log, limit, WINDOW - lag)
    ensures var longer := if Allows(queues, c) then log + [c.now] else log;
            && Trails(Entry(After(queues, c), c.key), longer, Later(latest, c.now))
            && WithinLimit(longer, limit, WINDOW - lag)
  {
    hide *;
    PruneTrails(Entry(queues, c.key), log, latest, c.now);
    CallOnQueue(queues, c);
    LaterLags(latest, lag, c.now);
    if Allows(queues, c) {
      AdmitOnto(Prune(Entry(queues, c.key), c.now), log, Later(latest, c.now), lag, c.now, c.limit, limit);
    }
  }

  lemma LaterLags(latest: int, lag: nat, now: int)
    requires latest - lag <= now
    ensures Later(latest, now) - lag <= now
  {
  }

  lemma AdmitOnto(kept: Instants, log: Instants, latest: int, lag: nat, now: int, own: nat, limit: nat)
    requires Trails(kept, log, latest) && latest - lag <= now && |kept| < own <= limit
    requires WithinLimit(log, limit, WINDOW - lag)
    ensures Trails(kept + [now], log + [now], latest) && WithinLimit(log + [now], limit, WINDOW - lag)
  {
    hide *;
    LaggingAdmission(kept, log, latest, lag, now, limit);
    TrailsAdmission(kept, log, latest, now);
  }

  lemma AdmissionsCons(c: Call, rest: seq<Call>, d: bool, ds: seq<bool>, key: string)
    requires |rest| == |ds|
    ensures Admissions([c] + rest, [d] + ds, key)
            == (if d && c.key == key then [c.now] else []) + Admissions(rest, ds, key)
  {
    assert ([c] + rest)[1..] == rest && ([d] + ds)[1..] == ds;
  }

  lemma LagsCons(c: Call, rest: seq<Call>, key: string, latest: int, lag: nat)
    requires LagsBy([c] + rest, key, latest, lag)
    ensures if c.key != key then LagsBy(rest, key, latest, lag)
            else latest - lag <= c.now && LagsBy(rest, key, Later(latest, c.now), lag)
  {
    assert ([c] + rest)[1..] == rest;
  }

  lemma {:induction false} LaggingRun(queues: map<string, Instants>, log: Instants, calls: seq<Call>, latest: int,
                                      lag: nat, key: string, limit: nat)
    requires LagsBy(calls, key, latest, lag) && Trails(Entry(queues, key), log, latest)
    requires WithinLimit(log, limit, WINDOW - lag)
    requires forall c :: c in calls && c.key == key ==> c.limit <= limit
    ensures WithinLimit(log + Admissions(calls, Decisions(queues, calls), key), limit, WINDOW - lag)
    decreases |calls|
  {
    hide Trails, WithinLimit, LagsBy, Decisions, Allows, After, Entry, Later;
    if calls == [] {
      assert Admissions(calls, Decisions(queues, calls), key) == [];
      assert log + [] == log;
    } else {
      hide Admissions;
      var c, rest := calls[0], calls[1..];
      assert c in calls && forall d :: d in rest ==> d in calls;
      assert calls == [c] + rest;
      LagsCons(c, rest, key, latest, lag);
      DecisionsCons(queues, c, rest);
      AdmissionsCons(c, rest, Allows(queues, c), Decisions(After(queues, c), rest), key);
      var later := Admissions(rest, Decisions(After(queues, c), rest), key);
      assert log + ([] + later) == log + later && log + ([c.now] + later) == (log + [c.now]) + later;
      if c.key != key {
        OtherKeysStay(queues, map[], c, key);
        LaggingRun(After(queues, c), log, rest, latest, lag, key, limit);
      } else {
        LaggingStep(queues, log, c, latest, lag, limit);
        var longer := if Allows(queues, c) then log + [c.now] else log;
        LaggingRun(After(queues, c), longer, rest, Later(latest, c.now), lag, key, limit);
      }
    }
  }

  /** The promise for concurrent callers: if no clock is more than `lag` behind an earlier one in lock order, no
      closed interval shorter than sixty seconds by the lag holds more admissions of the key than its limit. */
  lemma LaggingNeverOver(calls: seq<Call>, start: int, lag: nat, key: string, limit: nat)
    requires LagsBy(calls, key, start, lag)
    requires forall c :: c in calls && c.key == key ==> c.limit <= limit
    ensures WithinLimit(Admissions(calls, Decisions(map[], calls), key), limit, 60 * 1_000_000_000 - lag)
  {
    LaggingRun(map[], [], calls, start, lag, key, limit);
    var admitted := Admissions(calls, Decisions(map[], calls), key);
    assert [] + admitted == admitted;
  }

  function LaggingCalls(lag: nat): seq<Call> {
    [Call("k", 2, 0), Call("k", 2, 0), Call("k", 2, WINDOW + 1), Call("k", 2, WINDOW + 1 - lag)]
  }

  predicate AllTrue(decisions: seq<bool>) { forall k :: 0 <= k < |decisions| ==> decisions[k] }

  lemma AdmittedStep(queues: map<string, Instants>, c: Call, kept: Instants, longer: Instants)
    requires kept == Prune(Entry(queues, c.key), c.now) && |kept| < c.limit && longer == kept + [c.now]
    ensures Allows(queues, c) && After(queues, c) == queues[c.key := longer]
  {
    hide Prune;
  }

  /** One call admitted onto what is kept of its queue, before calls that are all admitted. */
  lemma Admitted(queues: map<string, Instants>, c: Call, rest: seq<Call>, kept: Instants, longer: Instants)
    requires kept == Prune(Entry(queues, c.key), c.now) && |kept| < c.limit && longer == kept + [c.now]
    ensures AllTrue(Decisions(queues[c.key := longer], rest)) ==> AllTrue(Decisions(queues, [c] + rest))
  {
    hide *;
    if AllTrue(Decisions(queues[c.key := longer], rest)) {
      AdmittedStep(queues, c, kept, longer);
      DecisionsCons(queues, c, rest);
      TrueCons(Decisions(After(queues, c), rest));
    }
  }

  lemma TrueCons(decisions: seq<bool>)
    requires AllTrue(decisions)
    ensures AllTrue([true] + decisions)
  {
  }

  lemma NothingToPrune(queue: Instants, now: int)
    requires queue == [] || Since(now, queue[0]) <= WINDOW
    ensures Prune(queue, now) == queue
  {
  }

  lemma {:induction false} AllExpired(queue: Instants, now: int)
    requires forall k :: 0 <= k < |queue| ==> Since(now, queue[k]) > WINDOW
    ensures Prune(queue, now) == []
  {
    if queue != [] {
      AllExpired(queue[1..], now);
    }
  }

  function OneQueue(queue: Instants): map<string, Instants> { map["k" := queue] }

  /** On the queue of the only key. */
  lemma AdmittedAlone(queue: Instants, c: Call, rest: seq<Call>, kept: Instants, longer: Instants)
    requires c.key == "k" && kept == Prune(queue, c.now) && |kept| < c.limit && longer == kept + [c.now]
    ensures AllTrue(Decisions(OneQueue(longer), rest)) ==>
              && AllTrue(Decisions(OneQueue(queue), [c] + rest))
              && (queue == [] ==> AllTrue(Decisions(map[], [c] + rest)))
  {
    hide AllTrue, Decisions, Prune;
    assert OneQueue(queue)["k" := longer] == OneQueue(longer);
    Admitted(OneQueue(queue), c, rest, kept, longer);
    if queue == [] { Admitted(map[], c, rest, kept, longer); }
  }

  lemma FourInARow<T>(a: T, b: T, c: T, d: T)
    ensures [a] + ([b] + ([c] + ([d] + []))) == [a, b, c, d]
  {
    assert [d] + [] == [d];
    assert [c] + [d] == [c, d];
    assert [b] + [c, d] == [b, c, d];
  }

  lemma FourPrunes(a: int, b: int, c: int, d: int)
    requires Since(b, a) <= WINDOW && Since(c, a) > WINDOW && Since(c, b) > WINDOW && Since(d, c) <= WINDOW
    ensures Prune([], a) == [] && Prune([a], b) == [a] && Prune([a, b], c) == [] && Prune([c], d) == [c]
  {
    hide Prune, Since;
    NothingToPrune([], a);
    NothingToPrune([a], b);
    AllExpired([a, b], c);
    NothingToPrune([c], d);
  }

  /** Two calls, a third that finds them expired, and a fourth that finds only the third. */
  lemma FourAdmitted(a: Call, b: Call, c: Call, d: Call)
    requires a.key == b.key == c.key == d.key == "k" && a.limit == b.limit == c.limit == d.limit == 2
    requires Since(b.now, a.now) <= WINDOW && Since(c.now, a.now) > WINDOW
    requires Since(c.now, b.now) > WINDOW && Since(d.now, c.now) <= WINDOW
    ensures AllTrue(Decisions(map[], [a, b, c, d]))
  {
    hide *;
    FourPrunes(a.now, b.now, c.now, d.now);
    NoDecisions(OneQueue([c.now, d.now]));
    AdmittedAlone([c.now], d, [], [c.now], [c.now, d.now]);
    AdmittedAlone([a.now, b.now], c, [d] + [], [], [c.now]);
    AdmittedAlone([a.now], b, [c] + ([d] + []), [a.now], [a.now, b.now]);
    AdmittedAlone([], a, [b] + ([c] + ([d] + [])), [], [a.now]);
    FourInARow(a, b, c, d);
  }

  /** The tracker admits all four calls. */
  lemma LaggingDecisions(lag: nat)
    requires 1 <= lag <= WINDOW + 1
    ensures AllTrue(Decisions(map[], LaggingCalls(lag)))
  {
    hide Decisions, AllTrue;
    var a, c, d := Call("k", 2, 0), Call("k", 2, WINDOW + 1), Call("k", 2, WINDOW + 1 - lag);
    FourAdmitted(a, a, c, d);
  }

  lemma NoDecisions(queues: map<string, Instants>)
    ensures AllTrue(Decisions(queues, []))
  {
  }

  lemma LogStep(logs: Logs, c: Call, rest: seq<Call>)
    ensures LogDecisions(logs, [c] + rest) == [LogAllows(logs, c)] + LogDecisions(LogAfter(logs, c), rest)
  {
  }

  lemma CountSnoc(log: Instants, t: int, from: int, to: int)
    ensures CountIn(log + [t], from, to) == CountIn(log, from, to) + if from <= t <= to then 1 else 0
    ensures CountIn([], from, to) == 0
  {
    assert (log + [t])[..|log|] == log;
  }

  lemma CountThree(a: int, b: int, c: int, from: int, to: int)
    ensures CountIn([a], from, to) == if from <= a <= to then 1 else 0
    ensures CountIn([a, b], from, to) == CountIn([a], from, to) + if from <= b <= to then 1 else 0
    ensures CountIn([a, b, c], from, to) == CountIn([a, b], from, to) + if from <= c <= to then 1 else 0
  {
    hide CountIn;
    CountSnoc([], a, from, to);
    CountSnoc([a], b, from, to);
    CountSnoc([a, b], c, from, to);
    assert [] + [a] == [a] && [a] + [b] == [a, b] && [a, b] + [c] == [a, b, c];
  }

  /** The full history rejects the last one. */
  lemma LaggingLogDecisions(lag: nat)
    requires 1 <= lag <= WINDOW + 1
    ensures LogDecisions(map[], LaggingCalls(lag)) == [true, true, true, false]
  {
    hide LogDecisions, CountIn;
    var calls := LaggingCalls(lag);
    var l0: Logs := map[];
    var l1, l2, l3 := map["k" := [0]], map["k" := [0, 0]], map["k" := [0, 0, WINDOW + 1]];
    assert [] + [0] == [0] && [0] + [0] == [0, 0] && [0, 0] + [WINDOW + 1] == [0, 0, WINDOW + 1];
    CountSnoc([], 0, -WINDOW, 0);
    assert LogAllows(l0, calls[0]) && LogAfter(l0, calls[0]) == l1;
    CountThree(0, 0, 0, -WINDOW, 0);
    assert LogAllows(l1, calls[1]) && LogAfter(l1, calls[1]) == l2;
    CountThree(0, 0, 0, 1, WINDOW + 1);
    assert LogAllows(l2, calls[2]) && LogAfter(l2, calls[2]) == l3;
    CountThree(0, 0, WINDOW + 1, 1 - lag, WINDOW + 1 - lag);
    assert !LogAllows(l3, calls[3]);
    LogStep(l0, calls[0], calls[1..]);
    LogStep(l1, calls[1], calls[2..]);
    LogStep(l2, calls[2], calls[3..]);
    LogStep(l3, calls[3], []);
    NoLogDecisions(LogAfter(l3, calls[3]));
    assert calls == [calls[0]] + calls[1..] && calls[1..] == [calls[1]] + calls[2..];
    assert calls[2..] == [calls[2]] + calls[3..] && calls[3..] == [calls[3]] + [];
  }

  lemma NoLogDecisions(logs: Logs)
    ensures LogDecisions(logs, []) == []
  {
  }

  lemma LaggingClocks(lag: nat)
    requires 1 <= lag <= WINDOW + 1
    ensures LagsBy(LaggingCalls(lag), "k", 0, lag)
  {
    var calls := LaggingCalls(lag);
    assert LagsBy(calls[3..], "k", WINDOW + 1, lag) && LagsBy(calls[2..], "k", 0, lag);
    assert LagsBy(calls[1..], "k", 0, lag);
  }

  lemma {:induction false} AllAdmitted(calls: seq<Call>, decisions: seq<bool>, key: string)
    requires |calls| == |decisions|
    requires forall k :: 0 <= k < |calls| ==> decisions[k] && calls[k].key == key
    ensures Admissions(calls, decisions, key) == Map((c: Call) => c.now, calls)
  {
    if calls != [] {
      AllAdmitted(calls[1..], decisions[1..], key);
    }
  }

  /** No wider interval will do: with any lag, be it one nanosecond, three are admitted under a limit of two
      within an interval one nanosecond longer, and the tracker no longer agrees with the full history. */
  lemma LagIsTight(lag: nat)
    requires 1 <= lag <= WINDOW + 1
    ensures var calls := LaggingCalls(lag);
            && LagsBy(calls, "k", 0, lag)
            && AllTrue(Decisions(map[], calls)) && !LogDecisions(map[], calls)[3]
            && CountIn(Admissions(calls, Decisions(map[], calls), "k"), 0, WINDOW + 1 - lag) == 3
  {
    hide Decisions, LogDecisions, LagsBy, CountIn, Admissions;
    var calls := LaggingCalls(lag);
    LaggingClocks(lag);
    LaggingDecisions(lag);
    LaggingLogDecisions(lag);
    AllAdmitted(calls, Decisions(map[], calls), "k");
    var last := WINDOW + 1 - lag;
    assert Map((c: Call) => c.now, calls) == [0, 0, WINDOW + 1] + [last];
    CountSnoc([0, 0, WINDOW + 1], last, 0, last);
    CountThree(0, 0, WINDOW + 1, 0, last);
  }

  // ---------------------------------------------------------------------
  // Keys are independent
  // ---------------------------------------------------------------------

  function OfKey(key: string): Call -> bool { (c: Call) => c.key == key }

  /** The decisions on the calls of one key. */
  function DecisionsOf(calls: seq<Call>, decisions: seq<bool>, key: string): seq<bool>
    requires |calls| == |decisions|
    decreases |calls|
  {
    if calls == [] then []
    else (if calls[0].key == key then [decisions[0]] else []) + DecisionsOf(calls[1..], decisions[1..], key)
  }

  lemma SameEntrySameStep(queues: map<string, Instants>, alone: map<string, Instants>, c: Call)
    requires Entry(queues, c.key) == Entry(alone, c.key)
    ensures Allows(queues, c) == Allows(alone, c)
    ensures Entry(After(queues, c), c.key) == Entry(After(alone, c), c.key)
  {
  }

  lemma DecisionsCons(queues: map<string, Instants>, c: Call, rest: seq<Call>)
    ensures Decisions(queues, [c] + rest) == [Allows(queues, c)] + Decisions(After(queues, c), rest)
  {
  }

  lemma DecisionsOfCons(c: Call, rest: seq<Call>, d: bool, ds: seq<bool>, key: string)
    requires |rest| == |ds|
    ensures DecisionsOf([c] + rest, [d] + ds, key) == (if c.key == key then [d] else []) + DecisionsOf(rest, ds, key)
  {
  }

  /** The other keys' calls make no difference to a key, whatever the clock does. */
  lemma {:induction false} KeysIndependent(queues: map<string, Instants>, alone: map<string, Instants>,
                                           calls: seq<Call>, key: string)
    requires Entry(queues, key) == Entry(alone, key)
    ensures DecisionsOf(calls, Decisions(queues, calls), key) == Decisions(alone, Filter(OfKey(key), calls))
    decreases |calls|
  {
    if calls != [] {
      var c, rest := calls[0], calls[1..];
      assert calls == [c] + rest;
      DecisionsCons(queues, c, rest);
      DecisionsOfCons(c, rest, Allows(queues, c), Decisions(After(queues, c), rest), key);
      if c.key == key {
        SameEntrySameStep(queues, alone, c);
        KeysIndependent(After(queues, c), After(alone, c), rest, key);
        DecisionsCons(alone, c, Filter(OfKey(key), rest));
      } else {
        OtherKeysStay(queues, map[], c, key);
        KeysIndependent(After(queues, c), alone, rest, key);
      }
    }
  }
}
