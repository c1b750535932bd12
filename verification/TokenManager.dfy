/** Access tokens: when they are refreshed, and how failed refreshes hold off new ones. */
module TokenManager {
  import opened Collections

  const TOKEN_SAFETY_WINDOW_MS := 30 * 60 * 1000
  const TOKEN_REFRESH_BACKOFF_MS := 60_000
  const FAILURE_TTL_MS := 5 * 60 * 1000
  const MAX_FAILURE_RECORDS := 1000

  // ---------------------------------------------------------------------
  // The records of failures
  // ---------------------------------------------------------------------

  /** Time of the last failed refresh, and number of requests held off since, by account. */
  datatype Records = Records(failures: map<string, int>, counters: map<string, nat>)

  function Drop(r: Records, ids: set<string>): Records {
    Records(r.failures - ids, r.counters - ids)
  }

  function ExpiredIds(r: Records, now: int): set<string> {
    set id | id in r.failures && r.failures[id] < now - FAILURE_TTL_MS
  }

  predicate InBackoff(r: Records, id: string, now: int) {
    id in r.failures && now - r.failures[id] < TOKEN_REFRESH_BACKOFF_MS
  }

  /** The ids in `out` may be evicted to get down to the limit: as many as necessary, the oldest first. */
  ghost predicate MayEvict(r: Records, out: set<string>) {
    && out <= r.failures.Keys
    && |out| == (if |r.failures| <= MAX_FAILURE_RECORDS then 0 else |r.failures| - MAX_FAILURE_RECORDS)
    && forall gone, kept :: gone in out && kept in r.failures && kept !in out ==> r.failures[gone] <= r.failures[kept]
  }

  // ---------------------------------------------------------------------
  // Steps
  // ---------------------------------------------------------------------

  /** A refresh that waits for the account's lock and then for the provider. */
  datatype Pending = Pending(id: string, now: int)

  datatype State = State(records: Records, pending: map<nat, Pending>)

  const START := State(Records(map[], map[]), map[])

  /** Enter: a refresh up to the first await, at the clock of its request. Finish: the provider has answered it. */
  datatype Event =
    | Enter(call: nat, id: string, now: int)
    | Finish(call: nat, succeeds: bool)
    | Clear(id: string)
    | ClearAll

  predicate Enabled(s: State, e: Event) {
    match e
    case Enter(call, _, _) => call !in s.pending
    case Finish(call, _) => call in s.pending
    case _ => true
  }

  /** Whether this event goes on to call the provider. */
  predicate CallsProvider(s: State, e: Event) {
    e.Enter? && !InBackoff(Drop(s.records, ExpiredIds(s.records, e.now)), e.id, e.now)
  }

  /** This event records a failed refresh. */
  predicate Fails(e: Event) { e.Finish? && !e.succeeds }

  /** The state after an event, before any eviction. A failure is recorded at the clock of its request. */
  function BeforeEviction(s: State, e: Event): State
    requires Enabled(s, e)
  {
    match e
    case Clear(id) => s.(records := Drop(s.records, {id}))
    case ClearAll => s.(records := Records(map[], map[]))
    case Enter(call, id, now) =>
      var c := Drop(s.records, ExpiredIds(s.records, now));
      if InBackoff(c, id, now) then
        s.(records := c.(counters := c.counters[id := (if id in c.counters then c.counters[id] else 0) + 1]))
      else
        State(c.(counters := if id in c.failures then c.counters - {id} else c.counters),
              s.pending[call := Pending(id, now)])
    case Finish(call, succeeds) =>
      var p := s.pending[call];
      State(if succeeds then Drop(s.records, {p.id}) else s.records.(failures := s.records.failures[p.id := p.now]),
            s.pending - {call})
  }

  ghost predicate Step(s: State, e: Event, out: set<string>, s': State) {
    && Enabled(s, e)
    && var b := BeforeEviction(s, e);
       && s' == b.(records := Drop(b.records, out))
       && if Fails(e) then MayEvict(b.records, out) else out == {}
  }

  // ---------------------------------------------------------------------
  // The manager
  // ---------------------------------------------------------------------

  datatype Credentials = Credentials(id: string, provider: string, apiKey: Option<string>, refreshToken: string,
                                     accessToken: Option<string>, expiresAt: Option<int>)

  datatype TokenResult =
    | Existing(token: string)
    | Refreshed(token: string)
    | NoKey
    | HeldOff(attempts: nat)
    | RefreshFailed

  predicate IsApiKeyProvider(provider: string) {
    provider in ["openai-compatible", "zai", "claude-console-api", "anthropic-compatible", "minimax", "nanogpt"]
  }

  /** The answer that needs no refresh, if there is one. */
  function WithoutRefresh(c: Credentials, now: int): Option<TokenResult> {
    if IsApiKeyProvider(c.provider) then
      Some(if c.apiKey.Some? then Existing(c.apiKey.value)
           else if c.refreshToken != "" then Existing(c.refreshToken) else NoKey)
    else if c.accessToken.Some? && c.expiresAt.Some? && c.expiresAt.value - now > TOKEN_SAFETY_WINDOW_MS then
      Some(Existing(c.accessToken.value))
    else None
  }

  class TokenManager {
    var failures: map<string, int>
    var backoffCounters: map<string, nat>
    var pending: map<nat, Pending>

    function Kept(): Records
      reads this
    {
      Records(failures, backoffCounters)
    }

    function Now(): State
      reads this
    {
      State(Kept(), pending)
    }

    constructor ()
      ensures Now() == START
    {
      failures, backoffCounters, pending := map[], map[], map[];
    }

    /** Answers at once, or leaves the call waiting for the provider. */
    method GetValidToken(call: nat, account: Credentials, now: int) returns (result: Option<TokenResult>)
      requires call !in pending
      modifies this
      ensures account.provider in ["openai-compatible", "zai", "claude-console-api", "anthropic-compatible", "minimax",
                                   "nanogpt"] ==>
                && Now() == old(Now())
                && result == Some(if account.apiKey.Some? then Existing(account.apiKey.value)
                                  else if account.refreshToken != "" then Existing(account.refreshToken) else NoKey)
      ensures account.provider !in ["openai-compatible", "zai", "claude-console-api", "anthropic-compatible", "minimax",
                                    "nanogpt"]
              && account.accessToken.Some? && account.expiresAt.Some? && account.expiresAt.value - now > 30 * 60_000 ==>
                Now() == old(Now()) && result == Some(Existing(account.accessToken.value))
      ensures WithoutRefresh(account, now).Some? ==> result == WithoutRefresh(account, now) && Now() == old(Now())
      ensures WithoutRefresh(account, now).None? ==>
                var e := Enter(call, account.id, now);
                && Step(old(Now()), e, {}, Now())
                && (result.None? <==> CallsProvider(old(Now()), e))
                && (result.Some? ==>
                     account.id in backoffCounters && result == Some(HeldOff(backoffCounters[account.id])))
    {
      hide Step, CallsProvider;
      if IsApiKeyProvider(account.provider) {
        if account.apiKey.Some? { return Some(Existing(account.apiKey.value)); }
        if account.refreshToken != "" { return Some(Existing(account.refreshToken)); }
        return Some(NoKey);
      }
      if account.accessToken.Some? && account.expiresAt.Some? {
        if account.expiresAt.value - now > TOKEN_SAFETY_WINDOW_MS {
          return Some(Existing(account.accessToken.value));
        }
      }
      result := RefreshTokenSafe(call, account, now);
    }

    /** Up to the lock. */
    method RefreshTokenSafe(call: nat, account: Credentials, now: int) returns (result: Option<TokenResult>)
      requires call !in pending
      modifies this
      ensures Step(old(Now()), Enter(call, account.id, now), {}, Now())
      ensures result.None? <==> CallsProvider(old(Now()), Enter(call, account.id, now))
      ensures result.Some? ==> account.id in backoffCounters && result == Some(HeldOff(backoffCounters[account.id]))
    {
      hide Drop, ExpiredIds, InBackoff, CallsProvider, BeforeEviction, Step, MayEvict;
      var id := account.id;
      ghost var s := Now();
      CleanupExpiredFailures(now);
      ghost var c := Kept();
      AfterCleanup(s, c, call, id, now);
      if id in failures {
        if now - failures[id] < TOKEN_REFRESH_BACKOFF_MS {
          var attempts := (if id in backoffCounters then backoffCounters[id] else 0) + 1;
          backoffCounters := backoffCounters[id := attempts];
          return Some(HeldOff(attempts));
        }
        backoffCounters := backoffCounters - {id};
      }
      pending := pending[call := Pending(id, now)];
      return None;
    }

    /** From the provider's answer on: a token, or a failure. */
    method FinishRefresh(call: nat, answer: Option<string>) returns (result: TokenResult, ghost evicted: set<string>)
      requires call in pending
      modifies this
      ensures Step(old(Now()), Finish(call, answer.Some?), evicted, Now())
      ensures result == if answer.Some? then Refreshed(answer.value) else RefreshFailed
    {
      hide Drop, BeforeEviction, Step, MayEvict;
      ghost var s := Now();
      evicted := {};
      var id, now := pending[call].id, pending[call].now;
      pending := pending - {call};
      if answer.Some? {
        failures := failures - {id};
        backoffCounters := backoffCounters - {id};
        AfterSuccess(s, call);
        return Refreshed(answer.value), {};
      }
      failures := failures[id := now];
      evicted := EnforceMaxFailures();
      AfterFailure(s, call, evicted);
      return RefreshFailed, evicted;
    }

    method CleanupExpiredFailures(now: int)
      modifies this`failures, this`backoffCounters
      ensures Kept() == Drop(old(Kept()), ExpiredIds(old(Kept()), now))
    {
      var cutoff := now - FAILURE_TTL_MS;
      var expired := set id | id in failures && failures[id] < cutoff;
      failures := failures - expired;
      backoffCounters := backoffCounters - expired;
    }

    /** The entries in some order of the table, sorted by age, give up their oldest. */
    method EnforceMaxFailures() returns (ghost evicted: set<string>)
      modifies this`failures, this`backoffCounters
      ensures MayEvict(old(Kept()), evicted) && Kept() == Drop(old(Kept()), evicted)
    {
      evicted := {};
      if |failures| <= MAX_FAILURE_RECORDS { return; }
      var entries := Entries(failures);
      var sorted := StableSort(ByAge(), entries);
      var toRemove := |entries| - MAX_FAILURE_RECORDS;
      SortedEntries(failures, entries);
      evicted := FirstIds(sorted, toRemove);
      OldestFirst(Kept(), sorted, toRemove, evicted);
      hide *;
      RemoveFirst(sorted, toRemove);
    }

    method RemoveFirst(sorted: seq<(string, int)>, n: nat)
      requires n <= |sorted|
      modifies this`failures, this`backoffCounters
      ensures Kept() == Drop(old(Kept()), FirstIds(sorted, n))
    {
      hide Drop, FirstIds;
      DropNone(Kept());
      FirstIdsMore(sorted, 0);
      for i := 0 to n
        invariant Kept() == Drop(old(Kept()), FirstIds(sorted, i))
      {
        DropMore(old(Kept()), FirstIds(sorted, i), sorted[i].0);
        FirstIdsMore(sorted, i);
        failures := failures - {sorted[i].0};
        backoffCounters := backoffCounters - {sorted[i].0};
      }
    }

    method ClearAccount(id: string)
      modifies this
      ensures Step(old(Now()), Clear(id), {}, Now())
    {
      failures := failures - {id};
      backoffCounters := backoffCounters - {id};
    }
  }

  /** What the two ways on from the clean-up amount to. */
  lemma AfterCleanup(s: State, c: Records, call: nat, id: string, now: int)
    requires call !in s.pending && c == Drop(s.records, ExpiredIds(s.records, now))
    ensures var e := Enter(call, id, now);
            && (CallsProvider(s, e) <==> !(id in c.failures && now - c.failures[id] < TOKEN_REFRESH_BACKOFF_MS))
            && (!CallsProvider(s, e) ==>
                 var counter := (if id in c.counters then c.counters[id] else 0) + 1;
                 Step(s, e, {}, State(c.(counters := c.counters[id := counter]), s.pending)))
            && (CallsProvider(s, e) ==>
                 var counters := if id in c.failures then c.counters - {id} else c.counters;
                 Step(s, e, {}, State(c.(counters := counters), s.pending[call := Pending(id, now)])))
  {
    hide ExpiredIds;
    DropNone(BeforeEviction(s, Enter(call, id, now)).records);
  }

  lemma AfterSuccess(s: State, call: nat)
    requires call in s.pending
    ensures var id := s.pending[call].id;
            var left := Records(s.records.failures - {id}, s.records.counters - {id});
            Step(s, Finish(call, true), {}, State(left, s.pending - {call}))
  {
    DropNone(BeforeEviction(s, Finish(call, true)).records);
  }

  lemma AfterFailure(s: State, call: nat, out: set<string>)
    requires call in s.pending
    ensures var p := s.pending[call];
            var b := s.records.(failures := s.records.failures[p.id := p.now]);
            MayEvict(b, out) ==> Step(s, Finish(call, false), out, State(Drop(b, out), s.pending - {call}))
  {
    hide MayEvict, Drop;
  }

  lemma DropNone(r: Records)
    ensures Drop(r, {}) == r
  {
  }

  lemma DropMore(r: Records, ids: set<string>, id: string)
    ensures Records(Drop(r, ids).failures - {id}, Drop(r, ids).counters - {id}) == Drop(r, ids + {id})
  {
  }

  function FirstIds(s: seq<(string, int)>, n: nat): set<string>
    requires n <= |s|
  {
    set k | 0 <= k < n :: s[k].0
  }

  lemma FirstIdsMore(s: seq<(string, int)>, n: nat)
    requires n <= |s|
    ensures FirstIds(s, 0) == {}
    ensures n < |s| ==> FirstIds(s, n + 1) == FirstIds(s, n) + {s[n].0}
  {
  }

  function ByAge(): ((string, int), (string, int)) -> bool { (x: (string, int), y: (string, int)) => x.1 <= y.1 }

  /** `s` lists the entries of the table, each once. */
  ghost predicate Lists(table: map<string, int>, s: seq<(string, int)>) {
    && |s| == |table|
    && (forall i :: 0 <= i < |s| ==> s[i].0 in table && s[i].1 == table[s[i].0])
    && (forall i, j :: 0 <= i < j < |s| ==> s[i].0 != s[j].0)
    && (forall id :: id in table ==> (id, table[id]) in s)
  }

  /** The entries of a table in whatever order it yields them. */
  method Entries(table: map<string, int>) returns (s: seq<(string, int)>)
    ensures Lists(table, s)
  {
    s := [];
    var left := table.Keys;
    while left != {}
      invariant left <= table.Keys && |s| + |left| == |table|
      invariant forall i :: 0 <= i < |s| ==> s[i].0 in table && s[i].0 !in left && s[i].1 == table[s[i].0]
      invariant forall i, j :: 0 <= i < j < |s| ==> s[i].0 != s[j].0
      invariant forall id :: id in table && id !in left ==> (id, table[id]) in s
      decreases |left|
    {
      var id :| id in left;
      s := s + [(id, table[id])];
      left := left - {id};
    }
  }

  lemma SortedEntries(table: map<string, int>, entries: seq<(string, int)>)
    requires Lists(table, entries)
    ensures Lists(table, StableSort(ByAge(), entries)) && Sorted(ByAge(), StableSort(ByAge(), entries))
  {
    var sorted := StableSort(ByAge(), entries);
    assert TotalPreorder(ByAge());
    StableSortSorted(ByAge(), entries);
    StableSortMembers(ByAge(), entries);
    forall i, j | 0 <= i < j < |entries| ensures entries[i] != entries[j] {
      assert entries[i].0 != entries[j].0;
    }
    PermutationDistinct(entries, sorted);
    forall i | 0 <= i < |sorted| ensures sorted[i].0 in table && sorted[i].1 == table[sorted[i].0] {
      assert sorted[i] in sorted;
    }
    forall i, j | 0 <= i < j < |sorted| ensures sorted[i].0 != sorted[j].0 {
      assert sorted[i] != sorted[j];
    }
  }

  lemma {:induction false} PrefixIds(s: seq<(string, int)>, n: nat, ids: set<string>)
    requires n <= |s| && (forall i, j :: 0 <= i < j < |s| ==> s[i].0 != s[j].0)
    requires ids == FirstIds(s, n)
    ensures |ids| == n
  {
    if n > 0 {
      var fewer := FirstIds(s, n - 1);
      PrefixIds(s, n - 1, fewer);
      FirstIdsMore(s, n - 1);
    }
  }

  lemma OldestFirst(r: Records, sorted: seq<(string, int)>, n: nat, out: set<string>)
    requires Lists(r.failures, sorted) && Sorted(ByAge(), sorted)
    requires |r.failures| > MAX_FAILURE_RECORDS && n == |sorted| - MAX_FAILURE_RECORDS
    requires out == FirstIds(sorted, n)
    ensures MayEvict(r, out)
  {
    PrefixIds(sorted, n, out);
    forall gone, kept | gone in out && kept in r.failures && kept !in out
      ensures r.failures[gone] <= r.failures[kept]
    {
      var i :| 0 <= i < n && sorted[i].0 == gone;
      var j :| 0 <= j < |sorted| && sorted[j] == (kept, r.failures[kept]);
      assert sorted[j].0 == kept;
      assert j >= n;
      assert ByAge()(sorted[i], sorted[j]);
    }
  }

  // ---------------------------------------------------------------------
  // Every run
  // ---------------------------------------------------------------------

  /** A run of refreshes that overlap freely: the states between the events, and what each event evicted. */
  ghost predicate IsRun(states: seq<State>, events: seq<Event>, evictions: seq<set<string>>) {
    && |states| == |events| + 1 && |evictions| == |events|
    && states[0] == START
    && forall i :: 0 <= i < |events| ==> Step(states[i], events[i], evictions[i], states[i + 1])
  }

  /** A backoff counter belongs to a recorded failure, and there are never too many of those. */
  ghost predicate Valid(r: Records) {
    r.counters.Keys <= r.failures.Keys && |r.failures| <= 1000
  }

  lemma DropValid(r: Records, ids: set<string>)
    requires r.counters.Keys <= r.failures.Keys
    ensures var d := Drop(r, ids);
            d.counters.Keys <= d.failures.Keys && |d.failures| <= |r.failures|
            && (ids <= r.failures.Keys ==> |d.failures| == |r.failures| - |ids|)
  {
  }

  /** Only a newly recorded failure can take the records over the limit, and by one. */
  lemma BeforeEvictionValid(s: State, e: Event)
    requires Valid(s.records) && Enabled(s, e)
    ensures var b := BeforeEviction(s, e).records;
            b.counters.Keys <= b.failures.Keys && |b.failures| <= MAX_FAILURE_RECORDS + 1
            && (!Fails(e) ==> |b.failures| <= MAX_FAILURE_RECORDS)
  {
    var r := s.records;
    match e
    case Enter(_, id, now) =>
      hide Drop, ExpiredIds, InBackoff;
      DropValid(r, ExpiredIds(r, now));
      var c := Drop(r, ExpiredIds(r, now));
      EntersValid(c, id, now, (if id in c.counters then c.counters[id] else 0) + 1);
    case Finish(call, succeeds) =>
      hide Drop;
      DropValid(r, {s.pending[call].id});
      GrowsByOne(r.failures, s.pending[call].id, s.pending[call].now);
    case Clear(id) =>
      hide Drop;
      DropValid(r, {id});
    case ClearAll =>
  }

  lemma EntersValid(c: Records, id: string, now: int, n: nat)
    requires c.counters.Keys <= c.failures.Keys
    ensures InBackoff(c, id, now) ==> c.counters[id := n].Keys <= c.failures.Keys
    ensures (c.counters - {id}).Keys <= c.failures.Keys
  {
  }

  lemma GrowsByOne(failures: map<string, int>, id: string, now: int)
    ensures |failures[id := now]| <= |failures| + 1 && failures.Keys <= failures[id := now].Keys
  {
  }

  lemma StepValid(s: State, e: Event, out: set<string>, s': State)
    requires Step(s, e, out, s')
    ensures Valid(s.records) ==> Valid(s'.records)
  {
    hide BeforeEviction, Drop;
    if Valid(s.records) {
      BeforeEvictionValid(s, e);
      DropValid(BeforeEviction(s, e).records, out);
    }
  }

  /** In every run, every state is valid. */
  lemma {:induction false} RunValid(states: seq<State>, events: seq<Event>, evictions: seq<set<string>>, i: nat)
    requires IsRun(states, events, evictions) && i < |states|
    ensures Valid(states[i].records)
  {
    hide Step;
    if i > 0 {
      RunValid(states, events, evictions, i - 1);
      StepValid(states[i - 1], events[i - 1], evictions[i - 1], states[i]);
    }
  }

  /** Forgetting old failures never ends a backoff: whether the provider is called depends on the
      records as they were before the clean-up. */
  lemma CleanupKeepsBackoff(s: State, e: Event)
    requires e.Enter?
    ensures CallsProvider(s, e) <==> !InBackoff(s.records, e.id, e.now)
    ensures CallsProvider(s, e) <==> !(e.id in s.records.failures && e.now - s.records.failures[e.id] < 60_000)
  {
  }

  /** A refresh is called for exactly when there is no key to return and the access token is missing, of unknown
      expiry, or within thirty minutes of it. */
  lemma RefreshedExactly(c: Credentials, now: int)
    ensures WithoutRefresh(c, now).None? <==>
              && c.provider !in ["openai-compatible", "zai", "claude-console-api", "anthropic-compatible", "minimax",
                                 "nanogpt"]
              && (c.accessToken.None? || c.expiresAt.None? || c.expiresAt.value <= now + 1_800_000)
  {
  }

  // ---------------------------------------------------------------------
  // How long a failure holds
  // ---------------------------------------------------------------------

  ghost predicate RecordedSince(r: Records, id: string, time: int) { id in r.failures && time <= r.failures[id] }

  /** The event keeps a record of `id` no older than `time`: it does not clear or evict it or expire it, and no
      refresh of the account that had begun before `time` or succeeds ends with it. */
  ghost predicate LeavesAlone(s: State, e: Event, out: set<string>, id: string, time: int) {
    && id !in out
    && match e
       case Clear(other) => other != id
       case ClearAll => false
       case Enter(_, _, now) => now <= time + FAILURE_TTL_MS
       case Finish(call, succeeds) =>
         call in s.pending && s.pending[call].id == id ==> !succeeds && time <= s.pending[call].now
  }

  lemma KeepsBeforeEviction(s: State, e: Event, out: set<string>, id: string, time: int)
    requires Enabled(s, e) && LeavesAlone(s, e, out, id, time) && RecordedSince(s.records, id, time)
    ensures RecordedSince(BeforeEviction(s, e).records, id, time)
  {
  }

  lemma DropKeeps(r: Records, out: set<string>, id: string, time: int)
    requires RecordedSince(r, id, time) && id !in out
    ensures RecordedSince(Drop(r, out), id, time)
  {
  }

  lemma StepKeepsRecord(s: State, e: Event, out: set<string>, s': State, id: string, time: int)
    requires Step(s, e, out, s')
    ensures LeavesAlone(s, e, out, id, time) && RecordedSince(s.records, id, time) ==>
              RecordedSince(s'.records, id, time)
  {
    hide BeforeEviction, Drop, MayEvict, RecordedSince;
    if LeavesAlone(s, e, out, id, time) && RecordedSince(s.records, id, time) {
      KeepsBeforeEviction(s, e, out, id, time);
      DropKeeps(BeforeEviction(s, e).records, out, id, time);
    }
  }

  lemma FailureIsRecorded(s: State, e: Event, out: set<string>, s': State)
    requires Step(s, e, out, s') && Fails(e) && s.pending[e.call].id !in out
    ensures RecordedSince(s'.records, s.pending[e.call].id, s.pending[e.call].now)
  {
    hide MayEvict;
  }

  /** The refresh that fails with event `i`, and whose record is not evicted at once. */
  ghost predicate FailsAt(states: seq<State>, events: seq<Event>, evictions: seq<set<string>>, i: nat, p: Pending)
    requires |evictions| == |events| <= |states|
  {
    && i < |events| && Fails(events[i]) && events[i].call in states[i].pending
    && states[i].pending[events[i].call] == p && p.id !in evictions[i]
  }

  /** In every run the record of a failed refresh stands for as long as the events leave it alone. */
  lemma {:induction false} RecordStands(states: seq<State>, events: seq<Event>, evictions: seq<set<string>>,
                                        i: nat, j: nat, p: Pending)
    requires IsRun(states, events, evictions) && i < j <= |events| && FailsAt(states, events, evictions, i, p)
    requires forall k :: i < k < j ==> LeavesAlone(states[k], events[k], evictions[k], p.id, p.now)
    ensures RecordedSince(states[j].records, p.id, p.now)
    decreases j
  {
    assert Step(states[j - 1], events[j - 1], evictions[j - 1], states[j]);
    hide Step, LeavesAlone, RecordedSince;
    if i < j - 1 {
      RecordStands(states, events, evictions, i, j - 1, p);
      StepKeepsRecord(states[j - 1], events[j - 1], evictions[j - 1], states[j], p.id, p.now);
    } else {
      FailureIsRecorded(states[i], events[i], evictions[i], states[j]);
    }
  }

  /** In every run, as long as the events in between leave the record of a failed refresh alone, one of that
      account that enters less than sixty seconds after the failed one began does not call the provider. */
  lemma StandingRecordHolds(states: seq<State>, events: seq<Event>, evictions: seq<set<string>>, i: nat, j: nat,
                            p: Pending)
    requires IsRun(states, events, evictions) && i < j < |events| && FailsAt(states, events, evictions, i, p)
    requires forall k :: i < k < j ==> LeavesAlone(states[k], events[k], evictions[k], p.id, p.now)
    requires events[j].Enter? && events[j].id == p.id
    ensures events[j].now < p.now + 60_000 ==> !CallsProvider(states[j], events[j])
  {
    RecordStands(states, events, evictions, i, j, p);
    CleanupKeepsBackoff(states[j], events[j]);
  }

  /** Neither cleared nor evicted by this event. */
  ghost predicate NotForgotten(e: Event, out: set<string>, id: string) {
    id !in out && e != Clear(id) && !e.ClearAll?
  }

  /** Every refresh of the account under way in `s` was under way in `first` already. */
  ghost predicate NoneNew(first: State, s: State, id: string) {
    forall call :: call in s.pending && s.pending[call].id == id ==>
                     call in first.pending && first.pending[call] == s.pending[call]
  }

  /** A refresh under way in `first` does not end by this event, or fails no earlier than `time` by its clock. */
  ghost predicate EndsLate(first: State, e: Event, id: string, time: int) {
    e.Finish? && e.call in first.pending && first.pending[e.call].id == id ==>
      !e.succeeds && time <= first.pending[e.call].now
  }

  /** While the record holds refreshes off, none begins, and so the record stands. */
  lemma StepHoldsOff(first: State, s: State, e: Event, out: set<string>, s': State, id: string, time: int)
    requires Step(s, e, out, s')
    ensures RecordedSince(s.records, id, time) && NoneNew(first, s, id) && NotForgotten(e, out, id)
            && EndsLate(first, e, id, time) && (e.Enter? ==> e.now < time + TOKEN_REFRESH_BACKOFF_MS) ==>
              RecordedSince(s'.records, id, time) && NoneNew(first, s', id)
  {
    if && RecordedSince(s.records, id, time) && NoneNew(first, s, id) && NotForgotten(e, out, id)
       && EndsLate(first, e, id, time) && (e.Enter? ==> e.now < time + TOKEN_REFRESH_BACKOFF_MS) {
      StepKeepsRecord(s, e, out, s', id, time);
      if e.Enter? && e.id == id { CleanupKeepsBackoff(s, e); }
      StepPending(s, e, out, s');
    }
  }

  /** What becomes of the refreshes under way. */
  lemma StepPending(s: State, e: Event, out: set<string>, s': State)
    requires Step(s, e, out, s')
    ensures s'.pending == match e
                          case Enter(call, id, now) =>
                            if CallsProvider(s, e) then s.pending[call := Pending(id, now)] else s.pending
                          case Finish(call, _) => s.pending - {call}
                          case _ => s.pending
  {
    hide MayEvict, Drop;
  }

  lemma {:induction false} HoldsOff(states: seq<State>, events: seq<Event>, evictions: seq<set<string>>,
                                    i: nat, j: nat, p: Pending)
    requires IsRun(states, events, evictions) && i < j <= |events| && FailsAt(states, events, evictions, i, p)
    requires forall k :: i < k < j ==>
               && NotForgotten(events[k], evictions[k], p.id) && EndsLate(states[i + 1], events[k], p.id, p.now)
               && (events[k].Enter? ==> events[k].now < p.now + TOKEN_REFRESH_BACKOFF_MS)
    ensures RecordedSince(states[j].records, p.id, p.now) && NoneNew(states[i + 1], states[j], p.id)
    decreases j
  {
    assert Step(states[j - 1], events[j - 1], evictions[j - 1], states[j]);
    hide Step, RecordedSince, NotForgotten, EndsLate;
    if i < j - 1 {
      HoldsOff(states, events, evictions, i, j - 1, p);
      StepHoldsOff(states[i + 1], states[j - 1], events[j - 1], evictions[j - 1], states[j], p.id, p.now);
    } else {
      FailureIsRecorded(states[i], events[i], evictions[i], states[j]);
    }
  }

  /** In every run: after a failed refresh the provider is not called for that account until sixty seconds after
      the failed one began, unless its record is cleared or evicted. The back-off sees to it that no refresh
      begins; one that was already under way must not end as a success, or as a failure with an older clock.
      No request before the refresh in question may carry a later clock. */
  lemma BackoffHolds(states: seq<State>, events: seq<Event>, evictions: seq<set<string>>, i: nat, j: nat, p: Pending)
    requires IsRun(states, events, evictions) && i < j < |events| && FailsAt(states, events, evictions, i, p)
    requires events[j].Enter? && events[j].id == p.id
    requires forall k :: i < k < j ==> NotForgotten(events[k], evictions[k], p.id)
    requires forall k :: i < k < j ==> EndsLate(states[i + 1], events[k], p.id, p.now)
    requires forall k :: i < k < j && events[k].Enter? ==> events[k].now <= events[j].now
    ensures events[j].now < p.now + 60_000 ==> !CallsProvider(states[j], events[j])
  {
    hide FailsAt, NotForgotten, EndsLate;
    if events[j].now < p.now + TOKEN_REFRESH_BACKOFF_MS {
      HoldsOff(states, events, evictions, i, j, p);
      CleanupKeepsBackoff(states[j], events[j]);
    }
  }

  ghost predicate NoneUnderWay(s: State, id: string) {
    forall call :: call in s.pending ==> s.pending[call].id != id
  }

  /** With no other refresh of the account under way at the failure, nothing is asked of how refreshes end. */
  lemma BackoffHoldsAlone(states: seq<State>, events: seq<Event>, evictions: seq<set<string>>, i: nat, j: nat,
                          p: Pending)
    requires IsRun(states, events, evictions) && i < j < |events| && FailsAt(states, events, evictions, i, p)
    requires events[j].Enter? && events[j].id == p.id
    requires NoneUnderWay(states[i + 1], p.id)
    requires forall k :: i < k < j ==> NotForgotten(events[k], evictions[k], p.id)
    requires forall k :: i < k < j && events[k].Enter? ==> events[k].now <= events[j].now
    ensures events[j].now < p.now + 60_000 ==> !CallsProvider(states[j], events[j])
  {
    hide IsRun, FailsAt, NotForgotten, CallsProvider;
    BackoffHolds(states, events, evictions, i, j, p);
  }

  // ---------------------------------------------------------------------
  // Which failure holds a refresh off
  // ---------------------------------------------------------------------

  /** The event does away with a record of `id` made at `time`: by clearing, evicting, success or age. */
  ghost predicate Forgets(s: State, e: Event, out: set<string>, id: string, time: int) {
    || id in out
    || match e
       case Clear(other) => other == id
       case ClearAll => true
       case Enter(_, _, now) => time < now - 5 * 60_000
       case Finish(call, succeeds) => succeeds && call in s.pending && s.pending[call].id == id
  }

  /** The event records a failure of the account. */
  ghost predicate RecordsFailure(s: State, e: Event, id: string) {
    Fails(e) && e.call in s.pending && s.pending[e.call].id == id
  }

  lemma BeforeEvictionEntry(s: State, e: Event, id: string)
    requires Enabled(s, e)
    ensures var r, b := s.records.failures, BeforeEviction(s, e).records.failures;
            if RecordsFailure(s, e, id) then id in b && b[id] == s.pending[e.call].now
            else (id in b <==> id in r && !Forgets(s, e, {}, id, r[id])) && (id in b ==> b[id] == r[id])
  {
  }

  /** What one event does to the record of an account: it makes a new one, does away with it, or keeps it. */
  lemma EntryStep(s: State, e: Event, out: set<string>, s': State, id: string)
    requires Step(s, e, out, s')
    ensures var r, r' := s.records.failures, s'.records.failures;
            if RecordsFailure(s, e, id) then
              && e.Finish? && e.call in s.pending
              && (id in r' <==> id !in out) && (id in r' ==> r'[id] == s.pending[e.call].now)
            else
              (id in r' <==> id in r && !Forgets(s, e, out, id, r[id])) && (id in r' ==> r'[id] == r[id])
  {
    BeforeEvictionEntry(s, e, id);
    hide BeforeEviction, MayEvict, RecordsFailure;
  }

  /** The refresh that fails with event `i` is the last failure of its account before event `j`, and its record
      has been neither cleared, nor evicted, nor dropped for its age, nor ended by a success. */
  ghost predicate Stands(states: seq<State>, events: seq<Event>, evictions: seq<set<string>>, i: nat, j: nat,
                         p: Pending)
    requires |evictions| == |events| == |states| - 1
  {
    && i < j <= |events| && FailsAt(states, events, evictions, i, p)
    && forall k :: i < k < j ==>
         !RecordsFailure(states[k], events[k], p.id) && !Forgets(states[k], events[k], evictions[k], p.id, p.now)
  }

  lemma NewRecordStands(states: seq<State>, events: seq<Event>, evictions: seq<set<string>>, i: nat, id: string)
    returns (p: Pending)
    requires |evictions| == |events| == |states| - 1 && i < |events|
    requires RecordsFailure(states[i], events[i], id) && id !in evictions[i]
    ensures events[i].Finish? && events[i].call in states[i].pending
    ensures p == states[i].pending[events[i].call] && p.id == id && Stands(states, events, evictions, i, i + 1, p)
  {
    p := states[i].pending[events[i].call];
  }

  lemma StandsOn(states: seq<State>, events: seq<Event>, evictions: seq<set<string>>, i: nat, j: nat, p: Pending)
    requires |evictions| == |events| == |states| - 1 && j < |events|
    requires Stands(states, events, evictions, i, j, p)
    requires !RecordsFailure(states[j], events[j], p.id) && !Forgets(states[j], events[j], evictions[j], p.id, p.now)
    ensures Stands(states, events, evictions, i, j + 1, p)
  {
    hide RecordsFailure, Forgets, FailsAt;
  }

  lemma {:induction false} RecordHasFailure(states: seq<State>, events: seq<Event>, evictions: seq<set<string>>,
                                            j: nat, id: string) returns (i: nat, p: Pending)
    requires IsRun(states, events, evictions) && j <= |events| && id in states[j].records.failures
    ensures Stands(states, events, evictions, i, j, p) && p == Pending(id, states[j].records.failures[id])
  {
    hide Step, Forgets, RecordsFailure, Stands;
    assert j > 0;
    i := j - 1;
    assert Step(states[i], events[i], evictions[i], states[j]);
    EntryStep(states[i], events[i], evictions[i], states[j], id);
    if RecordsFailure(states[i], events[i], id) {
      p := NewRecordStands(states, events, evictions, i, id);
    } else {
      i, p := RecordHasFailure(states, events, evictions, j - 1, id);
      StandsOn(states, events, evictions, i, j - 1, p);
    }
  }

  lemma {:induction false} StandingIsRecorded(states: seq<State>, events: seq<Event>, evictions: seq<set<string>>,
                                              i: nat, j: nat, p: Pending)
    requires IsRun(states, events, evictions) && Stands(states, events, evictions, i, j, p)
    ensures p.id in states[j].records.failures && states[j].records.failures[p.id] == p.now
    decreases j
  {
    assert Step(states[j - 1], events[j - 1], evictions[j - 1], states[j]);
    hide Step, Forgets;
    EntryStep(states[j - 1], events[j - 1], evictions[j - 1], states[j], p.id);
    if i < j - 1 {
      StandingIsRecorded(states, events, evictions, i, j - 1, p);
    }
  }

  /** In every run a refresh is held off if and only if a failure of its account that still stands began less
      than sixty seconds before it. */
  lemma HeldOffExactly(states: seq<State>, events: seq<Event>, evictions: seq<set<string>>, j: nat)
    requires IsRun(states, events, evictions) && j < |events| && events[j].Enter?
    ensures !CallsProvider(states[j], events[j])
            <==> exists i: nat, p :: Stands(states, events, evictions, i, j, p) && p.id == events[j].id
                                     && events[j].now - p.now < 60_000
  {
    CleanupKeepsBackoff(states[j], events[j]);
    hide Step, Stands, CallsProvider;
    var id := events[j].id;
    if id in states[j].records.failures {
      var i, p := RecordHasFailure(states, events, evictions, j, id);
    }
    if i: nat, p :| Stands(states, events, evictions, i, j, p) && p.id == id
                    && events[j].now - p.now < TOKEN_REFRESH_BACKOFF_MS {
      StandingIsRecorded(states, events, evictions, i, j, p);
    }
  }

  /** A failure that is recorded and evicted at once is as old as every record kept: with older
      records in the table it always survives its own eviction. */
  lemma NewRecordEvictedOnlyInTies(s: State, e: Event, out: set<string>, s': State, kept: string)
    requires Step(s, e, out, s') && Fails(e)
    requires forall id :: id in s.records.failures ==> s.records.failures[id] <= s.pending[e.call].now
    ensures s.pending[e.call].id in out && kept in s'.records.failures ==>
              s'.records.failures[kept] == s.pending[e.call].now
  {
    var p := s.pending[e.call];
    if p.id in out && kept in s'.records.failures {
      var b := BeforeEviction(s, e).records;
      assert b.failures[p.id] == p.now && kept in b.failures && kept !in out;
    }
  }

  // ---------------------------------------------------------------------
  // How many refreshes have been held off
  // ---------------------------------------------------------------------

  /** This refresh of the account is held off. */
  ghost predicate HoldsOffRefresh(s: State, e: Event, id: string) {
    e.Enter? && e.id == id && !CallsProvider(s, e)
  }

  /** The event starts the count anew: it does away with the record, or a refresh gets past it. */
  ghost predicate StartsAnew(s: State, e: Event, out: set<string>, id: string) {
    || (e.Enter? && e.id == id && CallsProvider(s, e) && id in s.records.failures)
    || (id in s.records.failures && Forgets(s, e, out, id, s.records.failures[id]))
  }

  /** How many refreshes of the account were held off before event `j` since the count last began. */
  ghost function HeldOffSince(states: seq<State>, events: seq<Event>, evictions: seq<set<string>>, j: nat,
                              id: string): nat
    requires |evictions| == |events| == |states| - 1 && j <= |events|
  {
    if j == 0 then 0
    else
      var s, e := states[j - 1], events[j - 1];
      if HoldsOffRefresh(s, e, id) then HeldOffSince(states, events, evictions, j - 1, id) + 1
      else if StartsAnew(s, e, evictions[j - 1], id) || (Fails(e) && id in evictions[j - 1]) then 0
      else HeldOffSince(states, events, evictions, j - 1, id)
  }

  ghost function CounterOf(r: Records, id: string): nat { if id in r.counters then r.counters[id] else 0 }

  lemma CounterStep(s: State, e: Event, out: set<string>, s': State, id: string)
    requires Step(s, e, out, s') && s.records.counters.Keys <= s.records.failures.Keys
    ensures CounterOf(s'.records, id)
            == if HoldsOffRefresh(s, e, id) then CounterOf(s.records, id) + 1
               else if StartsAnew(s, e, out, id) || (Fails(e) && id in out) then 0
               else CounterOf(s.records, id)
  {
    CounterBeforeEviction(s, e, id);
    hide BeforeEviction, MayEvict;
  }

  lemma CounterBeforeEviction(s: State, e: Event, id: string)
    requires Enabled(s, e) && s.records.counters.Keys <= s.records.failures.Keys
    ensures CounterOf(BeforeEviction(s, e).records, id)
            == if HoldsOffRefresh(s, e, id) then CounterOf(s.records, id) + 1
               else if StartsAnew(s, e, {}, id) then 0
               else CounterOf(s.records, id)
  {
  }

  /** In every run the attempts reported to a refresh that is held off are those held off since the count began,
      itself included. */
  lemma {:induction false} AttemptsAreCounted(states: seq<State>, events: seq<Event>, evictions: seq<set<string>>,
                                              j: nat, id: string)
    requires IsRun(states, events, evictions) && j <= |events|
    ensures CounterOf(states[j].records, id) == HeldOffSince(states, events, evictions, j, id)
  {
    hide HeldOffSince, CounterOf, Step, Valid;
    CountStarts(states, events, evictions, id);
    if j > 0 {
      AttemptsAreCounted(states, events, evictions, j - 1, id);
      RunValid(states, events, evictions, j - 1);
      ValidCounters(states[j - 1].records);
      assert Step(states[j - 1], events[j - 1], evictions[j - 1], states[j]);
      hide HoldsOffRefresh, StartsAnew, Fails;
      CounterStep(states[j - 1], events[j - 1], evictions[j - 1], states[j], id);
      CountGoesOn(states, events, evictions, j, id);
    }
  }

  lemma ValidCounters(r: Records)
    requires Valid(r)
    ensures r.counters.Keys <= r.failures.Keys
  {
  }

  lemma CountStarts(states: seq<State>, events: seq<Event>, evictions: seq<set<string>>, id: string)
    requires |evictions| == |events| == |states| - 1
    ensures HeldOffSince(states, events, evictions, 0, id) == 0 && CounterOf(START.records, id) == 0
  {
  }

  lemma CountGoesOn(states: seq<State>, events: seq<Event>, evictions: seq<set<string>>, j: nat, id: string)
    requires |evictions| == |events| == |states| - 1 && 0 < j <= |events|
    ensures var s, e, before := states[j - 1], events[j - 1], HeldOffSince(states, events, evictions, j - 1, id);
            HeldOffSince(states, events, evictions, j, id)
            == if HoldsOffRefresh(s, e, id) then before + 1
               else if StartsAnew(s, e, evictions[j - 1], id) || (Fails(e) && id in evictions[j - 1]) then 0
               else before
  {
  }

  // ---------------------------------------------------------------------
  // Refreshes of one account that overlap
  // ---------------------------------------------------------------------

  /** No failure of the account holds off a refresh at `now`. */
  ghost predicate Unheld(r: Records, id: string, now: int) { !InBackoff(r, id, now) }

  lemma StepStaysUnheld(s: State, e: Event, out: set<string>, s': State, id: string, now: int)
    requires Step(s, e, out, s') && Unheld(s.records, id, now)
    requires Fails(e) ==> s.pending[e.call].id != id
    ensures Unheld(s'.records, id, now)
  {
    hide MayEvict;
  }

  lemma {:induction false} StaysUnheld(states: seq<State>, events: seq<Event>, evictions: seq<set<string>>,
                                       i: nat, j: nat, id: string, now: int)
    requires IsRun(states, events, evictions) && i <= j <= |events| && Unheld(states[i].records, id, now)
    requires forall k :: i <= k < j && Fails(events[k]) && events[k].call in states[k].pending ==>
                           states[k].pending[events[k].call].id != id
    ensures Unheld(states[j].records, id, now)
    decreases j
  {
    if i < j {
      StaysUnheld(states, events, evictions, i, j - 1, id, now);
      var s, e := states[j - 1], events[j - 1];
      assert Step(s, e, evictions[j - 1], states[j]);
      assert Enabled(s, e);
      hide Step, Unheld;
      StepStaysUnheld(s, e, evictions[j - 1], states[j], id, now);
    }
  }

  /** Concurrent refreshes of one account are not brought down to one: in every run, once one has gone on to
      the provider, so does every later one until a failure of that account has been recorded. */
  lemma OverlappingRefreshesAllCall(states: seq<State>, events: seq<Event>, evictions: seq<set<string>>, i: nat, j: nat)
    requires IsRun(states, events, evictions) && i < j < |events|
    requires events[i].Enter? && events[j].Enter? && events[i].id == events[j].id && events[i].now <= events[j].now
    requires CallsProvider(states[i], events[i])
    requires forall k :: i < k < j && Fails(events[k]) && events[k].call in states[k].pending ==>
                           states[k].pending[events[k].call].id != events[i].id
    ensures CallsProvider(states[j], events[j])
  {
    CleanupKeepsBackoff(states[i], events[i]);
    CleanupKeepsBackoff(states[j], events[j]);
    StaysUnheld(states, events, evictions, i, j, events[i].id, events[i].now);
  }

  /** The shortest such run: two refreshes are under way at once, and each is to call the provider. */
  lemma TwoRefreshesCall(id: string, now: int)
    ensures var one, both := map[0 := Pending(id, now)], map[0 := Pending(id, now), 1 := Pending(id, now)];
            var states := [START, State(START.records, one), State(START.records, both)];
            var events := [Enter(0, id, now), Enter(1, id, now)];
            && IsRun(states, events, [{}, {}])
            && CallsProvider(states[0], events[0]) && CallsProvider(states[1], events[1])
  {
    var r := Records(map[], map[]);
    assert Drop(r, {}) == r && Drop(r, ExpiredIds(r, now)) == r;
    var one, both := map[0 := Pending(id, now)], map[0 := Pending(id, now), 1 := Pending(id, now)];
    assert Step(START, Enter(0, id, now), {}, State(r, one));
    assert one[1 := Pending(id, now)] == both;
    assert Step(State(r, one), Enter(1, id, now), {}, State(r, both));
  }
}
