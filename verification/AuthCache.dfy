/** The cache in front of API-key verification. A verification looks the key up, waits for the
    verifier without holding any lock, and then stores the answer; verifications overlap freely. */
module AuthCache {
  import opened Collections

  const API_KEY_CACHE_TTL_SECS := 300
  const API_KEY_NEGATIVE_CACHE_TTL_SECS := 30
  const API_KEY_CACHE_MAX_SIZE := 1000
  const NANOS_PER_SEC := 1_000_000_000

  /** Who a key belongs to. */
  datatype Identity = Identity(id: string, name: string, scope: string)

  datatype Entry = Entry(result: Option<Identity>, verifiedAt: int)

  /** Whole seconds since `t`; time in nanoseconds. */
  function ElapsedSecs(now: int, t: int): nat {
    if now < t then 0 else (now - t) / NANOS_PER_SEC
  }

  function TtlSecs(result: Option<Identity>): nat {
    if result.Some? then API_KEY_CACHE_TTL_SECS else API_KEY_NEGATIVE_CACHE_TTL_SECS
  }

  predicate Fresh(e: Entry, now: int) { ElapsedSecs(now, e.verifiedAt) < TtlSecs(e.result) }

  lemma FreshMeansRecent(e: Entry, now: int)
    requires e.verifiedAt <= now
    ensures Fresh(e, now) <==> now - e.verifiedAt < TtlSecs(e.result) * NANOS_PER_SEC
  {
  }

  // ---------------------------------------------------------------------
  // Atomic steps
  // ---------------------------------------------------------------------

  type Cache = map<string, Entry>

  /** The cache, and the calls that wait for the verifier with the keys they asked about. */
  datatype State = State(cache: Cache, waiting: map<nat, string>)

  /** Look: a call reads the cache. Store: its verifier has answered (a verifier that crashes answers
      None) and the call takes the write lock; the age of the entry counts from this moment. */
  datatype Event =
    | Look(call: nat, key: string, at: int)
    | Store(call: nat, answer: Option<Identity>, at: int)

  predicate Hit(cache: Cache, h: string, now: int) { h in cache && Fresh(cache[h], now) }

  predicate Enabled(s: State, e: Event) {
    match e
    case Look(call, _, _) => call !in s.waiting
    case Store(call, _, _) => call in s.waiting
  }

  /** Storing into a full cache empties it first. */
  function Remember(cache: Cache, h: string, e: Entry): Cache {
    (if |cache| >= API_KEY_CACHE_MAX_SIZE then map[] else cache)[h := e]
  }

  function Next(s: State, hash: string -> string, e: Event): State
    requires Enabled(s, e)
  {
    match e
    case Look(call, key, at) =>
      if Hit(s.cache, hash(key), at) then s else s.(waiting := s.waiting[call := key])
    case Store(call, answer, at) =>
      State(Remember(s.cache, hash(s.waiting[call]), Entry(answer, at)), s.waiting - {call})
  }

  /** What the event tells its call, if it tells it anything: the cached or the verifier's answer. */
  function Told(s: State, hash: string -> string, e: Event): Option<Option<Identity>> {
    match e
    case Look(_, key, at) => if Hit(s.cache, hash(key), at) then Some(s.cache[hash(key)].result) else None
    case Store(_, answer, _) => Some(answer)
  }

  class KeyVerifier {
    const hash: string -> string
    var cache: Cache
    var waiting: map<nat, string>

    function Now(): State
      reads this
    {
      State(cache, waiting)
    }

    constructor (hash: string -> string)
      ensures this.hash == hash && Now() == State(map[], map[])
    {
      this.hash := hash;
      cache, waiting := map[], map[];
    }

    /** Up to the await: answers from a fresh entry, or leaves the call waiting for the verifier. */
    method Lookup(call: nat, key: string, now: int) returns (told: Option<Option<Identity>>)
      requires Enabled(Now(), Look(call, key, now))
      modifies this
      ensures told == Told(old(Now()), hash, Look(call, key, now))
      ensures Now() == Next(old(Now()), hash, Look(call, key, now))
    {
      var cacheKey := hash(key);
      if cacheKey in cache {
        var entry := cache[cacheKey];
        var ttl := if entry.result.Some? then API_KEY_CACHE_TTL_SECS else API_KEY_NEGATIVE_CACHE_TTL_SECS;
        if ElapsedSecs(now, entry.verifiedAt) < ttl { return Some(entry.result); }
      }
      waiting := waiting[call := key];
      return None;
    }

    /** After the await: remembers the verifier's answer, good or bad. */
    method StoreAnswer(call: nat, answer: Option<Identity>, now: int) returns (told: Option<Identity>)
      requires Enabled(Now(), Store(call, answer, now))
      modifies this
      ensures told == answer
      ensures Now() == Next(old(Now()), hash, Store(call, answer, now))
    {
      var cacheKey := hash(waiting[call]);
      if |cache| >= API_KEY_CACHE_MAX_SIZE { cache := map[]; }
      cache := cache[cacheKey := Entry(answer, now)];
      waiting := waiting - {call};
      return answer;
    }
  }

  // ---------------------------------------------------------------------
  // Every run
  // ---------------------------------------------------------------------

  ghost predicate Leads(s: State, hash: string -> string, e: Event, s': State) {
    Enabled(s, e) && s' == Next(s, hash, e)
  }

  /** Any interleaving of looks and stores, each call's store after its look, under one clock: the events,
      and the states before and after them. */
  datatype Run = Run(hash: string -> string, states: seq<State>, events: seq<Event>)
  {
    ghost predicate Shaped() { |states| == |events| + 1 && states[0] == State(map[], map[]) }

    ghost predicate Valid() {
      && Shaped()
      && (forall i :: 0 <= i < |events| ==> Leads(states[i], hash, events[i], states[i + 1]))
      && (forall i, j :: 0 <= i < j < |events| ==> events[i].at <= events[j].at)
    }

    /** Different keys have different hashes. */
    ghost predicate Injective() { forall x, y :: hash(x) == hash(y) ==> x == y }
  }

  /** The key event `i` stores an answer for. */
  ghost predicate Stores(r: Run, i: nat, key: string) {
    && r.Shaped() && i < |r.events| && r.events[i].Store?
    && r.events[i].call in r.states[i].waiting && r.states[i].waiting[r.events[i].call] == key
  }

  /** A call that waits has just looked in vain or waited already. */
  lemma WaitingStep(s: State, hash: string -> string, e: Event, call: nat)
    requires Enabled(s, e) && call in Next(s, hash, e).waiting
    ensures if e.Look? && e.call == call then Told(s, hash, e).None? && Next(s, hash, e).waiting[call] == e.key
            else call in s.waiting && s.waiting[call] == Next(s, hash, e).waiting[call]
  {
  }

  /** An answer is stored for the key its call looked up, in vain, before. */
  lemma {:induction false} StoreHasLook(r: Run, i: nat, call: nat) returns (l: nat)
    requires r.Valid() && i <= |r.events| && call in r.states[i].waiting
    ensures l < i && r.events[l].Look? && r.events[l].call == call
    ensures forall k :: l < k < i ==> !(r.events[k].Look? && r.events[k].call == call)
    ensures r.events[l].key == r.states[i].waiting[call]
    ensures Told(r.states[l], r.hash, r.events[l]).None?
  {
    hide Enabled, Next, Told;
    var s := i - 1;
    assert Leads(r.states[i - 1], r.hash, r.events[i - 1], r.states[i]);
    WaitingStep(r.states[s], r.hash, r.events[s], call);
    if r.events[s].Look? && r.events[s].call == call {
      l := s;
    } else {
      l := StoreHasLook(r, s, call);
    }
  }

  /** In every run the cache holds at most 1000 entries. */
  lemma {:induction false} CacheBounded(r: Run, i: nat)
    requires r.Valid() && i <= |r.events|
    ensures |r.states[i].cache| <= 1000
  {
    hide Enabled, Next;
    if i > 0 {
      CacheBounded(r, i - 1);
      assert Leads(r.states[i - 1], r.hash, r.events[i - 1], r.states[i]);
      StepBounded(r.states[i - 1], r.hash, r.events[i - 1]);
    }
  }

  lemma StepBounded(s: State, hash: string -> string, e: Event)
    requires Enabled(s, e) && |s.cache| <= API_KEY_CACHE_MAX_SIZE
    ensures |Next(s, hash, e).cache| <= API_KEY_CACHE_MAX_SIZE
  {
    hide Hit;
    if e.Store? {
      Grows(s.cache, hash(s.waiting[e.call]), Entry(e.answer, e.at));
      Grows(map[], hash(s.waiting[e.call]), Entry(e.answer, e.at));
    }
  }

  lemma Grows(cache: Cache, key: string, e: Entry)
    ensures |cache[key := e]| <= |cache| + 1
  {
  }

  /** Event `i` stores into a full cache. */
  ghost predicate Empties(r: Run, i: nat)
    requires i < |r.events| && r.Shaped()
  {
    r.events[i].Store? && |r.states[i].cache| >= 1000
  }

  /** The answer stored for `key` at `s` is still in the cache before event `i`: nothing was stored for the
      key since, and the cache was not emptied. */
  ghost predicate Stands(r: Run, s: nat, i: nat, key: string)
    requires i <= |r.events| && r.Shaped()
  {
    && s < i && Stores(r, s, key)
    && forall k :: s < k < i ==> !Stores(r, k, key) && !Empties(r, k)
  }

  /** What one event does to the entry of a key: it stores it, empties the cache, or keeps the entry. */
  lemma EntryStep(r: Run, i: nat, key: string)
    requires r.Valid() && r.Injective() && i < |r.events|
    ensures var before, after := r.states[i].cache, r.states[i + 1].cache;
            if Stores(r, i, key)
            then r.hash(key) in after && after[r.hash(key)] == Entry(r.events[i].answer, r.events[i].at)
            else if Empties(r, i) then r.hash(key) !in after
            else (r.hash(key) in after <==> r.hash(key) in before)
                 && (r.hash(key) in before ==> after[r.hash(key)] == before[r.hash(key)])
  {
    assert Leads(r.states[i], r.hash, r.events[i], r.states[i + 1]);
    var s := r.states[i];
    if r.events[i].Store? && s.waiting[r.events[i].call] != key {
      assert r.hash(s.waiting[r.events[i].call]) != r.hash(key);
    }
  }

  /** Every entry is the answer that stands for the key of that hash. */
  lemma {:induction false} EntryHasSource(r: Run, i: nat, key: string)
    returns (s: nat)
    requires r.Valid() && r.Injective()
    requires i <= |r.events| && r.hash(key) in r.states[i].cache
    ensures Stands(r, s, i, key)
    ensures r.states[i].cache[r.hash(key)] == Entry(r.events[s].answer, r.events[s].at)
  {
    hide Leads, Empties;
    EntryStep(r, i - 1, key);
    if Stores(r, i - 1, key) {
      s := i - 1;
    } else {
      s := EntryHasSource(r, i - 1, key);
    }
  }

  /** And conversely an answer that stands is in the cache. */
  lemma {:induction false} StandingIsCached(r: Run, s: nat, i: nat, key: string)
    requires r.Valid() && r.Injective() && i <= |r.events| && Stands(r, s, i, key)
    ensures r.events[s].Store? && r.hash(key) in r.states[i].cache
    ensures r.states[i].cache[r.hash(key)] == Entry(r.events[s].answer, r.events[s].at)
  {
    hide Leads, Empties;
    EntryStep(r, i - 1, key);
    if s < i - 1 {
      StandingIsCached(r, s, i - 1, key);
    }
  }

  /** An answer stored at `s` is young enough for the look `i`. */
  ghost predicate Young(r: Run, s: nat, i: nat)
    requires s < |r.events| && i < |r.events|
  {
    && r.events[s].Store?
    && r.events[i].at - r.events[s].at < (if r.events[s].answer.Some? then 300 else 30) * 1_000_000_000
  }

  /** In every run, however verifications overlap: a look is answered from the cache if and only if the answer
      that stands for its key was stored less than 300 seconds ago if positive and less than 30 if negative. */
  lemma HitExactly(r: Run, i: nat)
    requires r.Valid() && r.Injective() && i < |r.events| && r.events[i].Look?
    ensures Told(r.states[i], r.hash, r.events[i]).Some?
            <==> exists s :: Stands(r, s, i, r.events[i].key) && Young(r, s, i)
  {
    hide Enabled;
    var key, cache := r.events[i].key, r.states[i].cache;
    if Hit(cache, r.hash(key), r.events[i].at) {
      var s := EntryHasSource(r, i, key);
      FreshMeansRecent(cache[r.hash(key)], r.events[i].at);
      assert Young(r, s, i);
    }
    if s :| Stands(r, s, i, key) && Young(r, s, i) {
      StandingIsCached(r, s, i, key);
      FreshMeansRecent(cache[r.hash(key)], r.events[i].at);
    }
  }

  /** In every run, what a look is told is what the verifier answered about that very key, stored less than 300
      seconds ago if positive and less than 30 seconds ago if negative, and nothing was stored for it since. */
  lemma ToldIsRecent(r: Run, i: nat) returns (s: nat)
    requires r.Valid() && r.Injective() && i < |r.events| && r.events[i].Look?
    requires Told(r.states[i], r.hash, r.events[i]).Some?
    ensures Stands(r, s, i, r.events[i].key) && Young(r, s, i)
    ensures Told(r.states[i], r.hash, r.events[i]) == Some(r.events[s].answer)
  {
    hide Enabled;
    var cache := r.states[i].cache;
    s := EntryHasSource(r, i, r.events[i].key);
    FreshMeansRecent(cache[r.hash(r.events[i].key)], r.events[i].at);
  }

  /** A call that waited is told what the verifier answered about the key it had looked up. */
  lemma WaitingIsToldItsOwn(r: Run, i: nat) returns (l: nat)
    requires r.Valid() && i < |r.events| && r.events[i].Store?
    ensures l < i && r.events[l].Look? && r.events[l].call == r.events[i].call
    ensures forall k :: l < k < i ==> !(r.events[k].Look? && r.events[k].call == r.events[i].call)
    ensures Stores(r, i, r.events[l].key)
    ensures Told(r.states[i], r.hash, r.events[i]) == Some(r.events[i].answer)
  {
    assert Leads(r.states[i], r.hash, r.events[i], r.states[i + 1]);
    l := StoreHasLook(r, i, r.events[i].call);
  }

  /** Once every answer stored for a key is that old, the next look asks the verifier again. */
  lemma StaleIsAskedAgain(r: Run, i: nat)
    requires r.Valid() && r.Injective() && i < |r.events| && r.events[i].Look?
    requires forall s :: 0 <= s < i && Stores(r, s, r.events[i].key) ==> !Young(r, s, i)
    ensures Told(r.states[i], r.hash, r.events[i]).None?
  {
    HitExactly(r, i);
  }
}
