/** Model prices: exact lookups, the fuzzy scan, and the cache in front of it. Lookups and refreshes
    overlap: a lookup takes its snapshot of the remote prices, reads the cache and writes it under
    separate locks, and a refresh stores its prices before it clears the cache. */
module Pricing {
  import opened Collections

  datatype ModelCost = ModelCost(input: real, output: real, cacheRead: real, cacheWrite: real)

  type Table = map<string, ModelCost>

  /** Lower-casing is Unicode's and is left open. */
  datatype Catalog = Catalog(bundled: Table, lower: string -> string)

  // ---------------------------------------------------------------------
  // The uncached answer
  // ---------------------------------------------------------------------

  predicate Matches(catalog: Catalog, key: string, model: string) {
    Contains(catalog.lower(model), key) || Contains(key, catalog.lower(model))
  }

  predicate AnyMatch(catalog: Catalog, table: Table, model: string) {
    exists key :: key in table && Matches(catalog, key, model)
  }

  /** A price the table may yield for the model: that of any key that matches, since the table has no order. */
  predicate FromTable(catalog: Catalog, table: Table, model: string, price: ModelCost) {
    exists key :: key in table && Matches(catalog, key, model) && table[key] == price
  }

  /** What a scan may answer: remote before bundled, and nothing only if no key of either matches. */
  ghost predicate ScanMayAnswer(catalog: Catalog, remote: Table, model: string, answer: Option<ModelCost>) {
    if AnyMatch(catalog, remote, model) then answer.Some? && FromTable(catalog, remote, model, answer.value)
    else if AnyMatch(catalog, catalog.bundled, model) then
      answer.Some? && FromTable(catalog, catalog.bundled, model, answer.value)
    else answer.None?
  }

  function Exact(catalog: Catalog, remote: Table, model: string): Option<ModelCost> {
    if model in remote then Some(remote[model])
    else if model in catalog.bundled then Some(catalog.bundled[model])
    else None
  }

  /** What a lookup without a cache may answer. */
  ghost predicate MayAnswer(catalog: Catalog, remote: Table, model: string, answer: Option<ModelCost>) {
    if Exact(catalog, remote, model).Some? then answer == Exact(catalog, remote, model)
    else ScanMayAnswer(catalog, remote, model, answer)
  }

  /** The key occurs in the lower-cased model, or that in the key. */
  ghost predicate Alike(catalog: Catalog, key: string, model: string) {
    Occurs(key, catalog.lower(model)) || Occurs(catalog.lower(model), key)
  }

  lemma MatchesExactly(catalog: Catalog, key: string, model: string)
    ensures Matches(catalog, key, model) <==> Alike(catalog, key, model)
  {
    ContainsIsOccurs(catalog.lower(model), key);
    ContainsIsOccurs(key, catalog.lower(model));
    hide Contains, Occurs;
  }

  /** Remote prices go before bundled ones in a scan: nothing is answered only if no key of either is alike. */
  lemma ScanExactly(catalog: Catalog, remote: Table, model: string, answer: Option<ModelCost>)
    ensures ScanMayAnswer(catalog, remote, model, answer) <==>
              if exists key :: key in remote && Alike(catalog, key, model) then
                exists key :: key in remote && Alike(catalog, key, model) && answer == Some(remote[key])
              else if exists key :: key in catalog.bundled && Alike(catalog, key, model) then
                exists key :: && key in catalog.bundled && Alike(catalog, key, model)
                              && answer == Some(catalog.bundled[key])
              else answer == None
  {
    hide Matches, Alike;
    forall key ensures Matches(catalog, key, model) <==> Alike(catalog, key, model) {
      MatchesExactly(catalog, key, model);
    }
  }

  /** And in the exact lookup that goes before the scan. */
  lemma AnswerExactly(catalog: Catalog, remote: Table, model: string, answer: Option<ModelCost>)
    ensures MayAnswer(catalog, remote, model, answer) <==>
              if model in remote then answer == Some(remote[model])
              else if model in catalog.bundled then answer == Some(catalog.bundled[model])
              else ScanMayAnswer(catalog, remote, model, answer)
  {
    hide ScanMayAnswer;
  }

  // ---------------------------------------------------------------------
  // Atomic steps
  // ---------------------------------------------------------------------

  type Cache = map<string, Option<ModelCost>>

  /** A lookup that found no exact match: its model, the remote prices it loaded, and whether it has
      missed the cache and is scanning. */
  datatype Flight = Flight(model: string, snapshot: Table, missed: bool)

  /** Besides the shared tables: the lookups under way, and the refreshes that have yet to clear the cache. */
  datatype State = State(remote: Table, cache: Cache, flights: map<nat, Flight>, clears: nat)

  const START := State(map[], map[], map[], 0)

  datatype Event =
    | Load(call: nat, model: string)
    | Read(call: nat)
    | Write(call: nat, answer: Option<ModelCost>)
    | Store(pricing: Table)
    | Clear

  ghost predicate Enabled(catalog: Catalog, s: State, e: Event) {
    match e
    case Load(call, _) => call !in s.flights
    case Read(call) => call in s.flights && !s.flights[call].missed
    case Write(call, answer) =>
      && call in s.flights && s.flights[call].missed
      && ScanMayAnswer(catalog, s.flights[call].snapshot, s.flights[call].model, answer)
    case Store(_) => true
    case Clear => s.clears > 0
  }

  ghost function Next(catalog: Catalog, s: State, e: Event): State
    requires Enabled(catalog, s, e)
  {
    match e
    case Load(call, model) =>
      if Exact(catalog, s.remote, model).Some? then s
      else s.(flights := s.flights[call := Flight(model, s.remote, false)])
    case Read(call) =>
      var flight := s.flights[call];
      if flight.model in s.cache then s.(flights := s.flights - {call})
      else s.(flights := s.flights[call := flight.(missed := true)])
    case Write(call, answer) =>
      s.(cache := s.cache[s.flights[call].model := answer], flights := s.flights - {call})
    case Store(pricing) => s.(remote := pricing, clears := s.clears + 1)
    case Clear => s.(cache := map[], clears := s.clears - 1)
  }

  /** What the event answers its lookup, if it ends one. */
  ghost function Answered(catalog: Catalog, s: State, e: Event): Option<Option<ModelCost>>
    requires Enabled(catalog, s, e)
  {
    match e
    case Load(_, model) =>
      var exact := Exact(catalog, s.remote, model);
      if exact.Some? then Some(exact) else None
    case Read(call) =>
      if s.flights[call].model in s.cache then Some(s.cache[s.flights[call].model]) else None
    case Write(_, answer) => Some(answer)
    case _ => None
  }

  class PriceStore {
    const catalog: Catalog
    var remote: Table
    var cache: Cache
    var flights: map<nat, Flight>
    var clears: nat

    function Now(): State
      reads this
    {
      State(remote, cache, flights, clears)
    }

    constructor (catalog: Catalog)
      ensures this.catalog == catalog && Now() == START
    {
      this.catalog := catalog;
      remote, cache, flights, clears := map[], map[], map[], 0;
    }

    /** The exact matches, on the remote prices of this moment. */
    method LoadPrices(call: nat, model: string) returns (answer: Option<Option<ModelCost>>)
      requires Enabled(catalog, Now(), Load(call, model))
      modifies this
      ensures model in old(remote) ==> answer == Some(Some(old(remote)[model]))
      ensures model !in old(remote) && model in catalog.bundled ==> answer == Some(Some(catalog.bundled[model]))
      ensures model !in old(remote) && model !in catalog.bundled ==>
                answer == None && flights == old(flights)[call := Flight(model, old(remote), false)]
      ensures answer == Answered(catalog, old(Now()), Load(call, model))
      ensures Now() == Next(catalog, old(Now()), Load(call, model))
    {
      if model in remote { return Some(Some(remote[model])); }
      if model in catalog.bundled { return Some(Some(catalog.bundled[model])); }
      flights := flights[call := Flight(model, remote, false)];
      return None;
    }

    /** Under the read lock. */
    method ReadCache(call: nat) returns (answer: Option<Option<ModelCost>>)
      requires Enabled(catalog, Now(), Read(call))
      modifies this
      ensures var model := old(flights)[call].model;
              answer == if model in old(cache) then Some(old(cache)[model]) else None
      ensures answer == Answered(catalog, old(Now()), Read(call))
      ensures Now() == Next(catalog, old(Now()), Read(call))
    {
      var flight := flights[call];
      if flight.model in cache {
        answer := Some(cache[flight.model]);
        flights := flights - {call};
      } else {
        flights := flights[call := flight.(missed := true)];
        answer := None;
      }
    }

    /** Scans the prices the lookup loaded, then the bundled ones, and remembers the outcome, a miss too. */
    method ScanAndWrite(call: nat) returns (answer: Option<ModelCost>)
      requires call in flights && flights[call].missed
      modifies this
      ensures Enabled(catalog, old(Now()), Write(call, answer))
      ensures Now() == Next(catalog, old(Now()), Write(call, answer))
    {
      var flight := flights[call];
      answer := Scan(catalog, flight.snapshot, flight.model);
      if answer.None? { answer := Scan(catalog, catalog.bundled, flight.model); }
      cache := cache[flight.model := answer];
      flights := flights - {call};
    }

    /** A successful fetch stores its prices ... */
    method StoreRemotePricing(pricing: Table)
      modifies this
      ensures Now() == Next(catalog, old(Now()), Store(pricing))
    {
      remote := pricing;
      clears := clears + 1;
    }

    /** ... and then clears the cache. */
    method ClearCache()
      requires Enabled(catalog, Now(), Clear)
      modifies this
      ensures Now() == Next(catalog, old(Now()), Clear)
    {
      cache := map[];
      clears := clears - 1;
    }
  }

  /** Goes through a table in its own order until a key matches. */
  method Scan(catalog: Catalog, table: Table, model: string) returns (answer: Option<ModelCost>)
    ensures answer.None? <==> !AnyMatch(catalog, table, model)
    ensures answer.Some? ==> FromTable(catalog, table, model, answer.value)
  {
    var left := table.Keys;
    while left != {}
      invariant left <= table.Keys
      invariant forall key :: key in table && key !in left ==> !Matches(catalog, key, model)
      decreases |left|
    {
      var key :| key in left;
      if Matches(catalog, key, model) { return Some(table[key]); }
      left := left - {key};
    }
    return None;
  }

  // ---------------------------------------------------------------------
  // Every run
  // ---------------------------------------------------------------------

  ghost predicate Leads(catalog: Catalog, s: State, e: Event, s': State) {
    Enabled(catalog, s, e) && s' == Next(catalog, s, e)
  }

  /** Any interleaving of any lookups and refreshes: the events, and the states before and after them. */
  datatype Run = Run(catalog: Catalog, states: seq<State>, events: seq<Event>)
  {
    ghost predicate Shaped() { |states| == |events| + 1 && states[0] == START }

    ghost predicate Valid() {
      && Shaped()
      && forall i :: 0 <= i < |events| ==> Leads(catalog, states[i], events[i], states[i + 1])
    }

    /** What event `i` answers its lookup, if it ends one. */
    ghost function Answer(i: nat): Option<Option<ModelCost>>
      requires Valid() && i < |events|
    {
      assert Leads(catalog, states[i], events[i], states[i + 1]);
      Answered(catalog, states[i], events[i])
    }
  }

  /** Event `i` is part of a lookup of the model past its exact matches. */
  ghost predicate LooksUp(r: Run, i: nat, model: string) {
    && r.Shaped() && i < |r.events| && (r.events[i].Read? || r.events[i].Write?)
    && var flights := r.states[i].flights;
       r.events[i].call in flights && flights[r.events[i].call].model == model
  }

  ghost predicate Writes(r: Run, i: nat, model: string) {
    i < |r.events| && r.events[i].Write? && LooksUp(r, i, model)
  }

  /** Event `l` is the load of the lookup that event `i` belongs to. */
  ghost predicate IsLoadOf(r: Run, l: nat, i: nat) {
    && l < i < |r.events| && r.events[l].Load? && (r.events[i].Read? || r.events[i].Write?)
    && r.events[l].call == r.events[i].call
    && forall k :: l < k < i ==> !(r.events[k].Load? && r.events[k].call == r.events[i].call)
  }

  /** A refresh stored its prices at some event from `i` up to but not including `j`. */
  ghost predicate StoreIn(r: Run, i: nat, j: nat) {
    exists k :: i <= k < j && k < |r.events| && r.events[k].Store?
  }

  // ---------------------------------------------------------------------
  // What a scan works on
  // ---------------------------------------------------------------------

  lemma RemoteStep(catalog: Catalog, s: State, e: Event)
    requires Enabled(catalog, s, e) && !e.Store?
    ensures Next(catalog, s, e).remote == s.remote
  {
  }

  lemma {:induction false} RemoteStays(r: Run, i: nat, j: nat)
    requires r.Valid() && i <= j <= |r.events| && !StoreIn(r, i, j)
    ensures r.states[i].remote == r.states[j].remote
    decreases j
  {
    hide Enabled, Next;
    if i < j {
      RemoteStays(r, i, j - 1);
      assert Leads(r.catalog, r.states[j - 1], r.events[j - 1], r.states[j]);
      assert !r.events[j - 1].Store?;
      RemoteStep(r.catalog, r.states[j - 1], r.events[j - 1]);
    }
  }

  /** A load is answered from the prices of the last store before it whenever they hold the model, and else from
      the bundled ones whenever they do. */
  lemma LoadAnswersLastStore(r: Run, t: nat, i: nat)
    requires r.Valid() && t < i < |r.events| && r.events[t].Store? && r.events[i].Load? && !StoreIn(r, t + 1, i)
    ensures var prices, model := r.events[t].pricing, r.events[i].model;
            && (model in prices ==> r.Answer(i) == Some(Some(prices[model])))
            && (model !in prices && model in r.catalog.bundled ==>
                 r.Answer(i) == Some(Some(r.catalog.bundled[model])))
            && (model !in prices && model !in r.catalog.bundled ==> r.Answer(i) == None)
  {
    RemoteStays(r, t + 1, i);
    assert Leads(r.catalog, r.states[t], r.events[t], r.states[t + 1]);
    assert Leads(r.catalog, r.states[i], r.events[i], r.states[i + 1]);
    hide ScanMayAnswer, StoreIn;
  }

  lemma FlightStep(catalog: Catalog, s: State, e: Event, call: nat)
    requires Enabled(catalog, s, e) && call in Next(catalog, s, e).flights
    ensures var flight := Next(catalog, s, e).flights[call];
            if e.Load? && e.call == call
            then flight == Flight(e.model, s.remote, false) && Exact(catalog, s.remote, e.model).None?
            else call in s.flights && flight.(missed := false) == s.flights[call].(missed := false)
  {
    hide Exact, ScanMayAnswer;
  }

  /** A lookup under way works on the remote prices of the moment it began. */
  lemma {:induction false} FlightHasLoad(r: Run, i: nat, call: nat) returns (l: nat)
    requires r.Valid() && i <= |r.events| && call in r.states[i].flights
    ensures l < i && r.events[l].Load? && r.events[l].call == call
    ensures forall k :: l < k < i ==> !(r.events[k].Load? && r.events[k].call == call)
    ensures var flight := r.states[i].flights[call];
            && flight.model == r.events[l].model && flight.snapshot == r.states[l].remote
            && Exact(r.catalog, flight.snapshot, flight.model).None?
  {
    hide Enabled, Next, Exact;
    assert Leads(r.catalog, r.states[i - 1], r.events[i - 1], r.states[i]);
    FlightStep(r.catalog, r.states[i - 1], r.events[i - 1], call);
    if r.events[i - 1].Load? && r.events[i - 1].call == call {
      l := i - 1;
    } else {
      l := FlightHasLoad(r, i - 1, call);
    }
  }

  /** In every run a written answer is what a lookup without a cache could answer on the prices in use
      when its lookup began. */
  lemma WriteFitsItsLoad(r: Run, i: nat, model: string) returns (l: nat)
    requires r.Valid() && Writes(r, i, model)
    ensures IsLoadOf(r, l, i) && r.events[l].model == model
    ensures Exact(r.catalog, r.states[l].remote, model).None?
    ensures ScanMayAnswer(r.catalog, r.states[l].remote, model, r.events[i].answer)
  {
    hide ScanMayAnswer, Exact;
    l := FlightHasLoad(r, i, r.events[i].call);
    assert Leads(r.catalog, r.states[i], r.events[i], r.states[i + 1]);
  }

  // ---------------------------------------------------------------------
  // What the cache holds
  // ---------------------------------------------------------------------

  /** The answer written for the model at `w` has been neither overwritten nor cleared before event `i`. */
  ghost predicate Survives(r: Run, w: nat, i: nat, model: string) {
    && w < i <= |r.events| && Writes(r, w, model)
    && forall k :: w < k < i ==> !r.events[k].Clear? && !Writes(r, k, model)
  }

  lemma EntryStep(r: Run, i: nat, model: string)
    requires r.Valid() && i < |r.events|
    ensures var before, after := r.states[i].cache, r.states[i + 1].cache;
            if Writes(r, i, model) then model in after && after[model] == r.events[i].answer
            else if r.events[i].Clear? then model !in after
            else (model in after <==> model in before) && (model in before ==> after[model] == before[model])
  {
    assert Leads(r.catalog, r.states[i], r.events[i], r.states[i + 1]);
    hide Exact, ScanMayAnswer;
  }

  lemma {:induction false} EntryHasWrite(r: Run, i: nat, model: string) returns (w: nat)
    requires r.Valid() && i <= |r.events| && model in r.states[i].cache
    ensures Survives(r, w, i, model)
    ensures r.states[i].cache[model] == r.events[w].answer
  {
    hide Writes;
    EntryStep(r, i - 1, model);
    if Writes(r, i - 1, model) {
      w := i - 1;
      assert r.events[w].Write? by { WritesIsWrite(r, w, model); }
    } else {
      w := EntryHasWrite(r, i - 1, model);
      assert r.events[w].Write? by { WritesIsWrite(r, w, model); }
    }
  }

  lemma WritesIsWrite(r: Run, i: nat, model: string)
    requires Writes(r, i, model)
    ensures i < |r.events| && r.events[i].Write?
  {
  }

  lemma {:induction false} SurvivorIsCached(r: Run, w: nat, i: nat, model: string)
    requires r.Valid() && Survives(r, w, i, model)
    ensures r.events[w].Write? && model in r.states[i].cache
    ensures r.states[i].cache[model] == r.events[w].answer
  {
    hide Writes;
    WritesIsWrite(r, w, model);
    EntryStep(r, i - 1, model);
    if w < i - 1 {
      SurvivorIsCached(r, w, i - 1, model);
    }
  }

  // ---------------------------------------------------------------------
  // When the cache fits the prices in use
  // ---------------------------------------------------------------------

  /** Every cached answer is one a scan could give for the prices in use now. */
  ghost predicate Coherent(catalog: Catalog, s: State) {
    forall model :: model in s.cache ==> ScanMayAnswer(catalog, s.remote, model, s.cache[model])
  }

  /** Every step but a store keeps the cache coherent, save for a write that no longer fits. */
  lemma StepCoherent(catalog: Catalog, s: State, e: Event)
    requires Enabled(catalog, s, e) && Coherent(catalog, s) && !e.Store?
    ensures Coherent(catalog, Next(catalog, s, e))
            <==> (e.Write? ==> ScanMayAnswer(catalog, s.remote, s.flights[e.call].model, e.answer))
  {
    hide Exact, ScanMayAnswer;
    var s' := Next(catalog, s, e);
    if e.Write? {
      assert s'.cache[s.flights[e.call].model] == e.answer;
    }
  }

  /** The write `w` of a lookup loaded at `l` survives until event `i`, a refresh stored prices after `l`,
      and the prices in use before `i` cannot give its answer. */
  ghost predicate StaleWrite(r: Run, l: nat, w: nat, i: nat, model: string)
    requires r.Shaped() && i <= |r.events|
  {
    && Survives(r, w, i, model) && IsLoadOf(r, l, w) && StoreIn(r, l, i)
    && !ScanMayAnswer(r.catalog, r.states[i].remote, model, r.events[w].answer)
  }

  /** At every moment of every run the cache fits the prices in use if and only if no surviving write of
      a lookup begun before a refresh stored them has an answer that they cannot give. */
  lemma CoherentExactly(r: Run, i: nat)
    requires r.Valid() && i <= |r.events|
    ensures Coherent(r.catalog, r.states[i])
            <==> forall l: nat, w: nat, model :: !StaleWrite(r, l, w, i, model)
  {
    hide ScanMayAnswer, StoreIn, IsLoadOf, Writes;
    var s := r.states[i];
    if Coherent(r.catalog, s) {
      forall l: nat, w: nat, model
        ensures !StaleWrite(r, l, w, i, model)
      {
        if StaleWrite(r, l, w, i, model) {
          SurvivorIsCached(r, w, i, model);
        }
      }
    } else {
      var model :| model in s.cache && !ScanMayAnswer(r.catalog, s.remote, model, s.cache[model]);
      var l, w := UnfitIsStale(r, i, model);
    }
  }

  /** An entry that does not fit was scanned from prices that have been replaced since. */
  lemma UnfitIsStale(r: Run, i: nat, model: string) returns (l: nat, w: nat)
    requires r.Valid() && i <= |r.events| && model in r.states[i].cache
    requires var s := r.states[i]; !ScanMayAnswer(r.catalog, s.remote, model, s.cache[model])
    ensures StaleWrite(r, l, w, i, model)
  {
    hide ScanMayAnswer, StoreIn, IsLoadOf, Exact, Writes;
    w := EntryHasWrite(r, i, model);
    l := WriteFitsItsLoad(r, w, model);
    if !StoreIn(r, l, i) {
      LoadIsEarlier(r, l, w);
      RemoteStays(r, l, i);
    }
  }

  lemma LoadIsEarlier(r: Run, l: nat, i: nat)
    requires IsLoadOf(r, l, i)
    ensures l < i
  {
  }

  // ---------------------------------------------------------------------
  // After the clearing
  // ---------------------------------------------------------------------

  lemma ClearsStep(catalog: Catalog, s: State, e: Event)
    requires Enabled(catalog, s, e) && !e.Clear?
    ensures Next(catalog, s, e).clears == s.clears + if e.Store? then 1 else 0
  {
  }

  /** Without a clear, every store leaves a refresh that has yet to clear. */
  lemma {:induction false} StoreWaitsForClear(r: Run, i: nat, j: nat)
    requires r.Valid() && i <= j <= |r.events| && StoreIn(r, i, j)
    requires forall k :: i <= k < j ==> !r.events[k].Clear?
    ensures r.states[j].clears > 0
    decreases j
  {
    hide Enabled, Next;
    assert Leads(r.catalog, r.states[j - 1], r.events[j - 1], r.states[j]);
    ClearsStep(r.catalog, r.states[j - 1], r.events[j - 1]);
    if !r.events[j - 1].Store? {
      StoreWaitsForClear(r, i, j - 1);
    }
  }

  /** Once every refresh has cleared the cache, only a write that came after a store which its own lookup
      had not seen can be stale: all others have been cleared away. */
  lemma SettledStaleWriteIsLate(r: Run, l: nat, w: nat, i: nat, model: string)
    requires r.Valid() && i <= |r.events| && r.states[i].clears == 0
    requires StaleWrite(r, l, w, i, model)
    ensures IsLoadOf(r, l, w) && StoreIn(r, l, w)
  {
    hide ScanMayAnswer, Writes;
    WritesIsWrite(r, w, model);
    if StoreIn(r, w, i) {
      StoreWaitsForClear(r, w, i);
    }
  }

  // ---------------------------------------------------------------------
  // What lookups are answered
  // ---------------------------------------------------------------------

  /** In every run a lookup that reads the cache is answered by the last surviving write; the answer is one
      that a lookup without a cache could give on the prices it began with if and only if they can give
      that write's answer, and so it is if no refresh came between the loads of the two. */
  lemma ReadAnswersWrite(r: Run, i: nat, model: string) returns (l: nat, w: nat, lw: nat)
    requires r.Valid() && i < |r.events| && r.events[i].Read? && LooksUp(r, i, model)
    requires r.Answer(i).Some?
    ensures IsLoadOf(r, l, i) && Survives(r, w, i, model) && IsLoadOf(r, lw, w)
    ensures r.Answer(i) == Some(r.events[w].answer)
    ensures MayAnswer(r.catalog, r.states[l].remote, model, r.events[w].answer)
            <==> ScanMayAnswer(r.catalog, r.states[l].remote, model, r.events[w].answer)
    ensures !StoreIn(r, lw, l) && !StoreIn(r, l, lw) ==>
              MayAnswer(r.catalog, r.states[l].remote, model, r.events[w].answer)
  {
    hide ScanMayAnswer, Exact, Writes, StoreIn;
    l := FlightHasLoad(r, i, r.events[i].call);
    w := EntryHasWrite(r, i, model);
    lw := WriteFitsItsLoad(r, w, model);
    LoadIsEarlier(r, lw, w);
    if lw <= l && !StoreIn(r, lw, l) {
      RemoteStays(r, lw, l);
    } else if l <= lw && !StoreIn(r, l, lw) {
      RemoteStays(r, l, lw);
    }
  }

  /** Refreshes begin while no lookup is under way, and no lookup begins before they have cleared the cache;
      lookups may overlap each other. */
  ghost predicate RefreshesAlone(r: Run)
    requires r.Shaped()
  {
    forall i :: 0 <= i < |r.events| ==>
      && (r.events[i].Store? ==> r.states[i].flights == map[])
      && (r.events[i].Load? ==> r.states[i].clears == 0)
  }

  /** While refreshes are alone: the lookups under way began on the prices in use, there are none between
      a store and its clear, and else the cache fits. */
  ghost predicate Settled(catalog: Catalog, s: State) {
    && (forall call :: call in s.flights ==> s.flights[call].snapshot == s.remote)
    && (s.clears > 0 ==> s.flights == map[])
    && (s.clears == 0 ==> Coherent(catalog, s))
  }

  lemma StepSettled(catalog: Catalog, s: State, e: Event)
    requires Enabled(catalog, s, e) && Settled(catalog, s)
    requires (e.Store? ==> s.flights == map[]) && (e.Load? ==> s.clears == 0)
    ensures Settled(catalog, Next(catalog, s, e))
  {
    hide Exact, ScanMayAnswer;
  }

  lemma {:induction false} RunSettled(r: Run, i: nat)
    requires r.Valid() && RefreshesAlone(r) && i <= |r.events|
    ensures Settled(r.catalog, r.states[i])
  {
    hide Enabled, Next, ScanMayAnswer;
    if i > 0 {
      RunSettled(r, i - 1);
      assert Leads(r.catalog, r.states[i - 1], r.events[i - 1], r.states[i]);
      StepSettled(r.catalog, r.states[i - 1], r.events[i - 1]);
    }
  }

  /** If refreshes do not overlap lookups, every answer is one a lookup could give without a cache for the
      prices in use at that moment, and a miss means that no key matches. */
  lemma CacheIsTransparent(r: Run, i: nat, model: string)
    requires r.Valid() && RefreshesAlone(r) && i < |r.events|
    requires LooksUp(r, i, model) || (r.events[i].Load? && r.events[i].model == model)
    requires r.Answer(i).Some?
    ensures var s := r.states[i];
            var answer := r.Answer(i).value;
            && MayAnswer(r.catalog, s.remote, model, answer)
            && (answer.None? ==>
                 !AnyMatch(r.catalog, s.remote, model) && !AnyMatch(r.catalog, r.catalog.bundled, model))
  {
    hide AnyMatch, FromTable, Exact, StoreIn, IsLoadOf;
    RunSettled(r, i);
    assert Leads(r.catalog, r.states[i], r.events[i], r.states[i + 1]);
    if !r.events[i].Load? {
      var l := FlightHasLoad(r, i, r.events[i].call);
    }
  }

  /** The model is remembered and no lookup is scanning for it. */
  ghost predicate Remembered(s: State, model: string) {
    && model in s.cache
    && forall call :: call in s.flights && s.flights[call].model == model ==> !s.flights[call].missed
  }

  lemma StepRemembers(catalog: Catalog, s: State, e: Event, model: string)
    requires Enabled(catalog, s, e) && Remembered(s, model) && !e.Clear?
    ensures Remembered(Next(catalog, s, e), model) && Next(catalog, s, e).cache[model] == s.cache[model]
  {
    hide Exact, ScanMayAnswer;
  }

  lemma {:induction false} StaysRemembered(r: Run, i: nat, j: nat, model: string)
    requires r.Valid() && i <= j <= |r.events| && Remembered(r.states[i], model)
    requires forall k :: i <= k < j ==> !r.events[k].Clear?
    ensures Remembered(r.states[j], model)
    ensures r.states[j].cache[model] == r.states[i].cache[model]
    decreases j
  {
    hide Enabled, Next, Remembered;
    RememberedIsCached(r.states[i], model);
    if i < j {
      StaysRemembered(r, i, j - 1, model);
      assert Leads(r.catalog, r.states[j - 1], r.events[j - 1], r.states[j]);
      StepRemembers(r.catalog, r.states[j - 1], r.events[j - 1], model);
    }
  }

  lemma RememberedIsCached(s: State, model: string)
    requires Remembered(s, model)
    ensures model in s.cache
  {
  }

  /** Although a scan may answer any of several prices and refreshes may store others meanwhile: once a lookup
      is answered from the cache or by its scan and no other lookup is scanning for the model, every lookup
      that reaches the cache before it is next cleared has the same answer. */
  lemma PriceIsStable(r: Run, i: nat, j: nat, model: string)
    requires r.Valid() && i < j < |r.events|
    requires LooksUp(r, i, model) && r.Answer(i).Some?
    requires var flights := r.states[i + 1].flights;
             forall call :: call in flights && flights[call].model == model ==> !flights[call].missed
    requires forall k :: i < k < j ==> !r.events[k].Clear?
    requires LooksUp(r, j, model)
    ensures r.Answer(j)
            == r.Answer(i)
  {
    hide Exact, ScanMayAnswer;
    assert Leads(r.catalog, r.states[i], r.events[i], r.states[i + 1]);
    assert Leads(r.catalog, r.states[j], r.events[j], r.states[j + 1]);
    StaysRemembered(r, i + 1, j, model);
  }

  // ---------------------------------------------------------------------
  // Two runs that go wrong
  // ---------------------------------------------------------------------

  /** A lookup scans the old prices while a refresh stores new ones and clears the cache, and only then
      writes: a later lookup, begun after the refresh is over, is told the old answer, whatever the new prices
      are. The cache fits them only if they can give that answer too. */
  lemma LateWriteIsStale(catalog: Catalog, first: Table, second: Table, model: string, answer: Option<ModelCost>)
    returns (r: Run)
    requires Exact(catalog, first, model).None? && Exact(catalog, second, model).None?
    requires ScanMayAnswer(catalog, first, model, answer)
    ensures r.Valid() && r.catalog == catalog
    ensures r.events == [Store(first), Clear, Load(0, model), Read(0), Store(second), Clear,
                         Write(0, answer), Load(1, model), Read(1)]
    ensures r.states[7] == State(second, map[model := answer], map[], 0)
    ensures Coherent(catalog, r.states[7]) <==> MayAnswer(catalog, second, model, answer)
    ensures r.Answer(8) == Some(answer)
  {
    hide Exact, ScanMayAnswer;
    var events := [Store(first), Clear, Load(0, model), Read(0), Store(second), Clear,
                   Write(0, answer), Load(1, model), Read(1)];
    var missed, cache := map[0 := Flight(model, first, true)], map[model := answer];
    var states := [START,
                   State(first, map[], map[], 1),
                   State(first, map[], map[], 0),
                   State(first, map[], map[0 := Flight(model, first, false)], 0),
                   State(first, map[], missed, 0),
                   State(second, map[], missed, 1),
                   State(second, map[], missed, 0),
                   State(second, cache, map[], 0),
                   State(second, cache, map[1 := Flight(model, second, false)], 0),
                   State(second, cache, map[], 0)];
    assert cache[model] == answer;
    forall i | 0 <= i < |events| ensures Leads(catalog, states[i], events[i], states[i + 1]) {
    }
    r := Run(catalog, states, events);
  }

  /** A lookup that begins after a refresh has stored its prices but reads before the cache is cleared is
      told the old answer too. */
  lemma EarlyReadIsStale(catalog: Catalog, first: Table, second: Table, model: string, answer: Option<ModelCost>)
    returns (r: Run)
    requires Exact(catalog, first, model).None? && Exact(catalog, second, model).None?
    requires ScanMayAnswer(catalog, first, model, answer)
    ensures r.Valid() && r.catalog == catalog
    ensures r.events == [Store(first), Clear, Load(0, model), Read(0), Write(0, answer), Store(second),
                         Load(1, model), Read(1)]
    ensures r.states[6] == State(second, map[model := answer], map[], 1)
    ensures r.Answer(7) == Some(answer)
  {
    hide Exact, ScanMayAnswer;
    var events := [Store(first), Clear, Load(0, model), Read(0), Write(0, answer), Store(second),
                   Load(1, model), Read(1)];
    var cache := map[model := answer];
    var states := [START,
                   State(first, map[], map[], 1),
                   State(first, map[], map[], 0),
                   State(first, map[], map[0 := Flight(model, first, false)], 0),
                   State(first, map[], map[0 := Flight(model, first, true)], 0),
                   State(first, cache, map[], 0),
                   State(second, cache, map[], 1),
                   State(second, cache, map[1 := Flight(model, second, false)], 1),
                   State(second, cache, map[], 1)];
    assert cache[model] == answer;
    forall i | 0 <= i < |events| ensures Leads(catalog, states[i], events[i], states[i + 1]) {
    }
    r := Run(catalog, states, events);
  }

  /** Both happen to real prices: the second refresh may have dropped the only key that matched. */
  lemma DroppedKeyIsStale(catalog: Catalog, model: string, key: string, price: ModelCost)
    requires Matches(catalog, key, model) && key != model
    requires model !in catalog.bundled && !AnyMatch(catalog, catalog.bundled, model)
    ensures Exact(catalog, map[key := price], model).None? && Exact(catalog, map[], model).None?
    ensures ScanMayAnswer(catalog, map[key := price], model, Some(price))
    ensures !MayAnswer(catalog, map[], model, Some(price))
  {
    var table := map[key := price];
    assert key in table && table[key] == price;
    assert AnyMatch(catalog, table, model) && FromTable(catalog, table, model, price);
  }
}
