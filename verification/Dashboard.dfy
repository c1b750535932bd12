/** The dashboard's prediction of the account the load balancer will use next, and
    exactly when it is right. */
module Dashboard {
  import opened Collections
  import opened Eligibility
  import opened LoadBalancer
  import opened Routing

  const SESSION_DURATION_MS := 5 * 60 * 60 * 1000

  // ---------------------------------------------------------------------
  // The prediction
  // ---------------------------------------------------------------------

  /** Compares the recorded reset as it stands, without bringing seconds to milliseconds. */
  function FallbackGuess(scene: Scene): Account -> bool {
    (a: Account) => a.autoFallback && a.rateLimitReset.Some?
      && a.rateLimitReset.value < scene.now - RESET_DEBOUNCE_MS && scene.available(a)
  }

  /** Also counts "claude-oauth" accounts and sessions that start in the future, and only
      looks at available accounts. */
  function SessionGuess(scene: Scene): Account -> bool {
    (a: Account) => AnthropicFamily(a.provider) && a.sessionStart.Some?
      && scene.now - a.sessionStart.value < SESSION_DURATION_MS && scene.available(a)
  }

  function PredictedAccount(scene: Scene): Option<Account> {
    var fallback := StableSort(ByPriority(), Filter(FallbackGuess(scene), scene.accounts));
    if fallback != [] then Some(fallback[0])
    else
      var active := Filter(SessionGuess(scene), scene.accounts);
      if active != [] then Some(LatestSession(active))
      else if scene.Ranked() != [] then Some(scene.Ranked()[0]) else None
  }

  function PredictNextAccount(accounts: seq<Account>, usage: Usage, now: int): Option<string> {
    var a := PredictedAccount(SceneOf(accounts, usage, now));
    if a.Some? then Some(a.value.id) else None
  }

  // ---------------------------------------------------------------------
  // The prediction, on the fields of accounts
  // ---------------------------------------------------------------------

  /** With auto-fallback, usable, and a recorded reset, taken for milliseconds, more than fifteen seconds back. */
  ghost predicate GuessedFallback(a: Account, usage: Usage, now: int) {
    && a.autoFallback && a.rateLimitReset.Some? && a.rateLimitReset.value < now - 15_000
    && Routable(a, usage, now)
  }

  /** Of the Anthropic family, usable, and with a session that began less than five hours ago, or will yet. */
  ghost predicate GuessedSession(a: Account, usage: Usage, now: int) {
    && (a.provider == "anthropic" || a.provider == "claude-oauth")
    && a.sessionStart.Some? && now - a.sessionStart.value < 5 * 3_600_000
    && Routable(a, usage, now)
  }

  ghost predicate FirstGuessed(accounts: seq<Account>, usage: Usage, now: int, k: nat) {
    && k < |accounts| && GuessedFallback(accounts[k], usage, now)
    && forall j :: 0 <= j < |accounts| && GuessedFallback(accounts[j], usage, now) ==>
         accounts[k].priority < accounts[j].priority || (accounts[k].priority == accounts[j].priority && k <= j)
  }

  ghost predicate LatestGuessed(accounts: seq<Account>, usage: Usage, now: int, k: nat) {
    && k < |accounts| && GuessedSession(accounts[k], usage, now)
    && forall j :: 0 <= j < |accounts| && GuessedSession(accounts[j], usage, now) ==>
         var (s, t) := (accounts[j].sessionStart.value, accounts[k].sessionStart.value);
         s < t || (s == t && j <= k)
  }

  /** Who is predicted: the first guessed fallback account of the best priority; else the account with the
      latest guessed session; else the first usable one in routing order; nobody exactly if none is usable. */
  lemma PredictionOnFields(accounts: seq<Account>, usage: Usage, now: int) returns (k: nat)
    ensures PredictNextAccount(accounts, usage, now).None? <==>
              forall a :: a in accounts ==> !Routable(a, usage, now)
    ensures PredictNextAccount(accounts, usage, now).Some? ==>
              && k < |accounts| && PredictNextAccount(accounts, usage, now) == Some(accounts[k].id)
              && if exists a :: a in accounts && GuessedFallback(a, usage, now) then
                   FirstGuessed(accounts, usage, now, k)
                 else if exists a :: a in accounts && GuessedSession(a, usage, now) then
                   LatestGuessed(accounts, usage, now, k)
                 else FirstInOrder(accounts, usage, now, k)
  {
    var scene := SceneOf(accounts, usage, now);
    UsageOrderIsPreorder(usage);
    PredictedIsAvailable(scene);
    SomeUsable(accounts, usage, now);
    PredictedIsGuess(scene);
    GuessesOnFields(scene, usage);
    hide Filter, StableSort, Routable, LatestSession, GuessedFallback, GuessedSession, FirstGuessed, LatestGuessed,
         FirstInOrder, FallbackGuess, SessionGuess, TotalPreorder, UsageOrder;
    k := 0;
    if exists a :: a in accounts && GuessedFallback(a, usage, now) {
      k := GuessedFirst(accounts, usage, now);
    } else if exists a :: a in accounts && GuessedSession(a, usage, now) {
      FilterNone(FallbackGuess(scene), accounts);
      SortOfNone();
      k := GuessedLatest(accounts, usage, now);
    } else if scene.Ranked() != [] {
      k := RankedFirst(accounts, usage, now);
    }
  }

  lemma SortOfNone()
    ensures StableSort(ByPriority(), []) == []
  {
  }

  lemma SomeUsable(accounts: seq<Account>, usage: Usage, now: int)
    ensures Filter(SceneOf(accounts, usage, now).available, accounts) == []
            <==> forall a :: a in accounts ==> !Routable(a, usage, now)
  {
    hide Routable;
    var kept := Filter(SceneOf(accounts, usage, now).available, accounts);
    if kept != [] {
      assert kept[0] in kept;
    }
  }

  lemma GuessesOnFields(scene: Scene, usage: Usage)
    requires scene == SceneOf(scene.accounts, usage, scene.now)
    ensures forall a :: FallbackGuess(scene)(a) <==> GuessedFallback(a, usage, scene.now)
    ensures forall a :: SessionGuess(scene)(a) <==> GuessedSession(a, usage, scene.now)
  {
    hide Routable;
    assert SESSION_DURATION_MS == 5 * 3_600_000;
    forall a ensures SessionGuess(scene)(a) <==> GuessedSession(a, usage, scene.now) {
      assert scene.available(a) <==> Routable(a, usage, scene.now);
    }
  }

  lemma GuessedFirst(accounts: seq<Account>, usage: Usage, now: int) returns (k: nat)
    requires exists a :: a in accounts && GuessedFallback(a, usage, now)
    ensures k < |accounts| && FirstGuessed(accounts, usage, now, k)
    ensures PredictedAccount(SceneOf(accounts, usage, now)) == Some(accounts[k])
  {
    var scene := SceneOf(accounts, usage, now);
    GuessesOnFields(scene, usage);
    assert TotalPreorder(ByPriority());
    hide Filter, StableSort, FallbackGuess, GuessedFallback, FirstGuessed, Routable;
    var p := FallbackGuess(scene);
    k := SortFirst(ByPriority(), p, accounts);
    GuessedFirstBy(p, accounts, usage, now, k);
  }

  lemma GuessedFirstBy(p: Account -> bool, accounts: seq<Account>, usage: Usage, now: int, k: nat)
    requires (forall a :: p(a) <==> GuessedFallback(a, usage, now)) && FirstAt(ByPriority(), p, accounts, k)
    ensures FirstGuessed(accounts, usage, now, k)
  {
    hide GuessedFallback;
  }

  lemma GuessedLatest(accounts: seq<Account>, usage: Usage, now: int) returns (k: nat)
    requires exists a :: a in accounts && GuessedSession(a, usage, now)
    ensures k < |accounts| && LatestGuessed(accounts, usage, now, k)
    ensures LatestSession(Filter(SessionGuess(SceneOf(accounts, usage, now)), accounts)) == accounts[k]
  {
    var scene := SceneOf(accounts, usage, now);
    GuessesOnFields(scene, usage);
    hide Filter, LatestSession, SessionGuess, GuessedSession, LatestGuessed, Routable;
    var p := SessionGuess(scene);
    k := LatestHasPlace(p, accounts);
    GuessedLatestBy(p, accounts, usage, now, k);
  }

  lemma GuessedLatestBy(p: Account -> bool, accounts: seq<Account>, usage: Usage, now: int, k: nat)
    requires (forall a :: p(a) <==> GuessedSession(a, usage, now)) && LatestAt(p, accounts, k)
    ensures LatestGuessed(accounts, usage, now, k)
  {
    hide Routable;
  }

  // ---------------------------------------------------------------------
  // When it is right
  // ---------------------------------------------------------------------

  function HeadId(scene: Scene, duration: int, counter: nat): Option<string> {
    var c := ChooseUnforced(scene, duration, counter);
    if c.Chosen? then Some(c.account.id) else None
  }

  /** The head of a default selection. */
  lemma HeadIdIsHead(scene: Scene, meta: SelectionMeta, duration: int, counter: nat)
    requires meta.forceAccountId.None?
    ensures var s := Selected(scene, meta, duration, counter).accounts;
            HeadId(scene, duration, counter) == if s == [] then None else Some(s[0].id)
  {
  }

  ghost predicate PredictionRight(scene: Scene, duration: int, counter: nat) {
    (if PredictedAccount(scene).Some? then Some(PredictedAccount(scene).value.id) else None)
    == HeadId(scene, duration, counter)
  }

  /** The account's session is active and no active session starts later. */
  ghost predicate IsLatestActive(scene: Scene, duration: int, a: Account) {
    exists k: nat :: LatestAt(scene.SessionTest(duration), scene.accounts, k) && scene.accounts[k] == a
  }

  /** Routing goes by sessions: that account is available. */
  ghost predicate SessionCounts(scene: Scene, duration: int) {
    exists a :: IsLatestActive(scene, duration, a) && scene.available(a)
  }

  /** The available accounts of the same priority. */
  function Peer(scene: Scene, priority: int): Account -> bool {
    (a: Account) => scene.available(a) && a.priority == priority
  }

  function Peers(scene: Scene, priority: int): seq<Account> { Filter(Peer(scene, priority), scene.accounts) }

  /** How many turns lie between the first of the peers and the one whose turn it is. */
  function Turn(scene: Scene, priority: int, counter: nat): nat {
    if TakesTurns(Peers(scene, priority)) then counter % |Peers(scene, priority)| else 0
  }

  /** The account is available, none available has a better priority, and it is preceded by as many
      available accounts as there are turns before its own: none, unless its peers take turns. */
  ghost predicate ItsTurn(scene: Scene, counter: nat, x: Account) {
    && scene.available(x) && (forall a :: a in scene.accounts && scene.available(a) ==> x.priority <= a.priority)
    && exists k: nat :: k < |scene.accounts| && scene.accounts[k] == x
                        && Place(scene.order, scene.available, scene.accounts, k) == Turn(scene, x.priority, counter)
  }

  /** What must hold for the prediction `x` to be right, as tests on the accounts. A guessed fallback account
      must have recovered in milliseconds too, or else nobody has and `x` comes first by the later rules. Where
      routing goes by sessions, a guessed session must be one the load balancer counts as active, and anyone
      else must have the latest; and where it does not, it must be the turn of `x`. */
  ghost predicate Mirrors(scene: Scene, duration: int, counter: nat) {
    var predicted := PredictedAccount(scene);
    predicted.None? ||
    var x := predicted.value;
    if exists a :: a in scene.accounts && FallbackGuess(scene)(a) then
      WindowHasReset(x, scene.now) ||
      ((forall a :: a in scene.accounts ==> !scene.FallbackTest()(a)) && ComesLater(scene, duration, counter, x))
    else if SessionCounts(scene, duration) && exists a :: a in scene.accounts && SessionGuess(scene)(a) then
      HasActiveSession(x, duration, scene.now)
    else if SessionCounts(scene, duration) then
      IsLatestActive(scene, duration, x)
    else
      ItsTurn(scene, counter, x)
  }

  /** Without fallback accounts `x` comes first. */
  ghost predicate ComesLater(scene: Scene, duration: int, counter: nat, x: Account) {
    if SessionCounts(scene, duration) then IsLatestActive(scene, duration, x) else ItsTurn(scene, counter, x)
  }

  /** The choice among the tiers, and among sessions and tiers. */
  function TierChoice(scene: Scene, counter: nat): Option<Account> {
    var tier := scene.TopTier();
    if tier == [] then None else Some(if TakesTurns(tier) then tier[counter % |tier|] else tier[0])
  }

  function LaterChoice(scene: Scene, duration: int, counter: nat): Option<Account> {
    if scene.ActiveAccount(duration).Some? then scene.ActiveAccount(duration) else TierChoice(scene, counter)
  }

  // ---------------------------------------------------------------------
  // Fallback candidates
  // ---------------------------------------------------------------------

  function Recovered(now: int): Account -> bool { (a: Account) => WindowHasReset(a, now) }

  /** The recovered fallback accounts are the guesses that have recovered in milliseconds. */
  lemma FallbacksAmongGuesses(scene: Scene)
    requires scene.now >= RESET_DEBOUNCE_MS
    ensures scene.Fallbacks() == Filter(Recovered(scene.now), Filter(FallbackGuess(scene), scene.accounts))
  {
    FilterTwice(FallbackGuess(scene), Recovered(scene.now), scene.FallbackTest(), scene.accounts);
  }

  lemma FallbackAgrees(scene: Scene)
    requires scene.now >= RESET_DEBOUNCE_MS
    requires Filter(FallbackGuess(scene), scene.accounts) != []
    ensures var x := StableSort(ByPriority(), Filter(FallbackGuess(scene), scene.accounts))[0];
            && x in scene.accounts
            && (WindowHasReset(x, scene.now) ==>
                 scene.Fallbacks() != [] && StableSort(ByPriority(), scene.Fallbacks())[0] == x)
            && (scene.Fallbacks() != [] ==>
                 WindowHasReset(StableSort(ByPriority(), scene.Fallbacks())[0], scene.now)
                 && StableSort(ByPriority(), scene.Fallbacks())[0] in scene.accounts)
  {
    var guesses := Filter(FallbackGuess(scene), scene.accounts);
    var sorted := StableSort(ByPriority(), guesses);
    assert TotalPreorder(ByPriority());
    FallbacksAmongGuesses(scene);
    SortFilterCommute(ByPriority(), Recovered(scene.now), guesses);
    StableSortMembers(ByPriority(), guesses);
    StableSortMembers(ByPriority(), scene.Fallbacks());
    assert sorted[0] in sorted;
    if scene.Fallbacks() != [] {
      assert StableSort(ByPriority(), scene.Fallbacks())[0] in StableSort(ByPriority(), scene.Fallbacks());
    }
  }

  // ---------------------------------------------------------------------
  // Sessions
  // ---------------------------------------------------------------------

  /** Two filters whose latest sessions pass both pick the same account. */
  lemma {:induction false} LatestAgree(p: Account -> bool, q: Account -> bool, s: seq<Account>)
    requires Filter(p, s) != [] && Filter(q, s) != []
    requires p(LatestSession(Filter(q, s))) && q(LatestSession(Filter(p, s)))
    ensures LatestSession(Filter(p, s)) == LatestSession(Filter(q, s))
  {
    var ps, qs := Filter(p, s[1..]), Filter(q, s[1..]);
    var y, z := LatestSession(Filter(p, s)), LatestSession(Filter(q, s));
    LatestOfCons(s[0], ps);
    LatestOfCons(s[0], qs);
    assert (z == s[0] || z in qs) && (y == s[0] || y in ps);
    if ps != [] && qs != [] && y == LatestSession(ps) && z == LatestSession(qs) {
      LatestAgree(p, q, s[1..]);
    }
  }

  lemma SessionAgrees(scene: Scene, duration: int)
    requires Filter(SessionGuess(scene), scene.accounts) != [] && scene.ActiveAccount(duration).Some?
    ensures var y := LatestSession(Filter(SessionGuess(scene), scene.accounts));
            HasActiveSession(y, duration, scene.now) <==> scene.ActiveAccount(duration).value == y
  {
    var y := LatestSession(Filter(SessionGuess(scene), scene.accounts));
    var z := scene.ActiveAccount(duration).value;
    if HasActiveSession(y, duration, scene.now) {
      assert y in scene.Sessions(duration);
      assert SessionGuess(scene)(z);
      LatestAgree(SessionGuess(scene), scene.SessionTest(duration), scene.accounts);
    }
  }

  /** The tests on accounts single out the account of the latest active session. */
  lemma ActiveIsLatest(scene: Scene, duration: int)
    ensures SessionCounts(scene, duration) <==> scene.ActiveAccount(duration).Some?
    ensures forall a :: scene.ActiveAccount(duration).Some? ==>
                          (IsLatestActive(scene, duration, a) <==> scene.ActiveAccount(duration) == Some(a))
  {
    hide Filter, LatestSession;
    var p, s := scene.SessionTest(duration), scene.accounts;
    if Filter(p, s) != [] {
      var k := LatestHasPlace(p, s);
      forall a ensures IsLatestActive(scene, duration, a) <==> a == LatestSession(Filter(p, s)) {
        if i: nat :| LatestAt(p, s, i) && s[i] == a {
          assert i == k;
        }
      }
    } else {
      assert forall a :: a in s ==> !p(a);
    }
  }

  // ---------------------------------------------------------------------
  // Turns
  // ---------------------------------------------------------------------

  function Within(priority: int): Account -> bool { (a: Account) => a.priority == priority }

  lemma {:induction false} FilterPrefix(priority: int, r: seq<Account>)
    requires forall i, j :: 0 <= i < j < |r| ==> r[i].priority <= r[j].priority
    requires forall i :: 0 <= i < |r| ==> priority <= r[i].priority
    ensures Filter(Within(priority), r) <= r
  {
    if r != [] {
      FilterPrefix(priority, r[1..]);
      if r[0].priority != priority {
        assert forall j :: 0 < j < |r| ==> r[0].priority <= r[j].priority;
        FilterNone(Within(priority), r);
      }
    }
  }

  /** The best tier is the front of the ranking, and holds the peers of its first. */
  lemma TierIsFront(scene: Scene)
    requires scene.WellOrdered() && scene.Ranked() != []
    ensures var tier, peers := scene.TopTier(), Peers(scene, scene.Ranked()[0].priority);
            && tier <= scene.Ranked() && |tier| == |peers| > 0 && (TakesTurns(tier) <==> TakesTurns(peers))
  {
    var ranked, kept := scene.Ranked(), Filter(scene.available, scene.accounts);
    var best := ranked[0].priority;
    hide Filter, StableSort;
    StableSortSorted(scene.order, kept);
    assert forall i, j :: 0 <= i < j < |ranked| ==> scene.order(ranked[i], ranked[j]);
    FilterPrefix(best, ranked);
    FilterExtensional(Within(best), (a: Account) => a.priority == best, ranked);
    SortFilterCommute(scene.order, Within(best), kept);
    FilterTwice(scene.available, Within(best), Peer(scene, best), scene.accounts);
    var tier, peers := scene.TopTier(), Peers(scene, best);
    assert tier == StableSort(scene.order, peers);
    assert ranked[0] in Filter(Within(best), ranked);
    StableSortMembers(scene.order, peers);
    SameTurns(tier, peers);
  }

  lemma SameTurns(s: seq<Account>, t: seq<Account>)
    requires |s| == |t| && forall a :: a in s <==> a in t
    ensures TakesTurns(s) <==> TakesTurns(t)
  {
    if TakesTurns(s) {
      forall k | 0 <= k < |t| ensures !RequiresSessionTracking(t[k].provider) { assert t[k] in s; }
    }
    if TakesTurns(t) {
      forall k | 0 <= k < |s| ensures !RequiresSessionTracking(s[k].provider) { assert s[k] in t; }
    }
  }

  lemma TierChoiceIsRanked(scene: Scene, counter: nat)
    requires scene.WellOrdered() && scene.Ranked() != []
    ensures var turn := Turn(scene, scene.Ranked()[0].priority, counter);
            turn < |scene.Ranked()| && TierChoice(scene, counter) == Some(scene.Ranked()[turn])
  {
    hide Filter, StableSort, TakesTurns;
    TierIsFront(scene);
  }

  /** The turn test singles out the choice among the tiers. */
  lemma TurnIsTierChoice(scene: Scene, counter: nat, x: Account)
    requires scene.WellOrdered() && scene.DistinctIds() && x in scene.accounts && scene.available(x)
    ensures ItsTurn(scene, counter, x) <==> TierChoice(scene, counter) == Some(x)
  {
    hide Filter, StableSort, Place, Turn, TierChoice, TotalPreorder;
    var ranked := scene.Ranked();
    assert x in Filter(scene.available, scene.accounts);
    assert ranked != [];
    BestIsFirst(scene);
    TierChoiceIsRanked(scene, counter);
    TierChoiceIsBest(scene, counter);
    RankedDistinct(scene);
    var turn := Turn(scene, ranked[0].priority, counter);
    var k: nat :| k < |scene.accounts| && scene.accounts[k] == x;
    assert forall i: nat :: i < |scene.accounts| && scene.accounts[i] == x ==> i == k;
    SortPlace(scene.order, scene.available, scene.accounts, k);
    var place := Place(scene.order, scene.available, scene.accounts, k);
    assert ranked[place] == x;
    assert ranked[turn] == x <==> place == turn;
    assert x.priority == ranked[0].priority <==>
      forall a :: a in scene.accounts && scene.available(a) ==> x.priority <= a.priority by {
      assert ranked[0] in ranked;
    }
  }

  lemma TierChoiceIsBest(scene: Scene, counter: nat)
    requires scene.WellOrdered() && TierChoice(scene, counter).Some?
    ensures scene.Ranked() != [] && TierChoice(scene, counter).value in scene.accounts
    ensures TierChoice(scene, counter).value.priority == scene.Ranked()[0].priority
  {
    TopTierMembers(scene);
    var tier := scene.TopTier();
    assert tier[0] in tier && tier[counter % |tier|] in tier;
  }

  // ---------------------------------------------------------------------
  // The theorem
  // ---------------------------------------------------------------------

  lemma SameIdSameAccount(scene: Scene, a: Account, b: Account)
    requires scene.DistinctIds() && a in scene.accounts && b in scene.accounts && a.id == b.id
    ensures a == b
  {
  }

  lemma LaterChoiceIsMember(scene: Scene, duration: int, counter: nat)
    requires scene.WellOrdered()
    ensures var c := LaterChoice(scene, duration, counter); c.Some? ==> c.value in scene.accounts
  {
    if scene.ActiveAccount(duration).None? && TierChoice(scene, counter).Some? {
      TierChoiceIsBest(scene, counter);
    }
  }

  /** Without fallback accounts the head is the later choice. */
  lemma HeadIsLaterChoice(scene: Scene, duration: int, counter: nat)
    requires scene.Fallbacks() == []
    ensures var c := LaterChoice(scene, duration, counter);
            HeadId(scene, duration, counter) == if c.Some? then Some(c.value.id) else None
  {
    hide Filter, StableSort;
  }

  lemma ComesLaterExactly(scene: Scene, duration: int, counter: nat, x: Account)
    requires scene.WellOrdered() && scene.DistinctIds() && scene.Fallbacks() == []
    requires x in scene.accounts && scene.available(x)
    ensures ComesLater(scene, duration, counter, x) <==> HeadId(scene, duration, counter) == Some(x.id)
  {
    HeadIsLaterChoice(scene, duration, counter);
    LaterChoiceIsMember(scene, duration, counter);
    ActiveIsLatest(scene, duration);
    TurnIsTierChoice(scene, counter, x);
    hide HeadId, TierChoice, IsLatestActive, SessionCounts, ItsTurn;
    var later := LaterChoice(scene, duration, counter);
    if later.Some? && later.value.id == x.id {
      SameIdSameAccount(scene, later.value, x);
    }
  }

  lemma PredictedIsAvailable(scene: Scene)
    requires scene.WellOrdered()
    ensures var p := PredictedAccount(scene);
            && (p.Some? ==> p.value in scene.accounts && scene.available(p.value))
            && (p.None? <==> Filter(scene.available, scene.accounts) == [])
  {
    hide Filter, StableSort, LatestSession;
    var guesses := Filter(FallbackGuess(scene), scene.accounts);
    StableSortMembers(ByPriority(), guesses);
    StableSortMembers(scene.order, Filter(scene.available, scene.accounts));
    if guesses != [] {
      assert StableSort(ByPriority(), guesses)[0] in StableSort(ByPriority(), guesses);
    } else if Filter(SessionGuess(scene), scene.accounts) == [] && scene.Ranked() != [] {
      assert scene.Ranked()[0] in scene.Ranked();
    }
  }

  /** The prediction names the account the load balancer puts first if and only if it passes these tests. */
  lemma PredictionExact(scene: Scene, duration: int, counter: nat)
    requires scene.WellOrdered() && scene.DistinctIds() && scene.now >= RESET_DEBOUNCE_MS
    ensures PredictionRight(scene, duration, counter) <==> Mirrors(scene, duration, counter)
  {
    hide Filter, StableSort, LatestSession, HeadId, ComesLater;
    PredictedIsAvailable(scene);
    if PredictedAccount(scene).None? {
      NobodyIsHead(scene, duration, counter);
    } else if a :| a in scene.accounts && FallbackGuess(scene)(a) {
      assert a in Filter(FallbackGuess(scene), scene.accounts);
      PredictionExactFallback(scene, duration, counter);
    } else {
      PredictionExactLater(scene, duration, counter);
    }
  }

  lemma NobodyIsHead(scene: Scene, duration: int, counter: nat)
    requires scene.WellOrdered() && Filter(scene.available, scene.accounts) == []
    ensures HeadId(scene, duration, counter) == None
  {
    UnforcedIsAvailable(scene, duration, counter);
  }

  lemma PredictionExactFallback(scene: Scene, duration: int, counter: nat)
    requires scene.WellOrdered() && scene.DistinctIds() && scene.now >= RESET_DEBOUNCE_MS
    requires Filter(FallbackGuess(scene), scene.accounts) != []
    ensures var x := StableSort(ByPriority(), Filter(FallbackGuess(scene), scene.accounts))[0];
            HeadId(scene, duration, counter) == Some(x.id)
            <==> (WindowHasReset(x, scene.now)
                  || ((forall a :: a in scene.accounts ==> !scene.FallbackTest()(a))
                      && ComesLater(scene, duration, counter, x)))
  {
    hide Filter, StableSort, LatestSession, ComesLater;
    var x := StableSort(ByPriority(), Filter(FallbackGuess(scene), scene.accounts))[0];
    FallbackAgrees(scene);
    PredictedIsAvailable(scene);
    if scene.Fallbacks() != [] {
      var h := StableSort(ByPriority(), scene.Fallbacks())[0];
      assert scene.Fallbacks()[0] in scene.Fallbacks();
      if h.id == x.id { SameIdSameAccount(scene, h, x); }
    } else {
      assert forall a :: a in scene.accounts ==> !scene.FallbackTest()(a);
      ComesLaterExactly(scene, duration, counter, x);
    }
  }

  lemma PredictionExactLater(scene: Scene, duration: int, counter: nat)
    requires scene.WellOrdered() && scene.DistinctIds() && scene.now >= RESET_DEBOUNCE_MS
    requires PredictedAccount(scene).Some?
    requires forall a :: a in scene.accounts ==> !FallbackGuess(scene)(a)
    ensures PredictionRight(scene, duration, counter) <==> Mirrors(scene, duration, counter)
  {
    hide Filter, StableSort, LatestSession, HeadId, ItsTurn, IsLatestActive;
    var x := PredictedAccount(scene).value;
    NoGuessNoFallback(scene);
    PredictedIsAvailable(scene);
    ComesLaterExactly(scene, duration, counter, x);
    ActiveIsLatest(scene, duration);
    var sessions := Filter(SessionGuess(scene), scene.accounts);
    if sessions != [] {
      assert sessions[0] in sessions;
      if scene.ActiveAccount(duration).Some? { SessionAgrees(scene, duration); }
    } else {
      assert forall a :: a in scene.accounts ==> !SessionGuess(scene)(a);
    }
  }

  lemma NoGuessNoFallback(scene: Scene)
    requires scene.now >= RESET_DEBOUNCE_MS
    requires forall a :: a in scene.accounts ==> !FallbackGuess(scene)(a)
    ensures Filter(FallbackGuess(scene), scene.accounts) == [] && scene.Fallbacks() == []
  {
    FilterNone(FallbackGuess(scene), scene.accounts);
    FallbacksAmongGuesses(scene);
  }

  /** The same for the accounts, usage and clock the program is given. */
  lemma PredictNextAccountExact(accounts: seq<Account>, usage: Usage, now: int, meta: SelectionMeta, duration: int,
                                counter: nat)
    requires SceneOf(accounts, usage, now).DistinctIds() && now >= RESET_DEBOUNCE_MS && meta.forceAccountId.None?
    ensures var s := Selected(SceneOf(accounts, usage, now), meta, duration, counter).accounts;
            PredictNextAccount(accounts, usage, now) == (if s == [] then None else Some(s[0].id))
            <==> Mirrors(SceneOf(accounts, usage, now), duration, counter)
  {
    UsageOrderIsPreorder(usage);
    var scene := SceneOf(accounts, usage, now);
    PredictionExact(scene, duration, counter);
    HeadIdIsHead(scene, meta, duration, counter);
  }

  /** The first in the ranking is the choice among the tiers exactly when it is the first one's turn. */
  lemma TurnAgrees(scene: Scene, counter: nat)
    requires scene.WellOrdered() && scene.DistinctIds() && scene.Ranked() != []
    ensures scene.Ranked()[0] in scene.accounts && scene.available(scene.Ranked()[0])
    ensures ItsTurn(scene, counter, scene.Ranked()[0]) <==> TierChoice(scene, counter) == Some(scene.Ranked()[0])
    ensures ItsTurn(scene, counter, scene.Ranked()[0])
            <==> (TakesTurns(scene.TopTier()) ==> counter % |scene.TopTier()| == 0)
  {
    hide Filter, StableSort, ItsTurn, TakesTurns, TierChoice;
    var top := scene.Ranked()[0];
    BestIsFirst(scene);
    assert top in scene.Ranked();
    TurnIsTierChoice(scene, counter, top);
    TierChoiceIsRanked(scene, counter);
    RankedDistinct(scene);
    TierIsFront(scene);
  }

  /** Resets in milliseconds, a known provider, no session that starts in the future. */
  predicate Clean(a: Account, now: int) {
    && (a.rateLimitReset.Some? ==> Abs(a.rateLimitReset.value) >= MS_THRESHOLD)
    && a.provider != "claude-oauth"
    && (a.sessionStart.Some? ==> a.sessionStart.value <= now)
  }

  lemma CleanGuesses(scene: Scene, a: Account)
    requires Clean(a, scene.now)
    ensures FallbackGuess(scene)(a) ==> WindowHasReset(a, scene.now)
    ensures SessionGuess(scene)(a) <==> scene.available(a) && HasActiveSession(a, SESSION_DURATION_MS, scene.now)
  {
  }

  /** In particular it is right with resets in milliseconds, no "claude-oauth" accounts, no session
      that starts in the future, the five-hour duration, no available session hidden behind an
      unavailable later one, and nobody else's turn. */
  lemma PredictionRightWhenClean(scene: Scene, counter: nat)
    requires scene.WellOrdered() && scene.DistinctIds() && scene.now >= RESET_DEBOUNCE_MS
    requires forall a :: a in scene.accounts ==> Clean(a, scene.now)
    requires SessionCounts(scene, SESSION_DURATION_MS) || forall a :: a in scene.accounts ==> !SessionGuess(scene)(a)
    requires TakesTurns(scene.TopTier()) ==> counter % |scene.TopTier()| == 0
    ensures PredictionRight(scene, SESSION_DURATION_MS, counter)
  {
    PredictionExact(scene, SESSION_DURATION_MS, counter);
    hide Filter, StableSort, PredictionRight, LatestSession, ItsTurn, TakesTurns, IsLatestActive, ComesLater,
         Clean, FallbackGuess, SessionGuess, WindowHasReset, HasActiveSession, SessionCounts, PredictedAccount;
    PredictedIsGuess(scene);
    forall a | a in scene.accounts
      ensures FallbackGuess(scene)(a) ==> WindowHasReset(a, scene.now)
      ensures SessionGuess(scene)(a) ==> HasActiveSession(a, SESSION_DURATION_MS, scene.now)
    {
      CleanGuesses(scene, a);
    }
    if scene.Ranked() != [] {
      TurnAgrees(scene, counter);
    }
    if SessionCounts(scene, SESSION_DURATION_MS) {
      SomeGuessIfCounts(scene);
    }
  }

  lemma SomeGuessIfCounts(scene: Scene)
    requires forall a :: a in scene.accounts ==> Clean(a, scene.now)
    requires SessionCounts(scene, SESSION_DURATION_MS)
    ensures exists a :: a in scene.accounts && SessionGuess(scene)(a)
  {
    ActiveIsLatest(scene, SESSION_DURATION_MS);
    var z := scene.ActiveAccount(SESSION_DURATION_MS).value;
    assert z in scene.Sessions(SESSION_DURATION_MS);
    CleanGuesses(scene, z);
  }

  /** Which guess the prediction is. */
  lemma PredictedIsGuess(scene: Scene)
    ensures var p := PredictedAccount(scene);
            if exists a :: a in scene.accounts && FallbackGuess(scene)(a) then
              p.Some? && p.value in scene.accounts && FallbackGuess(scene)(p.value)
            else if exists a :: a in scene.accounts && SessionGuess(scene)(a) then
              p.Some? && p.value in scene.accounts && SessionGuess(scene)(p.value)
            else p == if scene.Ranked() != [] then Some(scene.Ranked()[0]) else None
  {
    hide StableSort, LatestSession;
    var guesses, sessions := Filter(FallbackGuess(scene), scene.accounts), Filter(SessionGuess(scene), scene.accounts);
    StableSortMembers(ByPriority(), guesses);
    if guesses != [] {
      assert guesses[0] in guesses;
      assert StableSort(ByPriority(), guesses)[0] in StableSort(ByPriority(), guesses);
    } else {
      assert forall a :: a in scene.accounts ==> !FallbackGuess(scene)(a);
      if sessions != [] {
        assert sessions[0] in sessions;
      } else {
        assert forall a :: a in scene.accounts ==> !SessionGuess(scene)(a);
      }
    }
  }

  // ---------------------------------------------------------------------
  // Inputs on which it is wrong
  // ---------------------------------------------------------------------

  /** The prediction is `a`, and another account is put first. */
  ghost predicate WronglyPredicts(scene: Scene, duration: int, counter: nat, a: Account) {
    && PredictedAccount(scene) == Some(a)
    && HeadId(scene, duration, counter).Some? && HeadId(scene, duration, counter) != Some(a.id)
  }

  /** An available account of a better priority. */
  ghost predicate Outranked(scene: Scene, a: Account) {
    exists b :: b in scene.accounts && scene.available(b) && b.priority < a.priority
  }

  lemma WrongIfNotMirrored(scene: Scene, duration: int, counter: nat, a: Account)
    requires scene.WellOrdered() && scene.DistinctIds() && scene.now >= RESET_DEBOUNCE_MS
    requires PredictedAccount(scene) == Some(a) && !Mirrors(scene, duration, counter)
    ensures WronglyPredicts(scene, duration, counter, a)
  {
    PredictionExact(scene, duration, counter);
    hide StableSort, Filter, ChooseUnforced, Mirrors, PredictedAccount;
    PredictedIsAvailable(scene);
    UnforcedIsAvailable(scene, duration, counter);
  }

  lemma OutrankedHasNoTurn(scene: Scene, counter: nat, a: Account)
    requires Outranked(scene, a)
    ensures !ItsTurn(scene, counter, a)
  {
  }

  lemma BestGuessIsPredicted(scene: Scene, a: Account)
    requires a in scene.accounts && FallbackGuess(scene)(a)
    requires forall g :: g in scene.accounts && FallbackGuess(scene)(g) && g != a ==> a.priority < g.priority
    ensures PredictedAccount(scene) == Some(a)
  {
    hide FallbackGuess, StableSort;
    var guesses := Filter(FallbackGuess(scene), scene.accounts);
    assert a in guesses;
    SortHead(ByPriority(), guesses) by { assert TotalPreorder(ByPriority()); }
    StableSortMembers(ByPriority(), guesses);
    var first := StableSort(ByPriority(), guesses)[0];
    assert first in StableSort(ByPriority(), guesses);
    assert ByPriority()(first, a);
  }

  /** For any accounts: a reset recorded in seconds and still to come passes for one that is over. */
  lemma WrongForSeconds(scene: Scene, a: Account, duration: int, counter: nat)
    requires scene.WellOrdered() && scene.DistinctIds() && scene.now >= RESET_DEBOUNCE_MS
    requires a in scene.accounts && FallbackGuess(scene)(a) && !WindowHasReset(a, scene.now)
    requires forall g :: g in scene.accounts && FallbackGuess(scene)(g) && g != a ==> a.priority < g.priority
    requires !HasActiveSession(a, duration, scene.now) && Outranked(scene, a)
    ensures WronglyPredicts(scene, duration, counter, a)
  {
    OutrankedHasNoTurn(scene, counter, a);
    BestGuessIsPredicted(scene, a);
    hide Filter, StableSort, ItsTurn, Outranked, HasActiveSession, PredictedAccount, FallbackGuess, WindowHasReset;
    ActiveLatestIsActive(scene, duration, a);
    WrongIfNotMirrored(scene, duration, counter, a);
  }

  lemma ActiveLatestIsActive(scene: Scene, duration: int, a: Account)
    ensures IsLatestActive(scene, duration, a) ==> HasActiveSession(a, duration, scene.now)
  {
  }

  /** The guess of a session is wrong for an outranked account if the load balancer does not count the session,
      or does not go by sessions. */
  lemma WrongForSession(scene: Scene, a: Account, duration: int, counter: nat)
    requires scene.WellOrdered() && scene.DistinctIds() && scene.now >= RESET_DEBOUNCE_MS
    requires forall g :: g in scene.accounts ==> !FallbackGuess(scene)(g)
    requires a in scene.accounts && SessionGuess(scene)(a)
    requires forall g :: g in scene.accounts && SessionGuess(scene)(g) && g != a ==> StartOrZero(g) < StartOrZero(a)
    requires !HasActiveSession(a, duration, scene.now) || !SessionCounts(scene, duration)
    requires Outranked(scene, a)
    ensures WronglyPredicts(scene, duration, counter, a)
  {
    OutrankedHasNoTurn(scene, counter, a);
    FilterNone(FallbackGuess(scene), scene.accounts);
    var sessions := Filter(SessionGuess(scene), scene.accounts);
    assert a in sessions;
    hide Filter, ItsTurn, Outranked, HasActiveSession, SessionCounts, StableSort;
    assert LatestSession(sessions) in sessions && StartOrZero(a) <= StartOrZero(LatestSession(sessions));
    assert LatestSession(sessions) == a;
    assert StableSort(ByPriority(), []) == [];
    WrongIfNotMirrored(scene, duration, counter, a);
  }

  /** For any accounts: a session of a "claude-oauth" account, or one that starts in the future. */
  lemma WrongForForeignSession(scene: Scene, a: Account, duration: int, counter: nat)
    requires scene.WellOrdered() && scene.DistinctIds() && scene.now >= RESET_DEBOUNCE_MS
    requires forall g :: g in scene.accounts ==> !FallbackGuess(scene)(g)
    requires a in scene.accounts && SessionGuess(scene)(a)
    requires forall g :: g in scene.accounts && SessionGuess(scene)(g) && g != a ==> StartOrZero(g) < StartOrZero(a)
    requires a.provider == "claude-oauth" || scene.now < a.sessionStart.value
    requires Outranked(scene, a)
    ensures WronglyPredicts(scene, duration, counter, a)
  {
    WrongForSession(scene, a, duration, counter);
  }

  /** For any accounts: an available session behind the later one of an account that is not available. */
  lemma WrongForHiddenSession(scene: Scene, a: Account, latest: Account, duration: int, counter: nat)
    requires scene.WellOrdered() && scene.DistinctIds() && scene.now >= RESET_DEBOUNCE_MS
    requires forall g :: g in scene.accounts ==> !FallbackGuess(scene)(g)
    requires a in scene.accounts && SessionGuess(scene)(a)
    requires forall g :: g in scene.accounts && SessionGuess(scene)(g) && g != a ==> StartOrZero(g) < StartOrZero(a)
    requires IsLatestActive(scene, duration, latest) && !scene.available(latest)
    requires Outranked(scene, a)
    ensures WronglyPredicts(scene, duration, counter, a)
  {
    hide Filter, HasActiveSession, Outranked;
    WrongForSession(scene, a, duration, counter);
  }

  /** For any accounts: when payers take turns, the first of them is guessed whoever's turn it is. */
  lemma WrongForTurns(scene: Scene, duration: int, counter: nat, tier: seq<Account>)
    requires scene.WellOrdered() && scene.DistinctIds() && scene.now >= RESET_DEBOUNCE_MS
    requires Rotates(scene, duration, tier) && counter % |tier| != 0
    requires forall a :: a in scene.accounts ==> !FallbackGuess(scene)(a) && !SessionGuess(scene)(a)
    ensures WronglyPredicts(scene, duration, counter, tier[0])
  {
    hide Filter, StableSort, TakesTurns, ItsTurn, IsLatestActive, ComesLater;
    PredictedIsGuess(scene);
    ActiveIsLatest(scene, duration);
    TopTierMembers(scene);
    SomebodyTakesTurns(tier);
    TurnAgrees(scene, counter);
    WrongIfNotMirrored(scene, duration, counter, tier[0]);
  }

  lemma SomebodyTakesTurns(tier: seq<Account>)
    requires TakesTurns(tier)
    ensures tier != []
  {
  }

  // ---------------------------------------------------------------------
  // ... among accounts as the program stores them
  // ---------------------------------------------------------------------

  function Plain(id: string, provider: string, priority: int): Account {
    Account(id, provider, priority, false, true, None, None, None, None, 0, 0, 0, false, false)
  }

  const NOW := 1_700_000_000_000

  /** What the program is given: no usage is known, at this clock. */
  function Stored(accounts: seq<Account>): Scene { SceneOf(accounts, map[], NOW) }

  lemma StoredIsOrdered(accounts: seq<Account>)
    ensures Stored(accounts).WellOrdered() && Stored(accounts).now >= RESET_DEBOUNCE_MS
  {
    UsageOrderIsPreorder(map[]);
  }

  lemma StoredPlain(a: Account, accounts: seq<Account>)
    requires !a.paused && a.rateLimitStatus.None? && a.rateLimitedUntil.None?
    requires a.reserve5h == 0 && a.reserveWeekly == 0
    ensures Stored(accounts).available(a)
  {
  }

  lemma StoredPaused(a: Account, accounts: seq<Account>)
    requires a.paused
    ensures !Stored(accounts).available(a)
  {
  }

  lemma StoredTie(a: Account, b: Account, accounts: seq<Account>)
    requires a.priority == b.priority
    ensures Stored(accounts).order(a, b)
  {
  }

  /** A reset in seconds, a minute ahead. */
  function SecondsAccounts(): seq<Account> {
    [Plain("a", "zai", 5).(rateLimitReset := Some(1_700_000_060)), Plain("b", "zai", 1)]
  }

  function ClaudeOauthAccounts(): seq<Account> {
    [Plain("a", "claude-oauth", 5).(sessionStart := Some(NOW - 1000)), Plain("b", "zai", 1)]
  }

  /** A session that starts a second from now. */
  function FutureAccounts(): seq<Account> {
    [Plain("a", "anthropic", 5).(sessionStart := Some(NOW + 1000)), Plain("b", "zai", 1)]
  }

  /** The latest session belongs to a paused account. */
  function HiddenSessionAccounts(): seq<Account> {
    [Plain("a", "anthropic", 5).(sessionStart := Some(NOW - 2000)), Plain("b", "zai", 1),
     Plain("c", "anthropic", 5).(sessionStart := Some(NOW - 1000), paused := true)]
  }

  function TurnAccounts(): seq<Account> { [Plain("a", "zai", 1), Plain("b", "zai", 1)] }

  /** The dashboard predicts "a", the load balancer puts "b" first. */
  ghost predicate SaysAUsesB(accounts: seq<Account>, counter: nat) {
    && PredictNextAccount(accounts, map[], NOW) == Some("a")
    && HeadId(Stored(accounts), SESSION_DURATION_MS, counter) == Some("b")
  }

  /** One input for each of the five ways to be wrong. */
  lemma WrongOnRealAccounts()
    ensures SaysAUsesB(SecondsAccounts(), 0)
    ensures SaysAUsesB(ClaudeOauthAccounts(), 0)
    ensures SaysAUsesB(FutureAccounts(), 0)
    ensures SaysAUsesB(HiddenSessionAccounts(), 0)
    ensures SaysAUsesB(TurnAccounts(), 1)
  {
    hide *;
    SecondsWitness();
    ClaudeOauthWitness();
    FutureWitness();
    HiddenSessionWitness();
    TurnWitness();
  }

  lemma OtherIsHead(accounts: seq<Account>, counter: nat, a: Account, b: Account)
    requires WronglyPredicts(Stored(accounts), SESSION_DURATION_MS, counter, a) && a.id == "a" && b.id == "b"
    requires forall x :: x in accounts && Stored(accounts).available(x) ==> x == a || x == b
    ensures SaysAUsesB(accounts, counter)
  {
    hide StableSort, Filter, ChooseUnforced, Routable;
    StoredIsOrdered(accounts);
    UnforcedIsAvailable(Stored(accounts), SESSION_DURATION_MS, counter);
  }

  lemma SecondsWitness()
    ensures SaysAUsesB(SecondsAccounts(), 0)
  {
    hide Routable, UsageOrder, SaysAUsesB, WronglyPredicts, TotalPreorder, RespectsPriority, Filter, StableSort;
    var s := SecondsAccounts();
    StoredIsOrdered(s);
    StoredPlain(s[0], s);
    StoredPlain(s[1], s);
    WrongForSeconds(Stored(s), s[0], SESSION_DURATION_MS, 0);
    OtherIsHead(s, 0, s[0], s[1]);
  }

  lemma ClaudeOauthWitness()
    ensures SaysAUsesB(ClaudeOauthAccounts(), 0)
  {
    hide Routable, UsageOrder, SaysAUsesB, WronglyPredicts, TotalPreorder, RespectsPriority, Filter, StableSort;
    var s := ClaudeOauthAccounts();
    StoredIsOrdered(s);
    StoredPlain(s[0], s);
    StoredPlain(s[1], s);
    WrongForForeignSession(Stored(s), s[0], SESSION_DURATION_MS, 0);
    OtherIsHead(s, 0, s[0], s[1]);
  }

  lemma FutureWitness()
    ensures SaysAUsesB(FutureAccounts(), 0)
  {
    hide Routable, UsageOrder, SaysAUsesB, WronglyPredicts, TotalPreorder, RespectsPriority, Filter, StableSort;
    var s := FutureAccounts();
    StoredIsOrdered(s);
    StoredPlain(s[0], s);
    StoredPlain(s[1], s);
    WrongForForeignSession(Stored(s), s[0], SESSION_DURATION_MS, 0);
    OtherIsHead(s, 0, s[0], s[1]);
  }

  lemma HiddenSessionWitness()
    ensures SaysAUsesB(HiddenSessionAccounts(), 0)
  {
    hide Routable, UsageOrder, SaysAUsesB, WronglyPredicts, TotalPreorder, RespectsPriority, Filter, StableSort;
    var s := HiddenSessionAccounts();
    StoredIsOrdered(s);
    StoredPlain(s[0], s);
    StoredPlain(s[1], s);
    StoredPaused(s[2], s);
    assert LatestAt(Stored(s).SessionTest(SESSION_DURATION_MS), s, 2);
    WrongForHiddenSession(Stored(s), s[0], s[2], SESSION_DURATION_MS, 0);
    OtherIsHead(s, 0, s[0], s[1]);
  }

  lemma TurnWitness()
    ensures SaysAUsesB(TurnAccounts(), 1)
  {
    hide Routable, UsageOrder, SaysAUsesB, WronglyPredicts, TotalPreorder, RespectsPriority, Filter, StableSort;
    var s := TurnAccounts();
    var scene := Stored(s);
    StoredIsOrdered(s);
    StoredPlain(s[0], s);
    StoredPlain(s[1], s);
    StoredTie(s[0], s[1], s);
    TwoPayers(scene, s[0], s[1]);
    WrongForTurns(scene, SESSION_DURATION_MS, 1, s);
    OtherIsHead(s, 1, s[0], s[1]);
  }

  lemma FilterPair(p: Account -> bool, a: Account, b: Account)
    requires p(a) && p(b)
    ensures Filter(p, [a, b]) == [a, b]
  {
    assert [a, b][1..] == [b];
  }

  /** Two available payers that routing does not tell apart take turns. */
  lemma TwoPayers(scene: Scene, a: Account, b: Account)
    requires scene.accounts == [a, b] && scene.available(a) && scene.available(b)
    requires a.priority == b.priority && scene.order(a, b)
    requires !RequiresSessionTracking(a.provider) && !RequiresSessionTracking(b.provider)
    requires a.rateLimitReset.None? && b.rateLimitReset.None?
    ensures forall duration :: Rotates(scene, duration, [a, b])
  {
    FilterPair(scene.available, a, b);
    SortOfSorted(scene.order, [a, b]);
    FilterPair((x: Account) => x.priority == a.priority, a, b);
    FilterNone(scene.FallbackTest(), [a, b]);
    forall duration ensures Rotates(scene, duration, [a, b]) {
      FilterNone(scene.SessionTest(duration), [a, b]);
    }
  }
}
