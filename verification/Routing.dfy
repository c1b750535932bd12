/** What the routing engine guarantees: the answer is a ranking of the routable
    accounts, payers take turns, and sessions are not restarted too often. */
module Routing {
  import opened Collections
  import opened Eligibility
  import opened LoadBalancer

  // ---------------------------------------------------------------------
  // The chosen account
  // ---------------------------------------------------------------------

  lemma TopTierMembers(scene: Scene)
    requires scene.WellOrdered()
    ensures forall a :: a in scene.TopTier() ==> a in scene.accounts && scene.available(a)
    ensures forall a, x :: a in scene.TopTier() && x in scene.accounts && scene.available(x) ==>
                             a.priority <= x.priority
    ensures scene.TopTier() == [] <==> Filter(scene.available, scene.accounts) == []
    ensures scene.TopTier() != [] ==> scene.TopTier()[0] == scene.Ranked()[0]
  {
    var kept := Filter(scene.available, scene.accounts);
    var ranked := scene.Ranked();
    StableSortMembers(scene.order, kept);
    if kept != [] {
      SortHead(scene.order, kept);
      assert forall x :: x in kept ==> scene.order(ranked[0], x);
    }
  }

  /** Whoever is chosen is one of the accounts and available; nobody is chosen only when
      no account is available or a strictly forced account is not. */
  lemma ChosenIsAvailable(scene: Scene, meta: SelectionMeta, duration: int, counter: nat)
    requires scene.WellOrdered()
    ensures var c := Choose(scene, meta, duration, counter);
            && (c.Chosen? ==> c.account in scene.accounts && scene.available(c.account))
            && (c.Chosen? && c.alone ==> meta.forceStrict)
            && (c.Nobody? && !meta.forceStrict ==> Filter(scene.available, scene.accounts) == [])
  {
    hide ChooseUnforced, Filter;
    UnforcedIsAvailable(scene, duration, counter);
  }

  lemma UnforcedIsAvailable(scene: Scene, duration: int, counter: nat)
    requires scene.WellOrdered()
    ensures var c := ChooseUnforced(scene, duration, counter);
            && (c.Chosen? ==> c.account in scene.accounts && scene.available(c.account) && !c.alone)
            && (c.Nobody? ==> Filter(scene.available, scene.accounts) == [])
  {
    var fallbacks := scene.Fallbacks();
    StableSortMembers(ByPriority(), fallbacks);
    if fallbacks != [] {
      assert StableSort(ByPriority(), fallbacks)[0] in StableSort(ByPriority(), fallbacks);
    } else if scene.ActiveAccount(duration).None? {
      TopTierMembers(scene);
      var tier := scene.TopTier();
      assert tier != [] ==> tier[0] in tier && tier[counter % |tier|] in tier;
    }
  }

  /** Which account goes first when none is forced: a recovered fallback account of the best
      priority; else the latest session; else an account of the best priority, and outside
      turn-taking one that no available account precedes. */
  lemma HeadRule(scene: Scene, duration: int, counter: nat)
    requires scene.WellOrdered()
    requires ChooseUnforced(scene, duration, counter).Chosen?
    ensures var h := ChooseUnforced(scene, duration, counter).account;
            if exists a :: a in scene.accounts && scene.FallbackTest()(a) then
              scene.FallbackTest()(h)
              && forall a :: a in scene.accounts && scene.FallbackTest()(a) ==> h.priority <= a.priority
            else if scene.ActiveAccount(duration).Some? then
              HasActiveSession(h, duration, scene.now)
              && forall a :: a in scene.accounts && HasActiveSession(a, duration, scene.now) ==>
                   a.sessionStart.value <= h.sessionStart.value
            else
              && (forall a :: a in scene.accounts && scene.available(a) ==> h.priority <= a.priority)
              && (TakesTurns(scene.TopTier()) ||
                  forall a :: a in scene.accounts && scene.available(a) ==> scene.order(h, a))
  {
    var fallbacks := scene.Fallbacks();
    if fallbacks != [] {
      assert fallbacks[0] in fallbacks;
      assert TotalPreorder(ByPriority());
      SortHead(ByPriority(), fallbacks);
      StableSortMembers(ByPriority(), fallbacks);
      assert StableSort(ByPriority(), fallbacks)[0] in StableSort(ByPriority(), fallbacks);
    } else if scene.ActiveAccount(duration).Some? {
      var sessions := scene.Sessions(duration);
      forall a | a in scene.accounts && HasActiveSession(a, duration, scene.now)
        ensures a.sessionStart.value <= LatestSession(sessions).sessionStart.value
      {
        assert a in sessions;
      }
    } else {
      TopTierMembers(scene);
      var tier := scene.TopTier();
      assert tier[0] in tier && tier[counter % |tier|] in tier;
      SortHead(scene.order, Filter(scene.available, scene.accounts));
    }
  }

  // ---------------------------------------------------------------------
  // The ranking
  // ---------------------------------------------------------------------

  /** An account without the fields a session restart writes. */
  function Core(a: Account): Account {
    a.(sessionStart := None, sessionRequestCount := 0, rateLimitReset := None)
  }

  lemma {:induction false} SplitOff(scene: Scene, accounts: seq<Account>, a: Account)
    requires forall i, j :: 0 <= i < j < |accounts| ==> accounts[i].id != accounts[j].id
    requires a in accounts && scene.available(a)
    ensures multiset(Filter(scene.available, accounts))
            == multiset{a} + multiset(Filter(scene.OtherTest(a.id), accounts))
  {
    var first, rest := accounts[0], accounts[1..];
    if first == a {
      assert forall x :: x in rest ==> x.id != a.id;
      FilterExtensional(scene.available, scene.OtherTest(a.id), rest);
    } else {
      assert a in rest;
      SplitOff(scene, rest, a);
    }
  }

  ghost predicate StrictlyForced(scene: Scene, meta: SelectionMeta) {
    meta.forceStrict && meta.forceAccountId.Some? && Find(scene.accounts, meta.forceAccountId.value).Some?
  }

  lemma RestartKeepsCore(a: Account, duration: int, now: int)
    ensures Core(ResetSession(a, duration, now).0) == Core(a) && ResetSession(a, duration, now).0.id == a.id
  {
  }

  /** The answer is the chosen account, up to its session fields, and then the others. */
  lemma AnswerOfChoice(scene: Scene, meta: SelectionMeta, duration: int, counter: nat)
    ensures var c := Choose(scene, meta, duration, counter);
            var result := Selected(scene, meta, duration, counter).accounts;
            if c.Nobody? then result == []
            else && result != [] && Core(result[0]) == Core(c.account) && result[0].id == c.account.id
                 && result[1..] == if c.alone then [] else scene.Others(c.account.id)
  {
    hide Choose, ResetSession, Core;
    var c := Choose(scene, meta, duration, counter);
    if c.Chosen? {
      RestartKeepsCore(c.account, duration, scene.now);
    }
  }

  /** The answer holds every available account exactly once and nothing else, the head up to
      its session fields. */
  lemma SelectionIsPermutation(scene: Scene, meta: SelectionMeta, duration: int, counter: nat)
    requires scene.WellOrdered() && scene.DistinctIds()
    requires !StrictlyForced(scene, meta)
    ensures var result := Selected(scene, meta, duration, counter).accounts;
            var routable := Filter(scene.available, scene.accounts);
            if routable == [] then result == []
            else
              && result != []
              && exists a :: a in scene.accounts && Core(a) == Core(result[0])
                             && multiset([a] + result[1..]) == multiset(routable)
  {
    AnswerOfChoice(scene, meta, duration, counter);
    ChoiceUnlessStrict(scene, meta, duration, counter);
    hide Selected, StrictlyForced, Core, Choose, Filter;
    var c := Choose(scene, meta, duration, counter);
    var routable := Filter(scene.available, scene.accounts);
    if c.Chosen? {
      var a, others := c.account, Filter(scene.OtherTest(c.account.id), scene.accounts);
      SplitOff(scene, scene.accounts, a);
      assert multiset(scene.Others(a.id)) == multiset(others);
      assert a in multiset(routable);
    }
  }

  /** Unless a strict force decides: whoever is chosen is available and not alone, and nobody is chosen
      only when none is available. */
  lemma ChoiceUnlessStrict(scene: Scene, meta: SelectionMeta, duration: int, counter: nat)
    requires scene.WellOrdered()
    ensures var c := Choose(scene, meta, duration, counter);
            StrictlyForced(scene, meta) ||
            if c.Chosen? then c.account in scene.accounts && scene.available(c.account) && !c.alone
            else Filter(scene.available, scene.accounts) == []
  {
    hide ChooseUnforced, Filter;
    UnforcedIsAvailable(scene, duration, counter);
  }

  /** A strictly forced account is the whole answer if it is available, and otherwise there is none. */
  lemma StrictForceIsAlone(scene: Scene, meta: SelectionMeta, duration: int, counter: nat)
    requires StrictlyForced(scene, meta)
    ensures var a := Find(scene.accounts, meta.forceAccountId.value).value;
            var result := Selected(scene, meta, duration, counter).accounts;
            if scene.available(a) then |result| == 1 && Core(result[0]) == Core(a) else result == []
  {
  }

  /** Everything after the head is in routing order, and ties keep the order of the input. */
  lemma TailIsStablySorted(scene: Scene, meta: SelectionMeta, duration: int, counter: nat, x: Account)
    requires scene.WellOrdered()
    ensures var result := Selected(scene, meta, duration, counter).accounts;
            result == [] || StrictlyForced(scene, meta) ||
            (&& Sorted(scene.order, result[1..])
             && Filter(TiedWith(scene.order, x), result[1..])
                == Filter(TiedWith(scene.order, x), Filter(scene.OtherTest(result[0].id), scene.accounts)))
  {
    var result := Selected(scene, meta, duration, counter).accounts;
    if result != [] && !StrictlyForced(scene, meta) {
      hide Selected, StrictlyForced, Filter, StableSort;
      TailIsOthers(scene, meta, duration, counter);
      var kept := Filter(scene.OtherTest(result[0].id), scene.accounts);
      StableSortSorted(scene.order, kept);
      SortStable(scene.order, x, kept);
    }
  }

  /** What is to be persisted is what happened to the head: at most one restart, of the head, now; without one
      the head is as it was given. Bypassing sessions never restarts one. */
  lemma ResetsDescribeHead(scene: Scene, meta: SelectionMeta, duration: int, counter: nat)
    requires scene.WellOrdered()
    ensures var s := Selected(scene, meta, duration, counter);
            && |s.resets| <= 1 && (meta.bypassSession ==> s.resets == [])
            && (s.resets == [] && s.accounts != [] ==> s.accounts[0] in scene.accounts)
            && (s.resets != [] ==>
                 && s.accounts != [] && s.resets[0] == SessionReset(s.accounts[0].id, scene.now)
                 && s.accounts[0].sessionStart == Some(scene.now) && s.accounts[0].sessionRequestCount == 0)
  {
    hide Choose, StableSort, Filter;
    ChosenIsAvailable(scene, meta, duration, counter);
  }

  lemma TailIsOthers(scene: Scene, meta: SelectionMeta, duration: int, counter: nat)
    requires scene.WellOrdered()
    ensures var result := Selected(scene, meta, duration, counter).accounts;
            result == [] || StrictlyForced(scene, meta) ||
            result[1..] == StableSort(scene.order, Filter(scene.OtherTest(result[0].id), scene.accounts))
  {
    AnswerOfChoice(scene, meta, duration, counter);
    ChoiceUnlessStrict(scene, meta, duration, counter);
  }

  /** All of it holds of what the program is given: the answer holds the routable accounts, behind the head in
      routing order with ties in the order of the input, and says what to persist about the head. */
  lemma SelectRanksRoutable(accounts: seq<Account>, usage: Usage, meta: SelectionMeta, now: int, duration: int,
                            counter: nat, x: Account)
    requires SceneOf(accounts, usage, now).DistinctIds() && !StrictlyForced(SceneOf(accounts, usage, now), meta)
    ensures var s := Selected(SceneOf(accounts, usage, now), meta, duration, counter);
            var result := s.accounts;
            var routable := Filter((a: Account) => Routable(a, usage, now), accounts);
            if routable == [] then result == [] && s.resets == []
            else
              && result != []
              && Sorted(UsageOrder(usage), result[1..])
              && (forall i, j :: 1 <= i < j < |result| ==> MayPrecede(result[i], result[j], usage))
              && Filter(TiedWith(UsageOrder(usage), x), result[1..])
                 == Filter(TiedWith(UsageOrder(usage), x),
                           Filter((a: Account) => a.id != result[0].id && Routable(a, usage, now), accounts))
              && (exists a :: a in accounts && Core(a) == Core(result[0])
                              && multiset([a] + result[1..]) == multiset(routable))
              && (s.resets == [] ==> result[0] in accounts)
              && (s.resets != [] ==>
                   && !meta.bypassSession && s.resets == [SessionReset(result[0].id, now)]
                   && result[0].sessionStart == Some(now) && result[0].sessionRequestCount == 0)
  {
    hide Selected, StrictlyForced, Core, Filter, Routable, Sorted, TiedWith, MayPrecede;
    var scene := SceneOf(accounts, usage, now);
    UsageOrderIsPreorder(usage);
    SelectionIsPermutation(scene, meta, duration, counter);
    ResetsDescribeHead(scene, meta, duration, counter);
    FilterExtensional(scene.available, (a: Account) => Routable(a, usage, now), accounts);
    TailIsStablySorted(scene, meta, duration, counter, x);
    var result := Selected(scene, meta, duration, counter).accounts;
    forall i, j | 1 <= i < j < |result| ensures MayPrecede(result[i], result[j], usage) {
      TriedInOrder(accounts, usage, meta, now, duration, counter, i, j);
    }
    if result != [] {
      FilterExtensional(scene.OtherTest(result[0].id),
                        (a: Account) => a.id != result[0].id && Routable(a, usage, now), accounts);
    }
  }

  // ---------------------------------------------------------------------
  // Places of the latest session and of the tier
  // ---------------------------------------------------------------------

  /** Of the elements that pass `p`, the one at `k` has the latest session, the last one on ties. */
  ghost predicate LatestAt(p: Account -> bool, s: seq<Account>, k: nat) {
    && k < |s| && p(s[k])
    && forall j :: 0 <= j < |s| && p(s[j]) ==>
         StartOrZero(s[j]) < StartOrZero(s[k]) || (StartOrZero(s[j]) == StartOrZero(s[k]) && j <= k)
  }

  lemma LatestOfCons(a: Account, s: seq<Account>)
    ensures LatestSession([a] + s)
            == if s != [] && StartOrZero(a) <= StartOrZero(LatestSession(s)) then LatestSession(s) else a
  {
  }

  lemma LatestAtRest(p: Account -> bool, h: Account, t: seq<Account>, k: nat)
    requires LatestAt(p, t, k) && (p(h) ==> StartOrZero(h) <= StartOrZero(t[k]))
    ensures LatestAt(p, [h] + t, k + 1)
  {
    hide StartOrZero;
    var s := [h] + t;
    assert forall j :: 0 < j < |s| ==> s[j] == t[j - 1];
  }

  lemma LatestAtHead(p: Account -> bool, h: Account, t: seq<Account>)
    requires p(h) && (Filter(p, t) == [] || StartOrZero(LatestSession(Filter(p, t))) < StartOrZero(h))
    ensures LatestAt(p, [h] + t, 0)
  {
    hide Filter, LatestSession, StartOrZero;
    forall a | a in t && p(a) ensures StartOrZero(a) < StartOrZero(h) {
      assert a in Filter(p, t);
    }
  }

  /** `k` is the place of the latest session among what passes `p`, if anything does. */
  ghost predicate HasPlace(p: Account -> bool, s: seq<Account>, k: nat) {
    Filter(p, s) != [] ==> LatestAt(p, s, k) && s[k] == LatestSession(Filter(p, s))
  }

  lemma PlaceIsHead(p: Account -> bool, h: Account, t: seq<Account>)
    requires p(h) && (Filter(p, t) == [] || StartOrZero(LatestSession(Filter(p, t))) < StartOrZero(h))
    ensures HasPlace(p, [h] + t, 0)
  {
    LatestAtHead(p, h, t);
    FilterOfCons(p, h, t);
    LatestOfCons(h, Filter(p, t));
    hide Filter, LatestAt, LatestSession, StartOrZero;
  }

  lemma PlaceIsLater(p: Account -> bool, h: Account, t: seq<Account>, k: nat)
    requires HasPlace(p, t, k)
    requires Filter(p, t) != [] && (p(h) ==> StartOrZero(h) <= StartOrZero(LatestSession(Filter(p, t))))
    ensures HasPlace(p, [h] + t, k + 1)
  {
    hide Filter, LatestSession, StartOrZero;
    LatestAtRest(p, h, t, k);
    FilterOfCons(p, h, t);
    LatestOfCons(h, Filter(p, t));
  }

  lemma {:induction false} LatestHasPlace(p: Account -> bool, s: seq<Account>) returns (k: nat)
    ensures HasPlace(p, s, k)
  {
    hide *;
    k := 0;
    if s == [] {
      FilterNone(p, s);
      NothingHasPlace(p, s);
    } else {
      var h, t := s[0], s[1..];
      assert s == [h] + t;
      var i := LatestHasPlace(p, t);
      FilterOfCons(p, h, t);
      var rest := Filter(p, t);
      if p(h) && (rest == [] || StartOrZero(LatestSession(rest)) < StartOrZero(h)) {
        PlaceIsHead(p, h, t);
      } else if rest != [] {
        PlaceIsLater(p, h, t, i);
        k := i + 1;
      } else {
        NothingHasPlace(p, s);
      }
    }
  }

  lemma NothingHasPlace(p: Account -> bool, s: seq<Account>)
    requires Filter(p, s) == []
    ensures HasPlace(p, s, 0)
  {
  }

  lemma RankedDistinct(scene: Scene)
    requires scene.DistinctIds()
    ensures Distinct(scene.Ranked())
  {
    FilterDistinct(scene.available, scene.accounts);
    PermutationDistinct(Filter(scene.available, scene.accounts), scene.Ranked());
  }

  // ---------------------------------------------------------------------
  // The selection, on the fields of accounts
  // ---------------------------------------------------------------------

  /** Behind the head accounts are tried in this order: better priority, then not at the reserve, then the
      sooner reset. */
  lemma TriedInOrder(accounts: seq<Account>, usage: Usage, meta: SelectionMeta, now: int, duration: int, counter: nat,
                     i: nat, j: nat)
    requires !StrictlyForced(SceneOf(accounts, usage, now), meta)
    requires 1 <= i < j < |Selected(SceneOf(accounts, usage, now), meta, duration, counter).accounts|
    ensures var result := Selected(SceneOf(accounts, usage, now), meta, duration, counter).accounts;
            MayPrecede(result[i], result[j], usage)
  {
    hide Selected, StrictlyForced, MayPrecede, UsageOrder, Filter;
    var scene := SceneOf(accounts, usage, now);
    var result := Selected(scene, meta, duration, counter).accounts;
    UsageOrderIsPreorder(usage);
    TailIsStablySorted(scene, meta, duration, counter, result[0]);
    assert UsageOrder(usage)(result[1..][i - 1], result[1..][j - 1]);
    OrderExactly(usage, result[i], result[j]);
  }

  /** The account with auto-fallback has recovered and may be used. */
  ghost predicate Recovered(a: Account, usage: Usage, now: int) {
    a.autoFallback && LongPast(a.rateLimitReset, now) && Routable(a, usage, now)
  }

  /** The k-th account is the first recovered one of the best priority. */
  ghost predicate FirstRecovered(accounts: seq<Account>, usage: Usage, now: int, k: nat) {
    && k < |accounts| && Recovered(accounts[k], usage, now)
    && forall j :: 0 <= j < |accounts| && Recovered(accounts[j], usage, now) ==>
         accounts[k].priority < accounts[j].priority || (accounts[k].priority == accounts[j].priority && k <= j)
  }

  ghost predicate Active(a: Account, duration: int, now: int) {
    && a.provider == "anthropic" && a.sessionStart.Some?
    && a.sessionStart.value <= now < a.sessionStart.value + duration
  }

  /** The k-th account has the active session that started latest, the last listed on ties. */
  ghost predicate LatestActive(accounts: seq<Account>, duration: int, now: int, k: nat) {
    && k < |accounts| && Active(accounts[k], duration, now)
    && forall j :: 0 <= j < |accounts| && Active(accounts[j], duration, now) ==>
         var (s, t) := (accounts[j].sessionStart.value, accounts[k].sessionStart.value);
         s < t || (s == t && j <= k)
  }

  /** The k-th account is usable, and of the usable ones none precedes it in the order or, tied, in the list. */
  ghost predicate FirstInOrder(accounts: seq<Account>, usage: Usage, now: int, k: nat) {
    && k < |accounts| && Routable(accounts[k], usage, now)
    && forall j :: 0 <= j < |accounts| && Routable(accounts[j], usage, now) ==>
         MayPrecede(accounts[k], accounts[j], usage) && (j < k ==> !MayPrecede(accounts[j], accounts[k], usage))
  }

  /** Of the usable accounts of the best priority there are several, and none has sessions. */
  ghost predicate PayersTakeTurns(accounts: seq<Account>, usage: Usage, now: int) {
    exists i, j ::
      && 0 <= i < j < |accounts| && BestPriority(accounts, usage, now, i) && BestPriority(accounts, usage, now, j)
      && forall k :: 0 <= k < |accounts| && BestPriority(accounts, usage, now, k) ==>
                       accounts[k].provider != "anthropic"
  }

  ghost predicate BestPriority(accounts: seq<Account>, usage: Usage, now: int, k: nat) {
    && k < |accounts| && Routable(accounts[k], usage, now)
    && forall j :: 0 <= j < |accounts| && Routable(accounts[j], usage, now) ==>
                     accounts[k].priority <= accounts[j].priority
  }

  lemma RecoveredExactly(scene: Scene, usage: Usage, a: Account)
    requires scene == SceneOf(scene.accounts, usage, scene.now)
    ensures scene.FallbackTest()(a) <==> Recovered(a, usage, scene.now)
  {
    LongPastExactly(a, scene.now);
    hide LongPast, WindowHasReset, Routable;
  }

  lemma FallbackFirst(accounts: seq<Account>, usage: Usage, now: int) returns (k: nat)
    requires SceneOf(accounts, usage, now).Fallbacks() != []
    ensures k < |accounts| && FirstRecovered(accounts, usage, now, k)
    ensures StableSort(ByPriority(), SceneOf(accounts, usage, now).Fallbacks())[0] == accounts[k]
  {
    hide Filter, StableSort, Recovered, FirstRecovered, Routable;
    var scene := SceneOf(accounts, usage, now);
    var p := scene.FallbackTest();
    forall a ensures p(a) <==> Recovered(a, usage, now) {
      RecoveredExactly(scene, usage, a);
    }
    assert TotalPreorder(ByPriority());
    k := SortFirst(ByPriority(), p, accounts);
    FirstByPriority(p, accounts, usage, now, k);
  }

  lemma FirstByPriority(p: Account -> bool, accounts: seq<Account>, usage: Usage, now: int, k: nat)
    requires (forall a :: p(a) <==> Recovered(a, usage, now)) && FirstAt(ByPriority(), p, accounts, k)
    ensures FirstRecovered(accounts, usage, now, k)
  {
    hide Recovered;
  }

  lemma ActiveFirst(accounts: seq<Account>, usage: Usage, now: int, duration: int) returns (k: nat)
    ensures var active := SceneOf(accounts, usage, now).ActiveAccount(duration);
            if active.Some? then
              && LatestActive(accounts, duration, now, k) && k < |accounts| && accounts[k] == active.value
              && Routable(accounts[k], usage, now)
            else
              forall k: nat :: LatestActive(accounts, duration, now, k) ==> !Routable(accounts[k], usage, now)
  {
    hide Filter, LatestSession, Routable, LatestActive;
    var scene := SceneOf(accounts, usage, now);
    var p := scene.SessionTest(duration);
    k := LatestHasPlace(p, accounts);
    forall a ensures p(a) <==> Active(a, duration, now) {
      ActiveExactly(a, duration, now);
    }
    if Filter(p, accounts) != [] {
      LatestOnFields(p, accounts, duration, now, k);
      forall i: nat | LatestActive(accounts, duration, now, i) ensures i == k {
        OneLatest(accounts, duration, now, i, k);
      }
    } else {
      forall i: nat ensures !LatestActive(accounts, duration, now, i) {
        NoLatest(p, accounts, duration, now, i);
      }
    }
  }

  lemma LatestOnFields(p: Account -> bool, accounts: seq<Account>, duration: int, now: int, k: nat)
    requires (forall a :: p(a) <==> Active(a, duration, now)) && LatestAt(p, accounts, k)
    ensures LatestActive(accounts, duration, now, k)
  {
  }

  lemma OneLatest(accounts: seq<Account>, duration: int, now: int, i: nat, k: nat)
    requires LatestActive(accounts, duration, now, i) && LatestActive(accounts, duration, now, k)
    ensures i == k
  {
  }

  lemma NoLatest(p: Account -> bool, accounts: seq<Account>, duration: int, now: int, i: nat)
    requires (forall a :: p(a) <==> Active(a, duration, now)) && Filter(p, accounts) == []
    ensures !LatestActive(accounts, duration, now, i)
  {
    assert forall a :: a in accounts ==> !p(a);
  }

  /** The tier holds the usable accounts of the best priority. */
  lemma TierOnFields(accounts: seq<Account>, usage: Usage, now: int)
    requires SceneOf(accounts, usage, now).DistinctIds()
    ensures var tier := SceneOf(accounts, usage, now).TopTier();
            && (forall k :: 0 <= k < |accounts| ==> (accounts[k] in tier <==> BestPriority(accounts, usage, now, k)))
            && Distinct(tier) && (TakesTurns(tier) <==> PayersTakeTurns(accounts, usage, now))
  {
    var scene := SceneOf(accounts, usage, now);
    var tier := scene.TopTier();
    UsageOrderIsPreorder(usage);
    TopTierMembers(scene);
    RankedDistinct(scene);
    if scene.Ranked() != [] {
      FilterDistinct((a: Account) => a.priority == scene.Ranked()[0].priority, scene.Ranked());
    }
    forall k | 0 <= k < |accounts| ensures accounts[k] in tier <==> BestPriority(accounts, usage, now, k) {
      InTier(accounts, usage, now, k);
    }
    hide Filter, StableSort, Routable, BestPriority;
    SeveralInTier(accounts, usage, now, tier);
  }

  /** Nobody ranked has a better priority than the first. */
  lemma BestIsFirst(scene: Scene)
    requires scene.WellOrdered()
    ensures forall a :: a in scene.accounts && scene.available(a) <==> a in scene.Ranked()
    ensures forall a :: a in scene.Ranked() ==> scene.Ranked()[0].priority <= a.priority
  {
    hide Filter, StableSort;
    if scene.Ranked() != [] { SortHead(scene.order, Filter(scene.available, scene.accounts)); }
    StableSortMembers(scene.order, Filter(scene.available, scene.accounts));
  }

  lemma TierOfRanked(scene: Scene, a: Account)
    ensures a in scene.TopTier() <==>
              scene.Ranked() != [] && a in scene.Ranked() && a.priority == scene.Ranked()[0].priority
  {
    hide StableSort;
  }

  lemma BestAmong(accounts: seq<Account>, usage: Usage, now: int, ranked: seq<Account>, k: nat)
    requires k < |accounts| && forall a :: a in accounts && Routable(a, usage, now) <==> a in ranked
    requires forall a :: a in ranked ==> ranked[0].priority <= a.priority
    ensures BestPriority(accounts, usage, now, k) <==>
              ranked != [] && accounts[k] in ranked && accounts[k].priority == ranked[0].priority
  {
    hide Routable;
    if ranked != [] {
      assert ranked[0] in ranked;
      var i := PositionOf(accounts, ranked[0]);
    }
  }

  lemma InTier(accounts: seq<Account>, usage: Usage, now: int, k: nat)
    requires k < |accounts|
    ensures accounts[k] in SceneOf(accounts, usage, now).TopTier() <==> BestPriority(accounts, usage, now, k)
  {
    hide StableSort, Routable, TotalPreorder, UsageOrder, Filter, BestPriority;
    var scene := SceneOf(accounts, usage, now);
    UsageOrderIsPreorder(usage);
    BestIsFirst(scene);
    TierOfRanked(scene, accounts[k]);
    BestAmong(accounts, usage, now, scene.Ranked(), k);
  }

  lemma SeveralInTier(accounts: seq<Account>, usage: Usage, now: int, tier: seq<Account>)
    requires forall i, j :: 0 <= i < j < |accounts| ==> accounts[i].id != accounts[j].id
    requires Distinct(tier) && forall a :: a in tier ==> a in accounts
    requires forall k :: 0 <= k < |accounts| ==> (accounts[k] in tier <==> BestPriority(accounts, usage, now, k))
    ensures TakesTurns(tier) <==> PayersTakeTurns(accounts, usage, now)
  {
    hide BestPriority;
    if TakesTurns(tier) {
      var i := PositionOf(accounts, tier[0]);
      var j := PositionOf(accounts, tier[1]);
      var lo, hi := if i < j then i else j, if i < j then j else i;
      assert BestPriority(accounts, usage, now, lo) && BestPriority(accounts, usage, now, hi);
    }
    if PayersTakeTurns(accounts, usage, now) {
      var i, j :| 0 <= i < j < |accounts|
                  && BestPriority(accounts, usage, now, i) && BestPriority(accounts, usage, now, j);
      assert accounts[i] in tier && accounts[j] in tier && accounts[i] != accounts[j];
      forall k | 0 <= k < |tier| ensures !RequiresSessionTracking(tier[k].provider) {
        var n := PositionOf(accounts, tier[k]);
      }
    }
  }

  lemma PositionOf(accounts: seq<Account>, a: Account) returns (k: nat)
    requires a in accounts
    ensures k < |accounts| && accounts[k] == a
  {
    k :| 0 <= k < |accounts| && accounts[k] == a;
  }

  lemma RankedFirst(accounts: seq<Account>, usage: Usage, now: int) returns (k: nat)
    requires SceneOf(accounts, usage, now).Ranked() != []
    ensures k < |accounts| && FirstInOrder(accounts, usage, now, k)
    ensures accounts[k] == SceneOf(accounts, usage, now).Ranked()[0]
  {
    var scene := SceneOf(accounts, usage, now);
    UsageOrderIsPreorder(usage);
    k := SortFirst(scene.order, scene.available, accounts);
    hide Filter, StableSort, Routable, MayPrecede, UsageOrder;
    forall j | 0 <= j < |accounts| && Routable(accounts[j], usage, now)
      ensures MayPrecede(accounts[k], accounts[j], usage) && (j < k ==> !MayPrecede(accounts[j], accounts[k], usage))
    {
      OrderExactly(usage, accounts[k], accounts[j]);
      OrderExactly(usage, accounts[j], accounts[k]);
    }
  }

  /** No fallback account has recovered and no usable account has the latest active session. */
  ghost predicate ByTier(accounts: seq<Account>, usage: Usage, now: int, duration: int) {
    && (forall a :: a in accounts ==> !Recovered(a, usage, now))
    && (forall k: nat :: LatestActive(accounts, duration, now, k) ==> !Routable(accounts[k], usage, now))
  }

  /** Who is chosen when nobody is forced: the first recovered fallback account; else the account of the latest
      active session if it is usable; else one of the best priority, and unless payers take turns the first in
      the order. A ticket is drawn exactly when they do. */
  lemma ChoiceOnFields(accounts: seq<Account>, usage: Usage, now: int, duration: int, counter: nat) returns (k: nat)
    requires SceneOf(accounts, usage, now).DistinctIds()
    requires ChooseUnforced(SceneOf(accounts, usage, now), duration, counter).Chosen?
    ensures k < |accounts| && Routable(accounts[k], usage, now)
    ensures var c := ChooseUnforced(SceneOf(accounts, usage, now), duration, counter);
            && c.account == accounts[k] && !c.alone
            && (c.ticket <==> ByTier(accounts, usage, now, duration) && PayersTakeTurns(accounts, usage, now))
    ensures if exists a :: a in accounts && Recovered(a, usage, now) then FirstRecovered(accounts, usage, now, k)
            else if !ByTier(accounts, usage, now, duration) then LatestActive(accounts, duration, now, k)
            else BestPriority(accounts, usage, now, k)
                 && (!PayersTakeTurns(accounts, usage, now) ==> FirstInOrder(accounts, usage, now, k))
  {
    hide Filter, StableSort, Routable, FirstRecovered, LatestActive, FirstInOrder, BestPriority, PayersTakeTurns,
         Recovered, TakesTurns;
    var scene := SceneOf(accounts, usage, now);
    RecoveredMeansFallback(accounts, usage, now);
    k := ActiveFirst(accounts, usage, now, duration);
    if scene.Fallbacks() != [] {
      k := FallbackFirst(accounts, usage, now);
      FirstRecoveredIsUsable(accounts, usage, now, k);
    } else if scene.ActiveAccount(duration).Some? {
      assert !ByTier(accounts, usage, now, duration);
    } else {
      k := TierChoiceOnFields(accounts, usage, now, counter);
    }
  }

  lemma RecoveredMeansFallback(accounts: seq<Account>, usage: Usage, now: int)
    ensures SceneOf(accounts, usage, now).Fallbacks() != [] <==>
            exists a :: a in accounts && Recovered(a, usage, now)
  {
    hide Recovered;
    var scene := SceneOf(accounts, usage, now);
    forall a ensures scene.FallbackTest()(a) <==> Recovered(a, usage, now) {
      RecoveredExactly(scene, usage, a);
    }
    if scene.Fallbacks() != [] {
      assert scene.Fallbacks()[0] in scene.Fallbacks();
    }
  }

  lemma FirstRecoveredIsUsable(accounts: seq<Account>, usage: Usage, now: int, k: nat)
    requires FirstRecovered(accounts, usage, now, k)
    ensures k < |accounts| && Routable(accounts[k], usage, now)
  {
    hide Routable, LongPast;
  }

  lemma TierChoiceOnFields(accounts: seq<Account>, usage: Usage, now: int, counter: nat) returns (k: nat)
    requires SceneOf(accounts, usage, now).DistinctIds() && SceneOf(accounts, usage, now).TopTier() != []
    ensures k < |accounts| && Routable(accounts[k], usage, now) && BestPriority(accounts, usage, now, k)
    ensures var c := ChooseFromTier(SceneOf(accounts, usage, now), counter);
            && c.Chosen? && c.account == accounts[k] && !c.alone
            && (c.ticket <==> PayersTakeTurns(accounts, usage, now))
            && (!c.ticket ==> FirstInOrder(accounts, usage, now, k))
  {
    hide Filter, StableSort, Routable, FirstInOrder, PayersTakeTurns;
    var scene := SceneOf(accounts, usage, now);
    var tier := scene.TopTier();
    UsageOrderIsPreorder(usage);
    TierOnFields(accounts, usage, now);
    TopTierMembers(scene);
    if TakesTurns(tier) {
      assert tier[counter % |tier|] in tier;
      k := PositionOf(accounts, tier[counter % |tier|]);
    } else {
      k := RankedFirst(accounts, usage, now);
      assert tier[0] == accounts[k] && tier[0] in tier;
    }
  }

  /** A forced account that is known and usable goes first, strictly or not; a forced account that is not known,
      or not usable and not strictly forced, makes no difference. */
  lemma ForceExactly(accounts: seq<Account>, usage: Usage, meta: SelectionMeta, now: int, duration: int, counter: nat)
    requires meta.forceAccountId.Some? && SceneOf(accounts, usage, now).DistinctIds()
    ensures var id, scene := meta.forceAccountId.value, SceneOf(accounts, usage, now);
            var s := Selected(scene, meta, duration, counter);
            && (forall a :: a in accounts && a.id == id && Routable(a, usage, now) ==>
                 s.accounts != [] && Core(s.accounts[0]) == Core(a) && s.counter == counter)
            && ((forall a :: a in accounts && a.id == id ==> !Routable(a, usage, now) && !meta.forceStrict) ==>
                 s == Selected(scene, meta.(forceAccountId := None), duration, counter))
  {
    hide Routable, ChooseUnforced, StableSort, Filter, ResetSession, Core;
    var scene := SceneOf(accounts, usage, now);
    var forced := Find(accounts, meta.forceAccountId.value);
    if forced.Some? { RestartKeepsCore(forced.value, duration, now); }
    forall a | a in accounts && a.id == meta.forceAccountId.value ensures forced == Some(a) {
      assert forced.Some?;
    }
  }

  /** A restart is to be persisted exactly if sessions are not bypassed and the session of the chosen account is
      due; nothing but the session fields of the head depends on it. */
  lemma RestartedExactly(scene: Scene, meta: SelectionMeta, duration: int, counter: nat)
    ensures var c, s := Choose(scene, meta, duration, counter), Selected(scene, meta, duration, counter);
            c.Chosen? ==>
              var a := c.account;
              var due := a.provider == "anthropic"
                         && (a.sessionStart.None? || scene.now - a.sessionStart.value >= duration
                             || LongPast(a.rateLimitReset, scene.now));
              && s.resets == (if due && !meta.bypassSession then [SessionReset(a.id, scene.now)] else [])
              && (s.resets == [] ==> s.accounts[0] == a)
              && s.counter == counter + if c.ticket then 1 else 0
  {
    hide Choose, StableSort, Filter, ResetSession, LongPast;
    var c := Choose(scene, meta, duration, counter);
    if c.Chosen? {
      RestartExactly(c.account, duration, scene.now);
    }
  }

  /** When nobody is forced and routing goes by tiers without turns, the head too comes before all others. */
  lemma HeadInOrder(accounts: seq<Account>, usage: Usage, meta: SelectionMeta, now: int, duration: int, counter: nat,
                    j: nat)
    requires SceneOf(accounts, usage, now).DistinctIds() && meta.forceAccountId.None?
    requires ByTier(accounts, usage, now, duration) && !PayersTakeTurns(accounts, usage, now)
    requires 1 <= j < |Selected(SceneOf(accounts, usage, now), meta, duration, counter).accounts|
    ensures var result := Selected(SceneOf(accounts, usage, now), meta, duration, counter).accounts;
            MayPrecede(result[0], result[j], usage)
  {
    var scene := SceneOf(accounts, usage, now);
    UsageOrderIsPreorder(usage);
    AnswerOfChoice(scene, meta, duration, counter);
    TailIsOthers(scene, meta, duration, counter);
    hide Selected, StableSort, Filter, Routable, FirstInOrder, MayPrecede, ByTier, PayersTakeTurns, ChooseUnforced,
         BestPriority, FirstRecovered, LatestActive;
    var result := Selected(scene, meta, duration, counter).accounts;
    var kept := Filter(scene.OtherTest(result[0].id), accounts);
    StableSortMembers(scene.order, kept);
    assert result[j] == result[1..][j - 1];
    assert result[j] in kept;
    var i := PositionOf(accounts, result[j]);
    var k := ChoiceOnFields(accounts, usage, now, duration, counter);
    NothingFirstRecovered(accounts, usage, now, duration);
    FirstPrecedes(accounts, usage, now, k, i);
    SameCoreSameOrder(accounts[k], result[0], result[j], usage);
  }

  lemma NothingFirstRecovered(accounts: seq<Account>, usage: Usage, now: int, duration: int)
    requires ByTier(accounts, usage, now, duration)
    ensures forall a :: a in accounts ==> !Recovered(a, usage, now)
  {
  }

  lemma FirstPrecedes(accounts: seq<Account>, usage: Usage, now: int, k: nat, i: nat)
    requires k < |accounts| && i < |accounts| && FirstInOrder(accounts, usage, now, k)
    requires Routable(accounts[i], usage, now)
    ensures MayPrecede(accounts[k], accounts[i], usage)
  {
    hide Routable, MayPrecede;
  }

  /** The order does not look at session fields. */
  lemma SameCoreSameOrder(a: Account, b: Account, c: Account, usage: Usage)
    requires Core(a) == Core(b)
    ensures MayPrecede(a, c, usage) <==> MayPrecede(b, c, usage)
  {
    SameCoreSameReserve(a, b, usage);
    hide IsAtReserve;
  }

  lemma SameCoreSameReserve(a: Account, b: Account, usage: Usage)
    requires Core(a) == Core(b)
    ensures IsAtReserve(a, usage) == IsAtReserve(b, usage) && a.id == b.id && a.priority == b.priority
  {
    assert a.id == Core(a).id && a.priority == Core(a).priority && a.provider == Core(a).provider;
    assert a.reserve5h == Core(a).reserve5h && a.reserveWeekly == Core(a).reserveWeekly;
    assert b.id == Core(b).id && b.priority == Core(b).priority && b.provider == Core(b).provider;
    assert b.reserve5h == Core(b).reserve5h && b.reserveWeekly == Core(b).reserveWeekly;
  }

  // ---------------------------------------------------------------------
  // Round-robin fairness
  // ---------------------------------------------------------------------

  /** Default selections in this scene hand out turns over `tier`. */
  ghost predicate Rotates(scene: Scene, duration: int, tier: seq<Account>) {
    && scene.Fallbacks() == [] && scene.ActiveAccount(duration).None?
    && scene.TopTier() == tier && TakesTurns(tier)
  }

  const UNFORCED := SelectionMeta(None, false, false)

  /** One selection: the ticket decides who is first, and the account chosen is not changed. */
  lemma TurnHead(scene: Scene, duration: int, tier: seq<Account>, ticket: nat)
    requires Rotates(scene, duration, tier)
    ensures var s := Selected(scene, UNFORCED, duration, ticket);
            && s.accounts != [] && s.accounts[0] == tier[ticket % |tier|]
            && s.resets == [] && s.counter == ticket + 1
  {
  }

  function Tickets(from: int, count: nat): seq<int> { seq(count, i requires 0 <= i < count => from + i) }

  /** Whose turn each ticket is. */
  function TurnOf(tier: seq<Account>): int -> string
    requires tier != []
  {
    (ticket: int) => tier[ticket % |tier|].id
  }

  /** Division with remainder is unique. */
  lemma RemainderUnique(q: int, r: nat, d: int, m: nat, n: nat)
    requires r < n && m < n && q * n + r == d * n + m
    ensures r == m
  {
    MultipleOf(q - d, n);
    MultipleOf(d - q, n);
    assert (q - d) * n == q * n - d * n;
    assert (d - q) * n == d * n - q * n;
  }

  lemma MultipleOf(k: int, n: nat)
    ensures k >= 1 ==> k * n >= n
  {
  }

  /** Tickets one round apart go to the same place. */
  lemma NextRound(x: int, n: nat)
    requires 0 < n
    ensures (x + n) % n == x % n
  {
    assert (x / n + 1) * n == x / n * n + n;
    RemainderUnique(x / n + 1, x % n, (x + n) / n, (x + n) % n, n);
  }

  lemma FirstRound(x: nat, n: nat)
    requires x < n
    ensures x % n == x
  {
  }

  ghost predicate Repeats(turn: int -> string, n: nat) {
    forall x: int, y: int :: y == x + n ==> turn(y) == turn(x)
  }

  /** With turns that repeat every `n` tickets, any `n` consecutive tickets give the same turns. */
  lemma {:induction false} AnyRound(turn: int -> string, n: nat, from: nat)
    requires n > 0 && Repeats(turn, n)
    ensures multiset(Map(turn, Tickets(from, n))) == multiset(Map(turn, Tickets(0, n)))
    decreases from
  {
    hide Map, Tickets, Repeats;
    if from > 0 {
      var common := Tickets(from, n - 1);
      TicketsShift(from, n);
      AnyRound(turn, n, from - 1);
      MapConcat(turn, [from - 1], common);
      MapConcat(turn, common, [from - 1 + n]);
      SameTurn(turn, n, from - 1);
    }
  }

  lemma TicketsShift(from: int, n: nat)
    requires n > 0
    ensures Tickets(from - 1, n) == [from - 1] + Tickets(from, n - 1)
    ensures Tickets(from, n) == Tickets(from, n - 1) + [from - 1 + n]
  {
  }

  lemma SameTurn(turn: int -> string, n: nat, x: int)
    requires Repeats(turn, n)
    ensures Map(turn, [x]) == Map(turn, [x + n])
  {
  }

  /** `rounds` rounds of `n` consecutive tickets. */
  function Rounds(from: nat, n: nat, rounds: nat): seq<int>
    decreases rounds
  {
    if rounds == 0 then [] else Tickets(from, n) + Rounds(from + n, n, rounds - 1)
  }

  lemma {:induction false} RoundsAreConsecutive(from: nat, n: nat, rounds: nat)
    ensures Rounds(from, n, rounds) == Tickets(from, rounds * n)
    decreases rounds
  {
    if rounds > 0 {
      RoundsAreConsecutive(from + n, n, rounds - 1);
      assert rounds * n == n + (rounds - 1) * n;
    }
  }

  /** How many of the tickets are turns of `id`. */
  function TurnsOf(turn: int -> string, tickets: seq<int>, id: string): nat {
    multiset(Map(turn, tickets))[id]
  }

  lemma TurnsAddUp(turn: int -> string, s: seq<int>, t: seq<int>, id: string)
    ensures TurnsOf(turn, s + t, id) == TurnsOf(turn, s, id) + TurnsOf(turn, t, id)
  {
    MapConcat(turn, s, t);
  }

  function Counting(turn: int -> string, id: string): seq<int> -> nat {
    (tickets: seq<int>) => TurnsOf(turn, tickets, id)
  }

  /** Any additive count that gives one to each round gives `rounds` to `rounds` rounds. */
  lemma {:induction false} ManyRounds(count: seq<int> -> nat, n: nat, from: nat, rounds: nat)
    requires count([]) == 0 && forall s, t :: count(s + t) == count(s) + count(t)
    requires forall start: nat :: count(Tickets(start, n)) == 1
    ensures count(Rounds(from, n, rounds)) == rounds
    decreases rounds
  {
    if rounds > 0 {
      ManyRounds(count, n, from + n, rounds - 1);
      assert count(Tickets(from, n)) == 1;
    }
  }

  lemma BalancedRounds(turn: int -> string, n: nat, from: nat, rounds: nat, id: string)
    requires n > 0 && Repeats(turn, n) && TurnsOf(turn, Tickets(0, n), id) == 1
    ensures TurnsOf(turn, Rounds(from, n, rounds), id) == rounds
  {
    var count := Counting(turn, id);
    forall s, t ensures count(s + t) == count(s) + count(t) {
      TurnsAddUp(turn, s, t, id);
    }
    forall start: nat ensures count(Tickets(start, n)) == 1 {
      AnyRound(turn, n, start);
    }
    ManyRounds(count, n, from, rounds);
  }

  lemma CountOnce(s: seq<string>, at: nat)
    requires at < |s| && forall i :: 0 <= i < |s| && i != at ==> s[i] != s[at]
    ensures multiset(s)[s[at]] == 1
  {
    assert s == s[..at] + [s[at]] + s[at + 1..];
    assert s[at] !in s[..at] && s[at] !in s[at + 1..];
  }

  lemma TurnRepeats(tier: seq<Account>)
    requires tier != []
    ensures Repeats(TurnOf(tier), |tier|)
  {
    forall x: int, y: int | y == x + |tier| ensures TurnOf(tier)(y) == TurnOf(tier)(x) {
      NextRound(x, |tier|);
    }
  }

  lemma FirstTurn(tier: seq<Account>, i: nat)
    requires i < |tier|
    ensures TurnOf(tier)(i) == tier[i].id
  {
    FirstRound(i, |tier|);
  }

  /** In the first round the members of the tier come in order, each once. */
  lemma FirstTurns(tier: seq<Account>, r: nat)
    requires r < |tier| && forall i, j :: 0 <= i < j < |tier| ==> tier[i].id != tier[j].id
    ensures TurnsOf(TurnOf(tier), Tickets(0, |tier|), tier[r].id) == 1
  {
    hide TurnOf, Map;
    var turns := Map(TurnOf(tier), Tickets(0, |tier|));
    forall i | 0 <= i < |tier| ensures turns[i] == tier[i].id {
      FirstTurn(tier, i);
    }
    CountOnce(turns, r);
  }

  ghost predicate GoesFirst(scene: Scene, duration: int, ticket: nat, id: string) {
    var chosen := Selected(scene, UNFORCED, duration, ticket).accounts;
    chosen != [] && chosen[0].id == id
  }

  lemma HeadsAreTurns(scenes: seq<Scene>, duration: int, tier: seq<Account>, tickets: seq<int>, heads: seq<string>)
    requires tier != [] && |scenes| == |tickets| == |heads|
    requires forall i :: 0 <= i < |scenes| ==>
               && tickets[i] >= 0 && Rotates(scenes[i], duration, tier)
               && GoesFirst(scenes[i], duration, tickets[i], heads[i])
    ensures heads == Map(TurnOf(tier), tickets)
  {
    hide Selected, Rotates, Map;
    forall i | 0 <= i < |scenes| ensures heads[i] == Map(TurnOf(tier), tickets)[i] {
      TurnHead(scenes[i], duration, tier, tickets[i]);
    }
  }

  /** Fairness: in `rounds` rounds of default selections, whatever the starting counter and in
      whatever order concurrent callers drew their tickets, every member of the tier is first
      exactly `rounds` times. */
  lemma RoundRobinIsFair(scenes: seq<Scene>, duration: int, tier: seq<Account>, from: nat, rounds: nat,
                         tickets: seq<int>, heads: seq<string>, r: nat)
    requires r < |tier| && forall i, j :: 0 <= i < j < |tier| ==> tier[i].id != tier[j].id
    requires |scenes| == |tickets| == |heads|
    requires multiset(tickets) == multiset(Tickets(from, rounds * |tier|))
    requires forall i :: 0 <= i < |scenes| ==>
               && tickets[i] >= 0 && Rotates(scenes[i], duration, tier)
               && GoesFirst(scenes[i], duration, tickets[i], heads[i])
    ensures multiset(heads)[tier[r].id] == rounds
  {
    HeadsAreTurns(scenes, duration, tier, tickets, heads);
    RoundsAreConsecutive(from, |tier|, rounds);
    FairOverTickets(tier, from, rounds, tickets, r);
  }

  /** Selections one after the other: each takes the counter the one before it left. */
  ghost predicate SelectionRun(scenes: seq<Scene>, duration: int, counters: seq<nat>) {
    && |counters| == |scenes| + 1
    && forall i :: 0 <= i < |scenes| ==>
         counters[i + 1] == Selected(scenes[i], UNFORCED, duration, counters[i]).counter
  }

  lemma {:induction false} RunDrawsTickets(scenes: seq<Scene>, duration: int, tier: seq<Account>, counters: seq<nat>,
                                           i: nat)
    requires SelectionRun(scenes, duration, counters) && i <= |scenes|
    requires forall k :: 0 <= k < |scenes| ==> Rotates(scenes[k], duration, tier)
    ensures counters[i] == counters[0] + i
  {
    hide Selected, Rotates;
    if i > 0 {
      RunDrawsTickets(scenes, duration, tier, counters, i - 1);
      assert counters[i - 1 + 1] == Selected(scenes[i - 1], UNFORCED, duration, counters[i - 1]).counter;
      TurnHead(scenes[i - 1], duration, tier, counters[i - 1]);
    }
  }

  /** Fairness over a run: from any starting counter, `rounds` times as many selections as the tier has
      members make each of them first exactly `rounds` times. */
  lemma RoundRobinRunIsFair(scenes: seq<Scene>, duration: int, tier: seq<Account>, rounds: nat,
                            counters: seq<nat>, heads: seq<string>, r: nat)
    requires r < |tier| && forall i, j :: 0 <= i < j < |tier| ==> tier[i].id != tier[j].id
    requires SelectionRun(scenes, duration, counters) && |heads| == |scenes| == rounds * |tier|
    requires forall i :: 0 <= i < |scenes| ==>
               Rotates(scenes[i], duration, tier) && GoesFirst(scenes[i], duration, counters[i], heads[i])
    ensures multiset(heads)[tier[r].id] == rounds
  {
    hide Selected, Rotates, GoesFirst;
    var tickets := Tickets(counters[0], |scenes|);
    forall i | 0 <= i < |scenes| ensures tickets[i] == counters[i] {
      RunDrawsTickets(scenes, duration, tier, counters, i);
    }
    RoundRobinIsFair(scenes, duration, tier, counters[0], rounds, tickets, heads, r);
  }

  lemma FairOverTickets(tier: seq<Account>, from: nat, rounds: nat, tickets: seq<int>, r: nat)
    requires r < |tier| && forall i, j :: 0 <= i < j < |tier| ==> tier[i].id != tier[j].id
    requires multiset(tickets) == multiset(Rounds(from, |tier|, rounds))
    ensures TurnsOf(TurnOf(tier), tickets, tier[r].id) == rounds
  {
    var n := |tier|;
    var turn := TurnOf(tier);
    MapOfBag(turn, tickets, Rounds(from, n, rounds));
    TurnRepeats(tier);
    FirstTurns(tier, r);
    BalancedRounds(turn, n, from, rounds, tier[r].id);
  }

  // ---------------------------------------------------------------------
  // Session restarts over a run
  // ---------------------------------------------------------------------

  ghost predicate Restarts(a: Account, duration: int, now: int) { ResetSession(a, duration, now).1.Some? }

  /** The account offered at each step is the one the previous step left, as far as the provider
      and the session start go, and no new rate-limit reset was recorded; the clock does not go back. */
  ghost predicate SessionRun(accounts: seq<Account>, times: seq<int>, duration: int) {
    && |accounts| == |times|
    && (forall i :: 0 <= i < |times| - 1 ==> times[i] <= times[i + 1])
    && (forall i :: 0 <= i < |times| - 1 ==> Follows(accounts[i], accounts[i + 1], duration, times[i]))
  }

  ghost predicate Follows(before: Account, after: Account, duration: int, now: int) {
    var left := ResetSession(before, duration, now).0;
    && after.provider == left.provider && after.sessionStart == left.sessionStart
    && (after.rateLimitReset == left.rateLimitReset || after.rateLimitReset.None?)
  }

  /** After a restart at step `i`, the session never starts before that moment again; and after a
      restart for a new window there is no recorded reset left to trigger another. */
  lemma {:induction false} AfterRestart(accounts: seq<Account>, times: seq<int>, duration: int, i: nat, j: nat)
    requires SessionRun(accounts, times, duration)
    requires i < j < |times| && Restarts(accounts[i], duration, times[i])
    ensures times[i] <= times[j]
    ensures accounts[j].sessionStart.Some? && times[i] <= accounts[j].sessionStart.value
    ensures WindowTriggers(accounts[i], times[i]) ==> accounts[j].rateLimitReset.None?
    decreases j
  {
    assert Follows(accounts[j - 1], accounts[j], duration, times[j - 1]);
    if i < j - 1 {
      AfterRestart(accounts, times, duration, i, j - 1);
    }
  }

  /** Where every selection is given back the account as the one before it returned it, the cleared reset
      included, a new usage window restarts the session at most once, and every other restart is at least
      the session duration after each earlier one. */
  lemma RestartsAreSpaced(accounts: seq<Account>, times: seq<int>, duration: int, i: nat, j: nat)
    requires SessionRun(accounts, times, duration)
    requires i < j < |times|
    requires Restarts(accounts[i], duration, times[i]) && Restarts(accounts[j], duration, times[j])
    ensures !(WindowTriggers(accounts[i], times[i]) && WindowTriggers(accounts[j], times[j]))
    ensures !WindowTriggers(accounts[j], times[j]) ==> times[j] - times[i] >= duration
  {
    AfterRestart(accounts, times, duration, i, j);
  }
}
