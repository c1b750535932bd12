/** The routing engine: which account serves a request, in which order the others are
    tried, and when sessions are restarted. */
module LoadBalancer {
  import opened Collections
  import opened Eligibility

  const RESET_DEBOUNCE_MS := 15_000

  datatype SelectionMeta = SelectionMeta(forceAccountId: Option<string>, forceStrict: bool, bypassSession: bool)

  datatype SessionReset = SessionReset(accountId: string, newSessionStart: int)

  // ---------------------------------------------------------------------
  // The order in which accounts are tried
  // ---------------------------------------------------------------------

  datatype RouteKey = RouteKey(priority: int, atReserve: bool, reset: Option<int>)

  function KeyOf(a: Account, usage: Usage): RouteKey {
    RouteKey(a.priority, IsAtReserve(a, usage), if a.id in usage then usage[a.id].resetsAtMs else None)
  }

  /** Priority first, then accounts under their reserve, then the soonest reset; unknown resets last. */
  predicate KeyLe(x: RouteKey, y: RouteKey) {
    if x.priority != y.priority then x.priority < y.priority
    else if x.atReserve != y.atReserve then !x.atReserve
    else match (x.reset, y.reset)
      case (Some(r), Some(s)) => r <= s
      case (Some(_), None) => true
      case (None, Some(_)) => false
      case (None, None) => true
  }

  function UsageOrder(usage: Usage): (Account, Account) -> bool {
    (a: Account, b: Account) => KeyLe(KeyOf(a, usage), KeyOf(b, usage))
  }

  ghost predicate RespectsPriority(order: (Account, Account) -> bool) {
    forall a, b :: order(a, b) ==> a.priority <= b.priority
  }

  lemma UsageOrderIsPreorder(usage: Usage)
    ensures TotalPreorder(UsageOrder(usage)) && RespectsPriority(UsageOrder(usage))
  {
    var order := UsageOrder(usage);
    forall a, b ensures order(a, b) || order(b, a) {
      KeyLeTotal(KeyOf(a, usage), KeyOf(b, usage));
    }
    forall a, b, c | order(a, b) && order(b, c) ensures order(a, c) {
      KeyLeTransitive(KeyOf(a, usage), KeyOf(b, usage), KeyOf(c, usage));
    }
  }

  /** What the routing order means for two accounts: the better priority first; then one that is not at its
      reserve; then the sooner reset, a known one before an unknown one. */
  ghost predicate MayPrecede(a: Account, b: Account, usage: Usage) {
    && a.priority <= b.priority
    && (a.priority == b.priority ==>
         && !(IsAtReserve(a, usage) && !IsAtReserve(b, usage))
         && (IsAtReserve(a, usage) == IsAtReserve(b, usage) && b.id in usage && usage[b.id].resetsAtMs.Some? ==>
              && a.id in usage && usage[a.id].resetsAtMs.Some?
              && usage[a.id].resetsAtMs.value <= usage[b.id].resetsAtMs.value))
  }

  lemma OrderExactly(usage: Usage, a: Account, b: Account)
    ensures UsageOrder(usage)(a, b) <==> MayPrecede(a, b, usage)
  {
    hide IsAtReserve;
  }

  lemma KeyLeTotal(x: RouteKey, y: RouteKey)
    ensures KeyLe(x, y) || KeyLe(y, x)
  {
  }

  lemma KeyLeTransitive(x: RouteKey, y: RouteKey, z: RouteKey)
    requires KeyLe(x, y) && KeyLe(y, z)
    ensures KeyLe(x, z)
  {
  }

  function ByPriority(): (Account, Account) -> bool {
    (a: Account, b: Account) => a.priority <= b.priority
  }

  // ---------------------------------------------------------------------
  // Sessions
  // ---------------------------------------------------------------------

  /** Of the known providers only "anthropic" tracks sessions; unknown names track none. */
  predicate RequiresSessionTracking(provider: string) { provider == "anthropic" }

  predicate WindowHasReset(a: Account, now: int) {
    a.rateLimitReset.Some? && NormalizeEpochMillis(a.rateLimitReset.value) < now - RESET_DEBOUNCE_MS
  }

  predicate DurationExpired(a: Account, duration: int, now: int) {
    RequiresSessionTracking(a.provider) && (a.sessionStart.None? || now - a.sessionStart.value >= duration)
  }

  predicate WindowTriggers(a: Account, now: int) {
    a.provider == "anthropic" && WindowHasReset(a, now)
  }

  /** The account after a selection, and the reset to persist if its session was restarted. */
  function ResetSession(a: Account, duration: int, now: int): (Account, Option<SessionReset>) {
    if DurationExpired(a, duration, now) || WindowTriggers(a, now) then
      (a.(sessionStart := Some(now), sessionRequestCount := 0,
          rateLimitReset := if WindowTriggers(a, now) then None else a.rateLimitReset),
       Some(SessionReset(a.id, now)))
    else (a, None)
  }

  predicate HasActiveSession(a: Account, duration: int, now: int) {
    && RequiresSessionTracking(a.provider)
    && a.sessionStart.Some? && a.sessionStart.value <= now && now - a.sessionStart.value < duration
  }

  /** The recorded reset, in milliseconds if it is in seconds, lies more than fifteen seconds back. */
  ghost predicate LongPast(reset: Option<int>, now: int) {
    reset.Some? &&
    var r := reset.value;
    (if -1_000_000_000_000 < r < 1_000_000_000_000 then 1000 * r else r) < now - 15_000
  }

  lemma LongPastExactly(a: Account, now: int)
    ensures WindowHasReset(a, now) <==> LongPast(a.rateLimitReset, now)
  {
    if a.rateLimitReset.Some? { NormalizeExactly(a.rateLimitReset.value); }
  }

  /** A session is due for a restart exactly if it is an Anthropic one that has not begun, has lasted its
      duration, or whose usage window has reset; the reset is then cleared if it was the window's. */
  lemma RestartExactly(a: Account, duration: int, now: int)
    ensures var passed := LongPast(a.rateLimitReset, now);
            var due := a.provider == "anthropic"
                       && (a.sessionStart.None? || now - a.sessionStart.value >= duration || passed);
            ResetSession(a, duration, now)
            == if due then
                 (a.(sessionStart := Some(now), sessionRequestCount := 0,
                     rateLimitReset := if passed then None else a.rateLimitReset),
                  Some(SessionReset(a.id, now)))
               else (a, None)
  {
    LongPastExactly(a, now);
    hide LongPast, WindowHasReset;
  }

  /** Active is an Anthropic session that has begun and has not lasted its duration; it restarts only for
      its usage window. */
  lemma ActiveExactly(a: Account, duration: int, now: int)
    ensures HasActiveSession(a, duration, now) <==>
              && a.provider == "anthropic" && a.sessionStart.Some?
              && a.sessionStart.value <= now < a.sessionStart.value + duration
    ensures HasActiveSession(a, duration, now) && ResetSession(a, duration, now).1.Some? ==>
              LongPast(a.rateLimitReset, now)
  {
    RestartExactly(a, duration, now);
  }

  function StartOrZero(a: Account): int { if a.sessionStart.Some? then a.sessionStart.value else 0 }

  /** The last of the accounts whose session started latest. */
  function LatestSession(s: seq<Account>): (r: Account)
    requires s != []
    ensures r in s && forall a :: a in s ==> StartOrZero(a) <= StartOrZero(r)
  {
    if |s| == 1 then s[0]
    else
      var rest := LatestSession(s[1..]);
      assert s == [s[0]] + s[1..];
      if StartOrZero(s[0]) > StartOrZero(rest) then s[0] else rest
  }

  // ---------------------------------------------------------------------
  // What a selection looks at
  // ---------------------------------------------------------------------

  /** The accounts, which of them are available, the order to try them in, and the clock. */
  datatype Scene = Scene(accounts: seq<Account>, available: Account -> bool,
                         order: (Account, Account) -> bool, now: int)
  {
    ghost predicate WellOrdered() { TotalPreorder(order) && RespectsPriority(order) }

    predicate DistinctIds() {
      forall i, j :: 0 <= i < j < |accounts| ==> accounts[i].id != accounts[j].id
    }

    function Ranked(): seq<Account> { StableSort(order, Filter(available, accounts)) }

    /** The other available accounts, in the order they are tried. */
    function Others(id: string): seq<Account> {
      StableSort(order, Filter(OtherTest(id), accounts))
    }

    function OtherTest(id: string): Account -> bool {
      (a: Account) => a.id != id && available(a)
    }

    function FallbackTest(): Account -> bool {
      (a: Account) => a.autoFallback && WindowHasReset(a, now) && available(a)
    }

    function Fallbacks(): seq<Account> { Filter(FallbackTest(), accounts) }

    function SessionTest(duration: int): Account -> bool {
      (a: Account) => HasActiveSession(a, duration, now)
    }

    function Sessions(duration: int): seq<Account> { Filter(SessionTest(duration), accounts) }

    /** The latest active session, if its account is available. */
    function ActiveAccount(duration: int): Option<Account> {
      var sessions := Sessions(duration);
      if sessions != [] && available(LatestSession(sessions)) then Some(LatestSession(sessions)) else None
    }

    /** The available accounts that share the best priority. */
    function TopTier(): seq<Account> {
      var ranked := Ranked();
      if ranked == [] then [] else Filter((a: Account) => a.priority == ranked[0].priority, ranked)
    }
  }

  function SceneOf(accounts: seq<Account>, usage: Usage, now: int): Scene {
    Scene(accounts, (a: Account) => Routable(a, usage, now), UsageOrder(usage), now)
  }

  function Find(accounts: seq<Account>, id: string): (r: Option<Account>)
    ensures r.None? ==> forall a :: a in accounts ==> a.id != id
    ensures r.Some? ==> r.value in accounts && r.value.id == id
  {
    if accounts == [] then None
    else if accounts[0].id == id then Some(accounts[0])
    else Find(accounts[1..], id)
  }

  // ---------------------------------------------------------------------
  // The selection, as a function
  // ---------------------------------------------------------------------

  /** Who goes first; whether nobody else is tried; whether a round-robin ticket was drawn. */
  datatype Choice = Nobody | Chosen(account: Account, alone: bool, ticket: bool)

  predicate TakesTurns(tier: seq<Account>) {
    |tier| > 1 && forall k :: 0 <= k < |tier| ==> !RequiresSessionTracking(tier[k].provider)
  }

  function ChooseFromTier(scene: Scene, counter: nat): Choice {
    var tier := scene.TopTier();
    if tier == [] then Nobody
    else if TakesTurns(tier) then Chosen(tier[counter % |tier|], false, true)
    else Chosen(tier[0], false, false)
  }

  function ChooseUnforced(scene: Scene, duration: int, counter: nat): Choice {
    if scene.Fallbacks() != [] then Chosen(StableSort(ByPriority(), scene.Fallbacks())[0], false, false)
    else
      var active := scene.ActiveAccount(duration);
      if active.Some? then Chosen(active.value, false, false) else ChooseFromTier(scene, counter)
  }

  function Choose(scene: Scene, meta: SelectionMeta, duration: int, counter: nat): Choice {
    var forced := if meta.forceAccountId.Some? then Find(scene.accounts, meta.forceAccountId.value) else None;
    if forced.None? then ChooseUnforced(scene, duration, counter)
    else if scene.available(forced.value) then Chosen(forced.value, meta.forceStrict, false)
    else if meta.forceStrict then Nobody
    else ChooseUnforced(scene, duration, counter)
  }

  datatype Selection = Selection(accounts: seq<Account>, resets: seq<SessionReset>, counter: nat)

  function Outcome(choice: Choice, scene: Scene, meta: SelectionMeta, duration: int, counter: nat): Selection {
    match choice
    case Nobody => Selection([], [], counter)
    case Chosen(a, alone, ticket) =>
      var (head, reset) := if meta.bypassSession then (a, None) else ResetSession(a, duration, scene.now);
      Selection([head] + (if alone then [] else scene.Others(a.id)),
                if reset.Some? then [reset.value] else [],
                if ticket then counter + 1 else counter)
  }

  function Selected(scene: Scene, meta: SelectionMeta, duration: int, counter: nat): Selection {
    Outcome(Choose(scene, meta, duration, counter), scene, meta, duration, counter)
  }

  // ---------------------------------------------------------------------
  // The selection, as the program performs it
  // ---------------------------------------------------------------------

  class SessionStrategy {
    const sessionDurationMs: int
    var roundRobinCounter: nat

    constructor (sessionDurationMs: int)
      ensures this.sessionDurationMs == sessionDurationMs && roundRobinCounter == 0
    {
      this.sessionDurationMs := sessionDurationMs;
      roundRobinCounter := 0;
    }

    /** Restarts the session of the chosen account when it is due. */
    method MaybeResetSession(account: Account, bypass: bool, now: int)
      returns (updated: Account, resets: seq<SessionReset>)
      ensures updated.id == account.id
      ensures bypass ==> updated == account && resets == []
      ensures !bypass ==> updated == ResetSession(account, sessionDurationMs, now).0
      ensures !bypass ==> var r := ResetSession(account, sessionDurationMs, now).1;
                          resets == if r.Some? then [r.value] else []
    {
      updated, resets := account, [];
      if bypass { return; }
      var fixedDurationExpired := RequiresSessionTracking(account.provider)
        && (account.sessionStart.None? || now - account.sessionStart.value >= sessionDurationMs);
      var rateLimitWindowReset := account.provider == "anthropic" && WindowHasReset(account, now);
      if fixedDurationExpired || rateLimitWindowReset {
        updated := updated.(sessionStart := Some(now), sessionRequestCount := 0);
        if rateLimitWindowReset {
          updated := updated.(rateLimitReset := None);
        }
        resets := [SessionReset(account.id, now)];
      }
    }

    method Select(accounts: seq<Account>, usage: Usage, meta: SelectionMeta, now: int)
      returns (result: seq<Account>, resets: seq<SessionReset>)
      modifies this
      ensures Selection(result, resets, roundRobinCounter)
              == Selected(SceneOf(accounts, usage, now), meta, sessionDurationMs, old(roundRobinCounter))
    {
      var scene := SceneOf(accounts, usage, now);
      result, resets := SelectIn(scene, meta) by { UsageOrderIsPreorder(usage); }
    }

    method SelectIn(scene: Scene, meta: SelectionMeta)
      returns (result: seq<Account>, resets: seq<SessionReset>)
      requires scene.WellOrdered()
      modifies this
      ensures Selection(result, resets, roundRobinCounter)
              == Selected(scene, meta, sessionDurationMs, old(roundRobinCounter))
    {
      resets := [];
      var chosen: Account;
      if meta.forceAccountId.Some? {
        var forced := Find(scene.accounts, meta.forceAccountId.value);
        if forced.Some? {
          if !scene.available(forced.value) {
            if meta.forceStrict { return [], resets; }
          } else {
            chosen, resets := MaybeResetSession(forced.value, meta.bypassSession, scene.now);
            if meta.forceStrict { return [chosen], resets; }
            result := [chosen] + scene.Others(chosen.id);
            return;
          }
        }
      }
      result, resets := SelectUnforced(scene, meta);
    }

    /** Auto-fallback first, then the latest active session, then the best tier. */
    method SelectUnforced(scene: Scene, meta: SelectionMeta)
      returns (result: seq<Account>, resets: seq<SessionReset>)
      requires scene.WellOrdered()
      modifies this
      ensures Selection(result, resets, roundRobinCounter)
              == Outcome(ChooseUnforced(scene, sessionDurationMs, old(roundRobinCounter)),
                         scene, meta, sessionDurationMs, old(roundRobinCounter))
    {
      var chosen: Account;
      var fallbacks := StableSort(ByPriority(), scene.Fallbacks());
      if fallbacks != [] {
        chosen, resets := MaybeResetSession(fallbacks[0], meta.bypassSession, scene.now);
        result := [chosen] + scene.Others(chosen.id);
        return;
      }
      var sessions := scene.Sessions(sessionDurationMs);
      if sessions != [] {
        var active := LatestSession(sessions);
        if scene.available(active) {
          chosen, resets := MaybeResetSession(active, meta.bypassSession, scene.now);
          result := [chosen] + scene.Others(chosen.id);
          return;
        }
      }
      result, resets := SelectFromTier(scene, meta);
    }

    /** The last regime: the best priority tier, in turns if all of it is pay-as-you-go. */
    method SelectFromTier(scene: Scene, meta: SelectionMeta)
      returns (result: seq<Account>, resets: seq<SessionReset>)
      requires scene.WellOrdered()
      modifies this
      ensures Selection(result, resets, roundRobinCounter)
              == Outcome(ChooseFromTier(scene, old(roundRobinCounter)),
                         scene, meta, sessionDurationMs, old(roundRobinCounter))
    {
      hide StableSort, Filter, ResetSession, RequiresSessionTracking;
      resets := [];
      var available := StableSort(scene.order, Filter(scene.available, scene.accounts));
      if available == [] { return [], []; }
      var topPriority := available[0].priority;
      var sameTier := Filter((a: Account) => a.priority == topPriority, available);
      assert available[0] in sameTier;
      var chosenIdx := 0;
      if |sameTier| > 1 {
        var allPayg := forall k :: 0 <= k < |sameTier| ==> !RequiresSessionTracking(sameTier[k].provider);
        if allPayg {
          var counter := roundRobinCounter;
          roundRobinCounter := roundRobinCounter + 1;
          chosenIdx := counter % |sameTier|;
        }
      }
      var chosen;
      chosen, resets := MaybeResetSession(sameTier[chosenIdx], meta.bypassSession, scene.now);
      var others := Filter((a: Account) => a.id != chosen.id, available);
      OthersOfRanked(scene, chosen.id);
      result := [chosen] + others;
    }
  }

  /** Dropping one account from the ranking is ranking the others. */
  lemma OthersOfRanked(scene: Scene, id: string)
    requires scene.WellOrdered()
    ensures Filter((a: Account) => a.id != id, scene.Ranked()) == scene.Others(id)
  {
    var other := (a: Account) => a.id != id;
    SortFilterCommute(scene.order, other, Filter(scene.available, scene.accounts));
    FilterTwice(scene.available, other, scene.OtherTest(id), scene.accounts);
  }
}
