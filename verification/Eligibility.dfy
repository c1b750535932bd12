/** Accounts, usage telemetry and the routing eligibility test that the load balancer
    and the dashboard share. */
module Eligibility {
  import opened Collections

  // ---------------------------------------------------------------------
  // Data
  // ---------------------------------------------------------------------

  /** The fields of an account that routing reads or writes. Timestamps are epoch values. */
  datatype Account = Account(
    id: string,
    provider: string,
    priority: int,
    paused: bool,
    autoFallback: bool,
    rateLimitedUntil: Option<int>,
    rateLimitReset: Option<int>,
    rateLimitStatus: Option<string>,
    sessionStart: Option<int>,
    sessionRequestCount: int,
    reserve5h: int,
    reserveWeekly: int,
    reserveHard: bool,
    overageProtection: bool)

  /** A utilisation percentage; NonFinite is a NaN or an infinity. */
  datatype Percent = Finite(pct: real) | NonFinite {
    predicate AtLeast(bound: real) { NonFinite? || pct >= bound }
  }

  datatype WindowKind = FiveHour | Weekly | Other

  datatype Window = Window(kind: WindowKind, utilization: Percent)

  datatype UsageInfo = UsageInfo(utilization: Percent, resetsAtMs: Option<int>, windows: seq<Window>)

  type Usage = map<string, UsageInfo>

  // ---------------------------------------------------------------------
  // Upstream status
  // ---------------------------------------------------------------------

  datatype UpstreamStatus =
    | Missing | Ok | AllowedWarning | AuthFailed | ReauthRequired
    | Unauthorized | Forbidden | RefreshTokenRevoked | OtherStatus(raw: string)
  {
    predicate IsAuthFailure() {
      AuthFailed? || ReauthRequired? || Unauthorized? || Forbidden? || RefreshTokenRevoked?
    }
  }

  /** Unicode White_Space, which trimming removes. */
  predicate IsSpace(c: char) {
    || '\U{9}' <= c <= '\U{d}' || c == ' ' || c == '\U{85}' || c == '\U{a0}' || c == '\U{1680}'
    || '\U{2000}' <= c <= '\U{200a}' || c == '\U{2028}' || c == '\U{2029}' || c == '\U{202f}'
    || c == '\U{205f}' || c == '\U{3000}'
  }

  function Trim(s: string): string {
    if s == [] then s
    else if IsSpace(s[0]) then Trim(s[1..])
    else if IsSpace(s[|s| - 1]) then Trim(s[..|s| - 1])
    else s
  }

  function LowerAscii(s: string): string {
    Map((c: char) => if 'A' <= c <= 'Z' then (c as int + 32) as char else c, s)
  }

  predicate StartsWith(s: string, prefix: string) { prefix <= s }

  function FromRaw(status: Option<string>): UpstreamStatus {
    if status.None? then Missing else Classify(LowerAscii(Trim(status.value)), status.value)
  }

  function Classify(lowered: string, raw: string): UpstreamStatus {
    if lowered == "" then Missing
    else if lowered == "ok" || lowered == "allowed" then Ok
    else if Contains(lowered, "allowed_warning") then AllowedWarning
    else if StartsWith(lowered, "auth failed") || StartsWith(lowered, "authentication failed") then AuthFailed
    else if Contains(lowered, "re-authentication") || Contains(lowered, "reauth") then ReauthRequired
    else if Contains(lowered, "unauthorized") then Unauthorized
    else if Contains(lowered, "forbidden") then Forbidden
    else if Contains(lowered, "refresh token revoked") then RefreshTokenRevoked
    else OtherStatus(raw)
  }

  lemma ClassifyKeepsRaw(lowered: string, s: string, t: string)
    ensures Classify(lowered, s) == Classify(lowered, t)
            || (Classify(lowered, s) == OtherStatus(s) && Classify(lowered, t) == OtherStatus(t))
  {
  }

  lemma LowerKeepsSpace(c: char)
    ensures IsSpace(c) <==> IsSpace(if 'A' <= c <= 'Z' then (c as int + 32) as char else c)
  {
  }

  /** Trimming and lower-casing commute. */
  lemma {:induction false} TrimLower(s: string)
    ensures Trim(LowerAscii(s)) == LowerAscii(Trim(s))
    decreases |s|
  {
    if s != [] {
      var l := LowerAscii(s);
      LowerKeepsSpace(s[0]);
      LowerKeepsSpace(s[|s| - 1]);
      assert LowerAscii(s[1..]) == l[1..] && LowerAscii(s[..|s| - 1]) == l[..|l| - 1];
      if IsSpace(s[0]) {
        TrimLower(s[1..]);
      } else if IsSpace(s[|s| - 1]) {
        TrimLower(s[..|s| - 1]);
      }
    }
  }

  /** The verdict on a status does not depend on letter case. */
  lemma StatusIgnoresCase(s: string, t: string)
    requires LowerAscii(s) == LowerAscii(t)
    ensures FromRaw(Some(s)) == FromRaw(Some(t))
            || (FromRaw(Some(s)) == OtherStatus(s) && FromRaw(Some(t)) == OtherStatus(t))
    ensures FromRaw(Some(s)).IsAuthFailure() == FromRaw(Some(t)).IsAuthFailure()
  {
    hide Classify;
    TrimLower(s);
    TrimLower(t);
    ClassifyKeepsRaw(LowerAscii(Trim(s)), s, t);
  }

  /** Trimming takes exactly the white space off both ends. */
  lemma {:induction false} TrimTakesEnds(before: string, core: string, after: string)
    requires forall c :: c in before || c in after ==> IsSpace(c)
    requires core != [] ==> !IsSpace(core[0]) && !IsSpace(core[|core| - 1])
    ensures Trim(before + core + after) == core
    decreases |before| + |after|
  {
    var s := before + core + after;
    if before != [] {
      assert s[1..] == before[1..] + core + after;
      TrimTakesEnds(before[1..], core, after);
    } else if after != [] {
      assert s[..|s| - 1] == before + core + after[..|after| - 1];
      if core == [] {
        assert s == after && s[1..] == [] + core + after[1..];
        TrimTakesEnds([], core, after[1..]);
      } else {
        assert s[0] == core[0];
        TrimTakesEnds(before, core, after[..|after| - 1]);
      }
    } else {
      assert s == core;
    }
  }

  /** The 25 white-space characters, and lower-casing. */
  lemma TextExactly(c: char, s: string)
    ensures IsSpace(c) <==>
              c in "\t\n\U{b}\U{c}\r \U{85}\U{a0}\U{1680}\U{2000}\U{2001}\U{2002}\U{2003}\U{2004}\U{2005}"
                   + "\U{2006}\U{2007}\U{2008}\U{2009}\U{200a}\U{2028}\U{2029}\U{202f}\U{205f}\U{3000}"
    ensures |LowerAscii(s)| == |s|
    ensures forall i :: 0 <= i < |s| ==>
              if 'A' <= s[i] <= 'Z' then LowerAscii(s)[i] - 'a' == s[i] - 'A' else LowerAscii(s)[i] == s[i]
  {
  }

  /** Which texts are taken for what. Only the text of an unknown status is kept. */
  lemma StatusExactly(status: Option<string>)
    ensures var r := FromRaw(status);
            var t := if status.Some? then LowerAscii(Trim(status.value)) else "";
            var known := t in {"", "ok", "allowed"} || Occurs("allowed_warning", t);
            var failed := "auth failed" <= t || "authentication failed" <= t;
            var reauth := Occurs("re-authentication", t) || Occurs("reauth", t);
            && (r.Missing? <==> t == "") && (r.Ok? <==> t == "ok" || t == "allowed")
            && (r.AllowedWarning? <==> Occurs("allowed_warning", t))
            && (r.IsAuthFailure() <==>
                 !known && (failed || reauth || Occurs("unauthorized", t) || Occurs("forbidden", t)
                            || Occurs("refresh token revoked", t)))
            && (r.AuthFailed? <==> !known && failed)
            && (r.ReauthRequired? <==> !known && !failed && reauth)
            && (r.Unauthorized? ==> Occurs("unauthorized", t)) && (r.Forbidden? ==> Occurs("forbidden", t))
            && (r.RefreshTokenRevoked? ==> Occurs("refresh token revoked", t))
            && (r.OtherStatus? ==> status == Some(r.raw))
  {
    hide Occurs, Contains, LowerAscii, Trim;
    var t := if status.Some? then LowerAscii(Trim(status.value)) else "";
    ContainsIsOccurs(t, "allowed_warning");
    ContainsIsOccurs(t, "re-authentication");
    ContainsIsOccurs(t, "reauth");
    ContainsIsOccurs(t, "unauthorized");
    ContainsIsOccurs(t, "forbidden");
    ContainsIsOccurs(t, "refresh token revoked");
    TooShort("allowed_warning", t);
  }

  lemma TooShort(part: string, t: string)
    ensures Occurs(part, t) ==> |part| <= |t|
  {
  }

  // ---------------------------------------------------------------------
  // Timestamps
  // ---------------------------------------------------------------------

  const MS_THRESHOLD := 1_000_000_000_000

  function Abs(x: int): nat { if x < 0 then -x else x }

  /** Values below the threshold are taken for seconds. Multiplying them cannot overflow 64 bits. */
  function NormalizeEpochMillis(ts: int): int {
    if Abs(ts) < MS_THRESHOLD then ts * 1000 else ts
  }

  /** Normalising is safe to repeat exactly when the value is not a timestamp in
      seconds of the first billion seconds around the epoch. */
  lemma NormalizeTwice(ts: int)
    ensures NormalizeEpochMillis(NormalizeEpochMillis(ts)) == NormalizeEpochMillis(ts)
            <==> ts == 0 || Abs(ts) >= 1_000_000_000
  {
  }

  /** Below ten to the twelfth a timestamp is in seconds: it is brought to the same instant in milliseconds,
      and from there on it is left alone. */
  lemma NormalizeExactly(ts: int)
    ensures -1_000_000_000_000 < ts < 1_000_000_000_000 ==> NormalizeEpochMillis(ts) == 1000 * ts
    ensures ts <= -1_000_000_000_000 || 1_000_000_000_000 <= ts ==> NormalizeEpochMillis(ts) == ts
  {
  }

  // ---------------------------------------------------------------------
  // Overage and reserve
  // ---------------------------------------------------------------------

  predicate AnthropicFamily(provider: string) { provider == "anthropic" || provider == "claude-oauth" }

  predicate FiveHourKnown(windows: seq<Window>) {
    exists k :: 0 <= k < |windows| && windows[k].kind.FiveHour?
  }

  predicate FiveHourExhausted(windows: seq<Window>) {
    exists k :: 0 <= k < |windows| && windows[k].kind.FiveHour? && windows[k].utilization.AtLeast(100.0)
  }

  predicate IsAtOverage(account: Account, info: UsageInfo) {
    if info.windows == [] then
      AnthropicFamily(account.provider) || info.utilization.AtLeast(100.0)
    else
      exists k :: 0 <= k < |info.windows| && WindowOver(account.provider, info.windows, info.windows[k])
  }

  predicate WindowOver(provider: string, windows: seq<Window>, w: Window) {
    && w.utilization.AtLeast(100.0)
    && (AnthropicFamily(provider) && w.kind.Other? ==> !FiveHourKnown(windows) || FiveHourExhausted(windows))
  }

  function Max(x: int, y: int): int { if x >= y then x else y }

  predicate IsAtReserve(account: Account, usage: Usage) {
    && !(account.reserve5h == 0 && account.reserveWeekly == 0)
    && account.id in usage
    && var info := usage[account.id];
       if info.windows == [] then
         var threshold := Max(account.reserve5h, account.reserveWeekly);
         threshold > 0 && info.utilization.AtLeast((100 - threshold) as real)
       else
         exists k :: 0 <= k < |info.windows| && WindowAtReserve(account, info.windows, info.windows[k])
  }

  predicate WindowAtReserve(account: Account, windows: seq<Window>, w: Window) {
    var threshold := if w.kind.Weekly? then account.reserveWeekly else account.reserve5h;
    && threshold > 0
    && (w.kind.Other? && AnthropicFamily(account.provider) ==> FiveHourExhausted(windows))
    && w.utilization.AtLeast((if threshold > 100 then 0 else 100 - threshold) as real)
  }

  /** The utilisation is unknown or at least `bound` percent. */
  ghost predicate Reaches(u: Percent, bound: int) { u.NonFinite? || u.pct >= bound as real }

  /** Overage on windows and numbers: without windows an Anthropic account is taken to be over, another one from
      a total of 100 on; with windows one of them must be at 100, but the extra budget of an Anthropic account
      counts only if no five-hour window is known. */
  lemma OverageExactly(account: Account, info: UsageInfo)
    ensures var anthropic, ws := account.provider in {"anthropic", "claude-oauth"}, info.windows;
            IsAtOverage(account, info) <==>
              if ws == [] then anthropic || Reaches(info.utilization, 100)
              else exists k :: 0 <= k < |ws| && Reaches(ws[k].utilization, 100)
                               && (anthropic && ws[k].kind.Other? ==>
                                    forall i :: 0 <= i < |ws| ==> !ws[i].kind.FiveHour?)
  {
  }

  /** The reserve on kinds and numbers of windows: a five-hour or another window against the five-hour reserve,
      a weekly one against the weekly reserve; the extra budget of an Anthropic account only once its five-hour
      window is at 100. */
  ghost predicate ReserveReached(account: Account, windows: seq<Window>) {
    || HasReached(windows, FiveHour, account.reserve5h)
    || HasReached(windows, Weekly, account.reserveWeekly)
    || (HasReached(windows, Other, account.reserve5h)
        && (account.provider in {"anthropic", "claude-oauth"} ==>
             exists i :: 0 <= i < |windows| && windows[i].kind == FiveHour && Reaches(windows[i].utilization, 100)))
  }

  lemma WindowsExactly(account: Account, windows: seq<Window>)
    ensures (exists k :: 0 <= k < |windows| && WindowAtReserve(account, windows, windows[k]))
            <==> ReserveReached(account, windows)
  {
  }

  lemma ReserveExactly(account: Account, usage: Usage)
    ensures account.id !in usage ==> !IsAtReserve(account, usage)
    ensures account.id in usage && usage[account.id].windows == [] ==>
              var r, w := account.reserve5h, account.reserveWeekly;
              var greater := if r > w then r else w;
              (IsAtReserve(account, usage) <==> greater > 0 && Reaches(usage[account.id].utilization, 100 - greater))
    ensures account.id in usage && usage[account.id].windows != [] ==>
              (IsAtReserve(account, usage) <==> ReserveReached(account, usage[account.id].windows))
  {
    if account.id in usage {
      WindowsExactly(account, usage[account.id].windows);
    }
  }

  /** A window of that kind has eaten into the reserve. */
  ghost predicate HasReached(windows: seq<Window>, kind: WindowKind, reserve: int) {
    && reserve > 0
    && exists k :: 0 <= k < |windows| && windows[k].kind == kind
                   && Reaches(windows[k].utilization, if reserve > 100 then 0 else 100 - reserve)
  }

  /** For an Anthropic account with telemetry, the extra budget counts only when the five-hour window is
      unknown: when that window is exhausted it blocks by itself, and otherwise the budget is ignored. */
  lemma AnthropicOverage(account: Account, info: UsageInfo)
    requires AnthropicFamily(account.provider) && info.windows != []
    ensures IsAtOverage(account, info) <==>
            exists k :: 0 <= k < |info.windows| && info.windows[k].utilization.AtLeast(100.0)
                        && (info.windows[k].kind.Other? ==> !FiveHourKnown(info.windows))
  {
  }

  /** For an Anthropic account only the five-hour and weekly windows decide on the reserve: the extra budget is
      looked at when the five-hour window is exhausted, and then that window is at its reserve already. */
  lemma AnthropicReserve(account: Account, usage: Usage)
    requires AnthropicFamily(account.provider) && account.id in usage && usage[account.id].windows != []
    ensures var ws := usage[account.id].windows;
            IsAtReserve(account, usage) <==>
            exists k :: 0 <= k < |ws| && !ws[k].kind.Other? && WindowAtReserve(account, ws, ws[k])
  {
  }

  /** The loop of the source that looks for a window at its reserve. */
  method FindWindowAtReserve(account: Account, windows: seq<Window>) returns (found: bool)
    ensures found <==> exists k :: 0 <= k < |windows| && WindowAtReserve(account, windows, windows[k])
    ensures found <==> ReserveReached(account, windows)
  {
    hide ReserveReached;
    WindowsExactly(account, windows);
    var anthropic := AnthropicFamily(account.provider);
    var fiveHourAt100 := FiveHourExhausted(windows);
    for k := 0 to |windows|
      invariant forall j :: 0 <= j < k ==> !WindowAtReserve(account, windows, windows[j])
    {
      var w := windows[k];
      var threshold;
      match w.kind {
        case FiveHour => threshold := account.reserve5h;
        case Weekly => threshold := account.reserveWeekly;
        case Other =>
          if anthropic && !fiveHourAt100 { continue; }
          threshold := account.reserve5h;
      }
      var triggerAt := (if 100 - threshold >= 0 then 100 - threshold else 0) as real;
      if threshold > 0 && w.utilization.AtLeast(triggerAt) {
        return true;
      }
    }
    return false;
  }

  /** The whole check: no reserve or no data means not at it; without windows the total decides. */
  method CheckReserve(account: Account, usage: Usage) returns (atReserve: bool)
    ensures atReserve == IsAtReserve(account, usage)
  {
    if account.reserve5h == 0 && account.reserveWeekly == 0 { return false; }
    if account.id !in usage { return false; }
    var info := usage[account.id];
    if info.windows != [] {
      atReserve := FindWindowAtReserve(account, info.windows);
      return;
    }
    var threshold := Max(account.reserve5h, account.reserveWeekly);
    return threshold > 0 && info.utilization.AtLeast((100 - threshold) as real);
  }

  // ---------------------------------------------------------------------
  // Eligibility
  // ---------------------------------------------------------------------

  datatype BlockReason = Paused | AuthRejected | ActiveRateLimit | OverageProtection | HardReserve

  predicate Blocks(reason: BlockReason, account: Account, usage: Usage, now: int) {
    match reason
    case Paused => account.paused
    case AuthRejected => FromRaw(account.rateLimitStatus).IsAuthFailure()
    case ActiveRateLimit =>
      account.rateLimitedUntil.Some? && NormalizeEpochMillis(account.rateLimitedUntil.value) >= now
    case OverageProtection =>
      account.overageProtection && account.id in usage && IsAtOverage(account, usage[account.id])
    case HardReserve =>
      account.reserveHard &&
      if account.id in usage then IsAtReserve(account, usage) else account.reserve5h > 0 || account.reserveWeekly > 0
  }

  predicate Routable(account: Account, usage: Usage, now: int) {
    && !Blocks(Paused, account, usage, now)
    && !Blocks(AuthRejected, account, usage, now)
    && !Blocks(ActiveRateLimit, account, usage, now)
    && !Blocks(OverageProtection, account, usage, now)
    && !Blocks(HardReserve, account, usage, now)
  }

  /** Which reason blocks when, and that an account is routable when none does. */
  lemma BlockedExactly(account: Account, usage: Usage, now: int)
    ensures Blocks(Paused, account, usage, now) <==> account.paused
    ensures Blocks(AuthRejected, account, usage, now) <==> FromRaw(account.rateLimitStatus).IsAuthFailure()
    ensures Blocks(ActiveRateLimit, account, usage, now) <==>
              account.rateLimitedUntil.Some? &&
              var until := account.rateLimitedUntil.value;
              now <= if -1_000_000_000_000 < until < 1_000_000_000_000 then 1000 * until else until
    ensures Blocks(OverageProtection, account, usage, now) <==>
              account.overageProtection && account.id in usage && IsAtOverage(account, usage[account.id])
    ensures Blocks(HardReserve, account, usage, now) <==>
              account.reserveHard &&
              (IsAtReserve(account, usage)
               || (account.id !in usage && (account.reserve5h > 0 || account.reserveWeekly > 0)))
    ensures Routable(account, usage, now) <==> forall reason :: !Blocks(reason, account, usage, now)
  {
    if !Routable(account, usage, now) {
      assert Blocks(Paused, account, usage, now) || Blocks(AuthRejected, account, usage, now)
             || Blocks(ActiveRateLimit, account, usage, now) || Blocks(OverageProtection, account, usage, now)
             || Blocks(HardReserve, account, usage, now);
    }
  }

  datatype AccountEligibility = AccountEligibility(
    routable: bool,
    blockedBy: seq<BlockReason>,
    upstreamStatus: UpstreamStatus,
    overageBlocked: bool,
    hardReserveBlocked: bool,
    softReserveHit: bool,
    usageMissing: bool,
    usageMissingOverageFailOpen: bool,
    usageMissingHardReserveFailClosed: bool,
    activeRateLimit: bool)

  function Rank(reason: BlockReason): nat {
    match reason
    case Paused => 0
    case AuthRejected => 1
    case ActiveRateLimit => 2
    case OverageProtection => 3
    case HardReserve => 4
  }

  function PushIf(blockedBy: seq<BlockReason>, blocked: bool, reason: BlockReason): seq<BlockReason> {
    if blocked then blockedBy + [reason] else blockedBy
  }

  /** Pushes each applicable reason in turn. */
  function Collect(applies: BlockReason -> bool): seq<BlockReason> {
    var r1 := PushIf([], applies(Paused), Paused);
    var r2 := PushIf(r1, applies(AuthRejected), AuthRejected);
    var r3 := PushIf(r2, applies(ActiveRateLimit), ActiveRateLimit);
    var r4 := PushIf(r3, applies(OverageProtection), OverageProtection);
    PushIf(r4, applies(HardReserve), HardReserve)
  }

  /** Exactly the applicable reasons of rank below `upTo`, each once, by rank. */
  ghost predicate Reports(blockedBy: seq<BlockReason>, upTo: nat, applies: BlockReason -> bool) {
    && (forall reason :: reason in blockedBy <==> Rank(reason) < upTo && applies(reason))
    && (forall i, j :: 0 <= i < j < |blockedBy| ==> Rank(blockedBy[i]) < Rank(blockedBy[j]))
  }

  lemma PushReports(blockedBy: seq<BlockReason>, reason: BlockReason, applies: BlockReason -> bool)
    requires Reports(blockedBy, Rank(reason), applies)
    ensures Reports(PushIf(blockedBy, applies(reason), reason), Rank(reason) + 1, applies)
  {
  }

  lemma NothingReported(applies: BlockReason -> bool)
    ensures Reports([], 0, applies)
  {
  }

  /** The report lists every reason that applies and no other, each once and in the
      order of their ranks. */
  lemma CollectIsComplete(applies: BlockReason -> bool)
    ensures Reports(Collect(applies), 5, applies)
    ensures Rank(Paused) < Rank(AuthRejected) < Rank(ActiveRateLimit) < Rank(OverageProtection) < Rank(HardReserve)
  {
    NothingReported(applies);
    hide Reports, PushIf;
    var r1 := PushIf([], applies(Paused), Paused);
    PushReports([], Paused, applies);
    var r2 := PushIf(r1, applies(AuthRejected), AuthRejected);
    PushReports(r1, AuthRejected, applies);
    var r3 := PushIf(r2, applies(ActiveRateLimit), ActiveRateLimit);
    PushReports(r2, ActiveRateLimit, applies);
    var r4 := PushIf(r3, applies(OverageProtection), OverageProtection);
    PushReports(r3, OverageProtection, applies);
    PushReports(r4, HardReserve, applies);
  }

  function Flags(paused: bool, authRejected: bool, rateLimited: bool, overage: bool, hardReserve: bool)
    : BlockReason -> bool
  {
    (reason: BlockReason) => match reason
      case Paused => paused
      case AuthRejected => authRejected
      case ActiveRateLimit => rateLimited
      case OverageProtection => overage
      case HardReserve => hardReserve
  }

  function Reasons(account: Account, usage: Usage, now: int): BlockReason -> bool {
    Flags(Blocks(Paused, account, usage, now), Blocks(AuthRejected, account, usage, now),
          Blocks(ActiveRateLimit, account, usage, now), Blocks(OverageProtection, account, usage, now),
          Blocks(HardReserve, account, usage, now))
  }

  /** Pushes the applicable reasons in turn. */
  method CollectReasons(paused: bool, authRejected: bool, rateLimited: bool, overage: bool, hardReserve: bool)
    returns (blockedBy: seq<BlockReason>)
    ensures Reports(blockedBy, 5, Flags(paused, authRejected, rateLimited, overage, hardReserve))
    ensures blockedBy == [] <==> !paused && !authRejected && !rateLimited && !overage && !hardReserve
  {
    blockedBy := [];
    if paused { blockedBy := blockedBy + [Paused]; }
    if authRejected { blockedBy := blockedBy + [AuthRejected]; }
    if rateLimited { blockedBy := blockedBy + [ActiveRateLimit]; }
    if overage { blockedBy := blockedBy + [OverageProtection]; }
    if hardReserve { blockedBy := blockedBy + [HardReserve]; }
    ghost var applies := Flags(paused, authRejected, rateLimited, overage, hardReserve);
    assert blockedBy == Collect(applies);
    CollectIsComplete(applies);
  }

  /** The full evaluation: what blocks the account, and the details shown to the user. Unknown usage opens
      the overage check and closes the hard reserve. */
  method EvaluateAccountEligibility(account: Account, usage: Usage, now: int) returns (e: AccountEligibility)
    ensures Reports(e.blockedBy, 5, Reasons(account, usage, now))
    ensures e.routable == Routable(account, usage, now)
    ensures e.upstreamStatus == FromRaw(account.rateLimitStatus)
    ensures e.overageBlocked == Blocks(OverageProtection, account, usage, now)
    ensures e.hardReserveBlocked == Blocks(HardReserve, account, usage, now)
    ensures e.activeRateLimit == Blocks(ActiveRateLimit, account, usage, now)
    ensures e.softReserveHit == (!account.reserveHard && IsAtReserve(account, usage))
    ensures e.usageMissing <==>
              account.provider in {"claude-oauth", "anthropic", "nanogpt", "zai"} && account.id !in usage
    ensures e.usageMissingOverageFailOpen <==> account.overageProtection && account.id !in usage
    ensures e.usageMissingOverageFailOpen ==> !e.overageBlocked
    ensures e.usageMissingHardReserveFailClosed <==> e.hardReserveBlocked && !IsAtReserve(account, usage)
  {
    hide IsAtReserve, IsAtOverage, FromRaw, Reports, NormalizeEpochMillis;
    var known := account.id in usage;
    var hasReserves := account.reserve5h > 0 || account.reserveWeekly > 0;
    var status := FromRaw(account.rateLimitStatus);
    var active := account.rateLimitedUntil.Some? && NormalizeEpochMillis(account.rateLimitedUntil.value) >= now;
    var overage := account.overageProtection && known && IsAtOverage(account, usage[account.id]);
    var atReserve := CheckReserve(account, usage);
    UnknownIsUnder(account, usage);
    var failClosed := account.reserveHard && hasReserves && !known;
    var hard := failClosed || (account.reserveHard && atReserve);
    var blockedBy := CollectReasons(account.paused, status.IsAuthFailure(), active, overage, hard);
    e := AccountEligibility(blockedBy == [], blockedBy, status, overage, hard, !account.reserveHard && atReserve,
      SupportsUsage(account.provider) && !known, account.overageProtection && !known, failClosed, active);
  }

  lemma UnknownIsUnder(account: Account, usage: Usage)
    ensures account.id !in usage ==> !IsAtReserve(account, usage)
  {
  }

  predicate SupportsUsage(provider: string) { provider in {"claude-oauth", "anthropic", "nanogpt", "zai"} }

  // ---------------------------------------------------------------------
  // Monotonicity
  // ---------------------------------------------------------------------

  predicate PercentLe(p: Percent, q: Percent) { q.NonFinite? || (p.Finite? && p.pct <= q.pct) }

  /** The same windows with at least the utilisation. */
  predicate WindowsLe(u: seq<Window>, v: seq<Window>) {
    && |u| == |v|
    && forall k :: 0 <= k < |u| ==> u[k].kind == v[k].kind && PercentLe(u[k].utilization, v[k].utilization)
  }

  predicate UsageLe(u: Usage, v: Usage) {
    && u.Keys == v.Keys
    && forall id :: id in u ==>
         PercentLe(u[id].utilization, v[id].utilization) && WindowsLe(u[id].windows, v[id].windows)
  }

  /** The same account with at least the reserves. */
  predicate ReservesLe(a: Account, b: Account) {
    && a.reserve5h <= b.reserve5h && a.reserveWeekly <= b.reserveWeekly
    && b == a.(reserve5h := b.reserve5h, reserveWeekly := b.reserveWeekly)
  }

  lemma OverageMonotone(a: Account, b: Account, x: UsageInfo, y: UsageInfo)
    requires a.provider == b.provider
    requires PercentLe(x.utilization, y.utilization) && WindowsLe(x.windows, y.windows)
    ensures IsAtOverage(a, x) ==> IsAtOverage(b, y)
  {
  }

  lemma ReserveMonotone(a: Account, b: Account, u: Usage, v: Usage)
    requires ReservesLe(a, b) && UsageLe(u, v)
    ensures IsAtReserve(a, u) ==> IsAtReserve(b, v)
  {
  }

  /** Raising utilisations or reserves never unblocks an account: whatever blocked it still does. */
  lemma EligibilityMonotone(a: Account, b: Account, u: Usage, v: Usage, now: int)
    requires ReservesLe(a, b) && UsageLe(u, v)
    ensures forall reason :: Blocks(reason, a, u, now) ==> Blocks(reason, b, v, now)
    ensures Routable(b, v, now) ==> Routable(a, u, now)
  {
    if a.id in u { OverageMonotone(a, b, u[a.id], v[a.id]); }
    ReserveMonotone(a, b, u, v);
    forall reason | Blocks(reason, a, u, now) ensures Blocks(reason, b, v, now) {
    }
  }

  /** Time alone never blocks a routable account. */
  lemma EligibilityOverTime(a: Account, u: Usage, now: int, later: int)
    requires now <= later
    ensures Routable(a, u, now) ==> Routable(a, u, later)
  {
  }
}
