/** Session restarts as the program persists them: a selection works on a row read some time ago, and what it
    restarts is written back without the cleared rate-limit reset. */
module SessionFeedback {
  import opened Collections
  import opened Eligibility
  import opened LoadBalancer
  import Routing

  // ---------------------------------------------------------------------
  // The row of one account
  // ---------------------------------------------------------------------

  /** What is written to the row. Restarted: a selection restarted the session. Counted: a request is counted.
      Recorded: a response, a failed authentication or a new login overwrites the rate-limit reset. Cleared:
      the statistics are reset. */
  datatype Write =
    | Restarted(newSessionStart: int)
    | Counted(now: int)
    | Recorded(reset: Option<int>)
    | Cleared

  function Apply(a: Account, w: Write, duration: int): Account {
    match w
    case Restarted(start) => a.(sessionStart := Some(start), sessionRequestCount := 0)
    case Counted(now) =>
      if a.sessionStart.None? || now - a.sessionStart.value >= duration
      then a.(sessionStart := Some(now), sessionRequestCount := 1)
      else a.(sessionRequestCount := a.sessionRequestCount + 1)
    case Recorded(reset) => a.(rateLimitReset := reset)
    case Cleared => a.(sessionStart := None, sessionRequestCount := 0)
  }

  /** The row after the first `v` writes. */
  function Row(a: Account, writes: seq<Write>, duration: int, v: nat): Account
    requires v <= |writes|
  {
    if v == 0 then a else Apply(Row(a, writes, duration, v - 1), writes[v - 1], duration)
  }

  lemma ApplyToReset(a: Account, w: Write, duration: int)
    ensures Apply(a, w, duration).provider == a.provider && Apply(a, w, duration).id == a.id
    ensures Apply(a, w, duration).rateLimitReset == if w.Recorded? then w.reset else a.rateLimitReset
  {
  }

  // ---------------------------------------------------------------------
  // The window trigger
  // ---------------------------------------------------------------------

  /** The last reset recorded by the writes from `v` up to but not including `w`. */
  function LastRecorded(writes: seq<Write>, v: nat, w: nat): Option<Option<int>>
    requires v <= w <= |writes|
    decreases w
  {
    if v == w then None
    else if writes[w - 1].Recorded? then Some(writes[w - 1].reset)
    else LastRecorded(writes, v, w - 1)
  }

  lemma {:induction false} RowReset(a: Account, writes: seq<Write>, duration: int, v: nat, w: nat)
    requires v <= w <= |writes|
    ensures var early, late := Row(a, writes, duration, v), Row(a, writes, duration, w);
            && late.provider == early.provider && late.id == early.id
            && var last := LastRecorded(writes, v, w);
               late.rateLimitReset == if last.Some? then last.value else early.rateLimitReset
    decreases w
  {
    hide Apply;
    if v < w {
      RowReset(a, writes, duration, v, w - 1);
      ApplyToReset(Row(a, writes, duration, w - 1), writes[w - 1], duration);
    }
  }

  /** A window restart seen at version `v` recurs at any later time on version `w` if and only if the reset was
      not overwritten in between, or last by one that is past too. */
  lemma WindowRecursExactly(a: Account, writes: seq<Write>, duration: int, v: nat, w: nat, t: int, u: int)
    requires v <= w <= |writes| && t <= u && WindowTriggers(Row(a, writes, duration, v), t)
    ensures WindowTriggers(Row(a, writes, duration, w), u)
            <==> match LastRecorded(writes, v, w)
                 case None => true
                 case Some(reset) =>
                   reset.Some? && NormalizeEpochMillis(reset.value) < u - RESET_DEBOUNCE_MS
  {
    hide Row, LastRecorded, NormalizeEpochMillis;
    RowReset(a, writes, duration, v, w);
  }

  /** So until a response is recorded, every selection that chooses the account restarts its session. */
  lemma EverySelectionRestarts(a: Account, writes: seq<Write>, duration: int, v: nat, w: nat, t: int,
                               scene: Scene, meta: SelectionMeta, counter: nat)
    requires v <= w <= |writes| && t <= scene.now && WindowTriggers(Row(a, writes, duration, v), t)
    requires forall k :: v <= k < w ==> !writes[k].Recorded?
    requires Choose(scene, meta, duration, counter).Chosen? && !meta.bypassSession
    requires Choose(scene, meta, duration, counter).account == Row(a, writes, duration, w)
    ensures Selected(scene, meta, duration, counter).resets == [SessionReset(a.id, scene.now)]
  {
    hide Row, Choose, LastRecorded;
    NothingRecorded(writes, v, w);
    WindowRecursExactly(a, writes, duration, v, w, t, scene.now);
    RowReset(a, writes, duration, 0, w);
    RowStart(a, writes, duration);
  }

  lemma RowStart(a: Account, writes: seq<Write>, duration: int)
    ensures Row(a, writes, duration, 0) == a
  {
  }

  lemma {:induction false} NothingRecorded(writes: seq<Write>, v: nat, w: nat)
    requires v <= w <= |writes| && forall k :: v <= k < w ==> !writes[k].Recorded?
    ensures LastRecorded(writes, v, w).None?
    decreases w
  {
    if v < w {
      NothingRecorded(writes, v, w - 1);
    }
  }

  /** The write-back of a window restart alone: the row it leaves is not the account the selection returned, and
      it restarts again at every later time. */
  lemma WriteBackForgetsTheWindow(a: Account, duration: int, t: int, u: int)
    requires WindowTriggers(a, t) && t <= u
    ensures var written := Apply(a, Restarted(t), duration);
            && WindowTriggers(written, u) && ResetSession(written, duration, u).1 == Some(SessionReset(a.id, u))
            && !Routing.Follows(a, written, duration, t)
  {
  }

  // ---------------------------------------------------------------------
  // The duration trigger
  // ---------------------------------------------------------------------

  /** The write leaves the session start alone or moves it to `t` or later. */
  predicate NotBefore(w: Write, t: int) {
    match w
    case Restarted(start) => t <= start
    case Cleared => false
    case _ => true
  }

  lemma ApplyNotBefore(a: Account, w: Write, duration: int, t: int)
    requires 0 <= duration && a.sessionStart.Some? && t <= a.sessionStart.value && NotBefore(w, t)
    ensures Apply(a, w, duration).sessionStart.Some? && t <= Apply(a, w, duration).sessionStart.value
  {
  }

  lemma {:induction false} StartStaysLate(a: Account, writes: seq<Write>, duration: int, v: nat, w: nat, t: int)
    requires 0 <= duration && v < w <= |writes| && writes[v] == Restarted(t)
    requires forall k :: v < k < w ==> NotBefore(writes[k], t)
    ensures var row := Row(a, writes, duration, w); row.sessionStart.Some? && t <= row.sessionStart.value
    decreases w
  {
    hide NotBefore;
    if v < w - 1 {
      StartStaysLate(a, writes, duration, v, w - 1, t);
      ApplyNotBefore(Row(a, writes, duration, w - 1), writes[w - 1], duration, t);
    }
  }

  /** Once a restart at `t` is in the row, and until the statistics are reset or an older restart is written
      over it, the session does not expire before `t` plus the duration, whatever requests are counted. */
  lemma ExpiryIsSpacedOnceWritten(a: Account, writes: seq<Write>, duration: int, v: nat, w: nat, t: int, u: int)
    requires 0 <= duration && v < w <= |writes| && writes[v] == Restarted(t)
    requires forall k :: v < k < w ==> NotBefore(writes[k], t)
    requires DurationExpired(Row(a, writes, duration, w), duration, u)
    ensures u - t >= duration
  {
    hide Row, NotBefore;
    StartStaysLate(a, writes, duration, v, w, t);
  }

  /** A selection that does not see a write to the session start repeats the restart. */
  lemma {:induction false} ExpiryRecursUntilWritten(a: Account, writes: seq<Write>, duration: int, v: nat, w: nat,
                                                    t: int, u: int)
    requires v <= w <= |writes| && t <= u && DurationExpired(Row(a, writes, duration, v), duration, t)
    requires forall k :: v <= k < w ==> writes[k].Recorded? || writes[k].Cleared?
    ensures DurationExpired(Row(a, writes, duration, w), duration, u)
    decreases w
  {
    if v < w {
      ExpiryRecursUntilWritten(a, writes, duration, v, w - 1, t, u);
    }
  }

  /** Counting a request starts a session that has not begun or has lasted its duration, so that none that is
      counted has expired, and else adds one request to it. */
  lemma CountedIsCurrent(a: Account, duration: int, now: int)
    requires 0 < duration
    ensures var b := Apply(a, Counted(now), duration);
            && b.sessionStart.Some? && now - b.sessionStart.value < duration
            && (if a.sessionStart.Some? && now - a.sessionStart.value < duration
                then b.sessionStart == a.sessionStart && b.sessionRequestCount == a.sessionRequestCount + 1
                else b.sessionStart == Some(now) && b.sessionRequestCount == 1)
            && b.(sessionStart := a.sessionStart, sessionRequestCount := a.sessionRequestCount) == a
  {
  }

  /** The other writes, field by field. */
  lemma WrittenExactly(a: Account, duration: int, t: int, reset: Option<int>)
    ensures Apply(a, Restarted(t), duration) == a.(sessionStart := Some(t), sessionRequestCount := 0)
    ensures Apply(a, Recorded(reset), duration) == a.(rateLimitReset := reset)
    ensures Apply(a, Cleared, duration) == a.(sessionStart := None, sessionRequestCount := 0)
  {
  }
}
