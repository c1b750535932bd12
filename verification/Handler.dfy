/** Request handling: taking thinking blocks out of a request body, and failing over
    from account to account. */
module Handler {
  import opened Collections

  // ---------------------------------------------------------------------
  // JSON
  // ---------------------------------------------------------------------

  datatype Json =
    | Null | Bool(b: bool) | Number(text: string) | String(s: string)
    | Array(items: seq<Json>) | Object(fields: map<string, Json>)

  function Get(j: Json, key: string): Option<Json> {
    if j.Object? && key in j.fields then Some(j.fields[key]) else None
  }

  function GetString(j: Json, key: string): Option<string> {
    var v := Get(j, key);
    if v.Some? && v.value.String? then Some(v.value.s) else None
  }

  // ---------------------------------------------------------------------
  // What is filtered
  // ---------------------------------------------------------------------

  predicate IsThinking(block: Json) { GetString(block, "type") == Some("thinking") }

  function Keeps(): Json -> bool { (block: Json) => !IsThinking(block) }

  /** An assistant message whose content is a list. */
  predicate Filterable(m: Json) {
    GetString(m, "role") == Some("assistant") && Get(m, "content").Some? && Get(m, "content").value.Array?
  }

  /** Nothing left, or a single text block without text. */
  predicate Blank(content: seq<Json>) {
    || content == []
    || (|content| == 1 && GetString(content[0], "type") == Some("text")
        && (GetString(content[0], "text").None? || GetString(content[0], "text").value == ""))
  }

  /** The message without its thinking blocks, if it is one that is filtered. */
  function Stripped(m: Json): Json {
    if Filterable(m) then Object(m.fields["content" := Array(Filter(Keeps(), m.fields["content"].items))]) else m
  }

  predicate Dropped(m: Json) { Filterable(m) && Blank(Stripped(m).fields["content"].items) }

  predicate HasThinking(m: Json) {
    Filterable(m) && exists k :: 0 <= k < |m.fields["content"].items| && IsThinking(m.fields["content"].items[k])
  }

  function Remaining(): Json -> bool { (m: Json) => !Dropped(m) }

  /** The messages the model should see: in order, assistant lists without thinking blocks, and
      without the messages that are blank then. */
  function Cleaned(messages: seq<Json>): seq<Json> {
    Map((m: Json) => Stripped(m), Filter(Remaining(), messages))
  }

  predicate AnyThinking(messages: seq<Json>) {
    exists k :: 0 <= k < |messages| && HasThinking(messages[k])
  }

  /** The whole body after filtering, or None when there is nothing to do. `mentions` tells whether the
      bytes of the body contain the word "thinking" literally; a body that is not JSON is None. */
  function FilterSpec(mentions: bool, body: Option<Json>): Option<Json> {
    if !mentions || body.None? then None
    else
      var messages := Get(body.value, "messages");
      if messages.None? || !messages.value.Array? || !AnyThinking(messages.value.items) then None
      else Some(Object(body.value.fields["messages" := Array(Cleaned(messages.value.items))] - {"thinking"}))
  }

  // ---------------------------------------------------------------------
  // The program
  // ---------------------------------------------------------------------

  /** Removes every thinking block from a content list, in place. */
  method Retain(content: seq<Json>) returns (kept: seq<Json>)
    ensures kept == Filter(Keeps(), content)
    ensures |kept| != |content| <==> exists k :: 0 <= k < |content| && IsThinking(content[k])
  {
    hide IsThinking, Filter;
    kept := [];
    FilterSnoc(content, 0);
    for i := 0 to |content|
      invariant kept == Filter(Keeps(), content[..i])
      invariant |kept| <= i
      invariant |kept| < i <==> exists k :: 0 <= k < i && IsThinking(content[k])
    {
      FilterSnoc(content, i);
      if !IsThinking(content[i]) { kept := kept + [content[i]]; }
    }
    assert content[..|content|] == content;
  }

  lemma FilterSnoc(content: seq<Json>, i: nat)
    requires i <= |content|
    ensures Filter(Keeps(), content[..0]) == []
    ensures i < |content| ==>
              Filter(Keeps(), content[..i + 1])
              == Filter(Keeps(), content[..i]) + if IsThinking(content[i]) then [] else [content[i]]
  {
    if i < |content| {
      assert content[..i + 1] == content[..i] + [content[i]];
      FilterConcat(Keeps(), content[..i], [content[i]]);
      assert [content[i]][1..] == [];
    }
  }

  /** Strips the messages one by one, notes which are blank, and removes those from the back. */
  method FilterMessages(input: seq<Json>) returns (messages: seq<Json>, hasChanges: bool)
    ensures hasChanges == AnyThinking(input)
    ensures messages == Cleaned(input)
  {
    hide Filterable, Blank, Cleaned, Stripped, Dropped, HasThinking, Filter;
    messages, hasChanges := input, false;
    var indicesToRemove: seq<nat> := [];
    for i := 0 to |input|
      invariant |messages| == |input|
      invariant forall k :: 0 <= k < |input| ==> messages[k] == if k < i then Stripped(input[k]) else input[k]
      invariant hasChanges == exists k :: 0 <= k < i && HasThinking(input[k])
      invariant indicesToRemove == DroppedIndices(input, i)
    {
      var m := messages[i];
      StrippedMessage(m);
      if Filterable(m) {
        var content := Retain(m.fields["content"].items);
        if |content| != |m.fields["content"].items| { hasChanges := true; }
        messages := messages[i := Object(m.fields["content" := Array(content)])];
        if Blank(content) { indicesToRemove := indicesToRemove + [i]; }
      }
    }
    messages := RemoveBackwards(input, messages, indicesToRemove);
  }

  /** What stripping one message amounts to. */
  lemma StrippedMessage(m: Json)
    ensures !Filterable(m) ==> Stripped(m) == m && !Dropped(m) && !HasThinking(m)
    ensures Filterable(m) ==>
              && m.Object? && "content" in m.fields && m.fields["content"].Array?
              && var kept := Filter(Keeps(), m.fields["content"].items);
                 && Stripped(m) == Object(m.fields["content" := Array(kept)])
                 && (Dropped(m) <==> Blank(kept))
                 && (HasThinking(m) <==>
                      exists k :: 0 <= k < |m.fields["content"].items| && IsThinking(m.fields["content"].items[k]))
  {
  }

  /** The positions of the messages to drop among the first `n`. */
  function DroppedIndices(input: seq<Json>, n: nat): (r: seq<nat>)
    requires n <= |input|
    ensures forall k :: 0 <= k < |r| ==> r[k] < n
  {
    if n == 0 then []
    else DroppedIndices(input, n - 1) + if Dropped(input[n - 1]) then [n - 1] else []
  }

  method RemoveBackwards(input: seq<Json>, stripped: seq<Json>, indices: seq<nat>) returns (messages: seq<Json>)
    requires |stripped| == |input| && forall k :: 0 <= k < |input| ==> stripped[k] == Stripped(input[k])
    requires indices == DroppedIndices(input, |input|)
    ensures messages == Cleaned(input)
  {
    hide Cleaned, Stripped, Dropped, DroppedIndices;
    messages := stripped;
    var left := |indices|;
    ghost var upTo := |input|;
    CleanedNothing(input);
    assert stripped[..upTo] == stripped && indices[..left] == indices;
    while left > 0
      invariant 0 <= left <= |indices| && 0 <= upTo <= |input|
      invariant indices[..left] == DroppedIndices(input, upTo)
      invariant messages == stripped[..upTo] + Cleaned(input[upTo..])
      decreases left
    {
      var i := indices[left - 1];
      assert indices[..left][left - 1] == i && indices[..left][..left - 1] == indices[..left - 1];
      LastDropped(input, upTo, indices[..left]);
      BackStep(input, stripped, i, upTo);
      messages := messages[..i] + messages[i + 1..];
      left := left - 1;
      upTo := i;
    }
    NoneDropped(input, upTo);
    KeptRun(input, stripped, 0, upTo);
    assert input[0..] == input;
  }

  /** Filters a request body. */
  method FilterThinkingBlocks(mentions: bool, body: Option<Json>) returns (r: Option<Json>)
    ensures r == FilterSpec(mentions, body)
  {
    if !mentions || body.None? { return None; }
    var json := body.value;
    var field := Get(json, "messages");
    if field.None? || !field.value.Array? { return None; }
    var messages, hasChanges := FilterMessages(field.value.items);
    if !hasChanges { return None; }
    json := Object(json.fields["messages" := Array(messages)]);
    return Some(Object(json.fields - {"thinking"}));
  }

  // ---------------------------------------------------------------------
  // Why removing from the back is filtering
  // ---------------------------------------------------------------------

  lemma CleanedCons(input: seq<Json>, i: nat)
    requires i < |input|
    ensures Cleaned(input[i..]) == (if Dropped(input[i]) then [] else [Stripped(input[i])]) + Cleaned(input[i + 1..])
  {
  }

  /** A stretch without messages to drop is cleaned by stripping. */
  lemma {:induction false} KeptRun(input: seq<Json>, stripped: seq<Json>, lo: nat, hi: nat)
    requires |stripped| == |input| && forall k :: 0 <= k < |input| ==> stripped[k] == Stripped(input[k])
    requires lo <= hi <= |input| && forall k :: lo <= k < hi ==> !Dropped(input[k])
    ensures Cleaned(input[lo..]) == stripped[lo..hi] + Cleaned(input[hi..])
    decreases hi - lo
  {
    hide Cleaned, Stripped, Dropped;
    if lo < hi {
      CleanedCons(input, lo);
      KeptRun(input, stripped, lo + 1, hi);
      assert stripped[lo..hi] == [stripped[lo]] + stripped[lo + 1..hi];
    }
  }

  lemma CleanedNothing(input: seq<Json>)
    ensures Cleaned(input[|input|..]) == []
  {
  }

  /** Removing the last message to drop from what is stripped so far and cleaned from there on. */
  lemma BackStep(input: seq<Json>, stripped: seq<Json>, i: nat, upTo: nat)
    requires |stripped| == |input| && forall k :: 0 <= k < |input| ==> stripped[k] == Stripped(input[k])
    requires i < upTo <= |input| && Dropped(input[i]) && forall k :: i < k < upTo ==> !Dropped(input[k])
    ensures var messages := stripped[..upTo] + Cleaned(input[upTo..]);
            messages[..i] + messages[i + 1..] == stripped[..i] + Cleaned(input[i..])
  {
    hide Cleaned, Stripped, Dropped;
    KeptRun(input, stripped, i + 1, upTo);
    CleanedCons(input, i);
    var messages := stripped[..upTo] + Cleaned(input[upTo..]);
    assert messages[..i] == stripped[..i];
    assert messages[i + 1..] == stripped[i + 1..upTo] + Cleaned(input[upTo..]);
  }

  /** The last position noted is the last message to drop, and those before it are noted before. */
  lemma {:induction false} LastDropped(input: seq<Json>, n: nat, noted: seq<nat>)
    requires n <= |input| && noted == DroppedIndices(input, n) && noted != []
    ensures var i := noted[|noted| - 1];
            && i < n && Dropped(input[i]) && noted[..|noted| - 1] == DroppedIndices(input, i)
            && forall k :: i < k < n ==> !Dropped(input[k])
  {
    if !Dropped(input[n - 1]) {
      LastDropped(input, n - 1, noted);
    }
  }

  lemma {:induction false} NoneDropped(input: seq<Json>, n: nat)
    requires n <= |input| && DroppedIndices(input, n) == []
    ensures forall k :: 0 <= k < n ==> !Dropped(input[k])
  {
    if n > 0 { NoneDropped(input, n - 1); }
  }

  // ---------------------------------------------------------------------
  // What the filter guarantees
  // ---------------------------------------------------------------------

  lemma StrippedHasNoThinking(m: Json)
    ensures !HasThinking(Stripped(m)) && Filterable(Stripped(m)) == Filterable(m)
    ensures !HasThinking(m) ==> Stripped(m) == m
    ensures GetString(m, "role") != Some("assistant") ==> Stripped(m) == m && !Dropped(m)
  {
    if Filterable(m) {
      var items := m.fields["content"].items;
      var kept := Filter(Keeps(), items);
      assert forall k :: 0 <= k < |kept| ==> kept[k] in kept;
      if !HasThinking(m) {
        assert forall b :: b in items ==> Keeps()(b);
        FilterAll(Keeps(), items);
        assert m.fields["content" := Array(items)] == m.fields;
      }
    }
  }

  /** Filtering leaves no thinking block in an assistant list, no top-level thinking field and every other
      top-level field as it was; filtering again does nothing. */
  lemma FilterIsIdempotent(mentions: bool, body: Option<Json>, again: bool)
    requires FilterSpec(mentions, body).Some?
    ensures var r := FilterSpec(mentions, body).value;
            && r.Object? && "thinking" !in r.fields
            && Get(r, "messages").Some? && Get(r, "messages").value.Array?
            && !AnyThinking(Get(r, "messages").value.items)
            && (forall key :: key != "messages" && key != "thinking" ==> Get(r, key) == Get(body.value, key))
            && FilterSpec(again, Some(r)) == None
  {
    var input := body.value.fields["messages"].items;
    var cleaned := Cleaned(input);
    forall k | 0 <= k < |cleaned| ensures !HasThinking(cleaned[k]) {
      StrippedHasNoThinking(Filter(Remaining(), input)[k]);
    }
  }

  function OtherRole(): Json -> bool { (m: Json) => GetString(m, "role") != Some("assistant") }

  /** The messages of the other roles come through unchanged and in order. */
  lemma {:induction false} OtherRolesUntouched(messages: seq<Json>)
    ensures Filter(OtherRole(), Cleaned(messages)) == Filter(OtherRole(), messages)
  {
    if messages != [] {
      var m, rest := messages[0], messages[1..];
      OtherRolesUntouched(rest);
      assert messages[0..] == messages;
      CleanedCons(messages, 0);
      StrippedHasNoThinking(m);
      StrippedKeepsRole(m);
      if !Dropped(m) {
        assert ([Stripped(m)] + Cleaned(rest))[1..] == Cleaned(rest);
      }
    }
  }

  lemma StrippedKeepsRole(m: Json)
    ensures GetString(Stripped(m), "role") == GetString(m, "role")
  {
  }

  // ---------------------------------------------------------------------
  // What survives, on JSON fields
  // ---------------------------------------------------------------------

  ghost predicate AssistantList(m: Json) {
    && m.Object? && "role" in m.fields && m.fields["role"] == String("assistant")
    && "content" in m.fields && m.fields["content"].Array?
  }

  ghost predicate ThinkingBlock(block: Json) {
    block.Object? && "type" in block.fields && block.fields["type"] == String("thinking")
  }

  /** The blocks that are not thinking blocks, in order. */
  ghost function Speech(content: seq<Json>): seq<Json> { Filter((block: Json) => !ThinkingBlock(block), content) }

  /** No block, or a single text block with no text or an empty one. */
  ghost predicate SaysNothing(content: seq<Json>) {
    content != [] ==>
      && |content| == 1 && content[0].Object? && "type" in content[0].fields
      && content[0].fields["type"] == String("text")
      && ("text" in content[0].fields && content[0].fields["text"].String? ==> content[0].fields["text"].s == "")
  }

  /** What is left of one message. */
  ghost function Survivor(m: Json): Json {
    if AssistantList(m) then Object(m.fields["content" := Array(Speech(m.fields["content"].items))]) else m
  }

  ghost predicate ThinksAloud(m: Json) {
    AssistantList(m) && exists block :: block in m.fields["content"].items && ThinkingBlock(block)
  }

  ghost predicate Survives(m: Json) {
    AssistantList(m) ==> !SaysNothing(Speech(m.fields["content"].items))
  }

  lemma SurvivesExactly(m: Json)
    ensures Stripped(m) == Survivor(m) && (Dropped(m) <==> !Survives(m))
    ensures HasThinking(m) <==> ThinksAloud(m)
  {
    assert Filterable(m) <==> AssistantList(m);
    if AssistantList(m) {
      var items := m.fields["content"].items;
      SameSpeech(items);
      BlankExactly(Speech(items));
      hide Blank, SaysNothing, Speech, IsThinking, ThinkingBlock;
      forall block ensures IsThinking(block) <==> ThinkingBlock(block) {
        ThinkingExactly(block);
      }
    }
  }

  lemma ThinkingExactly(block: Json)
    ensures IsThinking(block) <==> ThinkingBlock(block)
  {
  }

  lemma SameSpeech(content: seq<Json>)
    ensures Filter(Keeps(), content) == Speech(content)
  {
    FilterExtensional(Keeps(), (block: Json) => !ThinkingBlock(block), content);
  }

  lemma BlankExactly(content: seq<Json>)
    ensures Blank(content) <==> SaysNothing(content)
  {
  }

  /** `kept` lists the positions of the surviving messages, in order and each once, and `cleaned` what is left
      of them. */
  ghost predicate Traces(messages: seq<Json>, cleaned: seq<Json>, kept: seq<nat>) {
    && |kept| == |cleaned|
    && (forall i, j :: 0 <= i < j < |kept| ==> kept[i] < kept[j])
    && (forall i :: 0 <= i < |kept| ==> kept[i] < |messages| && cleaned[i] == Survivor(messages[kept[i]]))
    && (forall k: nat :: k < |messages| ==> (k in kept <==> Survives(messages[k])))
  }

  lemma TraceWithout(m: Json, rest: seq<Json>, cleaned: seq<Json>, kept: seq<nat>)
    requires Traces(rest, cleaned, kept) && !Survives(m)
    ensures Traces([m] + rest, cleaned, Shifted(kept))
  {
    hide Survivor, Survives, Shifted;
    var messages := [m] + rest;
    forall i | 0 <= i < |kept| ensures messages[Shifted(kept)[i]] == rest[kept[i]] {
    }
    forall k: nat | k < |messages| ensures k in Shifted(kept) <==> Survives(messages[k]) {
      if k > 0 { assert messages[k] == rest[k - 1]; }
    }
  }

  lemma TraceWith(m: Json, rest: seq<Json>, cleaned: seq<Json>, kept: seq<nat>)
    requires Traces(rest, cleaned, kept) && Survives(m)
    ensures Traces([m] + rest, [Survivor(m)] + cleaned, [0] + Shifted(kept))
  {
    var messages, all, left := [m] + rest, [0] + Shifted(kept), [Survivor(m)] + cleaned;
    WithZero(kept);
    hide Survivor, Survives, Shifted;
    forall i | 0 <= i < |all| ensures all[i] < |messages| && left[i] == Survivor(messages[all[i]]) {
      TraceWithAt(m, rest, cleaned, kept, i);
    }
    forall k: nat | k < |messages| ensures k in all <==> Survives(messages[k]) {
      TraceWithMember(m, rest, cleaned, kept, k);
    }
  }

  lemma TraceWithAt(m: Json, rest: seq<Json>, cleaned: seq<Json>, kept: seq<nat>, i: nat)
    requires Traces(rest, cleaned, kept) && i <= |kept|
    ensures var k := ([0] + Shifted(kept))[i];
            k <= |rest| && ([Survivor(m)] + cleaned)[i] == Survivor(([m] + rest)[k])
  {
    hide Survivor, Survives, Shifted;
    WithZero(kept);
    if i > 0 {
      assert ([m] + rest)[kept[i - 1] + 1] == rest[kept[i - 1]];
    }
  }

  lemma TraceWithMember(m: Json, rest: seq<Json>, cleaned: seq<Json>, kept: seq<nat>, k: nat)
    requires Traces(rest, cleaned, kept) && Survives(m) && k <= |rest|
    ensures k in [0] + Shifted(kept) <==> Survives(([m] + rest)[k])
  {
    hide Survivor, Survives, Shifted;
    WithZero(kept);
    if k > 0 { assert ([m] + rest)[k] == rest[k - 1]; }
  }

  lemma WithZero(positions: seq<nat>)
    ensures var all := [0] + Shifted(positions);
            && |all| == |positions| + 1 && all[0] == 0
            && (forall i :: 0 < i < |all| ==> all[i] == positions[i - 1] + 1)
            && (forall k: nat :: k in all <==> k == 0 || k - 1 in positions)
  {
    hide Shifted;
    var all := [0] + Shifted(positions);
    forall k: nat ensures k in all <==> k == 0 || k - 1 in positions {
      assert k in all <==> k == 0 || k in Shifted(positions);
    }
  }

  /** Which messages come through, and as what: every one except the assistant lists that say nothing;
      assistant lists without their thinking blocks, all others unchanged. */
  lemma {:induction false} SurvivorsExactly(messages: seq<Json>) returns (kept: seq<nat>)
    ensures Traces(messages, Cleaned(messages), kept)
  {
    if messages == [] {
      kept := [];
    } else {
      hide *;
      var m, rest := messages[0], messages[1..];
      assert messages == [m] + rest;
      var later := SurvivorsExactly(rest);
      SurvivesExactly(m);
      CleanedOfCons(m, rest);
      if Survives(m) {
        TraceWith(m, rest, Cleaned(rest), later);
        kept := [0] + Shifted(later);
      } else {
        TraceWithout(m, rest, Cleaned(rest), later);
        kept := Shifted(later);
      }
    }
  }

  function Shifted(positions: seq<nat>): (r: seq<nat>)
    ensures |r| == |positions| && forall i :: 0 <= i < |r| ==> r[i] == positions[i] + 1
    ensures forall k: nat :: k in r <==> k > 0 && k - 1 in positions
  {
    if positions == [] then [] else [positions[0] + 1] + Shifted(positions[1..])
  }

  lemma CleanedOfCons(m: Json, rest: seq<Json>)
    ensures Cleaned([m] + rest) == if Dropped(m) then Cleaned(rest) else [Stripped(m)] + Cleaned(rest)
  {
    hide Stripped, Dropped;
    FilterOfCons(Remaining(), m, rest);
    var kept := Filter(Remaining(), rest);
    assert ([m] + kept)[1..] == kept;
  }

  /** There is a new body exactly if some assistant list holds a thinking block; it has the surviving messages,
      no thinking field, and every other field as it was. */
  lemma FilterExactly(mentions: bool, body: Option<Json>)
    ensures FilterSpec(mentions, body).Some? <==>
              && mentions && body.Some? && body.value.Object?
              && "messages" in body.value.fields && body.value.fields["messages"].Array?
              && exists m :: m in body.value.fields["messages"].items && ThinksAloud(m)
    ensures FilterSpec(mentions, body).Some? ==>
              var fields := body.value.fields;
              FilterSpec(mentions, body)
              == Some(Object(fields["messages" := Array(Cleaned(fields["messages"].items))] - {"thinking"}))
  {
    hide ThinksAloud, HasThinking, Cleaned;
    forall m ensures HasThinking(m) <==> ThinksAloud(m) {
      SurvivesExactly(m);
    }
    if body.Some? && body.value.Object? && "messages" in body.value.fields && body.value.fields["messages"].Array? {
      var items := body.value.fields["messages"].items;
      assert AnyThinking(items) <==> exists m :: m in items && HasThinking(m);
    }
  }

  // ---------------------------------------------------------------------
  // Failover
  // ---------------------------------------------------------------------

  const MAX_FAILOVER_ATTEMPTS := 5

  datatype Candidate = Candidate(id: string, provider: string)

  datatype Attempt<R> = Success(response: R) | RateLimited | AuthFailed | Error

  /** What happened: the positions that were tried, in order, and the answer. */
  datatype Outcome<R> = Outcome(tried: seq<nat>, answer: Option<(R, string)>)

  /** From position `k` on, with some providers known to be rate-limited: the rest is tried recursively. */
  function Failover<R>(accounts: seq<Candidate>, attempt: nat -> Attempt<R>, k: nat, limited: set<string>): Outcome<R>
    requires k <= |accounts|
    decreases |accounts| - k
  {
    if k == |accounts| then Outcome([], None)
    else if accounts[k].provider in limited then Failover(accounts, attempt, k + 1, limited)
    else match attempt(k)
      case Success(response) => Outcome([k], Some((response, accounts[k].id)))
      case RateLimited =>
        var rest := Failover(accounts, attempt, k + 1, limited + {accounts[k].provider});
        Outcome([k] + rest.tried, rest.answer)
      case _ =>
        var rest := Failover(accounts, attempt, k + 1, limited);
        Outcome([k] + rest.tried, rest.answer)
  }

  function Considered(accounts: seq<Candidate>): seq<Candidate> {
    if |accounts| <= MAX_FAILOVER_ATTEMPTS then accounts else accounts[..MAX_FAILOVER_ATTEMPTS]
  }

  /** The failover loop. `attempt(k)` is what trying the account at position `k` would lead to. */
  method TryAccountsInOrder<R>(all: seq<Candidate>, attempt: nat -> Attempt<R>)
    returns (answer: Option<(R, string)>, tried: seq<nat>)
    ensures Outcome(tried, answer) == Failover(Considered(all), attempt, 0, {})
  {
    hide Failover;
    var maxAttempts := if |all| <= MAX_FAILOVER_ATTEMPTS then |all| else MAX_FAILOVER_ATTEMPTS;
    ghost var accounts := Considered(all);
    ghost var whole := Failover(accounts, attempt, 0, {});
    var rateLimitedProviders: seq<string> := [];
    tried := [];
    ghost var limited := {};
    assert [] + whole.tried == whole.tried;
    for k := 0 to maxAttempts
      invariant limited == set p | p in rateLimitedProviders
      invariant whole.tried == tried + Failover(accounts, attempt, k, limited).tried
      invariant whole.answer == Failover(accounts, attempt, k, limited).answer
    {
      FailoverStep(accounts, attempt, k, limited, tried);
      if all[k].provider in rateLimitedProviders { continue; }
      tried := tried + [k];
      match attempt(k) {
        case Success(response) =>
          return Some((response, all[k].id)), tried;
        case RateLimited =>
          rateLimitedProviders := rateLimitedProviders + [all[k].provider];
          limited := limited + {all[k].provider};
        case _ =>
      }
    }
    FailoverEnd(accounts, attempt, limited, tried);
    return None, tried;
  }

  lemma FailoverStep<R>(accounts: seq<Candidate>, attempt: nat -> Attempt<R>, k: nat, limited: set<string>,
                        tried: seq<nat>)
    requires k < |accounts|
    ensures var o := Failover(accounts, attempt, k, limited);
            if accounts[k].provider in limited then o == Failover(accounts, attempt, k + 1, limited)
            else if attempt(k).Success? then
              tried + o.tried == tried + [k] && o.answer == Some((attempt(k).response, accounts[k].id))
            else
              var more := if attempt(k).RateLimited? then limited + {accounts[k].provider} else limited;
              var rest := Failover(accounts, attempt, k + 1, more);
              tried + o.tried == tried + [k] + rest.tried && o.answer == rest.answer
  {
  }

  lemma FailoverEnd<R>(accounts: seq<Candidate>, attempt: nat -> Attempt<R>, limited: set<string>, tried: seq<nat>)
    ensures var o := Failover(accounts, attempt, |accounts|, limited);
            tried + o.tried == tried && o.answer == None
  {
  }

  // ---------------------------------------------------------------------
  // What the failover loop guarantees
  // ---------------------------------------------------------------------

  /** An account tried before position `k` found the provider of `k` rate-limited. */
  ghost predicate KnownLimited<R>(accounts: seq<Candidate>, attempt: nat -> Attempt<R>, tried: seq<nat>, k: nat)
    requires k < |accounts|
  {
    exists i: nat :: i in tried && i < k && attempt(i).RateLimited? && accounts[i].provider == accounts[k].provider
  }

  /** Which positions from `from` on are tried, without reference to the loop, when the run ends with
      a success at `stop`, or without one if `stop` is the end. */
  ghost predicate Exactly<R>(accounts: seq<Candidate>, attempt: nat -> Attempt<R>, o: Outcome<R>, from: nat,
                             limited: set<string>, stop: nat)
  {
    && from <= stop <= |accounts|
    && (forall i :: 0 <= i < |o.tried| ==> from <= o.tried[i] <= stop && o.tried[i] < |accounts|)
    && (forall i, j :: 0 <= i < j < |o.tried| ==> o.tried[i] < o.tried[j])
    && (forall k: nat :: from <= k < |accounts| && k <= stop ==>
          (k in o.tried <==> accounts[k].provider !in limited && !KnownLimited(accounts, attempt, o.tried, k)))
    && (forall k: nat :: k in o.tried && k < stop ==> !attempt(k).Success?)
    && (if stop < |accounts| then stop in o.tried && attempt(stop).Success?
                                  && o.answer == Some((attempt(stop).response, accounts[stop].id))
        else o.answer == None)
  }

  lemma {:induction false} FailoverExact<R>(accounts: seq<Candidate>, attempt: nat -> Attempt<R>, k: nat,
                                            limited: set<string>)
    returns (stop: nat)
    requires k <= |accounts|
    ensures Exactly(accounts, attempt, Failover(accounts, attempt, k, limited), k, limited, stop)
    decreases |accounts| - k
  {
    if k == |accounts| {
      stop := k;
    } else if accounts[k].provider in limited {
      stop := FailoverExact(accounts, attempt, k + 1, limited);
    } else if attempt(k).Success? {
      stop := k;
    } else {
      var more := if attempt(k).RateLimited? then limited + {accounts[k].provider} else limited;
      stop := FailoverExact(accounts, attempt, k + 1, more);
      var rest := Failover(accounts, attempt, k + 1, more);
      TriedFirst(accounts, attempt, rest, k, limited, more, stop);
    }
  }

  /** Trying position `k` without success, and then the rest. */
  lemma TriedFirst<R>(accounts: seq<Candidate>, attempt: nat -> Attempt<R>, rest: Outcome<R>, k: nat,
                      limited: set<string>, more: set<string>, stop: nat)
    requires k < |accounts| && accounts[k].provider !in limited && !attempt(k).Success?
    requires more == if attempt(k).RateLimited? then limited + {accounts[k].provider} else limited
    requires Exactly(accounts, attempt, rest, k + 1, more, stop)
    ensures Exactly(accounts, attempt, Outcome([k] + rest.tried, rest.answer), k, limited, stop)
  {
    var tried := [k] + rest.tried;
    forall n: nat | k <= n < |accounts| && n <= stop
      ensures n in tried <==> accounts[n].provider !in limited && !KnownLimited(accounts, attempt, tried, n)
    {
      if n > k {
        assert KnownLimited(accounts, attempt, tried, n)
            <==> KnownLimited(accounts, attempt, rest.tried, n)
                 || (attempt(k).RateLimited? && accounts[k].provider == accounts[n].provider)
        by {
          assert k in tried;
        }
      }
    }
  }

  /** The failover loop looks at no more than the first five accounts; up to the first success it tries, in
      order, exactly those whose provider no earlier attempt found rate-limited, and nothing after it; the
      answer is that success, and there is none if and only if every account tried failed. */
  lemma FailoverTriesExactly<R>(all: seq<Candidate>, attempt: nat -> Attempt<R>) returns (stop: nat)
    ensures var o := Failover(Considered(all), attempt, 0, {});
            && Exactly(Considered(all), attempt, o, 0, {}, stop)
            && Considered(all) == (if |all| <= 5 then all else all[..5])
            && (o.answer.None? <==> forall k: nat :: k in o.tried ==> !attempt(k).Success?)
  {
    stop := FailoverExact(Considered(all), attempt, 0, {});
  }
}
