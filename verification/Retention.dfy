/** Data retention: deleting old rows in batches, under a foreign key from payloads to
    requests, against the single deletes the batches stand for. */
module Retention {

  const BATCH_SIZE := 1000
  const MS_PER_DAY := 24 * 60 * 60 * 1000

  datatype Row = Row(timestamp: int, content: string)

  datatype Config = Config(dataDays: nat, requestDays: nat, observationDays: nat)

  /** What executing one statement returns. A failed statement changes nothing. */
  datatype Exec = Rows(n: nat) | ForeignKeyError | DatabaseError

  // ---------------------------------------------------------------------
  // Tables and single deletes
  // ---------------------------------------------------------------------

  function Expired<K>(table: map<K, Row>, cutoff: int): set<K> {
    set k | k in table && table[k].timestamp < cutoff
  }

  /** Payloads of requests older than the cutoff. */
  function ExpiredPayloads(payloads: map<string, string>, requests: map<string, Row>, cutoff: int): set<string> {
    payloads.Keys * Expired(requests, cutoff)
  }

  function Orphans(payloads: map<string, string>, requests: map<string, Row>): set<string> {
    payloads.Keys - requests.Keys
  }

  /** The moment that many days ago. */
  function Cutoff(now: int, days: nat): (r: int)
    ensures r == now - days * 86_400_000
  {
    now - days * MS_PER_DAY
  }

  function Smaller(x: nat, y: nat): nat { if x <= y then x else y }

  lemma RemovedSize<K, V>(table: map<K, V>, victims: set<K>)
    requires victims <= table.Keys
    ensures |table - victims| == |table| - |victims|
  {
  }

  /** Any batch the LIMIT clause may pick. */
  method PickVictims<K>(doomed: set<K>) returns (victims: set<K>)
    ensures victims <= doomed && |victims| == if |doomed| <= 1000 then |doomed| else 1000
  {
    victims := {};
    var left := doomed;
    while |victims| < BATCH_SIZE && left != {}
      invariant victims <= doomed && left == doomed - victims && |victims| <= BATCH_SIZE
      invariant |victims| + |left| == |doomed|
      decreases |left|
    {
      var k :| k in left;
      victims := victims + {k};
      left := left - {k};
    }
  }

  // ---------------------------------------------------------------------
  // The database
  // ---------------------------------------------------------------------

  class Database {
    var requests: map<string, Row>
    var payloads: map<string, string>
    var observations: map<int, Row>

    constructor ()
      ensures requests == map[] && payloads == map[] && observations == map[]
    {
      requests, payloads, observations := map[], map[], map[];
    }

    /** One batch of payload rows; the statement may fail for reasons of its own. */
    method ExecDeletePayloads(doomed: set<string>) returns (r: Exec)
      requires doomed <= payloads.Keys
      modifies this`payloads
      ensures r.DatabaseError? ==> payloads == old(payloads)
      ensures !r.ForeignKeyError?
      ensures r.Rows? ==>
                exists victims :: BatchGone(old(payloads), payloads, doomed, victims, r.n)
    {
      if * { return DatabaseError; }
      var victims := PickVictims(doomed);
      payloads := payloads - victims;
      assert BatchGone(old(payloads), payloads, doomed, victims, |victims|);
      return Rows(|victims|);
    }

    /** One batch of request rows; it fails as a whole if one of them still has a payload. */
    method ExecDeleteRequests(doomed: set<string>) returns (r: Exec)
      requires doomed <= requests.Keys
      modifies this`requests
      ensures !r.Rows? ==> requests == old(requests)
      ensures r.ForeignKeyError? ==> doomed * payloads.Keys != {}
      ensures r.Rows? ==>
                exists victims :: BatchGone(old(requests), requests, doomed, victims, r.n) && victims !! payloads.Keys
    {
      if * { return DatabaseError; }
      var victims := PickVictims(doomed);
      if victims * payloads.Keys != {} {
        assert exists k :: k in victims * payloads.Keys && k in doomed * payloads.Keys;
        return ForeignKeyError;
      }
      assert forall k :: k in victims && k in payloads ==> k in victims * payloads.Keys;
      requests := requests - victims;
      assert BatchGone(old(requests), requests, doomed, victims, |victims|);
      return Rows(|victims|);
    }

    method ExecDeleteObservations(doomed: set<int>) returns (r: Exec)
      requires doomed <= observations.Keys
      modifies this`observations
      ensures !r.ForeignKeyError?
      ensures r.DatabaseError? ==> observations == old(observations)
      ensures r.Rows? ==>
                exists victims :: BatchGone(old(observations), observations, doomed, victims, r.n)
    {
      if * { return DatabaseError; }
      var victims := PickVictims(doomed);
      observations := observations - victims;
      assert BatchGone(old(observations), observations, doomed, victims, |victims|);
      return Rows(|victims|);
    }

    // -------------------------------------------------------------------
    // Batched deletes
    // -------------------------------------------------------------------

    /** Whichever rows each batch takes: undisturbed, the table is left as one delete of all expired
        payloads would leave it; in any case only expired payloads go, and the count is right. */
    method BatchedDeletePayloads(cutoff: int) returns (total: nat, disturbed: bool)
      modifies this`payloads
      ensures PartialDelete(old(payloads), payloads, ExpiredPayloads(old(payloads), requests, cutoff), total)
      ensures !disturbed ==> FullDelete(old(payloads), payloads, ExpiredPayloads(old(payloads), requests, cutoff))
    {
      total, disturbed := 0, false;
      ghost var start := payloads;
      NothingDeleted(start, ExpiredPayloads(start, requests, cutoff));
      hide *;
      while true
        invariant PartialDelete(start, payloads, ExpiredPayloads(start, requests, cutoff), total)
        decreases |payloads|
      {
        PayloadsLeft(start, payloads, requests, cutoff, total);
        var doomed := ExpiredPayloads(payloads, requests, cutoff);
        ghost var before := payloads;
        var r := ExecDeletePayloads(doomed);
        if r.Rows? {
          ghost var victims :| BatchGone(before, payloads, doomed, victims, r.n);
          DeleteMore(start, before, payloads, ExpiredPayloads(start, requests, cutoff), doomed, victims, total, r.n);
          if r.n == 0 { return; }
          total := total + r.n;
        } else {
          disturbed := r.DatabaseError?;
          return;
        }
      }
    }

    /** Payloads whose request is gone. */
    method DeleteOrphanedPayloadsBatched() returns (total: nat, disturbed: bool)
      modifies this`payloads
      ensures PartialDelete(old(payloads), payloads, Orphans(old(payloads), requests), total)
      ensures !disturbed ==> FullDelete(old(payloads), payloads, Orphans(old(payloads), requests))
    {
      total, disturbed := 0, false;
      ghost var start := payloads;
      NothingDeleted(start, Orphans(start, requests));
      hide *;
      while true
        invariant PartialDelete(start, payloads, Orphans(start, requests), total)
        decreases |payloads|
      {
        OrphansLeft(start, payloads, requests, total);
        var doomed := Orphans(payloads, requests);
        ghost var before := payloads;
        var r := ExecDeletePayloads(doomed);
        if r.Rows? {
          ghost var victims :| BatchGone(before, payloads, doomed, victims, r.n);
          DeleteMore(start, before, payloads, Orphans(start, requests), doomed, victims, total, r.n);
          if r.n == 0 { return; }
          total := total + r.n;
        } else {
          disturbed := r.DatabaseError?;
          return;
        }
      }
    }

    /** Old observations, which nothing refers to. */
    method BatchedDeleteObservations(cutoff: int) returns (total: nat, disturbed: bool)
      modifies this`observations
      ensures PartialDelete(old(observations), observations, Expired(old(observations), cutoff), total)
      ensures !disturbed ==> FullDelete(old(observations), observations, Expired(old(observations), cutoff))
    {
      total, disturbed := 0, false;
      ghost var start := observations;
      NothingDeleted(start, Expired(start, cutoff));
      hide *;
      while true
        invariant PartialDelete(start, observations, Expired(start, cutoff), total)
        decreases |observations|
      {
        RowsLeft(start, observations, cutoff, total);
        var doomed := Expired(observations, cutoff);
        ghost var before := observations;
        var r := ExecDeleteObservations(doomed);
        if r.Rows? {
          ghost var victims :| BatchGone(before, observations, doomed, victims, r.n);
          DeleteMore(start, before, observations, Expired(start, cutoff), doomed, victims, total, r.n);
          if r.n == 0 { return; }
          total := total + r.n;
        } else {
          disturbed := r.DatabaseError?;
          return;
        }
      }
    }

    /** Requests stop going at the first batch that holds one with a payload, and none that has a payload
        ever goes; so undisturbed all expired requests go if none of them has a payload. */
    method BatchedDeleteRequests(cutoff: int) returns (total: nat, disturbed: bool)
      modifies this`requests
      ensures PartialDelete(old(requests), requests, Expired(old(requests), cutoff), total)
      ensures KeepsReferenced(old(requests), requests, payloads)
      ensures !disturbed && Expired(old(requests), cutoff) !! payloads.Keys ==>
                FullDelete(old(requests), requests, Expired(old(requests), cutoff))
    {
      total, disturbed := 0, false;
      ghost var start := requests;
      ghost var all := Expired(start, cutoff);
      NothingDeleted(start, all);
      assert KeepsReferenced(start, requests, payloads);
      hide *;
      while true
        invariant PartialDelete(start, requests, all, total)
        invariant KeepsReferenced(start, requests, payloads)
        decreases |requests|
      {
        RowsLeft(start, requests, cutoff, total);
        var doomed := Expired(requests, cutoff);
        ghost var before := requests;
        var r := ExecDeleteRequests(doomed);
        match r {
          case Rows(n) =>
            ghost var victims :| BatchGone(before, requests, doomed, victims, n) && victims !! payloads.Keys;
            DeleteMore(start, before, requests, all, doomed, victims, total, n);
            ReferencedKept(start, before, requests, payloads, doomed, victims, n);
            if n == 0 { return; }
            total := total + n;
          case ForeignKeyError =>
            return;
          case DatabaseError =>
            disturbed := true;
            return;
        }
      }
    }

    /** One pass: payloads, then requests, then orphans, then observations. A step that fails stops
        itself only. Whatever happens, requests that go are expired and leave no payload behind; undisturbed,
        the outcome is the one of single deletes, and all expired requests are gone if and only if no payload
        belonged to a request between the two cutoffs. */
    method RunCleanup(config: Config, now: int) returns (report: Report, disturbed: bool)
      modifies this
      ensures PartialDelete(old(requests), requests,
                            Expired(old(requests), Cutoff(now, config.requestDays)), report.requests)
      ensures PartialDelete(old(observations), observations,
                            Expired(old(observations), Cutoff(now, config.observationDays)), report.observations)
      ensures payloads.Keys <= old(payloads).Keys && KeepsReferenced(old(requests), requests, payloads)
      ensures |old(payloads)| == |payloads| + report.payloads + report.orphans
      ensures !disturbed ==>
                PassDone(old(requests), old(payloads), requests, payloads,
                         Cutoff(now, config.dataDays), Cutoff(now, config.requestDays))
      ensures !disturbed ==>
                FullDelete(old(observations), observations,
                           Expired(old(observations), Cutoff(now, config.observationDays)))
    {
      hide *;
      ghost var r0, p0 := requests, payloads;
      var payloadCutoff := Cutoff(now, config.dataDays);
      var requestCutoff := Cutoff(now, config.requestDays);
      var n1, d1 := BatchedDeletePayloads(payloadCutoff);
      ghost var p1 := payloads;
      var n2, d2 := BatchedDeleteRequests(requestCutoff);
      var n3, d3 := DeleteOrphanedPayloadsBatched();
      var n4, d4 := BatchedDeleteObservations(Cutoff(now, config.observationDays));
      report := Report(n1, n2, n3, n4);
      disturbed := d1 || d2 || d3 || d4;
      SizeAfter(p0, p1, ExpiredPayloads(p0, r0, payloadCutoff), n1);
      SizeAfter(p1, payloads, Orphans(p1, requests), n3);
      FewerReferenced(r0, requests, p1, payloads);
      if !disturbed {
        PassOutcome(r0, p0, p1, requests, payloads, payloadCutoff, requestCutoff, n2);
      }
    }
  }

  /** How many rows each step of a pass deleted. */
  datatype Report = Report(payloads: nat, requests: nat, orphans: nat, observations: nat)

  lemma SizeAfter<K, V>(before: map<K, V>, after: map<K, V>, doomed: set<K>, total: nat)
    requires PartialDelete(before, after, doomed, total)
    ensures after.Keys <= before.Keys && |before| == |after| + total
  {
  }

  lemma FewerReferenced(before: map<string, Row>, after: map<string, Row>, payloads: map<string, string>,
                        fewer: map<string, string>)
    requires KeepsReferenced(before, after, payloads) && fewer.Keys <= payloads.Keys
    ensures KeepsReferenced(before, after, fewer)
  {
  }

  // ---------------------------------------------------------------------
  // One pass
  // ---------------------------------------------------------------------

  /** No request that has a payload is gone. */
  ghost predicate KeepsReferenced(before: map<string, Row>, after: map<string, Row>, payloads: map<string, string>) {
    forall k :: k in before && k in payloads ==> k in after
  }

  /** A payload whose request is older than the request cutoff but not than the payload cutoff. */
  ghost predicate Straddles(k: string, requests: map<string, Row>, payloads: map<string, string>, payloadCutoff: int,
                            requestCutoff: int) {
    k in payloads && k in requests && payloadCutoff <= requests[k].timestamp < requestCutoff
  }

  ghost predicate PassDone(r0: map<string, Row>, p0: map<string, string>, r: map<string, Row>, p: map<string, string>,
                           payloadCutoff: int, requestCutoff: int) {
    && p == (map k | k in p0 && k in r0 && r0[k].timestamp >= payloadCutoff :: p0[k])
    && Orphans(p, r) == {} && ExpiredPayloads(p, r, payloadCutoff) == {}
    && (Expired(r, requestCutoff) == {} <==> forall k :: !Straddles(k, r0, p0, payloadCutoff, requestCutoff))
    && (Expired(r, requestCutoff) == {} ==> FullDelete(r0, r, Expired(r0, requestCutoff)))
  }

  /** When payloads are kept no longer than requests, nothing straddles: an undisturbed pass leaves no
      expired request, no expired payload and no orphan. */
  lemma PassLeavesNothingExpired(r0: map<string, Row>, p0: map<string, string>,
                                 r: map<string, Row>, p: map<string, string>,
                                 config: Config, now: int)
    requires config.dataDays <= config.requestDays
    requires PassDone(r0, p0, r, p, Cutoff(now, config.dataDays), Cutoff(now, config.requestDays))
    ensures Expired(r, Cutoff(now, config.requestDays)) == {}
    ensures ExpiredPayloads(p, r, Cutoff(now, config.dataDays)) == {} && Orphans(p, r) == {}
    ensures FullDelete(r0, r, Expired(r0, Cutoff(now, config.requestDays)))
  {
  }

  lemma PassOutcome(r0: map<string, Row>, p0: map<string, string>, p1: map<string, string>, r: map<string, Row>,
                    p: map<string, string>,
                    payloadCutoff: int, requestCutoff: int, n: nat)
    requires FullDelete(p0, p1, ExpiredPayloads(p0, r0, payloadCutoff))
    requires PartialDelete(r0, r, Expired(r0, requestCutoff), n) && KeepsReferenced(r0, r, p1)
    requires Expired(r0, requestCutoff) !! p1.Keys ==> FullDelete(r0, r, Expired(r0, requestCutoff))
    requires FullDelete(p1, p, Orphans(p1, r))
    ensures PassDone(r0, p0, r, p, payloadCutoff, requestCutoff)
  {
    forall k ensures k in p <==> k in p0 && k in r0 && r0[k].timestamp >= payloadCutoff {
      assert k in p1 <==> k in p0 && !(k in r0 && r0[k].timestamp < payloadCutoff);
    }
    forall k | k in p ensures p[k] == p0[k] {}
    if k :| Straddles(k, r0, p0, payloadCutoff, requestCutoff) {
      assert k in p1 && k in r && k in Expired(r, requestCutoff);
    } else {
      forall k | k in Expired(r0, requestCutoff) ensures k !in p1 {
        assert !Straddles(k, r0, p0, payloadCutoff, requestCutoff);
      }
      assert FullDelete(r0, r, Expired(r0, requestCutoff));
    }
  }

  /** `after` is `before` without a batch of the doomed rows. */
  ghost predicate BatchGone<K, V>(before: map<K, V>, after: map<K, V>, doomed: set<K>, victims: set<K>, n: nat) {
    && victims <= doomed && |victims| == n == Smaller(|doomed|, BATCH_SIZE)
    && after == before - victims
  }

  /** `after` is `before` without `total` rows, all of them in `doomed`. */
  ghost predicate PartialDelete<K, V>(before: map<K, V>, after: map<K, V>, doomed: set<K>, total: nat) {
    && after.Keys <= before.Keys
    && (forall k :: k in after ==> after[k] == before[k])
    && before.Keys - after.Keys <= doomed
    && total == |before.Keys - after.Keys|
  }

  /** `after` is `before` without exactly the doomed rows. */
  ghost predicate FullDelete<K, V>(before: map<K, V>, after: map<K, V>, doomed: set<K>) {
    after == before - doomed
  }

  lemma NothingDeleted<K, V>(table: map<K, V>, doomed: set<K>)
    ensures PartialDelete(table, table, doomed, 0)
  {
  }

  lemma PayloadsLeft(start: map<string, string>, now: map<string, string>, requests: map<string, Row>, cutoff: int,
                     total: nat)
    requires PartialDelete(start, now, ExpiredPayloads(start, requests, cutoff), total)
    ensures ExpiredPayloads(now, requests, cutoff) == ExpiredPayloads(start, requests, cutoff) * now.Keys
    ensures ExpiredPayloads(now, requests, cutoff) <= now.Keys && ExpiredPayloads(start, requests, cutoff) <= start.Keys
  {
  }

  lemma OrphansLeft(start: map<string, string>, now: map<string, string>, requests: map<string, Row>, total: nat)
    requires PartialDelete(start, now, Orphans(start, requests), total)
    ensures Orphans(now, requests) == Orphans(start, requests) * now.Keys
    ensures Orphans(now, requests) <= now.Keys && Orphans(start, requests) <= start.Keys
  {
  }

  lemma RowsLeft<K>(start: map<K, Row>, now: map<K, Row>, cutoff: int, total: nat)
    requires PartialDelete(start, now, Expired(start, cutoff), total)
    ensures Expired(now, cutoff) == Expired(start, cutoff) * now.Keys
    ensures Expired(now, cutoff) <= now.Keys && Expired(start, cutoff) <= start.Keys
  {
  }

  /** One more batch; an empty one means that nothing doomed is left. */
  lemma DeleteMore<K, V>(start: map<K, V>, before: map<K, V>, after: map<K, V>, all: set<K>, doomed: set<K>,
                         victims: set<K>, total: nat, n: nat)
    requires PartialDelete(start, before, all, total) && all <= start.Keys && doomed == all * before.Keys
    requires BatchGone(before, after, doomed, victims, n)
    ensures PartialDelete(start, after, all, total + n)
    ensures n > 0 ==> |after| < |before|
    ensures n == 0 ==> PartialDelete(start, after, all, total) && FullDelete(start, after, all)
  {
    RemovedSize(before, victims);
    assert after.Keys == before.Keys - victims;
    RemovedSoFar(start.Keys, before.Keys, victims);
    if n == 0 {
      assert victims == {} && doomed == {};
      NothingLeft(start, before, all);
    }
  }

  lemma ReferencedKept(start: map<string, Row>, before: map<string, Row>, after: map<string, Row>,
                       payloads: map<string, string>,
                       doomed: set<string>, victims: set<string>, n: nat)
    requires KeepsReferenced(start, before, payloads) && BatchGone(before, after, doomed, victims, n)
    requires victims !! payloads.Keys
    ensures KeepsReferenced(start, after, payloads)
  {
  }

  lemma RemovedSoFar<K>(start: set<K>, before: set<K>, victims: set<K>)
    requires before <= start && victims <= before
    ensures |start - (before - victims)| == |start - before| + |victims|
  {
  }

  lemma NothingLeft<K, V>(start: map<K, V>, before: map<K, V>, all: set<K>)
    requires before.Keys <= start.Keys && start.Keys - before.Keys <= all && all * before.Keys == {}
    requires forall k :: k in before ==> before[k] == start[k]
    ensures before == start - all
  {
    assert forall k :: k in before && k in all ==> k in all * before.Keys;
    assert before.Keys == start.Keys - all;
  }
}
