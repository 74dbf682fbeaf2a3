/**
 * What one run of OneByOneExecutor#perform does, stated over the whole
 * enumeration at once: the checks of the cancel flag it passes, the queries
 * it sends (each distinct SPARQL text once, in order of first appearance),
 * the events it emits and the statistics it logs.
 */
module LodqaDispatch {
  import opened Wrappers
  import opened LodqaEvents
  import opened LodqaAnswers

  /** The number of queries the endpoint client runs in parallel. */
  const Parallel := 16
  const EnjuMessage := "enju access error"
  const FindMessage := "dictionary lookup error"

  /** One check of the cancel flag: before an anchored pgp, or before one of its candidates. */
  datatype Poll = AnchorPoll(anchored: AnchoredPgp) | CandidatePoll(anchored: AnchoredPgp, candidate: Candidate)

  /** A query sent: the anchored pgp and the candidate it came from. */
  datatype Query = Query(anchored: AnchoredPgp, candidate: Candidate)

  /** The finish statistics: parallelism, queries answered, failed and solved. */
  datatype Stats = Stats(parallel: nat, sparqls: nat, error: nat, success: nat)

  /** How perform ends. */
  datatype RunEnd = Finished(stats: Option<Stats>) | Cancelled | Rescued(failure: Failure)

  /** The checks made for one anchored pgp, in order. */
  function PollsOf(ap: AnchoredPgp): (r: seq<Poll>)
    ensures |r| == 1 + |ap.candidates|
    ensures r[0] == AnchorPoll(ap)
    ensures forall k :: 0 <= k < |ap.candidates| ==> r[k + 1] == CandidatePoll(ap, ap.candidates[k])
  {
    [AnchorPoll(ap)] + seq(|ap.candidates|, k requires 0 <= k < |ap.candidates| => CandidatePoll(ap, ap.candidates[k]))
  }

  /** The checks made for the first `n` anchored pgps, in order. */
  function Polls(aps: seq<AnchoredPgp>, n: nat): seq<Poll>
    requires n <= |aps|
  {
    if n == 0 then [] else Polls(aps, n - 1) + PollsOf(aps[n - 1])
  }

  /** The number of checks that pass before the flag is first found set, out of `total`. */
  function StopFrom(cancelAt: nat -> bool, p: nat, total: nat): (r: nat)
    requires p <= total
    ensures p <= r <= total
    ensures forall q :: p <= q < r ==> !cancelAt(q)
    ensures r < total ==> cancelAt(r)
    decreases total - p
  {
    if p == total || cancelAt(p) then p else StopFrom(cancelAt, p + 1, total)
  }

  /** The checks a run passes. */
  function Passed(env: Env): (r: seq<Poll>)
    ensures |r| <= |Polls(env.anchored, |env.anchored|)|
  {
    var all := Polls(env.anchored, |env.anchored|);
    all[..StopFrom(env.cancelAt, 0, |all|)]
  }

  predicate WasCancelled(env: Env) {
    |Passed(env)| < |Polls(env.anchored, |env.anchored|)|
  }

  /** The SPARQL texts of the candidates among some checks. */
  function Known(polls: seq<Poll>): set<string> {
    if polls == [] then {}
    else
      var last := polls[|polls| - 1];
      Known(polls[..|polls| - 1]) + if last.CandidatePoll? then {last.candidate.query} else {}
  }

  /** The queries sent for some checks: each candidate whose text no earlier candidate had. */
  function Dispatch(polls: seq<Poll>): seq<Query> {
    if polls == [] then []
    else
      var init := polls[..|polls| - 1];
      var last := polls[|polls| - 1];
      if last.CandidatePoll? && last.candidate.query !in Known(init)
      then Dispatch(init) + [Query(last.anchored, last.candidate)]
      else Dispatch(init)
  }

  /** The payload the events of one query carry. */
  function ContextOf(env: Env, pgp: string, mappings: string, q: Query): Context {
    Context(env.dataset, pgp, mappings, q.anchored, q.candidate.bgp)
  }

  /** The events of one query numbered `n`: its sparql event, what its callback emits, then query_sparql. */
  function QueryEvents(env: Env, pgp: string, mappings: string, q: Query, n: int): seq<Event> {
    var ctx := ContextOf(env, pgp, mappings, q);
    var sparql := Sparql(q.candidate.query, n);
    [SparqlEvent(ctx, sparql)] + CallbackEvents(ctx, sparql, env.outcome(q.candidate.query), env) + [QuerySparqlEvent(ctx, sparql)]
  }

  /** The events of the queries `qs`, numbered on from `n0`. */
  function DispatchLog(env: Env, pgp: string, mappings: string, qs: seq<Query>, n0: int): seq<Event> {
    if qs == [] then []
    else DispatchLog(env, pgp, mappings, qs[..|qs| - 1], n0) + QueryEvents(env, pgp, mappings, qs[|qs| - 1], n0 + |qs|)
  }

  /** The queue entries the drain counts as errors. */
  function Errors(env: Env, qs: seq<Query>): nat {
    if qs == [] then 0
    else Errors(env, qs[..|qs| - 1]) + if QueueEntry(env.outcome(qs[|qs| - 1].candidate.query)).0 then 1 else 0
  }

  /** The queue entries the drain counts as successes. */
  function Successes(env: Env, qs: seq<Query>): nat {
    if qs == [] then 0
    else Successes(env, qs[..|qs| - 1]) + if QueueEntry(env.outcome(qs[|qs| - 1].candidate.query)).1 then 1 else 0
  }

  /** The events a failure to build the pgp or the mappings emits. */
  function GatewayEvents(f: Failure): seq<Event> {
    match f
    case EnjuFailure => [GatewayErrorEvent(EnjuMessage)]
    case FindFailure => [GatewayErrorEvent(FindMessage)]
    case _ => []
  }

  /** The queries a run sends. */
  function Sent(env: Env): seq<Query> {
    if env.pgp.Err? || env.mappings.Err? then [] else Dispatch(Passed(env))
  }

  /** Everything a run emits, when the SPARQL counter stood at `n0`. */
  function RunEvents(env: Env, n0: int): seq<Event> {
    var ds := DatasetsEvent(env.dataset);
    match env.pgp
    case Err(f) => [ds] + GatewayEvents(f)
    case Ok(pgp) =>
      match env.mappings
      case Err(f) => [ds, PgpEvent(env.dataset, pgp)] + GatewayEvents(f)
      case Ok(m) => [ds, PgpEvent(env.dataset, pgp), MappingsEvent(env.dataset, pgp, m)] + DispatchLog(env, pgp, m, Sent(env), n0)
  }

  /** How a run ends, and the statistics it logs when it finishes having drained any entries. */
  function RunEndOf(env: Env): RunEnd {
    if env.pgp.Err? then Rescued(env.pgp.error)
    else if env.mappings.Err? then Rescued(env.mappings.error)
    else if WasCancelled(env) then Cancelled
    else
      var qs := Sent(env);
      var error := Errors(env, qs);
      var success := Successes(env, qs);
      Finished(if error + success > 0 then Some(Stats(Parallel, error + success, error, success)) else None)
  }

  /** The SPARQL texts of some queries, in order. */
  function Texts(qs: seq<Query>): (r: seq<string>)
    ensures |r| == |qs|
    ensures forall i :: 0 <= i < |qs| ==> r[i] == qs[i].candidate.query
  {
    seq(|qs|, i requires 0 <= i < |qs| => qs[i].candidate.query)
  }

  /**
   * The growing set of known texts: no SPARQL text is sent twice, every text
   * met among the checks is sent, and each query sent comes from a check.
   */
  lemma {:induction false} DispatchOnce(polls: seq<Poll>)
    ensures forall i, j :: 0 <= i < j < |Dispatch(polls)| ==> Dispatch(polls)[i].candidate.query != Dispatch(polls)[j].candidate.query
    ensures forall t :: t in Known(polls) <==> t in Texts(Dispatch(polls))
    ensures forall q :: q in Dispatch(polls) ==> CandidatePoll(q.anchored, q.candidate) in polls
  {
    if polls != [] {
      var init := polls[..|polls| - 1];
      var last := polls[|polls| - 1];
      DispatchOnce(init);
      assert polls == init + [last];
      var d := Dispatch(init);
      if last.CandidatePoll? && last.candidate.query !in Known(init) {
        var d' := d + [Query(last.anchored, last.candidate)];
        assert Texts(d') == Texts(d) + [last.candidate.query];
        forall i, j | 0 <= i < j < |d'| ensures d'[i].candidate.query != d'[j].candidate.query {
          if j == |d| {
            assert Texts(d)[i] in Texts(d);
          }
        }
      }
    }
  }

  /** The sparql payloads among some events, in order. */
  function SparqlsOf(evs: seq<Event>): seq<Sparql> {
    if evs == [] then []
    else
      var last := evs[|evs| - 1];
      SparqlsOf(evs[..|evs| - 1]) + if last.SparqlEvent? then [last.sparql] else []
  }

  lemma {:induction false} SparqlsOfAppend(a: seq<Event>, b: seq<Event>)
    ensures SparqlsOf(a + b) == SparqlsOf(a) + SparqlsOf(b)
  {
    if b == [] {
      assert a + b == a;
    } else {
      SparqlsOfAppend(a, b[..|b| - 1]);
      assert (a + b)[..|a + b| - 1] == a + b[..|b| - 1];
      assert (a + b)[|a + b| - 1] == b[|b| - 1];
    }
  }

  lemma {:induction false} NoSparqlEvents(evs: seq<Event>)
    requires forall e :: e in evs ==> !e.SparqlEvent?
    ensures SparqlsOf(evs) == []
  {
    if evs != [] {
      assert evs[|evs| - 1] in evs;
      assert forall e :: e in evs[..|evs| - 1] ==> e in evs;
      NoSparqlEvents(evs[..|evs| - 1]);
    }
  }

  /** A callback emits no sparql event. */
  lemma {:induction false} CallbackSparqls(ctx: Context, sparql: Sparql, outcome: Outcome, env: Env)
    ensures SparqlsOf(CallbackEvents(ctx, sparql, outcome, env)) == []
  {
    var evs := CallbackEvents(ctx, sparql, outcome, env);
    CallbackShape(ctx, sparql, outcome, env);
    if outcome.Solved? {
      forall e | e in evs ensures !e.SparqlEvent? {
        var k :| 0 <= k < |evs| && evs[k] == e;
        if k > 0 {
          assert evs[1..][k - 1] == e;
        }
      }
    }
    NoSparqlEvents(evs);
  }

  /** The sparql payloads of the queries `qs`, numbered on from `n0` by one. */
  function Numbered(qs: seq<Query>, n0: int): seq<Sparql> {
    if qs == [] then [] else Numbered(qs[..|qs| - 1], n0) + [Sparql(qs[|qs| - 1].candidate.query, n0 + |qs|)]
  }

  /** The `i`-th of the numbered payloads carries the `i`-th text and the number `n0 + i + 1`. */
  lemma {:induction false} NumberedIndex(qs: seq<Query>, n0: int)
    ensures |Numbered(qs, n0)| == |qs|
    ensures forall i :: 0 <= i < |qs| ==> Numbered(qs, n0)[i] == Sparql(qs[i].candidate.query, n0 + i + 1)
  {
    if qs != [] {
      var init := qs[..|qs| - 1];
      NumberedIndex(init, n0);
      assert forall i :: 0 <= i < |init| ==> qs[i] == init[i];
    }
  }

  /** The sparql events of the queries sent are numbered on from `n0` by one, in the order sent. */
  lemma {:induction false} DispatchNumbers(env: Env, pgp: string, mappings: string, qs: seq<Query>, n0: int)
    ensures SparqlsOf(DispatchLog(env, pgp, mappings, qs, n0)) == Numbered(qs, n0)
  {
    if qs != [] {
      var init := qs[..|qs| - 1];
      var q := qs[|qs| - 1];
      DispatchNumbers(env, pgp, mappings, init, n0);
      var ctx := ContextOf(env, pgp, mappings, q);
      var sparql := Sparql(q.candidate.query, n0 + |qs|);
      var cb := CallbackEvents(ctx, sparql, env.outcome(q.candidate.query), env);
      CallbackSparqls(ctx, sparql, env.outcome(q.candidate.query), env);
      SparqlsOfAppend([SparqlEvent(ctx, sparql)], cb);
      SparqlsOfAppend([SparqlEvent(ctx, sparql)] + cb, [QuerySparqlEvent(ctx, sparql)]);
      assert SparqlsOf([SparqlEvent(ctx, sparql)]) == [sparql];
      SparqlsOfAppend(DispatchLog(env, pgp, mappings, init, n0), QueryEvents(env, pgp, mappings, q, n0 + |qs|));
    }
  }

  /**
   * A run that gets past the pgp and the mappings emits one sparql event per
   * query sent, numbered on from the counter by one, with pairwise different
   * texts; a run that fails before emits none.
   */
  lemma {:induction false} RunSparqls(env: Env, n0: int)
    ensures |SparqlsOf(RunEvents(env, n0))| == |Sent(env)|
    ensures forall i :: 0 <= i < |Sent(env)| ==> SparqlsOf(RunEvents(env, n0))[i] == Sparql(Sent(env)[i].candidate.query, n0 + i + 1)
    ensures forall i, j :: 0 <= i < j < |Sent(env)| ==> Sent(env)[i].candidate.query != Sent(env)[j].candidate.query
  {
    var ds := DatasetsEvent(env.dataset);
    if env.pgp.Err? {
      NoSparqlEvents([ds] + GatewayEvents(env.pgp.error));
    } else if env.mappings.Err? {
      NoSparqlEvents([ds, PgpEvent(env.dataset, env.pgp.value)] + GatewayEvents(env.mappings.error));
    } else {
      var pgp := env.pgp.value;
      var m := env.mappings.value;
      var head := [ds, PgpEvent(env.dataset, pgp), MappingsEvent(env.dataset, pgp, m)];
      var log := DispatchLog(env, pgp, m, Sent(env), n0);
      assert RunEvents(env, n0) == head + log;
      NoSparqlEvents(head);
      SparqlsOfAppend(head, log);
      DispatchNumbers(env, pgp, m, Sent(env), n0);
      assert SparqlsOf(RunEvents(env, n0)) == Numbered(Sent(env), n0);
      NumberedIndex(Sent(env), n0);
      DispatchOnce(Passed(env));
    }
  }

  /** Every queue entry counts once: as an error or as a success. */
  lemma {:induction false} TallyTotal(env: Env, qs: seq<Query>)
    ensures Errors(env, qs) + Successes(env, qs) == |qs|
    ensures Successes(env, qs) == |set i | 0 <= i < |qs| && env.outcome(qs[i].candidate.query).Solved?|
  {
    if qs != [] {
      var init := qs[..|qs| - 1];
      TallyTotal(env, init);
      var last := |qs| - 1;
      var before := set i | 0 <= i < |init| && env.outcome(init[i].candidate.query).Solved?;
      var now := set i | 0 <= i < |qs| && env.outcome(qs[i].candidate.query).Solved?;
      if env.outcome(qs[last].candidate.query).Solved? {
        assert now == before + {last};
      } else {
        assert now == before;
      }
    }
  }

  /**
   * A finished run logs statistics exactly when it sent a query: as many
   * answered queries as it sent, errors and successes adding up to them.
   * A cancelled run logs none: the flag was set at the first check it did
   * not pass, and unset at every check before.
   */
  lemma {:induction false} RunStats(env: Env)
    ensures RunEndOf(env).Finished? && RunEndOf(env).stats.Some? ==>
      var st := RunEndOf(env).stats.value;
      && st.parallel == Parallel && st.sparqls == |Sent(env)| > 0 && st.error + st.success == st.sparqls
      && st.success == |set i | 0 <= i < |Sent(env)| && env.outcome(Sent(env)[i].candidate.query).Solved?|
    ensures RunEndOf(env).Finished? && RunEndOf(env).stats.None? ==> Sent(env) == []
    ensures RunEndOf(env).Cancelled? ==>
      && env.cancelAt(|Passed(env)|) && forall q :: 0 <= q < |Passed(env)| ==> !env.cancelAt(q)
  {
    TallyTotal(env, Sent(env));
  }

  /** The queue entries of the queries `qs`, in the order they were pushed. */
  function Entries(env: Env, qs: seq<Query>): (r: seq<(bool, bool)>)
    ensures |r| == |qs|
    ensures forall i :: 0 <= i < |qs| ==> r[i] == QueueEntry(env.outcome(qs[i].candidate.query))
  {
    if qs == [] then []
    else Entries(env, qs[..|qs| - 1]) + [QueueEntry(env.outcome(qs[|qs| - 1].candidate.query))]
  }

  /** Sending one more query queues one more entry. */
  lemma {:induction false} EntriesStep(env: Env, qs: seq<Query>, q: Query)
    ensures Entries(env, qs + [q]) == Entries(env, qs) + [QueueEntry(env.outcome(q.candidate.query))]
  {
    assert (qs + [q])[..|qs|] == qs;
  }

  /** The checks for the first `n` anchored pgps come first among the checks for more of them. */
  lemma {:induction false} PollsPrefix(aps: seq<AnchoredPgp>, n: nat, m: nat)
    requires n <= m <= |aps|
    ensures |Polls(aps, n)| <= |Polls(aps, m)|
    ensures Polls(aps, m)[..|Polls(aps, n)|] == Polls(aps, n)
  {
    if n < m {
      PollsPrefix(aps, n, m - 1);
      assert Polls(aps, m) == Polls(aps, m - 1) + PollsOf(aps[m - 1]);
    }
  }

  /** The check for the `k`-th candidate of the `a`-th anchored pgp (k = 0: the anchored pgp itself). */
  lemma {:induction false} PollAt(aps: seq<AnchoredPgp>, a: nat, k: nat)
    requires a < |aps| && k <= |aps[a].candidates|
    ensures |Polls(aps, a)| + k < |Polls(aps, |aps|)|
    ensures Polls(aps, |aps|)[|Polls(aps, a)| + k] ==
      if k == 0 then AnchorPoll(aps[a]) else CandidatePoll(aps[a], aps[a].candidates[k - 1])
  {
    PollsStep(aps, a);
    PollsPrefix(aps, a + 1, |aps|);
    var all, before, own := Polls(aps, |aps|), Polls(aps, a), PollsOf(aps[a]);
    var i := |before| + k;
    assert all[..|before + own|] == before + own;
    assert all[i] == (before + own)[i];
    assert (before + own)[i] == own[k];
  }

  lemma {:induction false} PollsStep(aps: seq<AnchoredPgp>, a: nat)
    requires a < |aps|
    ensures Polls(aps, a + 1) == Polls(aps, a) + PollsOf(aps[a])
  {
  }

  /** The checks a run passes, when the flag is unset at the first `p` checks and set at the next one if any. */
  lemma {:induction false} StopAt(cancelAt: nat -> bool, s: nat, p: nat, total: nat)
    requires s <= p <= total
    requires forall q :: s <= q < p ==> !cancelAt(q)
    requires p == total || cancelAt(p)
    ensures StopFrom(cancelAt, s, total) == p
    decreases p - s
  {
    if s < p {
      StopAt(cancelAt, s + 1, p, total);
    }
  }

  /** One more check, as the run's set of known texts and list of queries sent see it. */
  lemma {:induction false} PollStep(polls: seq<Poll>, x: Poll)
    ensures Known(polls + [x]) == Known(polls) + if x.CandidatePoll? then {x.candidate.query} else {}
    ensures Dispatch(polls + [x]) ==
      if x.CandidatePoll? && x.candidate.query !in Known(polls) then Dispatch(polls) + [Query(x.anchored, x.candidate)] else Dispatch(polls)
  {
    assert (polls + [x])[..|polls|] == polls;
  }

  lemma {:induction false} LogStep(env: Env, pgp: string, mappings: string, qs: seq<Query>, q: Query, n0: int, n: int)
    requires n == n0 + |qs| + 1
    ensures DispatchLog(env, pgp, mappings, qs + [q], n0) == DispatchLog(env, pgp, mappings, qs, n0) + QueryEvents(env, pgp, mappings, q, n)
  {
    assert (qs + [q])[..|qs|] == qs;
  }

  /** The statistics a run that was not cancelled logs for the queries `qs`. */
  function FinishOf(env: Env, qs: seq<Query>): RunEnd {
    var error := Errors(env, qs);
    var success := Successes(env, qs);
    Finished(if error + success > 0 then Some(Stats(Parallel, error + success, error, success)) else None)
  }

  /** A run past the pgp and the mappings, whose walk stopped after `p` checks. */
  lemma {:induction false} RunAfter(env: Env, n0: int, p: nat)
    requires env.pgp.Ok? && env.mappings.Ok?
    requires p <= |Polls(env.anchored, |env.anchored|)|
    requires forall q :: 0 <= q < p ==> !env.cancelAt(q)
    requires p == |Polls(env.anchored, |env.anchored|)| || env.cancelAt(p)
    ensures Sent(env) == Dispatch(Polls(env.anchored, |env.anchored|)[..p])
    ensures RunEvents(env, n0) ==
      [DatasetsEvent(env.dataset), PgpEvent(env.dataset, env.pgp.value), MappingsEvent(env.dataset, env.pgp.value, env.mappings.value)]
      + DispatchLog(env, env.pgp.value, env.mappings.value, Sent(env), n0)
    ensures RunEndOf(env) == if p < |Polls(env.anchored, |env.anchored|)| then Cancelled else FinishOf(env, Sent(env))
  {
    StopAt(env.cancelAt, 0, p, |Polls(env.anchored, |env.anchored|)|);
  }
}
