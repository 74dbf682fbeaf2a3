/**
 * Lodqa::OneByOneExecutor: handlers registered per event name, events
 * emitted to them in registration order, and the run that sends each
 * distinct SPARQL query once. The endpoint's callback runs synchronously
 * here, between the query's sparql and query_sparql events.
 */
module LodqaExecutor {
  import opened Wrappers
  import opened LodqaEvents
  import opened LodqaAnswers
  import opened LodqaDispatch

  /** An event handler block, by its identity. */
  type Handler = nat

  /** `@event_hadlers[name]`, with nil read as no handler. */
  function Registered(handlers: map<Symbol, seq<Handler>>, name: Symbol): seq<Handler> {
    if name in handlers then handlers[name] else []
  }

  /** How often `name` occurs among `names`. */
  function Occurrences(names: seq<Symbol>, name: Symbol): nat {
    if names == [] then 0
    else Occurrences(names[..|names| - 1], name) + if names[|names| - 1] == name then 1 else 0
  }

  /** `h`, `n` times. */
  function Repeat(h: Handler, n: nat): seq<Handler> {
    if n == 0 then [] else Repeat(h, n - 1) + [h]
  }

  /** One name registered: the handler is appended to the name's list, which starts empty when missing. */
  function Register(handlers: map<Symbol, seq<Handler>>, e: Symbol, h: Handler): map<Symbol, seq<Handler>> {
    handlers[e := Registered(handlers, e) + [h]]
  }

  /** After registering `h` under `names`, starting from `hs0`. */
  ghost predicate OnInv(hs0: map<Symbol, seq<Handler>>, hs: map<Symbol, seq<Handler>>, names: seq<Symbol>, h: Handler) {
    forall name ::
      && (name in hs <==> name in hs0 || Occurrences(names, name) > 0)
      && Registered(hs, name) == Registered(hs0, name) + Repeat(h, Occurrences(names, name))
  }

  lemma {:induction false} RegisterStep(hs0: map<Symbol, seq<Handler>>, hs: map<Symbol, seq<Handler>>, names: seq<Symbol>, i: nat, h: Handler)
    requires i < |names| && OnInv(hs0, hs, names[..i], h)
    ensures OnInv(hs0, Register(hs, names[i], h), names[..i + 1], h)
  {
    forall name
      ensures name in Register(hs, names[i], h) <==> name in hs0 || Occurrences(names[..i + 1], name) > 0
      ensures Registered(Register(hs, names[i], h), name) == Registered(hs0, name) + Repeat(h, Occurrences(names[..i + 1], name))
    {
      OccurrencesStep(names, i, name);
      RegisterName(hs0, hs, names[i], h, Occurrences(names[..i], name), name);
    }
  }

  /** Registering `h` under `e` adds one more `h` to `e`'s list and leaves every other name's list alone. */
  lemma {:induction false} RegisterName(hs0: map<Symbol, seq<Handler>>, hs: map<Symbol, seq<Handler>>, e: Symbol, h: Handler, n: nat, name: Symbol)
    requires name in hs <==> name in hs0 || n > 0
    requires Registered(hs, name) == Registered(hs0, name) + Repeat(h, n)
    ensures var m := if e == name then n + 1 else n;
      && (name in Register(hs, e, h) <==> name in hs0 || m > 0)
      && Registered(Register(hs, e, h), name) == Registered(hs0, name) + Repeat(h, m)
  {
    if name == e {
      assert Repeat(h, n + 1) == Repeat(h, n) + [h];
      Associative(Registered(hs0, name), Repeat(h, n), [h]);
    }
  }

  lemma OccurrencesStep(names: seq<Symbol>, i: nat, name: Symbol)
    requires i < |names|
    ensures Occurrences(names[..i + 1], name) == Occurrences(names[..i], name) + if names[i] == name then 1 else 0
  {
    assert names[..i + 1][..i] == names[..i];
  }

  /** A name occurs among `names` exactly when it is one of them. */
  lemma {:induction false} OccurrencesIff(names: seq<Symbol>, name: Symbol)
    ensures Occurrences(names, name) > 0 <==> name in names
  {
    if names != [] {
      var init := names[..|names| - 1];
      OccurrencesIff(init, name);
      assert names == init + [names[|names| - 1]];
    }
  }

  /** The calls of the handlers `hs` with one event, in order. */
  function Invocations(hs: seq<Handler>, ev: Event): (r: seq<(Handler, Event)>)
    ensures |r| == |hs|
  {
    if hs == [] then [] else Invocations(hs[..|hs| - 1], ev) + [(hs[|hs| - 1], ev)]
  }

  /** The handler calls that emitting `evs` in order makes: each event's handlers, in registration order. */
  function CallsFor(handlers: map<Symbol, seq<Handler>>, evs: seq<Event>): seq<(Handler, Event)> {
    if evs == [] then []
    else
      var last := evs[|evs| - 1];
      CallsFor(handlers, evs[..|evs| - 1]) + Invocations(Registered(handlers, NameOf(last)), last)
  }

  lemma {:induction false} CallsForAppend(handlers: map<Symbol, seq<Handler>>, a: seq<Event>, b: seq<Event>)
    ensures CallsFor(handlers, a + b) == CallsFor(handlers, a) + CallsFor(handlers, b)
  {
    if b == [] {
      assert a + b == a;
    } else {
      var init, last := b[..|b| - 1], b[|b| - 1];
      assert b == init + [last];
      Associative(a, init, [last]);
      CallsForAppend(handlers, a, init);
      CallsForLast(handlers, a + init, last);
      CallsForLast(handlers, init, last);
      Associative(CallsFor(handlers, a), CallsFor(handlers, init), Invocations(Registered(handlers, NameOf(last)), last));
    }
  }

  lemma CallsForLast(handlers: map<Symbol, seq<Handler>>, evs: seq<Event>, ev: Event)
    ensures CallsFor(handlers, evs + [ev]) == CallsFor(handlers, evs) + Invocations(Registered(handlers, NameOf(ev)), ev)
  {
    assert (evs + [ev])[..|evs|] == evs;
  }

  /** `evs` were emitted after the log stood at `e0` and the handler calls at `c0`. */
  predicate Extends(emitted: seq<Event>, calls: seq<(Handler, Event)>, handlers: map<Symbol, seq<Handler>>,
                    e0: seq<Event>, c0: seq<(Handler, Event)>, evs: seq<Event>) {
    emitted == e0 + evs && calls == c0 + CallsFor(handlers, evs)
  }

  lemma {:induction false} ExtendsChain(handlers: map<Symbol, seq<Handler>>,
                     e0: seq<Event>, c0: seq<(Handler, Event)>, e1: seq<Event>, c1: seq<(Handler, Event)>,
                     e2: seq<Event>, c2: seq<(Handler, Event)>, a: seq<Event>, b: seq<Event>)
    requires Extends(e1, c1, handlers, e0, c0, a)
    requires Extends(e2, c2, handlers, e1, c1, b)
    ensures Extends(e2, c2, handlers, e0, c0, a + b)
  {
    CallsForAppend(handlers, a, b);
    Associative(e0, a, b);
    Associative(c0, CallsFor(handlers, a), CallsFor(handlers, b));
  }

  lemma Associative<T>(x: seq<T>, y: seq<T>, z: seq<T>)
    ensures x + y + z == x + (y + z)
  {
  }

  /** The walk's own state: checks made, the known SPARQL texts, the queue and the count of queries sent. */
  datatype Walk = Walk(p: nat, known: set<string>, queue: seq<(bool, bool)>, count: nat)

  /** The walk has passed the checks `passed`, the first `p` of the run, and its state is theirs. */
  ghost predicate Walked(env: Env, passed: seq<Poll>, w: Walk) {
    && Checked(env, passed, w.p)
    && w.known == Known(passed)
    && w.count == |Dispatch(passed)| && w.queue == Entries(env, Dispatch(passed))
  }

  /** `passed` are the first `p` checks of the run, and none of them found the cancel flag set. */
  ghost predicate Checked(env: Env, passed: seq<Poll>, p: nat) {
    var all := Polls(env.anchored, |env.anchored|);
    && p <= |all| && |passed| == p && passed <= all
    && (forall q :: 0 <= q < p ==> !env.cancelAt(q))
  }

  /** Passing one more check whose flag is clear. */
  lemma {:induction false} CheckedStep(env: Env, passed: seq<Poll>, p: nat, x: Poll)
    requires Checked(env, passed, p)
    requires p < |Polls(env.anchored, |env.anchored|)| && Polls(env.anchored, |env.anchored|)[p] == x
    requires !env.cancelAt(p)
    ensures Checked(env, passed + [x], p + 1)
  {
    PrefixStep(Polls(env.anchored, |env.anchored|), passed, x);
  }

  /** Before the first check nothing has been passed, sent or logged. */
  lemma WalkedStart(env: Env, pgp: string, mappings: string, n0: int, head: seq<Event>)
    ensures Walked(env, [], Walk(0, {}, [], 0)) && |Polls(env.anchored, 0)| == 0
    ensures head + DispatchLog(env, pgp, mappings, Dispatch([]), n0) == head
  {
    assert head + [] == head;
  }

  /** The checks a walk has passed are the first `p` of the run. */
  lemma {:induction false} WalkedPrefix(env: Env, passed: seq<Poll>, w: Walk)
    requires Walked(env, passed, w)
    ensures passed == Polls(env.anchored, |env.anchored|)[..w.p]
  {
  }

  /** Passing the check of an anchored pgp, or of a candidate whose text is known, only moves the walk on. */
  lemma {:induction false} WalkedSkip(env: Env, passed: seq<Poll>, w: Walk, x: Poll)
    requires Walked(env, passed, w)
    requires w.p < |Polls(env.anchored, |env.anchored|)| && Polls(env.anchored, |env.anchored|)[w.p] == x
    requires !env.cancelAt(w.p)
    requires x.AnchorPoll? || x.candidate.query in w.known
    ensures Walked(env, passed + [x], w.(p := w.p + 1))
    ensures Dispatch(passed + [x]) == Dispatch(passed)
  {
    PollStep(passed, x);
    CheckedStep(env, passed, w.p, x);
  }

  /** Passing the check of a candidate with a new text sends it and keeps its queue entry. */
  lemma {:induction false} WalkedSend(env: Env, passed: seq<Poll>, w: Walk, x: Poll, entry: (bool, bool))
    requires Walked(env, passed, w)
    requires w.p < |Polls(env.anchored, |env.anchored|)| && Polls(env.anchored, |env.anchored|)[w.p] == x
    requires !env.cancelAt(w.p)
    requires x.CandidatePoll? && x.candidate.query !in w.known
    requires entry == QueueEntry(env.outcome(x.candidate.query))
    ensures Walked(env, passed + [x], Walk(w.p + 1, w.known + {x.candidate.query}, w.queue + [entry], w.count + 1))
    ensures Dispatch(passed + [x]) == Dispatch(passed) + [Query(x.anchored, x.candidate)]
  {
    PollStep(passed, x);
    CheckedStep(env, passed, w.p, x);
    EntriesStep(env, Dispatch(passed), Query(x.anchored, x.candidate));
  }

  /** A prefix of `all` grows by the element that follows it. */
  lemma {:induction false} PrefixStep<T>(all: seq<T>, passed: seq<T>, x: T)
    requires passed <= all && |passed| < |all| && all[|passed|] == x
    ensures passed + [x] <= all
  {
    assert forall i :: 0 <= i < |passed| ==> (passed + [x])[i] == all[i];
  }

  class OneByOneExecutor {
    var handlers: map<Symbol, seq<Handler>>
    /** `@sparql_count`: the number of the last query sent. */
    var sparqlCount: int
    /** Every event emitted, in order. */
    var emitted: seq<Event>
    /** Every handler call made, in order. */
    var calls: seq<(Handler, Event)>

    constructor ()
      ensures handlers == map[] && sparqlCount == 0 && emitted == [] && calls == []
    {
      handlers := map[];
      sparqlCount := 0;
      emitted := [];
      calls := [];
    }

    /**
     * on: the handler is appended to each named event's list, once per
     * time the name is given; a name without a list gets one.
     */
    method On(names: seq<Symbol>, h: Handler)
      modifies this
      ensures forall name :: name in handlers <==> name in old(handlers) || Occurrences(names, name) > 0
      ensures forall name :: Registered(handlers, name) == Registered(old(handlers), name) + Repeat(h, Occurrences(names, name))
      ensures sparqlCount == old(sparqlCount) && emitted == old(emitted) && calls == old(calls)
    {
      var i := 0;
      while i < |names|
        invariant 0 <= i <= |names|
        invariant OnInv(old(handlers), handlers, names[..i], h)
        invariant sparqlCount == old(sparqlCount) && emitted == old(emitted) && calls == old(calls)
      {
        ghost var before := handlers;
        RegisterOne(names[i], h);
        RegisterStep(old(handlers), before, names, i, h);
        i := i + 1;
      }
      assert names[..|names|] == names;
    }

    /** One name of on: a missing list is created empty, then the handler is appended to it. */
    method RegisterOne(e: Symbol, h: Handler)
      modifies this
      ensures handlers == Register(old(handlers), e, h)
      ensures sparqlCount == old(sparqlCount) && emitted == old(emitted) && calls == old(calls)
    {
      if e !in handlers {
        handlers := handlers[e := []];
      }
      handlers := handlers[e := handlers[e] + [h]];
    }

    /** emit: every handler registered for the event's name is called with it, in registration order. */
    method Emit(ev: Event)
      modifies this
      ensures Extends(emitted, calls, handlers, old(emitted), old(calls), [ev])
      ensures handlers == old(handlers) && sparqlCount == old(sparqlCount)
    {
      var hs := Registered(handlers, NameOf(ev));
      var i := 0;
      while i < |hs|
        invariant 0 <= i <= |hs|
        invariant calls == old(calls) + Invocations(hs[..i], ev)
        invariant handlers == old(handlers) && emitted == old(emitted) && sparqlCount == old(sparqlCount)
      {
        calls := calls + [(hs[i], ev)];
        assert hs[..i + 1][..i] == hs[..i];
        i := i + 1;
      }
      emitted := emitted + [ev];
      assert [ev][..0] == [] && hs[..i] == hs;
    }

    /** get_label_of_url: one answer event with the URI's label and forwarding URLs. */
    method GetLabelOfUrl(ctx: Context, sparql: Sparql, solutions: seq<Solution>, solution: Solution, uri: string, env: Env)
      modifies this
      ensures Extends(emitted, calls, handlers, old(emitted), old(calls), [AnswerEvent(ctx, sparql, solutions, solution, AnswerOf(uri, env))])
      ensures handlers == old(handlers) && sparqlCount == old(sparqlCount)
    {
      var text := Label(env.labels(uri));
      var forwarded := ForwardedUrls(env.urilinks(uri));
      var urls: Option<seq<UrlEntry>> := None;
      var firstRendering: Option<Rendering> := None;
      if forwarded.Some? {
        urls := Some(ShortUrls(forwarded.value.0));
        firstRendering := forwarded.value.1;
      }
      Emit(AnswerEvent(ctx, sparql, solutions, solution, Answer(uri, text, urls, firstRendering)));
    }

    /** The answers of one solution: get_label_of_url for each value bound to an instance of the focus. */
    method AnswerSolution(ctx: Context, sparql: Sparql, solutions: seq<Solution>, solution: Solution, env: Env)
      modifies this
      ensures Extends(emitted, calls, handlers, old(emitted), old(calls), SolutionAnswers(ctx, sparql, solutions, solution, env))
      ensures handlers == old(handlers) && sparqlCount == old(sparqlCount)
    {
      var uris := FocusUris(solution, ctx.anchored.focus);
      ghost var these := SolutionAnswers(ctx, sparql, solutions, solution, env);
      var k := 0;
      assert CallsFor(handlers, []) == [] && these[..0] == [];
      while k < |uris|
        invariant 0 <= k <= |uris|
        invariant Extends(emitted, calls, handlers, old(emitted), old(calls), these[..k])
        invariant handlers == old(handlers) && sparqlCount == old(sparqlCount)
      {
        ghost var e1, c1 := emitted, calls;
        GetLabelOfUrl(ctx, sparql, solutions, solution, uris[k], env);
        ExtendsChain(handlers, old(emitted), old(calls), e1, c1, emitted, calls, these[..k], [these[k]]);
        assert these[..k] + [these[k]] == these[..k + 1];
        k := k + 1;
      }
      assert these[..k] == these;
    }

    /** `solutions.each`: the answers of every solution, in order. */
    method AnswerSolutions(ctx: Context, sparql: Sparql, solutions: seq<Solution>, env: Env)
      modifies this
      ensures Extends(emitted, calls, handlers, old(emitted), old(calls), AnswerEvents(ctx, sparql, solutions, |solutions|, env))
      ensures handlers == old(handlers) && sparqlCount == old(sparqlCount)
    {
      var i := 0;
      assert CallsFor(handlers, []) == [] && AnswerEvents(ctx, sparql, solutions, 0, env) == [];
      while i < |solutions|
        invariant 0 <= i <= |solutions|
        invariant Extends(emitted, calls, handlers, old(emitted), old(calls), AnswerEvents(ctx, sparql, solutions, i, env))
        invariant handlers == old(handlers) && sparqlCount == old(sparqlCount)
      {
        ghost var e1, c1 := emitted, calls;
        AnswerSolution(ctx, sparql, solutions, solutions[i], env);
        ExtendsChain(handlers, old(emitted), old(calls), e1, c1, emitted, calls,
                     AnswerEvents(ctx, sparql, solutions, i, env), SolutionAnswers(ctx, sparql, solutions, solutions[i], env));
        assert AnswerEvents(ctx, sparql, solutions, i + 1, env) ==
          AnswerEvents(ctx, sparql, solutions, i, env) + SolutionAnswers(ctx, sparql, solutions, solutions[i], env);
        i := i + 1;
      }
    }

    /**
     * The block given to query_async: the events for the query's outcome,
     * and the `[e, result]` entry it pushes on the queue.
     */
    method Callback(ctx: Context, sparql: Sparql, outcome: Outcome, env: Env) returns (entry: (bool, bool))
      modifies this
      ensures Extends(emitted, calls, handlers, old(emitted), old(calls), CallbackEvents(ctx, sparql, outcome, env))
      ensures entry == QueueEntry(outcome)
      ensures handlers == old(handlers) && sparqlCount == old(sparqlCount)
    {
      match outcome
      case Solved(results) =>
        var solutions := StringifyAll(results);
        var first := SolutionsEvent(ctx, sparql, solutions, None, None);
        Emit(first);
        ghost var e1, c1 := emitted, calls;
        AnswerSolutions(ctx, sparql, solutions, env);
        ExtendsChain(handlers, old(emitted), old(calls), e1, c1, emitted, calls, [first], AnswerEvents(ctx, sparql, solutions, |solutions|, env));
        entry := (false, true);
      case Timeout =>
        Emit(SolutionsEvent(ctx, sparql, [], Some(TimeoutMessage), None));
        entry := (true, false);
      case Temporary =>
        Emit(SolutionsEvent(ctx, sparql, [], None, Some(TemporaryMessage)));
        entry := (true, false);
      case OtherError =>
        assert CallsFor(handlers, []) == [];
        entry := (true, false);
    }

    /** One query sent: the counter moves on, then sparql, the callback's events, query_sparql. */
    method SendQuery(env: Env, pgp: string, mappings: string, q: Query) returns (entry: (bool, bool))
      modifies this
      ensures sparqlCount == old(sparqlCount) + 1
      ensures Extends(emitted, calls, handlers, old(emitted), old(calls), QueryEvents(env, pgp, mappings, q, old(sparqlCount) + 1))
      ensures entry == QueueEntry(env.outcome(q.candidate.query))
      ensures handlers == old(handlers)
    {
      sparqlCount := sparqlCount + 1;
      var ctx := ContextOf(env, pgp, mappings, q);
      var sparql := Sparql(q.candidate.query, sparqlCount);
      ghost var e1, c1 := emitted, calls;
      Emit(SparqlEvent(ctx, sparql));
      ghost var e2, c2 := emitted, calls;
      entry := Callback(ctx, sparql, env.outcome(q.candidate.query), env);
      ghost var cb := CallbackEvents(ctx, sparql, env.outcome(q.candidate.query), env);
      ExtendsChain(handlers, e1, c1, e2, c2, emitted, calls, [SparqlEvent(ctx, sparql)], cb);
      ghost var e3, c3 := emitted, calls;
      Emit(QuerySparqlEvent(ctx, sparql));
      ExtendsChain(handlers, e1, c1, e3, c3, emitted, calls, [SparqlEvent(ctx, sparql)] + cb, [QuerySparqlEvent(ctx, sparql)]);
    }
  
    /**
     * perform: datasets, pgp and mappings are emitted, then each anchored
     * pgp's candidates are walked; the cancel flag is checked before each
     * anchored pgp and each candidate and ends the run when set; a SPARQL
     * text already known is skipped, any other is sent under the next
     * number. Once the walk is done the queue is drained and, when any
     * entry was drained, the statistics are logged. A failure to build the
     * pgp or the mappings ends the run with the gateway error it maps to.
     */
    method Perform(env: Env) returns (end: RunEnd)
      modifies this
      ensures Extends(emitted, calls, handlers, old(emitted), old(calls), RunEvents(env, old(sparqlCount)))
      ensures sparqlCount == old(sparqlCount) + |Sent(env)|
      ensures end == RunEndOf(env)
      ensures handlers == old(handlers)
    {
      ghost var n0 := sparqlCount;
      var ready := Open(env);
      if !ready {
        return if env.pgp.Err? then Rescued(env.pgp.error) else Rescued(env.mappings.error);
      }
      var pgp, mappings := env.pgp.value, env.mappings.value;
      ghost var head := [DatasetsEvent(env.dataset), PgpEvent(env.dataset, pgp), MappingsEvent(env.dataset, pgp, mappings)];
      var cancelled, w, passed := WalkAnchored(env, pgp, mappings, n0, head, old(emitted), old(calls));
      WalkedPrefix(env, passed, w);
      RunAfter(env, n0, w.p);
      if cancelled {
        return Cancelled;
      }
      end := Finish(env, Dispatch(passed), w.queue, w.count);
    }

    /**
     * The opening of perform: datasets, then pgp and mappings as each is
     * built; a failure to build either is rescued into its gateway error and
     * the run goes no further.
     */
    method Open(env: Env) returns (ready: bool)
      modifies this
      ensures ready <==> env.pgp.Ok? && env.mappings.Ok?
      ensures !ready ==> Extends(emitted, calls, handlers, old(emitted), old(calls), RunEvents(env, old(sparqlCount)))
      ensures ready ==> Extends(emitted, calls, handlers, old(emitted), old(calls),
        [DatasetsEvent(env.dataset), PgpEvent(env.dataset, env.pgp.value), MappingsEvent(env.dataset, env.pgp.value, env.mappings.value)])
      ensures sparqlCount == old(sparqlCount) && handlers == old(handlers)
    {
      var ds := DatasetsEvent(env.dataset);
      Emit(ds);
      if env.pgp.Err? {
        ghost var e1, c1 := emitted, calls;
        Gateway(env.pgp.error);
        ExtendsChain(handlers, old(emitted), old(calls), e1, c1, emitted, calls, [ds], GatewayEvents(env.pgp.error));
        return false;
      }
      var pgp := env.pgp.value;
      ghost var e1, c1 := emitted, calls;
      Emit(PgpEvent(env.dataset, pgp));
      ExtendsChain(handlers, old(emitted), old(calls), e1, c1, emitted, calls, [ds], [PgpEvent(env.dataset, pgp)]);
      ready := OpenMappings(env, old(emitted), old(calls));
    }

    /** The mappings half of the opening, once datasets and pgp are out. */
    method OpenMappings(env: Env, ghost e0: seq<Event>, ghost c0: seq<(Handler, Event)>) returns (ready: bool)
      requires env.pgp.Ok?
      requires Extends(emitted, calls, handlers, e0, c0, [DatasetsEvent(env.dataset), PgpEvent(env.dataset, env.pgp.value)])
      modifies this
      ensures ready <==> env.mappings.Ok?
      ensures !ready ==> Extends(emitted, calls, handlers, e0, c0,
        [DatasetsEvent(env.dataset), PgpEvent(env.dataset, env.pgp.value)] + GatewayEvents(env.mappings.error))
      ensures ready ==> Extends(emitted, calls, handlers, e0, c0,
        [DatasetsEvent(env.dataset), PgpEvent(env.dataset, env.pgp.value), MappingsEvent(env.dataset, env.pgp.value, env.mappings.value)])
      ensures sparqlCount == old(sparqlCount) && handlers == old(handlers)
    {
      ghost var opening := [DatasetsEvent(env.dataset), PgpEvent(env.dataset, env.pgp.value)];
      ghost var e1, c1 := emitted, calls;
      if env.mappings.Err? {
        Gateway(env.mappings.error);
        ExtendsChain(handlers, e0, c0, e1, c1, emitted, calls, opening, GatewayEvents(env.mappings.error));
        return false;
      }
      var mapped := MappingsEvent(env.dataset, env.pgp.value, env.mappings.value);
      Emit(mapped);
      ExtendsChain(handlers, e0, c0, e1, c1, emitted, calls, opening, [mapped]);
      assert opening + [mapped] == [DatasetsEvent(env.dataset), PgpEvent(env.dataset, env.pgp.value), mapped];
      return true;
    }

    /** The end of a walk that was not cancelled: the queue drained, then the statistics when any entry was drained. */
    method Finish(env: Env, ghost qs: seq<Query>, queue: seq<(bool, bool)>, count: nat) returns (end: RunEnd)
      requires queue == Entries(env, qs) && count == |qs|
      ensures end == FinishOf(env, qs)
    {
      var error, success := Drain(env, qs, queue, count);
      if error + success > 0 {
        end := Finished(Some(Stats(Parallel, error + success, error, success)));
      } else {
        end := Finished(None);
      }
    }

    /**
     * The executor's state during the walk: one sparql number taken and one
     * run of events logged for each query sent so far, and no handler added.
     */
    ghost predicate Logged(env: Env, pgp: string, mappings: string, n0: int, head: seq<Event>,
                           e0: seq<Event>, c0: seq<(Handler, Event)>, hs0: map<Symbol, seq<Handler>>, passed: seq<Poll>)
      reads this
    {
      && sparqlCount == n0 + |Dispatch(passed)|
      && Extends(emitted, calls, handlers, e0, c0, head + DispatchLog(env, pgp, mappings, Dispatch(passed), n0))
      && handlers == hs0
    }

    /** `anchored_pgps.each`: each anchored pgp after its check of the cancel flag, then its candidates. */
    method WalkAnchored(env: Env, pgp: string, mappings: string,
                        ghost n0: int, ghost head: seq<Event>, ghost e0: seq<Event>, ghost c0: seq<(Handler, Event)>)
      returns (cancelled: bool, w: Walk, ghost passed: seq<Poll>)
      modifies this
      requires sparqlCount == n0
      requires Extends(emitted, calls, handlers, e0, c0, head)
      ensures Walked(env, passed, w)
      ensures cancelled ==> w.p < |Polls(env.anchored, |env.anchored|)| && env.cancelAt(w.p)
      ensures !cancelled ==> w.p == |Polls(env.anchored, |env.anchored|)|
      ensures Logged(env, pgp, mappings, n0, head, e0, c0, old(handlers), passed)
    {
      ghost var hs0 := handlers;
      passed := [];
      w := Walk(0, {}, [], 0);
      WalkedStart(env, pgp, mappings, n0, head);
      var a := 0;
      while a < |env.anchored|
        invariant 0 <= a <= |env.anchored|
        invariant w.p == |Polls(env.anchored, a)| && Walked(env, passed, w)
        invariant Logged(env, pgp, mappings, n0, head, e0, c0, hs0, passed)
      {
        cancelled, w, passed := WalkAnchoredPgp(env, pgp, mappings, a, w, passed, n0, head, e0, c0);
        if cancelled {
          return;
        }
        a := a + 1;
      }
      cancelled := false;
    }

    /** The check of the cancel flag before the `a`-th anchored pgp: it ends the walk or is passed. */
    method VisitAnchored(env: Env, a: nat, w0: Walk, ghost passed0: seq<Poll>)
      returns (cancelled: bool, w: Walk, ghost passed: seq<Poll>)
      requires a < |env.anchored| && w0.p == |Polls(env.anchored, a)| && Walked(env, passed0, w0)
      ensures Walked(env, passed, w) && Dispatch(passed) == Dispatch(passed0)
      ensures cancelled ==> w.p < |Polls(env.anchored, |env.anchored|)| && env.cancelAt(w.p)
      ensures !cancelled ==> w.p == |Polls(env.anchored, a)| + 1
    {
      PollAt(env.anchored, a, 0);
      if env.cancelAt(w0.p) {
        return true, w0, passed0;
      }
      WalkedSkip(env, passed0, w0, AnchorPoll(env.anchored[a]));
      return false, w0.(p := w0.p + 1), passed0 + [AnchorPoll(env.anchored[a])];
    }

    /**
     * The `a`-th anchored pgp: its check of the cancel flag, then the block
     * given to GraphFinder#sparqls_of for each of its candidates.
     */
    method WalkAnchoredPgp(env: Env, pgp: string, mappings: string, a: nat, w0: Walk, ghost passed0: seq<Poll>,
                          ghost n0: int, ghost head: seq<Event>, ghost e0: seq<Event>, ghost c0: seq<(Handler, Event)>)
      returns (cancelled: bool, w: Walk, ghost passed: seq<Poll>)
      modifies this
      requires a < |env.anchored| && w0.p == |Polls(env.anchored, a)| && Walked(env, passed0, w0)
      requires Logged(env, pgp, mappings, n0, head, e0, c0, handlers, passed0)
      ensures Walked(env, passed, w)
      ensures cancelled ==> w.p < |Polls(env.anchored, |env.anchored|)| && env.cancelAt(w.p)
      ensures !cancelled ==> w.p == |Polls(env.anchored, a + 1)|
      ensures Logged(env, pgp, mappings, n0, head, e0, c0, old(handlers), passed)
    {
      var ap := env.anchored[a];
      cancelled, w, passed := VisitAnchored(env, a, w0, passed0);
      if cancelled {
        return;
      }
      var k := 0;
      while k < |ap.candidates|
        invariant 0 <= k <= |ap.candidates|
        invariant w.p == |Polls(env.anchored, a)| + 1 + k && Walked(env, passed, w)
        invariant Logged(env, pgp, mappings, n0, head, e0, c0, old(handlers), passed)
      {
        cancelled, w, passed := VisitCandidate(env, pgp, mappings, a, k, w, passed, n0, head, e0, c0);
        if cancelled {
          return;
        }
        k := k + 1;
      }
      return false, w, passed;
    }

    /**
     * One run of that block: the cancel flag is checked; a known text is
     * skipped; any other becomes known and is sent.
     */
    method VisitCandidate(env: Env, pgp: string, mappings: string, a: nat, k: nat, w0: Walk, ghost passed0: seq<Poll>,
                          ghost n0: int, ghost head: seq<Event>, ghost e0: seq<Event>, ghost c0: seq<(Handler, Event)>)
      returns (cancelled: bool, w: Walk, ghost passed: seq<Poll>)
      modifies this
      requires a < |env.anchored| && k < |env.anchored[a].candidates|
      requires w0.p == |Polls(env.anchored, a)| + 1 + k && Walked(env, passed0, w0)
      requires Logged(env, pgp, mappings, n0, head, e0, c0, handlers, passed0)
      ensures Walked(env, passed, w)
      ensures cancelled ==> w.p < |Polls(env.anchored, |env.anchored|)| && env.cancelAt(w.p)
      ensures !cancelled ==> w.p == w0.p + 1
      ensures Logged(env, pgp, mappings, n0, head, e0, c0, old(handlers), passed)
    {
      var ap := env.anchored[a];
      var c := ap.candidates[k];
      PollAt(env.anchored, a, k + 1);
      if env.cancelAt(w0.p) {
        return true, w0, passed0;
      }
      var x := CandidatePoll(ap, c);
      if c.query in w0.known {
        WalkedSkip(env, passed0, w0, x);
        return false, w0.(p := w0.p + 1), passed0 + [x];
      }
      w, passed := SendCandidate(env, pgp, mappings, x, w0, passed0, n0, head, e0, c0);
      return false, w, passed;
    }

    /** A candidate with a new text: it becomes known, is sent, and its queue entry is kept. */
    method SendCandidate(env: Env, pgp: string, mappings: string, x: Poll, w0: Walk, ghost passed0: seq<Poll>,
                         ghost n0: int, ghost head: seq<Event>, ghost e0: seq<Event>, ghost c0: seq<(Handler, Event)>)
      returns (w: Walk, ghost passed: seq<Poll>)
      modifies this
      requires Walked(env, passed0, w0) && !env.cancelAt(w0.p)
      requires w0.p < |Polls(env.anchored, |env.anchored|)| && Polls(env.anchored, |env.anchored|)[w0.p] == x
      requires x.CandidatePoll? && x.candidate.query !in w0.known
      requires Logged(env, pgp, mappings, n0, head, e0, c0, handlers, passed0)
      ensures Walked(env, passed, w) && w.p == w0.p + 1
      ensures Logged(env, pgp, mappings, n0, head, e0, c0, old(handlers), passed)
    {
      var q := Query(x.anchored, x.candidate);
      ghost var before := Dispatch(passed0);
      ghost var n := sparqlCount + 1;
      ghost var e1, c1 := emitted, calls;
      var entry := SendQuery(env, pgp, mappings, q);
      ghost var log := DispatchLog(env, pgp, mappings, before, n0);
      ghost var sent := QueryEvents(env, pgp, mappings, q, n);
      LogStep(env, pgp, mappings, before, q, n0, n);
      ExtendsChain(handlers, e0, c0, e1, c1, emitted, calls, head + log, sent);
      Associative(head, log, sent);
      WalkedSend(env, passed0, w0, x, entry);
      return Walk(w0.p + 1, w0.known + {x.candidate.query}, w0.queue + [entry], w0.count + 1), passed0 + [x];
    }

    /**
     * `count.times { queue.pop }`: one pop per query sent, counting the
     * errors and the successes among the entries pushed.
     */
    method Drain(env: Env, ghost qs: seq<Query>, queue0: seq<(bool, bool)>, count: nat) returns (error: nat, success: nat)
      requires queue0 == Entries(env, qs) && count == |qs|
      ensures error == Errors(env, qs) && success == Successes(env, qs)
    {
      var queue := queue0;
      error, success := 0, 0;
      var i := 0;
      while i < count
        invariant 0 <= i <= count && queue == Entries(env, qs)[i..]
        invariant error == Errors(env, qs[..i]) && success == Successes(env, qs[..i])
      {
        var (e, s) := queue[0];
        queue := queue[1..];
        if e {
          error := error + 1;
        }
        if s {
          success := success + 1;
        }
        assert qs[..i + 1][..i] == qs[..i];
        i := i + 1;
      }
      assert qs[..i] == qs;
    }

    /** The rescue clauses: the gateway error a failure maps to, if any. */
    method Gateway(f: Failure)
      modifies this
      ensures Extends(emitted, calls, handlers, old(emitted), old(calls), GatewayEvents(f))
      ensures handlers == old(handlers) && sparqlCount == old(sparqlCount)
    {
      match f
      case EnjuFailure => Emit(GatewayErrorEvent(EnjuMessage));
      case FindFailure => Emit(GatewayErrorEvent(FindMessage));
      case _ => assert CallsFor(handlers, []) == [];
    }
  }
}
