/**
 * The pure parts of the SPARQL callback: turning solutions into strings,
 * picking the bindings of the focus node, the label of a URI and the
 * forwarding URLs the URL-forwarding service offers for it, and the events
 * one query's outcome produces.
 */
module LodqaAnswers {
  import opened Wrappers
  import opened LodqaEvents

  const TimeoutMessage := "sparql timeout error"
  /** Spelled as the executor spells it. */
  const TemporaryMessage := "endopoint temporary error"
  /** Forwarding URLs of this length or longer are dropped from an answer. */
  const UrlLengthLimit := 10000

  /**
   * `gsub(/^i/, '')` from position `atLineStart`: an `i` is removed where a
   * line begins, that is at the start of the text and after each newline.
   */
  function GsubFrom(s: string, atLineStart: bool): string
  {
    if s == [] then []
    else if atLineStart && s[0] == 'i' then GsubFrom(s[1..], false)
    else [s[0]] + GsubFrom(s[1..], s[0] == '\n')
  }

  function GsubLeadingI(s: string): string {
    GsubFrom(s, true)
  }

  lemma {:induction false} GsubFromNoLineStart(s: string)
    requires '\n' !in s
    ensures GsubFrom(s, false) == s
  {
    if s != [] {
      assert s[0] != '\n' && '\n' !in s[1..] by { assert s[0] in s; }
      GsubFromNoLineStart(s[1..]);
    }
  }

  /** In a one-line name only the very first character can be a removed `i`. */
  lemma GsubOneLine(s: string)
    requires '\n' !in s
    ensures GsubLeadingI(s) == if s != [] && s[0] == 'i' then s[1..] else s
  {
    if s != [] {
      assert s[0] != '\n' && '\n' !in s[1..] by { assert s[0] in s; }
      GsubFromNoLineStart(s[1..]);
    }
  }

  /**
   * A variable is an instance of the focus node exactly when it is named
   * `i` followed by the focus, or is the focus itself and does not start
   * with `i`.
   */
  lemma FocusVariable(v: string, focus: string)
    requires '\n' !in v
    ensures GsubLeadingI(v) == focus <==> (v == "i" + focus || (v == focus && (v == [] || v[0] != 'i')))
  {
    GsubOneLine(v);
    if v != [] && v[0] == 'i' {
      assert v == "i" + v[1..];
    }
  }

  /** `s.map { |k, v| [k, v.to_s] }.to_h` */
  function Stringify(raw: RawSolution): (r: Solution)
    ensures |r| == |raw|
    ensures forall i :: 0 <= i < |raw| ==> r[i] == (raw[i].0, TermText(raw[i].1))
  {
    seq(|raw|, i requires 0 <= i < |raw| => (raw[i].0, TermText(raw[i].1)))
  }

  function StringifyAll(results: seq<RawSolution>): (r: seq<Solution>)
    ensures |r| == |results|
    ensures forall i :: 0 <= i < |results| ==> r[i] == Stringify(results[i])
  {
    seq(|results|, i requires 0 <= i < |results| => Stringify(results[i]))
  }

  predicate Binds(solution: Solution, focus: string, uri: string) {
    exists p :: p in solution && GsubLeadingI(p.0) == focus && p.1 == uri
  }

  /** The values of a solution whose variable is an instance of the focus, in binding order. */
  function FocusUris(solution: Solution, focus: string): (r: seq<string>)
    ensures |r| <= |solution|
  {
    if solution == [] then []
    else
      var init := FocusUris(solution[..|solution| - 1], focus);
      var (v, uri) := solution[|solution| - 1];
      if GsubLeadingI(v) == focus then init + [uri] else init
  }

  /** Exactly the focus bindings become answers. */
  lemma {:induction false} FocusUrisExact(solution: Solution, focus: string)
    ensures forall uri :: uri in FocusUris(solution, focus) <==> Binds(solution, focus, uri)
  {
    if solution != [] {
      var init := solution[..|solution| - 1];
      var last := solution[|solution| - 1];
      FocusUrisExact(init, focus);
      assert solution == init + [last];
      forall uri ensures uri in FocusUris(solution, focus) <==> Binds(solution, focus, uri) {
        if Binds(solution, focus, uri) {
          var p :| p in solution && GsubLeadingI(p.0) == focus && p.1 == uri;
          if p != last {
            assert p in init;
          }
        }
        if uri in FocusUris(init, focus) {
          var p :| p in init && GsubLeadingI(p.0) == focus && p.1 == uri;
          assert p in solution;
        }
      }
    }
  }

  /** label: the first solution's label as a string, "" when there is none. */
  function Label(labels: seq<Option<string>>): (r: string)
    ensures labels == [] ==> r == ""
    ensures labels != [] ==> r == labels[0].GetOr("")
  {
    if labels == [] then "" else labels[0].GetOr("")
  }

  /** `sort_by { [-matching_score, -priority] }`: `a` may come before `b`. */
  predicate Before(a: UrlEntry, b: UrlEntry) {
    a.matchingScore > b.matchingScore || (a.matchingScore == b.matchingScore && a.priority >= b.priority)
  }

  predicate ByScore(xs: seq<UrlEntry>) {
    forall i, j :: 0 <= i < j < |xs| ==> Before(xs[i], xs[j])
  }

  function Insert(x: UrlEntry, xs: seq<UrlEntry>): (r: seq<UrlEntry>)
    ensures multiset(r) == multiset(xs) + multiset{x}
  {
    if xs == [] then [x]
    else if Before(x, xs[0]) then [x] + xs
    else
      assert xs == [xs[0]] + xs[1..];
      [xs[0]] + Insert(x, xs[1..])
  }

  lemma {:induction false} InsertByScore(x: UrlEntry, xs: seq<UrlEntry>)
    requires ByScore(xs)
    ensures ByScore(Insert(x, xs))
  {
    if xs != [] && !Before(x, xs[0]) {
      var rest := Insert(x, xs[1..]);
      InsertByScore(x, xs[1..]);
      forall y | y in rest ensures Before(xs[0], y) {
        assert y in multiset(rest);
        if y != x {
          assert y in multiset(xs[1..]);
          var k :| 0 <= k < |xs[1..]| && xs[1..][k] == y;
          assert xs[k + 1] == y;
        }
      }
      var r := [xs[0]] + rest;
      forall i, j | 0 <= i < j < |r| ensures Before(r[i], r[j]) {
        if i == 0 {
          assert r[j] == rest[j - 1] && rest[j - 1] in rest;
        } else {
          assert r[i] == rest[i - 1] && r[j] == rest[j - 1];
        }
      }
    }
  }

  /** The forwarding entries, best match first, then highest priority. */
  function SortByScore(xs: seq<UrlEntry>): (r: seq<UrlEntry>)
    ensures ByScore(r)
    ensures multiset(r) == multiset(xs)
  {
    if xs == [] then []
    else
      var sorted := SortByScore(xs[1..]);
      InsertByScore(xs[0], sorted);
      assert xs == [xs[0]] + xs[1..];
      Insert(xs[0], sorted)
  }

  /** `u.dig(:rendering, :mime_type)&.start_with? 'image'` */
  predicate IsImage(u: UrlEntry) {
    && u.rendering.Some?
    && u.rendering.value.mimeType.Some?
    && |u.rendering.value.mimeType.value| >= 5
    && u.rendering.value.mimeType.value[..5] == "image"
  }

  /** The position of the first entry with an image rendering. */
  function FirstImage(urls: seq<UrlEntry>): (r: Option<nat>)
    ensures r.None? <==> forall k :: 0 <= k < |urls| ==> !IsImage(urls[k])
    ensures r.Some? ==> r.value < |urls| && IsImage(urls[r.value]) && forall k :: 0 <= k < r.value ==> !IsImage(urls[k])
  {
    if urls == [] then None
    else if IsImage(urls[0]) then Some(0)
    else match FirstImage(urls[1..])
      case None => None
      case Some(k) => Some(k + 1)
  }

  /** first_rendering: the rendering of the first image entry, nil when there is none. */
  function FirstRendering(urls: seq<UrlEntry>): (r: Option<Rendering>)
    ensures r.None? <==> forall k :: 0 <= k < |urls| ==> !IsImage(urls[k])
    ensures r.Some? ==> exists k :: 0 <= k < |urls| && IsImage(urls[k]) && urls[k].rendering == r
    ensures r.Some? ==> exists k :: 0 <= k < |urls| && IsImage(urls[k]) && urls[k].rendering == r && forall j :: 0 <= j < k ==> !IsImage(urls[j])
  {
    match FirstImage(urls)
    case None => None
    case Some(k) => urls[k].rendering
  }

  /**
   * forwarded_urls: nil when the service cannot be reached or answers with
   * another status than 200; otherwise the entries sorted by score and the
   * first image rendering among them.
   */
  function ForwardedUrls(reply: UrlReply): (r: Option<(seq<UrlEntry>, Option<Rendering>)>)
    ensures r.Some? <==> reply.Reply? && reply.code == 200
    ensures r.Some? ==> ByScore(r.value.0) && multiset(r.value.0) == multiset(reply.results)
    ensures r.Some? ==> r.value.1 == FirstRendering(r.value.0)
  {
    if reply.Unreachable? || reply.code != 200 then None
    else
      var urls := SortByScore(reply.results);
      Some((urls, FirstRendering(urls)))
  }

  /** `urls.select { |u| u[:forwarding][:url].length < 10_000 }` */
  function ShortUrls(urls: seq<UrlEntry>): (r: seq<UrlEntry>)
    ensures forall u :: u in r <==> u in urls && |u.forwardingUrl| < UrlLengthLimit
    ensures |r| <= |urls|
  {
    if urls == [] then []
    else if |urls[0].forwardingUrl| < UrlLengthLimit then [urls[0]] + ShortUrls(urls[1..])
    else ShortUrls(urls[1..])
  }

  /** The filter keeps each short entry as often as it occurs and drops every long one. */
  lemma {:induction false} ShortUrlsCounts(urls: seq<UrlEntry>)
    ensures forall u :: multiset(ShortUrls(urls))[u] == if |u.forwardingUrl| < UrlLengthLimit then multiset(urls)[u] else 0
  {
    if urls != [] {
      ShortUrlsCounts(urls[1..]);
      assert urls == [urls[0]] + urls[1..];
    }
  }

  /** The filter of a concatenation is the concatenation of the filters: what it keeps stays in order. */
  lemma {:induction false} ShortUrlsAppend(a: seq<UrlEntry>, b: seq<UrlEntry>)
    ensures ShortUrls(a + b) == ShortUrls(a) + ShortUrls(b)
  {
    if a == [] {
      assert a + b == b;
    } else {
      var x := a[0];
      ConsAppend(a, b);
      ShortUrlsCons(x, a[1..] + b);
      ShortUrlsCons(x, a[1..]);
      ShortUrlsAppend(a[1..], b);
      AppendRegroup(if |x.forwardingUrl| < UrlLengthLimit then [x] else [], ShortUrls(a[1..]), ShortUrls(b));
    }
  }

  lemma ShortUrlsCons(x: UrlEntry, rest: seq<UrlEntry>)
    ensures ShortUrls([x] + rest) == (if |x.forwardingUrl| < UrlLengthLimit then [x] else []) + ShortUrls(rest)
  {
    assert ([x] + rest)[1..] == rest;
  }

  lemma ConsAppend<T>(a: seq<T>, b: seq<T>)
    requires a != []
    ensures a == [a[0]] + a[1..] && a + b == [a[0]] + (a[1..] + b)
  {
  }

  lemma AppendRegroup<T>(k: seq<T>, p: seq<T>, q: seq<T>)
    ensures k + (p + q) == (k + p) + q
  {
  }

  /** The `answer` payload of get_label_of_url. */
  function AnswerOf(uri: string, env: Env): Answer {
    var fw := ForwardedUrls(env.urilinks(uri));
    Answer(uri, Label(env.labels(uri)),
           if fw.None? then None else Some(ShortUrls(fw.value.0)),
           if fw.None? then None else fw.value.1)
  }

  /**
   * An answer carries URLs exactly when the forwarding service answered
   * 200; they are then short, come from its results and are in score
   * order; a rendering is only there when one of its results is an image.
   */
  lemma AnswerUrls(uri: string, env: Env)
    ensures AnswerOf(uri, env).uri == uri
    ensures AnswerOf(uri, env).labelText == Label(env.labels(uri))
    ensures env.labels(uri) == [] || env.labels(uri)[0].None? ==> AnswerOf(uri, env).labelText == ""
    ensures env.labels(uri) != [] && env.labels(uri)[0].Some? ==> AnswerOf(uri, env).labelText == env.labels(uri)[0].value
    ensures AnswerOf(uri, env).urls.Some? <==> env.urilinks(uri).Reply? && env.urilinks(uri).code == 200
    ensures AnswerOf(uri, env).urls.Some? ==>
      && ByScore(AnswerOf(uri, env).urls.value)
      && forall u :: u in AnswerOf(uri, env).urls.value ==> u in env.urilinks(uri).results && |u.forwardingUrl| < UrlLengthLimit
    ensures AnswerOf(uri, env).urls.Some? ==>
      forall u :: multiset(AnswerOf(uri, env).urls.value)[u] ==
        if |u.forwardingUrl| < UrlLengthLimit then multiset(env.urilinks(uri).results)[u] else 0
    ensures AnswerOf(uri, env).firstRendering.Some? ==>
      exists u :: u in env.urilinks(uri).results && IsImage(u) && u.rendering == AnswerOf(uri, env).firstRendering
    ensures AnswerOf(uri, env).urls.Some? ==>
      AnswerOf(uri, env).firstRendering == FirstRendering(SortByScore(env.urilinks(uri).results))
  {
    var fw := ForwardedUrls(env.urilinks(uri));
    if fw.Some? {
      var urls := fw.value.0;
      var short := ShortUrls(urls);
      ShortUrlsByScore(urls);
      ShortUrlsCounts(urls);
      forall u | u in short ensures u in env.urilinks(uri).results {
        assert u in multiset(urls);
      }
      if fw.value.1.Some? {
        var k :| 0 <= k < |urls| && IsImage(urls[k]) && urls[k].rendering == fw.value.1;
        assert urls[k] in multiset(urls);
      }
    }
  }

  /** Filtering keeps the relative order of what it keeps. */
  lemma {:induction false} ShortUrlsByScore(urls: seq<UrlEntry>)
    requires ByScore(urls)
    ensures ByScore(ShortUrls(urls))
  {
    if urls != [] {
      var rest := ShortUrls(urls[1..]);
      assert ByScore(urls[1..]);
      ShortUrlsByScore(urls[1..]);
      if |urls[0].forwardingUrl| < UrlLengthLimit {
        forall y | y in rest ensures Before(urls[0], y) {
          var k :| 0 <= k < |urls[1..]| && urls[1..][k] == y;
          assert urls[k + 1] == y;
        }
        var r := [urls[0]] + rest;
        forall i, j | 0 <= i < j < |r| ensures Before(r[i], r[j]) {
          if i == 0 {
            assert r[j] == rest[j - 1] && rest[j - 1] in rest;
          } else {
            assert r[i] == rest[i - 1] && r[j] == rest[j - 1];
          }
        }
      }
    }
  }

  /** The answer events of one solution, one per focus binding, in binding order. */
  function SolutionAnswers(ctx: Context, sparql: Sparql, solutions: seq<Solution>, solution: Solution, env: Env): (r: seq<Event>)
    ensures |r| == |FocusUris(solution, ctx.anchored.focus)|
  {
    var uris := FocusUris(solution, ctx.anchored.focus);
    seq(|uris|, k requires 0 <= k < |uris| => AnswerEvent(ctx, sparql, solutions, solution, AnswerOf(uris[k], env)))
  }

  /** The answer events of the first `n` solutions. */
  function AnswerEvents(ctx: Context, sparql: Sparql, solutions: seq<Solution>, n: nat, env: Env): seq<Event>
    requires n <= |solutions|
  {
    if n == 0 then []
    else AnswerEvents(ctx, sparql, solutions, n - 1, env) + SolutionAnswers(ctx, sparql, solutions, solutions[n - 1], env)
  }

  /** The events the callback emits for one query's outcome. */
  function CallbackEvents(ctx: Context, sparql: Sparql, outcome: Outcome, env: Env): seq<Event> {
    match outcome
    case Solved(results) =>
      var solutions := StringifyAll(results);
      [SolutionsEvent(ctx, sparql, solutions, None, None)] + AnswerEvents(ctx, sparql, solutions, |solutions|, env)
    case Timeout => [SolutionsEvent(ctx, sparql, [], Some(TimeoutMessage), None)]
    case Temporary => [SolutionsEvent(ctx, sparql, [], None, Some(TemporaryMessage))]
    case OtherError => []
  }

  /** `[e, result]` as the drain reads it: whether `e` is set, and whether `result` is. */
  function QueueEntry(outcome: Outcome): (r: (bool, bool))
    ensures r.0 != r.1
    ensures r.1 <==> outcome.Solved?
  {
    if outcome.Solved? then (false, true) else (true, false)
  }

  /** Every answer event of a solution answers one focus binding of it. */
  lemma SolutionAnswersBind(ctx: Context, sparql: Sparql, solutions: seq<Solution>, solution: Solution, env: Env)
    ensures forall e :: e in SolutionAnswers(ctx, sparql, solutions, solution, env) ==>
      && e.AnswerEvent? && e.ctx == ctx && e.sparql == sparql && e.solutions == solutions && e.solution == solution
      && Binds(solution, ctx.anchored.focus, e.answer.uri)
  {
    FocusUrisExact(solution, ctx.anchored.focus);
    var uris := FocusUris(solution, ctx.anchored.focus);
    forall e | e in SolutionAnswers(ctx, sparql, solutions, solution, env)
      ensures Binds(solution, ctx.anchored.focus, e.answer.uri)
    {
      var k :| 0 <= k < |uris| && SolutionAnswers(ctx, sparql, solutions, solution, env)[k] == e;
      assert uris[k] in uris;
    }
  }

  lemma {:induction false} AnswerEventsBind(ctx: Context, sparql: Sparql, solutions: seq<Solution>, n: nat, env: Env)
    requires n <= |solutions|
    ensures forall e :: e in AnswerEvents(ctx, sparql, solutions, n, env) ==>
      && e.AnswerEvent? && e.ctx == ctx && e.sparql == sparql && e.solutions == solutions
      && e.solution in solutions[..n] && Binds(e.solution, ctx.anchored.focus, e.answer.uri)
  {
    if n > 0 {
      AnswerEventsBind(ctx, sparql, solutions, n - 1, env);
      SolutionAnswersBind(ctx, sparql, solutions, solutions[n - 1], env);
      assert forall s :: s in solutions[..n - 1] ==> s in solutions[..n];
      assert solutions[n - 1] in solutions[..n];
    }
  }

  /**
   * A successful query emits its stringified solutions first, then only
   * answers, each binding the focus node in one of those solutions; a
   * timeout or a temporary error emits one empty solutions event carrying
   * its message; any other error emits nothing.
   */
  lemma CallbackShape(ctx: Context, sparql: Sparql, outcome: Outcome, env: Env)
    ensures outcome.Solved? ==>
      var evs := CallbackEvents(ctx, sparql, outcome, env);
      var solutions := StringifyAll(outcome.results);
      && evs[0] == SolutionsEvent(ctx, sparql, solutions, None, None)
      && forall e :: e in evs[1..] ==>
        && e.AnswerEvent? && e.ctx == ctx && e.sparql == sparql && e.solutions == solutions
        && e.solution in solutions && Binds(e.solution, ctx.anchored.focus, e.answer.uri)
    ensures outcome.Timeout? ==> CallbackEvents(ctx, sparql, outcome, env) == [SolutionsEvent(ctx, sparql, [], Some(TimeoutMessage), None)]
    ensures outcome.Temporary? ==> CallbackEvents(ctx, sparql, outcome, env) == [SolutionsEvent(ctx, sparql, [], None, Some(TemporaryMessage))]
    ensures outcome.OtherError? ==> CallbackEvents(ctx, sparql, outcome, env) == []
  {
    if outcome.Solved? {
      var solutions := StringifyAll(outcome.results);
      AnswerEventsBind(ctx, sparql, solutions, |solutions|, env);
      assert solutions[..|solutions|] == solutions;
    }
  }
}
