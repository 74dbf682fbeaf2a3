/**
 * The data Lodqa::OneByOneExecutor works on and the events it emits. The
 * parser, the dictionary, AnchoredPgps, GraphFinder, the SPARQL endpoint and
 * the URL-forwarding service are not part of this model: what they give back
 * is the environment `Env` the run reads.
 */
module LodqaEvents {
  import opened Wrappers

  /** `{ name:, number: }` of the target dataset. */
  datatype Dataset = Dataset(name: string, number: int)

  /** One (bgp, SPARQL text) pair that GraphFinder#sparqls_of yields. */
  datatype Candidate = Candidate(bgp: string, query: string)

  /** An anchored pgp: its focus node, and the candidates GraphFinder yields for it, in order. */
  datatype AnchoredPgp = AnchoredPgp(focus: string, candidates: seq<Candidate>)

  /** `{ query:, number: }` */
  datatype Sparql = Sparql(query: string, number: int)

  /** The payload every query event carries besides the SPARQL. */
  datatype Context = Context(dataset: Dataset, pgp: string, mappings: string, anchored: AnchoredPgp, bgp: string)

  /** An RDF term as the endpoint returns it. */
  datatype Term = Iri(iri: string) | Literal(lexical: string, lang: Option<string>) | BlankNode(id: string)

  /** RDF::Term#to_s */
  function TermText(t: Term): string {
    match t
    case Iri(s) => s
    case Literal(v, _) => v
    case BlankNode(id) => "_:" + id
  }

  /** One solution from the endpoint: variable name and bound term, in binding order. */
  type RawSolution = seq<(string, Term)>

  /** One solution after every value is turned into a string. */
  type Solution = seq<(string, string)>

  /** The `rendering` of a forwarding entry. */
  datatype Rendering = Rendering(mimeType: Option<string>, url: Option<string>)

  /** One entry of the URL-forwarding service's `results`. */
  datatype UrlEntry = UrlEntry(matchingScore: int, priority: int, forwardingUrl: string, rendering: Option<Rendering>)

  /** The `answer` payload. */
  datatype Answer = Answer(uri: string, labelText: string, urls: Option<seq<UrlEntry>>, firstRendering: Option<Rendering>)

  datatype Event =
    | DatasetsEvent(dataset: Dataset)
    | PgpEvent(dataset: Dataset, pgp: string)
    | MappingsEvent(dataset: Dataset, pgp: string, mappings: string)
    | SparqlEvent(ctx: Context, sparql: Sparql)
    | QuerySparqlEvent(ctx: Context, sparql: Sparql)
    | SolutionsEvent(ctx: Context, sparql: Sparql, solutions: seq<Solution>, error: Option<string>, errorMessage: Option<string>)
    | AnswerEvent(ctx: Context, sparql: Sparql, solutions: seq<Solution>, solution: Solution, answer: Answer)
    | GatewayErrorEvent(message: string)

  /** The Ruby symbols events are emitted and subscribed under: the eight that perform emits,
      and any other a subscriber may name (it is never emitted, so its handlers never run). */
  datatype Symbol =
    | DatasetsSym | PgpSym | MappingsSym | SparqlSym | QuerySparqlSym | SolutionsSym | AnswerSym | GatewayErrorSym
    | OtherSym(text: string)

  /** The symbol each event is emitted under. */
  function NameOf(e: Event): (s: Symbol)
    ensures !s.OtherSym?
  {
    match e
    case DatasetsEvent(_) => DatasetsSym
    case PgpEvent(_, _) => PgpSym
    case MappingsEvent(_, _, _) => MappingsSym
    case SparqlEvent(_, _) => SparqlSym
    case QuerySparqlEvent(_, _) => QuerySparqlSym
    case SolutionsEvent(_, _, _, _, _) => SolutionsSym
    case AnswerEvent(_, _, _, _, _) => AnswerSym
    case GatewayErrorEvent(_) => GatewayErrorSym
  }

  /** What the endpoint hands the callback for one query. */
  datatype Outcome =
    | Solved(results: seq<RawSolution>)
    | Timeout
    | Temporary
    | OtherError

  /** What the URL-forwarding service answers: unreachable, or a status with the parsed `results`. */
  datatype UrlReply = Unreachable | Reply(code: int, results: seq<UrlEntry>)

  /** How building the pgp or the mappings can fail. */
  datatype Failure = EnjuFailure | FindFailure | EndpointFailure | OtherFailure

  /**
   * What a run reads from outside: the pgp and the mappings (or the error
   * building them raised), the anchored pgps with their candidates, the
   * outcome of each query, the `rdfs:label` values the endpoint gives for
   * each URI (nil where a solution binds no label), the forwarding
   * service's reply for each URI, and whether the cancel flag is set at
   * each successive check.
   */
  datatype Env = Env(
    dataset: Dataset,
    pgp: Result<string, Failure>,
    mappings: Result<string, Failure>,
    anchored: seq<AnchoredPgp>,
    outcome: string -> Outcome,
    labels: string -> seq<Option<string>>,
    urilinks: string -> UrlReply,
    cancelAt: nat -> bool)
}
