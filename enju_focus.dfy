/**
 * EnjuAccess::CGIAccessor#get_focus and #parse. The focus decision reads the
 * tokens, and in the apposition case removes the first chunk and the
 * wh-word's relation from the lists that `parse` returns.
 */
module EnjuFocus {
  import opened Wrappers
  import opened EnjuParse
  import opened EnjuChunks
  import opened EnjuRelations

  /** WH_CAT: wh-pronoun and wh-determiner. */
  const WhCat: set<string> := {"WP", "WDT"}

  const NilIndex := "no implicit conversion from nil to integer"

  predicate IsWh(t: Token) {
    t.cat.Some? && t.cat.value in WhCat
  }

  /** `tokens.find { |t| WH_CAT.include?(t[:cat]) }`, as a position. */
  function FirstWh(tokens: seq<Token>): (r: Option<nat>)
    ensures r.None? <==> forall k :: 0 <= k < |tokens| ==> !IsWh(tokens[k])
    ensures r.Some? ==> r.value < |tokens| && IsWh(tokens[r.value]) && forall k :: 0 <= k < r.value ==> !IsWh(tokens[k])
  {
    if tokens == [] then None
    else if IsWh(tokens[0]) then Some(0)
    else match FirstWh(tokens[1..])
      case None => None
      case Some(k) => Some(k + 1)
  }

  /** `relations.find { |r| r[0] == s }`, as a position. */
  function FirstWithSubject(rels: seq<Relation>, s: int): (r: Option<nat>)
    ensures r.None? <==> forall k :: 0 <= k < |rels| ==> rels[k].subj != s
    ensures r.Some? ==> r.value < |rels| && rels[r.value].subj == s && forall k :: 0 <= k < r.value ==> rels[k].subj != s
  {
    if rels == [] then None
    else if rels[0].subj == s then Some(0)
    else match FirstWithSubject(rels[1..], s)
      case None => None
      case Some(k) => Some(k + 1)
  }

  /** Array#[] with one integer: negative positions count from the end; outside the array it is nil. */
  function RubyAt<T>(xs: seq<T>, k: int): (r: Option<T>)
    ensures r.Some? <==> -|xs| <= k < |xs|
    ensures 0 <= k < |xs| ==> r == Some(xs[k])
    ensures -|xs| <= k < 0 ==> r == Some(xs[|xs| + k])
  {
    if 0 <= k < |xs| then Some(xs[k])
    else if -|xs| <= k < 0 then Some(xs[|xs| + k])
    else None
  }

  /** Array#delete: every element equal to `x` goes, the others keep their order. */
  function DeleteAll(xs: seq<Relation>, x: Relation): (r: seq<Relation>)
    ensures x !in r
    ensures forall y :: y in r <==> y in xs && y != x
    ensures |r| <= |xs|
  {
    if xs == [] then []
    else if xs[0] == x then DeleteAll(xs[1..], x)
    else [xs[0]] + DeleteAll(xs[1..], x)
  }

  /** Deleting every copy of `x` shortens the list by the number of copies and keeps every other element's count. */
  lemma {:induction false} DeleteAllCounts(xs: seq<Relation>, x: Relation)
    ensures multiset(DeleteAll(xs, x)) == multiset(xs)[x := 0]
  {
    if xs != [] {
      DeleteAllCounts(xs[1..], x);
      assert xs == [xs[0]] + xs[1..];
    }
  }

  /** Deleting from a concatenation deletes from each part: the survivors keep their order. */
  lemma {:induction false} DeleteAllAppend(a: seq<Relation>, b: seq<Relation>, x: Relation)
    ensures DeleteAll(a + b, x) == DeleteAll(a, x) + DeleteAll(b, x)
  {
    if a == [] {
      assert a + b == b;
    } else {
      assert (a + b)[1..] == a[1..] + b;
      DeleteAllAppend(a[1..], b, x);
    }
  }

  /** Array#delete_at(0): the first element goes, if there is one. */
  function DeleteFirst<T>(xs: seq<T>): (r: seq<T>)
    ensures xs == [] ==> r == []
    ensures xs != [] ==> [xs[0]] + r == xs
  {
    if xs == [] then [] else xs[1..]
  }

  /**
   * get_focus on values: the focus (or the error raised) and the chunk and
   * relation lists it leaves. Only the apposition case, a wh-word without
   * arguments whose relation's first inner node is a form of "be", shortens
   * the lists.
   */
  function FocusOf(tokens: seq<Token>, chunks: seq<Chunk>, rels: seq<Relation>): (r: (Result<int, ParseError>, seq<Chunk>, seq<Relation>))
    ensures r.1 == chunks || r.1 == DeleteFirst(chunks)
    ensures forall rel :: rel in r.2 ==> rel in rels
    ensures r.1 != chunks || r.2 != rels ==> r.0.Ok? && r.1 == DeleteFirst(chunks)
  {
    match FirstWh(tokens)
    case None => (Ok(if chunks == [] then 0 else chunks[0].head), chunks, rels)
    case Some(w) =>
      var wh := tokens[w];
      if wh.args.Some? then
        (if wh.args.value == [] then Err(StandardError(NilMethod)) else Ok(wh.args.value[0].ref), chunks, rels)
      else match FirstWithSubject(rels, wh.idx)
        case None => (Ok(wh.idx), chunks, rels)
        case Some(q) =>
          var rel := rels[q];
          if rel.path == [] then (Err(StandardError(NilIndex)), chunks, rels)
          else match RubyAt(tokens, rel.path[0])
            case None => (Err(StandardError(NilMethod)), chunks, rels)
            case Some(t) =>
              if t.base == Some("be") then (Ok(rel.obj), DeleteFirst(chunks), DeleteAll(rels, rel))
              else (Ok(wh.idx), chunks, rels)
  }

  /** The chunk and relation lists that `parse` returns, which get_focus may shorten. */
  class Analysis {
    var chunks: seq<Chunk>
    var relations: seq<Relation>

    constructor (chunks: seq<Chunk>, relations: seq<Relation>)
      ensures this.chunks == chunks && this.relations == relations
    {
      this.chunks := chunks;
      this.relations := relations;
    }

    /**
     * get_focus. With a wh-word, the focus is its first argument when it
     * has arguments; otherwise, when its relation's first inner node is a
     * form of "be", the relation's object, after the first chunk and every
     * copy of that relation are deleted; otherwise the wh-word itself.
     * Without a wh-word, it is the first chunk's head, or 0 when there is
     * no chunk. An empty argument list, an empty inner path and a position
     * outside the tokens raise, as indexing nil does.
     */
    method GetFocus(tokens: seq<Token>) returns (r: Result<int, ParseError>)
      modifies this
      ensures chunks == old(chunks) || chunks == DeleteFirst(old(chunks))
      ensures forall rel :: rel in relations ==> rel in old(relations)
      ensures FirstWh(tokens).None? ==>
        && r == Ok(if old(chunks) == [] then 0 else old(chunks)[0].head)
        && chunks == old(chunks) && relations == old(relations)
      ensures FirstWh(tokens).Some? && tokens[FirstWh(tokens).value].args.Some? ==>
        var args := tokens[FirstWh(tokens).value].args.value;
        && r == (if args == [] then Err(StandardError(NilMethod)) else Ok(args[0].ref))
        && chunks == old(chunks) && relations == old(relations)
      ensures FirstWh(tokens).Some? && tokens[FirstWh(tokens).value].args.None? ==>
        var wh := tokens[FirstWh(tokens).value];
        var q := FirstWithSubject(old(relations), wh.idx);
        if q.None? then
          r == Ok(wh.idx) && chunks == old(chunks) && relations == old(relations)
        else
          var rel := old(relations)[q.value];
          if rel.path == [] then
            r == Err(StandardError(NilIndex)) && chunks == old(chunks) && relations == old(relations)
          else if RubyAt(tokens, rel.path[0]).None? then
            r == Err(StandardError(NilMethod)) && chunks == old(chunks) && relations == old(relations)
          else if RubyAt(tokens, rel.path[0]).value.base == Some("be") then
            && r == Ok(rel.obj)
            && chunks == DeleteFirst(old(chunks))
            && relations == DeleteAll(old(relations), rel)
          else
            r == Ok(wh.idx) && chunks == old(chunks) && relations == old(relations)
      ensures (r, chunks, relations) == FocusOf(tokens, old(chunks), old(relations))
    {
      var w := FirstWh(tokens);
      if w.Some? {
        var wh := tokens[w.value];
        if wh.args.Some? {
          if wh.args.value == [] {
            return Err(StandardError(NilMethod));
          }
          return Ok(wh.args.value[0].ref);
        }
        var q := FirstWithSubject(relations, wh.idx);
        if q.Some? {
          var rel := relations[q.value];
          if rel.path == [] {
            return Err(StandardError(NilIndex));
          }
          var t := RubyAt(tokens, rel.path[0]);
          if t.None? {
            return Err(StandardError(NilMethod));
          }
          if t.value.base == Some("be") {
            chunks := DeleteFirst(chunks);
            relations := DeleteAll(relations, rel);
            return Ok(rel.obj);
          }
        }
        return Ok(wh.idx);
      } else if chunks == [] {
        return Ok(0);
      } else {
        return Ok(chunks[0].head);
      }
    }
  }

  /** Deleting the first chunk keeps the others in order and each with its head. */
  lemma KeptChunks(tokens: seq<Token>, chunks: seq<Chunk>, kept: seq<Chunk>)
    requires forall j :: 0 <= j < |chunks| ==> ChunkRight(tokens, chunks[j])
    requires Ordered(chunks)
    requires kept == chunks || kept == DeleteFirst(chunks)
    ensures forall j :: 0 <= j < |kept| ==> ChunkRight(tokens, kept[j])
    ensures Ordered(kept)
  {
    if kept != chunks {
      assert forall j :: 0 <= j < |kept| ==> kept[j] == chunks[j + 1];
    }
  }

  /**
   * A relation runs along the shortest path between two different nodes,
   * and no chunk head lies strictly inside it.
   */
  predicate RelationFits(tokens: seq<Token>, chunks: seq<Chunk>, sp: (Graph, int, int) -> seq<int>, rel: Relation) {
    && rel.subj != rel.obj
    && [rel.subj] + rel.path + [rel.obj] == sp(Graph(TokenEdges(tokens)), rel.subj, rel.obj)
    && AvoidsHeads(rel, Heads(chunks))
  }

  /** The relations left after get_focus fit the chunks left after it. */
  lemma KeptRelations(tokens: seq<Token>, chunks: seq<Chunk>, kept: seq<Chunk>, sp: (Graph, int, int) -> seq<int>, rels: seq<Relation>)
    requires ShortestPathContract(sp) && DistinctHeads(chunks)
    requires kept == chunks || kept == DeleteFirst(chunks)
    requires forall rel :: rel in rels ==> rel in AllRels(Graph(TokenEdges(tokens)), sp, Heads(chunks), |chunks|)
    ensures forall rel :: rel in rels ==> RelationFits(tokens, kept, sp, rel)
  {
    var heads := Heads(chunks);
    forall k | 0 <= k < |kept| ensures Heads(kept)[k] in heads {
      var m := if kept == chunks then k else k + 1;
      assert kept[k] == chunks[m] && heads[m] == chunks[m].head;
    }
    forall rel | rel in rels ensures RelationFits(tokens, kept, sp, rel) {
      var x, y := RelationsSound(Graph(TokenEdges(tokens)), sp, heads, rel);
    }
  }

  /** The hash `parse` returns. */
  datatype ParseOutput = ParseOutput(
    tokens: seq<Token>, root: Option<int>, focus: int, chunks: seq<Chunk>, relations: seq<Relation>)

  /**
   * parse: the four passes in order; an error in any of them ends the parse.
   * `tokens` and `chunks` are what get_parse and get_base_noun_chunks gave,
   * when they succeeded. The focus and the lists returned are get_focus's
   * for those tokens, those chunks and the relations between their heads.
   * On success the tokens are numbered densely, every chunk that remains is
   * a maximal noun-chunk run with its head, in order, and every relation
   * that remains is the shortest path between two chunk heads of the scan
   * that passes through no head.
   */
  method Parse(sentence: Option<string>, enju: string -> Response, sp: (Graph, int, int) -> seq<int>)
    returns (r: Result<ParseOutput, ParseError>, ghost tokens: seq<Token>, ghost chunks: seq<Chunk>)
    requires ShortestPathContract(sp)
    ensures NoSentence(sentence) ==> r == Ok(ParseOutput([], None, 0, [], []))
    ensures ParseFailure(sentence, enju).Some? ==> r == Err(ParseFailure(sentence, enju).value)
    ensures ParseFailure(sentence, enju).None? ==> ParsedTokens(sentence, enju, tokens)
    ensures ParseFailure(sentence, enju).None? && StrangeEnd(tokens) ==> r == Err(StandardError(StrangeParse))
    ensures ParseFailure(sentence, enju).None? && !StrangeEnd(tokens) ==>
      && NounChunks(tokens, chunks)
      && var (focus, kept, keptRels) := FocusOf(tokens, chunks, AllRels(Graph(TokenEdges(tokens)), sp, Heads(chunks), |chunks|));
         r == match focus
              case Err(e) => Err(e)
              case Ok(f) => Ok(ParseOutput(tokens, ParsedRoot(sentence, enju), f, kept, keptRels))
    ensures r.Ok? ==> Dense(r.value.tokens)
    ensures r.Ok? ==> forall j :: 0 <= j < |r.value.chunks| ==> ChunkRight(r.value.tokens, r.value.chunks[j])
    ensures r.Ok? ==> Ordered(r.value.chunks)
    ensures r.Ok? ==> forall rel :: rel in r.value.relations ==> RelationFits(r.value.tokens, r.value.chunks, sp, rel)
  {
    var parsed := GetParse(sentence, enju);
    if parsed.Err? {
      return Err(parsed.error), [], [];
    }
    var (toks, root) := parsed.value;
    tokens := toks;
    var found := GetBaseNounChunks(toks);
    if found.Err? {
      return Err(found.error), tokens, [];
    }
    var cs := found.value;
    chunks := cs;
    HeadsIncrease(toks, cs);
    var rels := GetRelations(toks, cs, sp);
    var a := new Analysis(cs, rels);
    var focus := a.GetFocus(toks);
    if focus.Err? {
      return Err(focus.error), tokens, chunks;
    }
    KeptChunks(toks, cs, a.chunks);
    KeptRelations(toks, cs, a.chunks, sp, a.relations);
    r := Ok(ParseOutput(toks, root, focus.value, a.chunks, a.relations));
  }
}
