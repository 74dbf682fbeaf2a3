/**
 * EnjuAccess::CGIAccessor#get_relations: a graph with an edge from each
 * token to every token its arguments name, and for every pair of chunk heads
 * the shortest path between them, kept when no head lies strictly inside it.
 * Graph#shortest_path is not part of this model: it is the function `sp`,
 * whose result is only known to start at its first node and end at its
 * second.
 */
module EnjuRelations {
  import opened EnjuParse
  import opened EnjuChunks

  /** An edge of weight 1 from a token to a token it takes as argument. */
  datatype Edge = Edge(from: int, to: int)

  /** The graph, as the edges added to it in order. */
  datatype Graph = Graph(edges: seq<Edge>)

  /** `[s, path, o]`: the two heads and the nodes strictly between them. */
  datatype Relation = Relation(subj: int, path: seq<int>, obj: int)

  /** The edges for the arguments `args[..m]` of a token: one per reference that is not negative. */
  function ArgEdges(from: int, args: seq<Arg>, m: nat): seq<Edge>
    requires m <= |args|
  {
    if m == 0 then []
    else ArgEdges(from, args, m - 1) + (if args[m - 1].ref >= 0 then [Edge(from, args[m - 1].ref)] else [])
  }

  /** The edges for `tokens`, in the order get_relations adds them. */
  function TokenEdges(tokens: seq<Token>): seq<Edge> {
    if tokens == [] then []
    else
      var t := tokens[|tokens| - 1];
      TokenEdges(tokens[..|tokens| - 1]) + (if t.args.Some? then ArgEdges(t.idx, t.args.value, |t.args.value|) else [])
  }

  /** The argument `a` of `t` gives an edge. */
  predicate ArgEdge(t: Token, a: Arg, e: Edge) {
    a.ref >= 0 && e == Edge(t.idx, a.ref)
  }

  /** An edge of the arguments `args[..m]` comes from one of them. */
  lemma {:induction false} ArgEdgeSource(t: Token, args: seq<Arg>, m: nat, e: Edge) returns (k: nat)
    requires m <= |args| && e in ArgEdges(t.idx, args, m)
    ensures k < m && ArgEdge(t, args[k], e)
  {
    var init := ArgEdges(t.idx, args, m - 1);
    var last := if args[m - 1].ref >= 0 then [Edge(t.idx, args[m - 1].ref)] else [];
    assert ArgEdges(t.idx, args, m) == init + last;
    if e in init {
      k := ArgEdgeSource(t, args, m - 1, e);
    } else {
      k := m - 1;
    }
  }

  /** Each argument among `args[..m]` with a non-negative reference gives its edge. */
  lemma {:induction false} ArgEdgeHas(t: Token, args: seq<Arg>, m: nat, e: Edge, k: nat)
    requires k < m <= |args| && ArgEdge(t, args[k], e)
    ensures e in ArgEdges(t.idx, args, m)
  {
    var init := ArgEdges(t.idx, args, m - 1);
    var last := if args[m - 1].ref >= 0 then [Edge(t.idx, args[m - 1].ref)] else [];
    assert ArgEdges(t.idx, args, m) == init + last;
    if k < m - 1 {
      ArgEdgeHas(t, args, m - 1, e, k);
      InLeft(init, last, e);
    } else {
      InRight(init, last, e);
    }
  }

  /** The argument `k` of token `j` gives the edge `e`. */
  predicate TokenArgEdge(tokens: seq<Token>, j: int, k: int, e: Edge) {
    0 <= j < |tokens| && tokens[j].args.Some? && 0 <= k < |tokens[j].args.value|
    && ArgEdge(tokens[j], tokens[j].args.value[k], e)
  }

  /** The edges the last token adds. */
  function LastEdges(t: Token): seq<Edge> {
    if t.args.Some? then ArgEdges(t.idx, t.args.value, |t.args.value|) else []
  }

  /** An edge of the graph comes from an argument of some token. */
  lemma {:induction false} EdgeSource(tokens: seq<Token>, e: Edge) returns (j: int, k: int)
    requires e in TokenEdges(tokens)
    ensures TokenArgEdge(tokens, j, k, e)
  {
    var n := |tokens| - 1;
    var init := tokens[..n];
    assert TokenEdges(tokens) == TokenEdges(init) + LastEdges(tokens[n]);
    if e in TokenEdges(init) {
      j, k := EdgeSource(init, e);
      assert tokens[j] == init[j];
    } else {
      j := n;
      k := ArgEdgeSource(tokens[n], tokens[n].args.value, |tokens[n].args.value|, e);
    }
  }

  /** Every argument of a token with a non-negative reference gives an edge of the graph. */
  lemma {:induction false} EdgeHas(tokens: seq<Token>, e: Edge, j: int, k: int)
    requires TokenArgEdge(tokens, j, k, e)
    ensures e in TokenEdges(tokens)
  {
    var n := |tokens| - 1;
    var init := tokens[..n];
    assert TokenEdges(tokens) == TokenEdges(init) + LastEdges(tokens[n]);
    if j < n {
      assert tokens[j] == init[j];
      EdgeHas(init, e, j, k);
      InLeft(TokenEdges(init), LastEdges(tokens[n]), e);
    } else {
      ArgEdgeHas(tokens[n], tokens[n].args.value, |tokens[n].args.value|, e, k);
      InRight(TokenEdges(init), LastEdges(tokens[n]), e);
    }
  }

  /** An edge is in the graph exactly when some token has an argument whose non-negative reference it joins. */
  lemma {:induction false} EdgeIff(tokens: seq<Token>, e: Edge)
    ensures e in TokenEdges(tokens) <==> exists j, k :: TokenArgEdge(tokens, j, k, e)
  {
    if e in TokenEdges(tokens) {
      var j, k := EdgeSource(tokens, e);
    }
    if exists j, k :: TokenArgEdge(tokens, j, k, e) {
      var j, k :| TokenArgEdge(tokens, j, k, e);
      EdgeHas(tokens, e, j, k);
    }
  }

  /** The graph loop of get_relations. */
  method BuildGraph(tokens: seq<Token>) returns (g: Graph)
    ensures g == Graph(TokenEdges(tokens))
  {
    var edges: seq<Edge> := [];
    var i := 0;
    while i < |tokens|
      invariant 0 <= i <= |tokens|
      invariant edges == TokenEdges(tokens[..i])
    {
      var t := tokens[i];
      assert tokens[..i + 1][..i] == tokens[..i];
      if t.args.Some? {
        var args := t.args.value;
        var m := 0;
        while m < |args|
          invariant 0 <= m <= |args|
          invariant edges == TokenEdges(tokens[..i]) + ArgEdges(t.idx, args, m)
        {
          if args[m].ref >= 0 {
            edges := edges + [Edge(t.idx, args[m].ref)];
          }
          m := m + 1;
        }
      }
      i := i + 1;
    }
    assert tokens[..i] == tokens;
    return Graph(edges);
  }

  /** What Graph#shortest_path is known to return: a path from `a` to `b`. */
  predicate PathFrom(p: seq<int>, a: int, b: int) {
    |p| > 0 && p[0] == a && p[|p| - 1] == b
  }

  ghost predicate ShortestPathContract(sp: (Graph, int, int) -> seq<int>) {
    forall g, a, b :: PathFrom(sp(g, a, b), a, b)
  }

  predicate DistinctHeads(chunks: seq<Chunk>) {
    forall j, k :: 0 <= j < k < |chunks| ==> chunks[j].head != chunks[k].head
  }

  function Heads(chunks: seq<Chunk>): (r: seq<int>)
    ensures |r| == |chunks| && forall j :: 0 <= j < |chunks| ==> r[j] == chunks[j].head
  {
    seq(|chunks|, j requires 0 <= j < |chunks| => chunks[j].head)
  }

  /** `s = path.shift; o = path.pop`, for a path with two ends. */
  function Candidate(p: seq<int>): Relation
    requires |p| >= 2
  {
    Relation(p[0], p[1..|p| - 1], p[|p| - 1])
  }

  /** The shifted, popped and remaining parts recompose the path. */
  lemma {:induction false} CandidateRecomposes(p: seq<int>)
    requires |p| >= 2
    ensures var r := Candidate(p); [r.subj] + r.path + [r.obj] == p
  {
    var r := Candidate(p);
    assert ([r.subj] + r.path + [r.obj])[|p| - 1] == p[|p| - 1];
  }

  /** `(path & heads).empty?` */
  predicate AvoidsHeads(r: Relation, heads: seq<int>) {
    forall x :: x in r.path ==> x !in heads
  }

  /**
   * The relation the path between two heads gives, if it is kept. A path of
   * fewer than two nodes, which only equal heads could give, gives none.
   */
  function PairRels(p: seq<int>, heads: seq<int>): (r: seq<Relation>)
    ensures |r| <= 1
  {
    if |p| >= 2 && AvoidsHeads(Candidate(p), heads) then [Candidate(p)] else []
  }

  /** The relations of the pairs `(i, k)` with `i < k < j`, in order. */
  function RowRels(g: Graph, sp: (Graph, int, int) -> seq<int>, heads: seq<int>, i: nat, j: nat): seq<Relation>
    requires i < j <= |heads|
    decreases j
  {
    if j == i + 1 then []
    else RowRels(g, sp, heads, i, j - 1) + PairRels(sp(g, heads[i], heads[j - 1]), heads)
  }

  /** The relations of all pairs whose first member is below `i`, in the order of `combination(2)`. */
  function AllRels(g: Graph, sp: (Graph, int, int) -> seq<int>, heads: seq<int>, i: nat): seq<Relation>
    requires i <= |heads|
  {
    if i == 0 then [] else AllRels(g, sp, heads, i - 1) + RowRels(g, sp, heads, i - 1, |heads|)
  }

  /**
   * get_relations. The relations are those of `AllRels`: one candidate per
   * pair of chunks, in combination order, kept when its inner path avoids
   * every head.
   */
  method GetRelations(tokens: seq<Token>, chunks: seq<Chunk>, sp: (Graph, int, int) -> seq<int>)
    returns (rels: seq<Relation>)
    requires ShortestPathContract(sp) && DistinctHeads(chunks)
    ensures rels == AllRels(Graph(TokenEdges(tokens)), sp, Heads(chunks), |chunks|)
  {
    var graph := BuildGraph(tokens);
    rels := [];
    var heads := Heads(chunks);
    var i := 0;
    while i < |chunks|
      invariant 0 <= i <= |chunks|
      invariant rels == AllRels(graph, sp, heads, i)
    {
      rels := RelateRow(graph, chunks, sp, heads, i, rels);
      AllRelsStep(graph, sp, heads, i);
      i := i + 1;
    }
  }

  lemma {:induction false} AllRelsStep(g: Graph, sp: (Graph, int, int) -> seq<int>, heads: seq<int>, i: nat)
    requires i < |heads|
    ensures AllRels(g, sp, heads, i + 1) == AllRels(g, sp, heads, i) + RowRels(g, sp, heads, i, |heads|)
  {
  }

  /** The pairs `(chunks[i], chunks[j])` with `j > i`, each relation kept appended to `rels0`. */
  method RelateRow(graph: Graph, chunks: seq<Chunk>, sp: (Graph, int, int) -> seq<int>, heads: seq<int>, i: nat,
                   rels0: seq<Relation>)
    returns (rels: seq<Relation>)
    requires ShortestPathContract(sp) && DistinctHeads(chunks)
    requires heads == Heads(chunks) && i < |heads|
    ensures rels == rels0 + RowRels(graph, sp, heads, i, |heads|)
  {
    rels := rels0;
    var j := i + 1;
    while j < |heads|
      invariant i < j <= |heads|
      invariant rels == rels0 + RowRels(graph, sp, heads, i, j)
    {
      var path := sp(graph, heads[i], heads[j]);
      assert PathFrom(path, heads[i], heads[j]);
      var s := path[0];
      var o := path[|path| - 1];
      var inner := path[1..|path| - 1];
      ghost var kept := PairRels(path, heads);
      ghost var before := rels;
      if forall x :: x in inner ==> x !in heads {
        rels := rels + [Relation(s, inner, o)];
        assert kept == [Relation(s, inner, o)];
      } else {
        assert kept == [];
      }
      assert rels == before + kept;
      RowRelsStep(graph, sp, heads, i, j);
      Associative(rels0, RowRels(graph, sp, heads, i, j), kept);
      j := j + 1;
    }
  }

  lemma {:induction false} RowRelsStep(g: Graph, sp: (Graph, int, int) -> seq<int>, heads: seq<int>, i: nat, j: nat)
    requires i < j < |heads|
    ensures RowRels(g, sp, heads, i, j + 1) == RowRels(g, sp, heads, i, j) + PairRels(sp(g, heads[i], heads[j]), heads)
  {
  }

  lemma Associative<T>(x: seq<T>, y: seq<T>, z: seq<T>)
    ensures x + y + z == x + (y + z)
  {
  }

  /** The pair of heads `x < y` gives `r`. */
  predicate FromPair(g: Graph, sp: (Graph, int, int) -> seq<int>, heads: seq<int>, r: Relation, x: int, y: int) {
    0 <= x < y < |heads| && PairRels(sp(g, heads[x], heads[y]), heads) == [r]
  }

  /** A relation of the row comes from one of its pairs. */
  lemma {:induction false} RowRelsPair(g: Graph, sp: (Graph, int, int) -> seq<int>, heads: seq<int>, i: nat, j: nat, r: Relation)
    returns (y: int)
    requires i < j <= |heads| && r in RowRels(g, sp, heads, i, j)
    ensures i < y < j && FromPair(g, sp, heads, r, i, y)
    decreases j
  {
    var last := PairRels(sp(g, heads[i], heads[j - 1]), heads);
    if r in last {
      y := j - 1;
    } else {
      y := RowRelsPair(g, sp, heads, i, j - 1, r);
    }
  }

  /** Every kept pair of the row is in it. */
  lemma {:induction false} RowRelsHas(g: Graph, sp: (Graph, int, int) -> seq<int>, heads: seq<int>, i: nat, j: nat, r: Relation, y: int)
    requires i < y < j <= |heads| && FromPair(g, sp, heads, r, i, y)
    ensures r in RowRels(g, sp, heads, i, j)
    decreases j
  {
    if y < j - 1 {
      RowRelsHas(g, sp, heads, i, j - 1, r, y);
    }
  }

  /** A reported relation comes from the row of some head `x < i`. */
  lemma {:induction false} AllRelsRow(g: Graph, sp: (Graph, int, int) -> seq<int>, heads: seq<int>, i: nat, r: Relation)
    returns (x: nat)
    requires i <= |heads| && r in AllRels(g, sp, heads, i)
    ensures x < i && r in RowRels(g, sp, heads, x, |heads|)
  {
    var rest := AllRels(g, sp, heads, i - 1);
    if r in rest {
      x := AllRelsRow(g, sp, heads, i - 1, r);
    } else {
      x := i - 1;
    }
  }

  /** Every relation of the row of a head `x < i` is reported. */
  lemma {:induction false} AllRelsHas(g: Graph, sp: (Graph, int, int) -> seq<int>, heads: seq<int>, i: nat, r: Relation, x: nat)
    requires x < i <= |heads| && r in RowRels(g, sp, heads, x, |heads|)
    ensures r in AllRels(g, sp, heads, i)
  {
    if x < i - 1 {
      AllRelsHas(g, sp, heads, i - 1, r, x);
      InLeft(AllRels(g, sp, heads, i - 1), RowRels(g, sp, heads, i - 1, |heads|), r);
    } else {
      InRight(AllRels(g, sp, heads, x), RowRels(g, sp, heads, x, |heads|), r);
      assert AllRels(g, sp, heads, x + 1) == AllRels(g, sp, heads, x) + RowRels(g, sp, heads, x, |heads|);
    }
  }

  lemma InLeft<T>(a: seq<T>, b: seq<T>, x: T)
    requires x in a
    ensures x in a + b
  {
    var k :| 0 <= k < |a| && a[k] == x;
    assert (a + b)[k] == x;
  }

  lemma InRight<T>(a: seq<T>, b: seq<T>, x: T)
    requires x in b
    ensures x in a + b
  {
    var k :| 0 <= k < |b| && b[k] == x;
    assert (a + b)[|a| + k] == x;
  }

  /**
   * Every reported relation is the shortest path from one head to a later
   * one, split into its ends and the nodes between, and passes through no
   * head.
   */
  lemma RelationsSound(g: Graph, sp: (Graph, int, int) -> seq<int>, heads: seq<int>, r: Relation)
    returns (x: int, y: int)
    requires ShortestPathContract(sp)
    requires forall x, y :: 0 <= x < y < |heads| ==> heads[x] != heads[y]
    requires r in AllRels(g, sp, heads, |heads|)
    ensures 0 <= x < y < |heads| && r.subj == heads[x] && r.obj == heads[y] && r.subj != r.obj
    ensures forall n :: n in r.path ==> n !in heads
    ensures [r.subj] + r.path + [r.obj] == sp(g, r.subj, r.obj)
  {
    x := AllRelsRow(g, sp, heads, |heads|, r);
    y := RowRelsPair(g, sp, heads, x, |heads|, r);
    assert PathFrom(sp(g, heads[x], heads[y]), heads[x], heads[y]);
    CandidateRecomposes(sp(g, heads[x], heads[y]));
  }

  /** Every pair of heads whose path avoids the other heads is reported. */
  lemma RelationsComplete(g: Graph, sp: (Graph, int, int) -> seq<int>, heads: seq<int>, x: nat, y: nat)
    requires ShortestPathContract(sp)
    requires x < y < |heads| && heads[x] != heads[y]
    requires AvoidsHeads(Candidate(sp(g, heads[x], heads[y])), heads)
    ensures Candidate(sp(g, heads[x], heads[y])) in AllRels(g, sp, heads, |heads|)
  {
    var p := sp(g, heads[x], heads[y]);
    assert PathFrom(p, heads[x], heads[y]);
    RowRelsHas(g, sp, heads, x, |heads|, Candidate(p), y);
    AllRelsHas(g, sp, heads, |heads|, Candidate(p), x);
  }
}
