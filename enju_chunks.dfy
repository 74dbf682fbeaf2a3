/**
 * EnjuAccess::CGIAccessor#get_base_noun_chunks: one left-to-right scan that
 * opens a chunk at the first noun-chunk token, remembers the last token that
 * may be its head, and closes it at the first token that is not part of a
 * noun chunk.
 */
module EnjuChunks {
  import opened Wrappers
  import opened EnjuParse

  /** NC_CAT: categories that may appear inside a base noun chunk. */
  const NcCat: set<string> := {"NN", "NNP", "CD", "FW", "JJ", "WP"}

  /** NC_HEAD_CAT: categories that may appear at the head position. */
  const NcHeadCat: set<string> := {"NN", "NNP", "CD", "FW", "WP"}

  const StrangeParse := "Strange parse!"

  /** A base noun chunk: the head token and the first and last token of the chunk. */
  datatype Chunk = Chunk(head: int, beg: int, end: int)

  predicate InNc(t: Token) {
    t.cat.Some? && t.cat.value in NcCat
  }

  /** A token that may be a head: a head category and no arguments. */
  predicate HeadCandidate(t: Token) {
    t.cat.Some? && t.cat.value in NcHeadCat && t.args.None?
  }

  /** No head candidate among tokens `lo` to `hi - 1`. */
  predicate NoCandidate(tokens: seq<Token>, lo: int, hi: int)
    requires 0 <= lo && hi <= |tokens|
  {
    forall k :: lo <= k < hi ==> !HeadCandidate(tokens[k])
  }

  /** Tokens `b` to `e` are a maximal run of noun-chunk tokens. */
  predicate IsRun(tokens: seq<Token>, b: int, e: int) {
    && 0 <= b <= e < |tokens|
    && (forall k :: b <= k <= e ==> InNc(tokens[k]))
    && (b == 0 || !InNc(tokens[b - 1]))
    && (e == |tokens| - 1 || !InNc(tokens[e + 1]))
  }

  /**
   * The head of a chunk is its last head candidate; a chunk without one takes
   * the token that closed it, which lies just past its end.
   */
  predicate HeadRight(tokens: seq<Token>, c: Chunk)
    requires 0 <= c.beg <= c.end < |tokens|
  {
    || (c.beg <= c.head <= c.end && HeadCandidate(tokens[c.head]) && NoCandidate(tokens, c.head + 1, c.end + 1))
    || (NoCandidate(tokens, c.beg, c.end + 1) && c.head == c.end + 1 < |tokens|)
  }

  predicate ChunkRight(tokens: seq<Token>, c: Chunk) {
    IsRun(tokens, c.beg, c.end) && HeadRight(tokens, c)
  }

  /** Each chunk ends before any later one begins, with at least one token between them. */
  predicate Ordered(chunks: seq<Chunk>) {
    forall j, k :: 0 <= j < k < |chunks| ==> chunks[j].end + 1 < chunks[k].beg
  }

  /** No noun-chunk token among tokens `lo` to `hi - 1`. */
  predicate NoNc(tokens: seq<Token>, lo: int, hi: int)
    requires 0 <= lo && hi <= |tokens|
  {
    forall k :: lo <= k < hi ==> !InNc(tokens[k])
  }

  /** Where the next chunk may begin: just past the last chunk's end. */
  function Frontier(chunks: seq<Chunk>): int {
    if chunks == [] then 0 else chunks[|chunks| - 1].end + 1
  }

  /**
   * No noun-chunk token lies before the first chunk, between two chunks, or
   * between the last chunk and `n`.
   */
  ghost predicate Gaps(tokens: seq<Token>, chunks: seq<Chunk>, n: int)
    requires n <= |tokens|
    requires forall j :: 0 <= j < |chunks| ==> 0 <= chunks[j].beg <= chunks[j].end < |tokens|
  {
    && (chunks == [] ==> NoNc(tokens, 0, n))
    && (chunks != [] ==> NoNc(tokens, 0, chunks[0].beg) && (Frontier(chunks) <= n ==> NoNc(tokens, Frontier(chunks), n)))
    && (forall j, k :: 0 <= j < k < |chunks| && k == j + 1 && chunks[j].end < chunks[k].beg ==> NoNc(tokens, chunks[j].end + 1, chunks[k].beg))
  }

  /** Token `k` lies in one of the chunks. */
  predicate InSome(chunks: seq<Chunk>, k: int) {
    exists j :: 0 <= j < |chunks| && chunks[j].beg <= k <= chunks[j].end
  }

  /** Every noun-chunk token below `n` lies in one of the chunks. */
  predicate Covered(tokens: seq<Token>, chunks: seq<Chunk>, n: int)
    requires n <= |tokens|
  {
    forall k {:trigger InSome(chunks, k)} :: 0 <= k < n && InNc(tokens[k]) ==> InSome(chunks, k)
  }

  /** The first token of the run of noun-chunk tokens that ends at `e`. */
  function RunStart(tokens: seq<Token>, e: nat): (r: nat)
    requires e < |tokens| && InNc(tokens[e])
    ensures r <= e && (r == 0 || !InNc(tokens[r - 1]))
    ensures forall k :: r <= k <= e ==> InNc(tokens[k])
  {
    if e > 0 && InNc(tokens[e - 1]) then RunStart(tokens, e - 1) else e
  }

  lemma {:induction false} RunStartUnique(tokens: seq<Token>, b: nat, e: nat)
    requires b <= e < |tokens|
    requires forall k :: b <= k <= e ==> InNc(tokens[k])
    requires b == 0 || !InNc(tokens[b - 1])
    ensures RunStart(tokens, e) == b
    decreases e - b
  {
    if b < e {
      RunStartUnique(tokens, b, e - 1);
    }
  }

  /**
   * The scan fails exactly when the tokens end inside a run of noun-chunk
   * tokens that holds no head candidate.
   */
  predicate StrangeEnd(tokens: seq<Token>) {
    && |tokens| > 0
    && InNc(tokens[|tokens| - 1])
    && NoCandidate(tokens, RunStart(tokens, |tokens| - 1), |tokens|)
  }

  /**
   * What the scan knows after `i` tokens: `chunks` are the runs closed so
   * far, and either no chunk is open (`beg == head == -1`) or one is open
   * from `beg`, with `head` its last candidate so far or -1 when there is
   * none yet.
   */
  ghost predicate ScanInv(tokens: seq<Token>, i: int, chunks: seq<Chunk>, beg: int, head: int) {
    && 0 <= i <= |tokens|
    && (forall j :: 0 <= j < |chunks| ==> ChunkRight(tokens, chunks[j]))
    && Ordered(chunks)
    && (forall j :: 0 <= j < |chunks| ==> chunks[j].end < i)
    && (beg < 0 ==> beg == -1 && head == -1 && (i == 0 || !InNc(tokens[i - 1])))
    && (beg >= 0 ==> && beg < i
                     && (forall k :: beg <= k < i ==> InNc(tokens[k]))
                     && (beg == 0 || !InNc(tokens[beg - 1])))
    && (beg >= 0 && head < 0 ==> head == -1 && NoCandidate(tokens, beg, i))
    && (beg >= 0 && head >= 0 ==> beg <= head < i && HeadCandidate(tokens[head]) && NoCandidate(tokens, head + 1, i))
    && (beg >= 0 && chunks != [] ==> chunks[|chunks| - 1].end + 1 < beg)
    && Gaps(tokens, chunks, if beg < 0 then i else beg)
  }

  /** A token outside any chunk while none is open changes nothing. */
  lemma SkipStep(tokens: seq<Token>, i: int, chunks: seq<Chunk>)
    requires ScanInv(tokens, i, chunks, -1, -1) && i < |tokens| && !InNc(tokens[i])
    ensures ScanInv(tokens, i + 1, chunks, -1, -1)
  {
  }

  /** A noun-chunk token while none is open opens a chunk at it. */
  lemma OpenStep(tokens: seq<Token>, i: int, chunks: seq<Chunk>, head': int)
    requires ScanInv(tokens, i, chunks, -1, -1) && i < |tokens| && InNc(tokens[i])
    requires head' == if HeadCandidate(tokens[i]) then i else -1
    ensures ScanInv(tokens, i + 1, chunks, i, head')
  {
  }

  /** A noun-chunk token extends the open chunk, and becomes its head when it is a candidate. */
  lemma ExtendStep(tokens: seq<Token>, i: int, chunks: seq<Chunk>, beg: int, head: int, head': int)
    requires ScanInv(tokens, i, chunks, beg, head) && beg >= 0 && i < |tokens| && InNc(tokens[i])
    requires head' == if HeadCandidate(tokens[i]) then i else head
    ensures ScanInv(tokens, i + 1, chunks, beg, head')
  {
  }

  /** Any other token closes the open chunk at the token before it. */
  lemma CloseStep(tokens: seq<Token>, i: int, chunks: seq<Chunk>, beg: int, head: int, chunks': seq<Chunk>)
    requires ScanInv(tokens, i, chunks, beg, head) && beg >= 0 && i < |tokens| && !InNc(tokens[i])
    requires chunks' == chunks + [Chunk(if head < 0 then i else head, beg, i - 1)]
    ensures ScanInv(tokens, i + 1, chunks', -1, -1)
  {
    var c := Chunk(if head < 0 then i else head, beg, i - 1);
    ClosedChunkRight(tokens, c, i);
    AppendOrdered(chunks, c);
    AppendGaps(tokens, chunks, c, i + 1);
  }

  /** At the end, an open chunk with a head is closed at the last token. */
  lemma FinishOpen(tokens: seq<Token>, chunks: seq<Chunk>, beg: int, head: int, chunks': seq<Chunk>)
    requires ScanInv(tokens, |tokens|, chunks, beg, head) && beg >= 0 && head >= 0
    requires chunks' == chunks + [Chunk(head, beg, |tokens| - 1)]
    ensures forall j :: 0 <= j < |chunks'| ==> ChunkRight(tokens, chunks'[j])
    ensures Ordered(chunks') && Covered(tokens, chunks', |tokens|)
  {
    var c := Chunk(head, beg, |tokens| - 1);
    ClosedChunkRight(tokens, c, |tokens|);
    AppendOrdered(chunks, c);
    AppendGaps(tokens, chunks, c, |tokens|);
    GapsCover(tokens, chunks', |tokens|);
  }

  /** At the end with no chunk open, the chunks closed so far are all of them. */
  lemma FinishClosed(tokens: seq<Token>, chunks: seq<Chunk>)
    requires ScanInv(tokens, |tokens|, chunks, -1, -1)
    ensures forall j :: 0 <= j < |chunks| ==> ChunkRight(tokens, chunks[j])
    ensures Ordered(chunks) && Covered(tokens, chunks, |tokens|)
  {
    GapsCover(tokens, chunks, |tokens|);
  }

  /**
   * The block the scan runs for token `i`: open a chunk at a noun-chunk
   * token when none is open, take a head candidate as the head, and close
   * the open chunk at any other token, falling back to that token as head.
   */
  method ScanToken(tokens: seq<Token>, i: int, chunks: seq<Chunk>, beg: int, head: int)
    returns (chunks': seq<Chunk>, beg': int, head': int)
    requires Dense(tokens) && ScanInv(tokens, i, chunks, beg, head) && i < |tokens|
    ensures ScanInv(tokens, i + 1, chunks', beg', head')
  {
    chunks', beg', head' := chunks, beg, head;
    var t := tokens[i];
    assert t.idx == i;
    if beg' < 0 && InNc(t) {
      beg' := t.idx;
    }
    if beg' >= 0 && HeadCandidate(t) {
      head' := t.idx;
    }
    if beg' >= 0 && !InNc(t) {
      if head' < 0 {
        head' := t.idx;
      }
      assert tokens[i - 1].idx == i - 1;
      chunks' := chunks' + [Chunk(head', beg', tokens[i - 1].idx)];
      beg' := -1;
      head' := -1;
      CloseStep(tokens, i, chunks, beg, head, chunks');
    } else if beg >= 0 {
      ExtendStep(tokens, i, chunks, beg, head, head');
    } else if InNc(t) {
      OpenStep(tokens, i, chunks, head');
    } else {
      SkipStep(tokens, i, chunks);
    }
  }

  /**
   * get_base_noun_chunks. The chunks are exactly the maximal runs of
   * noun-chunk tokens, in order, each with its head; a run left open at the
   * end without a head candidate raises "Strange parse!".
   */
  /**
   * What get_base_noun_chunks returns: every chunk a maximal noun-chunk run
   * with its head, in order, and every noun-chunk token in one of them.
   */
  predicate NounChunks(tokens: seq<Token>, chunks: seq<Chunk>) {
    && (forall j :: 0 <= j < |chunks| ==> ChunkRight(tokens, chunks[j]))
    && Ordered(chunks)
    && Covered(tokens, chunks, |tokens|)
  }

  method GetBaseNounChunks(tokens: seq<Token>) returns (r: Result<seq<Chunk>, ParseError>)
    requires Dense(tokens)
    ensures r.Err? <==> StrangeEnd(tokens)
    ensures r.Err? ==> r.error == StandardError(StrangeParse)
    ensures r.Ok? ==> forall j :: 0 <= j < |r.value| ==> ChunkRight(tokens, r.value[j])
    ensures r.Ok? ==> Ordered(r.value) && Covered(tokens, r.value, |tokens|)
  {
    var chunks: seq<Chunk> := [];
    var beg := -1;
    var head := -1;
    var i := 0;
    while i < |tokens|
      invariant ScanInv(tokens, i, chunks, beg, head)
    {
      chunks, beg, head := ScanToken(tokens, i, chunks, beg, head);
      i := i + 1;
    }
    if beg >= 0 {
      RunStartUnique(tokens, beg, |tokens| - 1);
      if head < 0 {
        return Err(StandardError(StrangeParse));
      }
      assert tokens[|tokens| - 1].idx == |tokens| - 1;
      ghost var chunks0 := chunks;
      chunks := chunks + [Chunk(head, beg, tokens[|tokens| - 1].idx)];
      FinishOpen(tokens, chunks0, beg, head, chunks);
    } else {
      FinishClosed(tokens, chunks);
    }
    return Ok(chunks);
  }

  /**
   * A chunk the scan closes at token `i` (or at the end, `i == |tokens|`):
   * an open run from `beg` whose head is its last candidate, or the closing
   * token when it has none.
   */
  lemma ClosedChunkRight(tokens: seq<Token>, c: Chunk, i: int)
    requires 0 <= c.beg < i <= |tokens| && c.end == i - 1
    requires forall k :: c.beg <= k < i ==> InNc(tokens[k])
    requires c.beg == 0 || !InNc(tokens[c.beg - 1])
    requires i == |tokens| || !InNc(tokens[i])
    requires || (c.beg <= c.head < i && HeadCandidate(tokens[c.head]) && NoCandidate(tokens, c.head + 1, i))
             || (c.head == i < |tokens| && NoCandidate(tokens, c.beg, i))
    ensures ChunkRight(tokens, c)
  {
  }

  lemma AppendOrdered(chunks: seq<Chunk>, c: Chunk)
    requires forall j :: 0 <= j < |chunks| ==> chunks[j].beg <= chunks[j].end
    requires Ordered(chunks)
    requires chunks != [] ==> chunks[|chunks| - 1].end + 1 < c.beg
    ensures Ordered(chunks + [c])
  {
    var all := chunks + [c];
    forall j, k | 0 <= j < k < |all| ensures all[j].end + 1 < all[k].beg {
      if k < |chunks| {
        assert all[j] == chunks[j] && all[k] == chunks[k];
      } else if j < |chunks| - 1 {
        assert all[j] == chunks[j] && chunks[j].end + 1 < chunks[|chunks| - 1].beg;
      }
    }
  }

  /** Appending the chunk that closes the open run keeps the gaps free of noun-chunk tokens. */
  lemma AppendGaps(tokens: seq<Token>, chunks: seq<Chunk>, c: Chunk, n: int)
    requires forall j :: 0 <= j < |chunks| ==> 0 <= chunks[j].beg <= chunks[j].end < |tokens|
    requires 0 <= c.beg <= c.end < |tokens| && n <= |tokens|
    requires Gaps(tokens, chunks, c.beg)
    requires Frontier(chunks) <= c.beg
    requires c.end + 1 <= n && NoNc(tokens, c.end + 1, n)
    ensures Gaps(tokens, chunks + [c], n)
  {
    var all := chunks + [c];
    forall j, k | 0 <= j < k < |all| && k == j + 1 && all[j].end < all[k].beg ensures NoNc(tokens, all[j].end + 1, all[k].beg) {
      if k < |chunks| {
        assert all[j] == chunks[j] && all[k] == chunks[k];
      } else {
        assert all[j] == chunks[|chunks| - 1] && all[k] == c;
      }
    }
  }

  /** Gaps free of noun-chunk tokens mean every noun-chunk token lies in a chunk. */
  lemma {:induction false} GapsCover(tokens: seq<Token>, chunks: seq<Chunk>, n: int)
    requires n <= |tokens|
    requires forall j :: 0 <= j < |chunks| ==> 0 <= chunks[j].beg <= chunks[j].end < |tokens|
    requires Ordered(chunks) && Frontier(chunks) <= n
    requires Gaps(tokens, chunks, n)
    ensures Covered(tokens, chunks, n)
    decreases |chunks|
  {
    if chunks != [] {
      var init := chunks[..|chunks| - 1];
      var c := chunks[|chunks| - 1];
      assert forall j :: 0 <= j < |init| ==> init[j] == chunks[j];
      assert Gaps(tokens, init, c.beg) by {
        if init != [] {
          assert init[|init| - 1] == chunks[|chunks| - 2];
        }
      }
      GapsCover(tokens, init, c.beg);
      forall k | 0 <= k < n && InNc(tokens[k]) ensures InSome(chunks, k) {
        if k < c.beg {
          AppendInSome(init, c, k);
          assert init + [c] == chunks;
        } else {
          assert c.beg <= k <= c.end;
          assert chunks[|chunks| - 1] == c;
        }
      }
    }
  }

  lemma AppendInSome(chunks: seq<Chunk>, c: Chunk, k: int)
    ensures InSome(chunks, k) || c.beg <= k <= c.end ==> InSome(chunks + [c], k)
  {
    var all := chunks + [c];
    if InSome(chunks, k) {
      var j :| 0 <= j < |chunks| && chunks[j].beg <= k <= chunks[j].end;
      assert all[j] == chunks[j];
    } else if c.beg <= k <= c.end {
      assert all[|chunks|] == c;
    }
  }

  /** Chunk heads strictly increase along the list, so no head is shared. */
  lemma HeadsIncrease(tokens: seq<Token>, chunks: seq<Chunk>)
    requires forall m :: 0 <= m < |chunks| ==> ChunkRight(tokens, chunks[m])
    requires Ordered(chunks)
    ensures forall j, k :: 0 <= j < k < |chunks| ==> chunks[j].head < chunks[k].head
  {
    forall j, k | 0 <= j < k < |chunks| ensures chunks[j].head < chunks[k].head {
      assert ChunkRight(tokens, chunks[j]) && ChunkRight(tokens, chunks[k]);
    }
  }
}
