# LODQA core, modelled in Dafny

This project models three parts of LODQA, a system that answers
natural-language questions over linked open data:

- **`EnjuAccess::CGIAccessor`** is the Enju parse-result analyser. The
  model covers four passes:
  - `get_parse` reads the parser's CoNLL rows into tokens with dense
    0-based indices, a root index and character spans;
  - `get_base_noun_chunks` runs an open/close scan for base noun chunks;
  - `get_relations` builds head-to-head relations from shortest paths
    that avoid other heads;
  - `get_focus` runs the focus decision tree, including the apposition
    rewrite that deletes a chunk and a relation in place.

  `parse` chains the four passes.
- **`Lodqa::OneByOneExecutor`** is the query orchestration:
  - the event registry (`on`/`emit`);
  - the `perform` run: `datasets`, `pgp` and `mappings` events, then the
    walk over anchored pgps and their SPARQL candidates, with cancel
    checks, de-duplication of query texts, numbering of the queries sent,
    the endpoint callback's classification of outcomes into events, the
    queue drain and its statistics;
  - answer selection (`gsub(/^i/, '')`), `label`, and the shaping of
    forwarded URLs (sort, first image rendering, length filter).
- **`Search::Subscribable`** covers `divide_into_size` and `split`,
  which cut a search's events into transmissions.

The executor is a class (`LodqaExecutor.OneByOneExecutor`) with:

- the handler map;
- `@sparql_count`;
- the log of emitted events;
- the log of handler calls.

Each method is proved against pure specification functions in
`LodqaDispatch` and `LodqaAnswers`. For example, `Perform` ensures that:

- the events it emits are exactly `RunEvents(env, n0)`;
- the handler calls are the registered handlers of each of those events,
  in order;
- its result is `RunEndOf(env)`.

Lemmas then state what the source promises about those functions:

- no query text is sent twice;
- the `sparql` events carry the numbers `n0 + 1, n0 + 2, …`;
- the drain's tallies add up to the queries sent;
- a cancel stops the run before any drain.

The Enju passes that loop or mutate (`GetParse`, `GetBaseNounChunks`,
`GetRelations`, `Analysis.GetFocus`) are methods with loop invariants.

Inputs the code reads from the outside world are parameters:

- the Enju server's response, as a function from the sentence to a
  status, a content type and a body;
- `Graph#shortest_path`, as a function `sp` whose contract says the path
  starts at `a` and ends at `b`;
- an environment `Env` for the run, holding:
  - the pgp and mappings, or the failure that building them raised;
  - the anchored pgps with their (bgp, SPARQL) candidates in order;
  - the outcome of each SPARQL text;
  - the labels and the forwarding-service reply for each URI;
  - the value of the cancel flag at each successive check;
- the JSON text of one event, for `divide_into_size`.

Two behaviours of the code that the model keeps as written:

- A base noun chunk with no head candidate takes as its head the index of
  the closing token, the first token after the chunk that is not in
  `NC_CAT` (lib/enju_access/cgi_accessor.rb:106). It does not take a
  token inside the chunk.
- A persistent endpoint error handed to the query callback falls in the
  callback's `else` branch. It is only logged and emits nothing
  (lib/lodqa/one_by_one_executor.rb:195-197).

## Model

| member | source | states |
|---|---|---|
| RubyStrings.StripSlice | lib/enju_access/cgi_accessor.rb:54-55 | `strip` is the slice `s[i..j]` of the sentence: everything before `i` and from `j` on is whitespace, and the slice starts and ends with a character `strip` keeps |
| RubyStrings.SplitNJoin | lib/enju_access/cgi_accessor.rb:67 | `split(/\t/, 7)` gives at most 7 fields which joined with tabs give the row back |
| RubyStrings.SplitNFields | lib/enju_access/cgi_accessor.rb:67 | no field of `split(/\t/, 7)` but the last holds a tab, nor the last when fewer than 7 came out |
| RubyStrings.SplitAllJoin | lib/enju_access/cgi_accessor.rb:75 | the pieces between the colons of a word, before `split(':')` drops the trailing empty ones, contain no colon and joined with colons give the word back |
| RubyStrings.DropTrailingEmpty | lib/enju_access/cgi_accessor.rb:66 | Ruby's split without a limit, here of the body into lines and (line 75) of an argument at its colons, drops exactly the trailing empty fields |
| RubyStrings.LinesRoundTrip | lib/enju_access/cgi_accessor.rb:66 | the body is the pieces between its line breaks joined with `\n`; row `k` of `split(/\r?\n/)` is piece `k` without the one `\r` before its break, and the pieces after the last row are empty or a lone `\r` |
| RubyStrings.WordAt | lib/enju_access/cgi_accessor.rb:75 | every word is a slice of the string with whitespace or an end of the string on each side: a maximal run of non-whitespace |
| RubyStrings.WordsKeepNonSpace | lib/enju_access/cgi_accessor.rb:75 | the words of the whitespace `split` concatenate to the string's non-space characters |
| RubyStrings.ToIShowInt | lib/enju_access/cgi_accessor.rb:75 | `to_i` reads back every integer written in decimal |
| EnjuParse.ParseArgWritten | lib/enju_access/cgi_accessor.rb:75 | an argument written as a colon-free role, `:` and its 1-based reference reads back as that role and the 0-based reference |
| EnjuParse.ParseArgBare | lib/enju_access/cgi_accessor.rb:75 | a word without a colon is a role whose missing reference reads as -1 |
| EnjuParse.ParseRow | lib/enju_access/cgi_accessor.rb:67-76 | a row parses exactly when it has a lexical field, and raises on `nil` otherwise; the token gets index `i - 1`, `dat[1]` as its lexical form, `dat[2]` to `dat[5]` as base, pos, cat and type (nil past the row's end), and the arguments read from the words of `dat[6]` exactly when a seventh field exists |
| EnjuParse.Rejection | lib/enju_access/cgi_accessor.rb:58-61 | a response is accepted exactly when the status is 200, no line starts with "Empty line" and the content type is not text/html; otherwise an EnjuError |
| EnjuParse.RootOf | lib/enju_access/cgi_accessor.rb:79 | the root exists exactly when the first row has a first argument |
| EnjuParse.SkipGaps | lib/enju_access/cgi_accessor.rb:84 | the scan index skips exactly the spaces, tabs and newlines before a token |
| EnjuParse.AssignSpans | lib/enju_access/cgi_accessor.rb:82-88 | each token's `beg` follows the previous `end` after gaps only, and `end = beg + lex.length` |
| EnjuParse.SpansOrdered | lib/enju_access/cgi_accessor.rb:82-88 | spans are ordered and do not overlap |
| EnjuParse.RowTokens | lib/enju_access/cgi_accessor.rb:66-77 | row `i` becomes the token with index `i - 1` |
| EnjuParse.ReadRowsAll | lib/enju_access/cgi_accessor.rb:66-77 | reading the rows succeeds exactly when every row parses, and then gives one token per row |
| EnjuParse.ParseRows | lib/enju_access/cgi_accessor.rb:66-77 | the row loop computes the row reading |
| EnjuParse.ReadRowsErrStays | lib/enju_access/cgi_accessor.rb:66-77 | the first failing row decides the error |
| EnjuParse.GetParse | lib/enju_access/cgi_accessor.rb:53-94 | a nil or blank sentence gives no tokens and no root; a rejected response gives its EnjuError; otherwise the root is the first row's first reference and the other rows become dense, spanned tokens |
| EnjuChunks.RunStart | lib/enju_access/cgi_accessor.rb:102-110 | the start of the NC_CAT run that ends at a token |
| EnjuChunks.RunStartUnique | lib/enju_access/cgi_accessor.rb:102-110 | a maximal NC_CAT run has one start |
| EnjuChunks.ScanToken | lib/enju_access/cgi_accessor.rb:102-110 | one step of the scan keeps the scan invariant (closed chunks right, ordered, covering) |
| EnjuChunks.GetBaseNounChunks | lib/enju_access/cgi_accessor.rb:98-118 | `'Strange parse!'` exactly for an open chunk without head at the end; otherwise every chunk is a maximal NC_CAT run with the right head, chunks are ordered, and every NC_CAT token is in a chunk |
| EnjuChunks.GapsCover | lib/enju_access/cgi_accessor.rb:102-115 | every NC_CAT token scanned lies in some chunk |
| EnjuChunks.HeadsIncrease | lib/enju_access/cgi_accessor.rb:102-115 | chunk heads strictly increase |
| EnjuRelations.ArgEdgeSource | lib/enju_access/cgi_accessor.rb:125-127 | an edge added for a token's arguments comes from one argument with a non-negative reference to its end |
| EnjuRelations.ArgEdgeHas | lib/enju_access/cgi_accessor.rb:125-127 | every argument with a non-negative reference adds its edge |
| EnjuRelations.EdgeSource | lib/enju_access/cgi_accessor.rb:123-128 | every edge of the graph comes from an argument of a token that has args |
| EnjuRelations.EdgeHas | lib/enju_access/cgi_accessor.rb:123-128 | every non-negative argument reference of a token gives an edge of the graph |
| EnjuRelations.EdgeIff | lib/enju_access/cgi_accessor.rb:123-128 | the graph's edges are exactly the non-negative argument references of tokens that have args |
| EnjuRelations.BuildGraph | lib/enju_access/cgi_accessor.rb:122-128 | the graph loop builds that edge set |
| EnjuRelations.CandidateRecomposes | lib/enju_access/cgi_accessor.rb:134-136 | `shift`, `pop` and the rest recompose the path |
| EnjuRelations.PairRels | lib/enju_access/cgi_accessor.rb:133-136 | at most one relation per chunk pair |
| EnjuRelations.GetRelations | lib/enju_access/cgi_accessor.rb:121-139 | the loop over `combination(2)` yields the relations of all pairs in combination order |
| EnjuRelations.RelateRow | lib/enju_access/cgi_accessor.rb:132-137 | the pairs of one chunk with each later chunk append that row's relations, in order |
| EnjuRelations.AllRelsRow | lib/enju_access/cgi_accessor.rb:132-137 | every relation of the `combination(2)` loop comes from the row of one earlier chunk |
| EnjuRelations.RelationsSound | lib/enju_access/cgi_accessor.rb:132-136 | each relation joins the heads of a chunk pair in order, its inner path avoids every head, and it is that pair's shortest path |
| EnjuRelations.RelationsComplete | lib/enju_access/cgi_accessor.rb:132-136 | every pair whose inner shortest path avoids the heads gives a relation |
| EnjuFocus.FirstWh | lib/enju_access/cgi_accessor.rb:149 | the first token whose category is WP or WDT |
| EnjuFocus.FirstWithSubject | lib/enju_access/cgi_accessor.rb:155 | the first relation with the wh-token as subject |
| EnjuFocus.DeleteAllCounts | lib/enju_access/cgi_accessor.rb:161 | `delete` removes every copy of the given relation and keeps every other relation as many times as it occurs |
| EnjuFocus.DeleteAllAppend | lib/enju_access/cgi_accessor.rb:161 | deleting from a concatenation deletes from each part, so the relations kept stay in their order |
| EnjuFocus.FocusOf | lib/enju_access/cgi_accessor.rb:146-173 | get_focus keeps the chunk list or drops its first chunk, keeps only relations it was given, and changes a list only when it finds a focus |
| EnjuFocus.Analysis.GetFocus | lib/enju_access/cgi_accessor.rb:146-173 | the focus decision tree and its apposition rewrite of the chunk and relation lists, equal to `FocusOf` of the lists it started with |
| EnjuFocus.KeptChunks | lib/enju_access/cgi_accessor.rb:159 | the chunks left after the rewrite are still right and ordered |
| EnjuFocus.KeptRelations | lib/enju_access/cgi_accessor.rb:159-161 | the relations left after the rewrite are still relations between heads |
| EnjuFocus.Parse | lib/enju_access/cgi_accessor.rb:35-48 | a nil or blank sentence gives no tokens, no root, focus 0 and no chunks or relations; get_parse's error when it fails; 'Strange parse!' for a headless chunk at the end; otherwise get_focus's outcome on the parsed tokens, their noun chunks and the relations between the heads, with get_parse's root; on success the tokens are dense, the chunks right and ordered and every relation fits them |
| LodqaAnswers.GsubFromNoLineStart | lib/lodqa/one_by_one_executor.rb:182 | away from a line start, `gsub(/^i/, '')` changes nothing |
| LodqaAnswers.GsubOneLine | lib/lodqa/one_by_one_executor.rb:182 | on one line, `gsub(/^i/, '')` drops exactly one leading `i` |
| LodqaAnswers.FocusVariable | lib/lodqa/one_by_one_executor.rb:182 | a variable selects the focus exactly when it is `i` + focus, or the focus itself not starting with `i` |
| LodqaAnswers.FocusUrisExact | lib/lodqa/one_by_one_executor.rb:180-183 | the answer URIs of a solution are exactly the values bound to an instance of the focus |
| LodqaAnswers.Insert | lib/lodqa/one_by_one_executor.rb:237 | inserting keeps every entry |
| LodqaAnswers.InsertByScore | lib/lodqa/one_by_one_executor.rb:237 | inserting into a sorted list keeps it sorted by descending score, then descending priority |
| LodqaAnswers.SortByScore | lib/lodqa/one_by_one_executor.rb:237 | `sort_by` gives a permutation sorted by descending score, then descending priority |
| LodqaAnswers.FirstImage | lib/lodqa/one_by_one_executor.rb:240 | the first entry whose mime type starts with `image` |
| LodqaAnswers.FirstRendering | lib/lodqa/one_by_one_executor.rb:240 | `first_rendering` is nil exactly when no entry is an image, else the rendering of the first image entry |
| LodqaAnswers.ForwardedUrls | lib/lodqa/one_by_one_executor.rb:232-245 | a list exactly for a 200 reply; then it is the results sorted, with the first image rendering; otherwise nil |
| LodqaAnswers.ShortUrlsCounts | lib/lodqa/one_by_one_executor.rb:211 | the filter keeps each short entry as many times as it occurs and drops every long one |
| LodqaAnswers.ShortUrlsAppend | lib/lodqa/one_by_one_executor.rb:211 | the filter of a concatenation is the concatenation of the filters, so the entries kept stay in order |
| LodqaAnswers.ShortUrlsByScore | lib/lodqa/one_by_one_executor.rb:211 | the length filter keeps the order of the sorted list |
| LodqaAnswers.AnswerUrls | lib/lodqa/one_by_one_executor.rb:203-245 | the answer carries the uri; its label is the first solution's label, or "" when there is no solution or the label is nil; urls exactly for a 200 reply, then sorted by score and holding every short result as often as it occurs and no long one; the first rendering is that of the first image among the sorted results, and always an image entry's |
| LodqaAnswers.SolutionAnswers | lib/lodqa/one_by_one_executor.rb:180-184 | one answer event per focus binding of the solution |
| LodqaAnswers.SolutionAnswersBind | lib/lodqa/one_by_one_executor.rb:180-184 | every answer event of a solution is an answer for one of its focus bindings |
| LodqaAnswers.AnswerEventsBind | lib/lodqa/one_by_one_executor.rb:180-184 | every answer event of a result comes from one of its solutions |
| LodqaAnswers.CallbackShape | lib/lodqa/one_by_one_executor.rb:171-197 | success gives `solutions` then the answers; a timeout gives empty `solutions` with the timeout error; a temporary error gives empty `solutions` with its error message; any other error gives nothing |
| LodqaDispatch.StopFrom | lib/lodqa/one_by_one_executor.rb:91-94 | the run stops at the first check that sees the cancel flag |
| LodqaDispatch.DispatchOnce | lib/lodqa/one_by_one_executor.rb:111-113 | no SPARQL text is sent twice; `known_sparql` is exactly the texts sent; each query sent comes from a candidate checked |
| LodqaDispatch.CallbackSparqls | lib/lodqa/one_by_one_executor.rb:169-201 | the callback emits no `sparql` event |
| LodqaDispatch.DispatchNumbers | lib/lodqa/one_by_one_executor.rb:115-121 | the `sparql` events carry the texts sent, numbered one more than the last |
| LodqaDispatch.NumberedIndex | lib/lodqa/one_by_one_executor.rb:115-121 | the `k`-th query sent gets the number `n0 + k + 1` |
| LodqaDispatch.RunSparqls | lib/lodqa/one_by_one_executor.rb:111-121 | over a run, the `sparql` events are the distinct texts sent, numbered `n0 + 1, n0 + 2, …` |
| LodqaDispatch.TallyTotal | lib/lodqa/one_by_one_executor.rb:132-138 | each queue entry `[e, result]` holds the error or the result, so the drain's `error + success` is the number of queries sent, and `success` counts the successes |
| LodqaDispatch.RunStats | lib/lodqa/one_by_one_executor.rb:140-152 | stats are given exactly when a query was sent, with the right tallies; a cancelled run ends at a check that saw the flag |
| LodqaDispatch.PollAt | lib/lodqa/one_by_one_executor.rb:90-109 | each anchored pgp's checks come in a block: its own check, then one per candidate in order, at the positions after the earlier pgps' blocks |
| LodqaDispatch.PollStep | lib/lodqa/one_by_one_executor.rb:111-113 | passing a check adds a new text to the known set and sends it, and changes nothing for a known text |
| LodqaDispatch.LogStep | lib/lodqa/one_by_one_executor.rb:115-127 | sending one more query appends its `sparql`, callback and `query_sparql` events |
| LodqaDispatch.RunAfter | lib/lodqa/one_by_one_executor.rb:90-130 | when the walk stops at a check, the run's events, queries sent and end are those of the checks before it |
| LodqaExecutor.CallsForAppend | lib/lodqa/one_by_one_executor.rb:58-60 | the handler calls of two event runs are those of each, in order |
| LodqaExecutor.ExtendsChain | lib/lodqa/one_by_one_executor.rb:58-60 | emitting two runs of events in turn emits their concatenation |
| LodqaExecutor.WalkedSkip | lib/lodqa/one_by_one_executor.rb:91-94 | passing an anchored pgp's check or a known text moves the walk on without sending |
| LodqaExecutor.WalkedSend | lib/lodqa/one_by_one_executor.rb:111-128 | passing a new text sends it, makes it known, queues its entry and counts it |
| LodqaExecutor.OneByOneExecutor.constructor | lib/lodqa/one_by_one_executor.rb:42-45 | no handlers, `@sparql_count` 0, nothing emitted |
| LodqaExecutor.OneByOneExecutor.On | lib/lodqa/one_by_one_executor.rb:49-55 | each name gets the block appended once per time it is given; other lists are unchanged |
| LodqaExecutor.OneByOneExecutor.RegisterOne | lib/lodqa/one_by_one_executor.rb:52-53 | one name: a missing list is created empty and the block is appended to the name's list |
| LodqaExecutor.RegisterStep | lib/lodqa/one_by_one_executor.rb:51-54 | one more name keeps the registration invariant: the lists are the old ones plus the block once per occurrence so far |
| LodqaExecutor.OccurrencesIff | lib/lodqa/one_by_one_executor.rb:51-54 | a name occurs among the given names exactly when it is one of them, so exactly the given names gain a list |
| LodqaExecutor.OneByOneExecutor.Emit | lib/lodqa/one_by_one_executor.rb:58-60 | exactly the event's handlers are called, in registration order, and none when there are none |
| LodqaExecutor.OneByOneExecutor.GetLabelOfUrl | lib/lodqa/one_by_one_executor.rb:203-212 | one `answer` event with the URI's answer |
| LodqaExecutor.OneByOneExecutor.AnswerSolution | lib/lodqa/one_by_one_executor.rb:180-184 | the answers of one solution, in binding order |
| LodqaExecutor.OneByOneExecutor.AnswerSolutions | lib/lodqa/one_by_one_executor.rb:180-184 | the answers of every solution, in order |
| LodqaExecutor.OneByOneExecutor.Callback | lib/lodqa/one_by_one_executor.rb:169-201 | emits the outcome's events and returns the one queue entry it pushes |
| LodqaExecutor.OneByOneExecutor.SendQuery | lib/lodqa/one_by_one_executor.rb:115-127 | the counter moves on by one; `sparql`, the callback's events and `query_sparql` are emitted under the new number |
| LodqaExecutor.OneByOneExecutor.Perform | lib/lodqa/one_by_one_executor.rb:62-165 | the run emits exactly `RunEvents`, moves the counter by the number of queries sent and ends as `RunEndOf` says |
| LodqaExecutor.OneByOneExecutor.Open | lib/lodqa/one_by_one_executor.rb:62-74 | `datasets` is emitted; then `pgp` and `mappings` when each was built, or the gateway error of the first failure, and the walk starts exactly when both were built |
| LodqaExecutor.OneByOneExecutor.OpenMappings | lib/lodqa/one_by_one_executor.rb:72-74 | `mappings` is emitted when the mappings were built; otherwise their failure's gateway error, and the run ends there |
| LodqaExecutor.OneByOneExecutor.Finish | lib/lodqa/one_by_one_executor.rb:132-152 | after an uncancelled walk, the drain's tallies give the stats, present exactly when a query was sent |
| LodqaExecutor.OneByOneExecutor.WalkAnchored | lib/lodqa/one_by_one_executor.rb:90-130 | the walk stops at the first check that sees the cancel flag or after every check, having sent each new text once under the next number |
| LodqaExecutor.OneByOneExecutor.VisitAnchored | lib/lodqa/one_by_one_executor.rb:91-94 | the check before an anchored pgp ends the walk or is passed |
| LodqaExecutor.OneByOneExecutor.WalkAnchoredPgp | lib/lodqa/one_by_one_executor.rb:90-129 | one anchored pgp: its check, then its candidates' checks in order |
| LodqaExecutor.OneByOneExecutor.VisitCandidate | lib/lodqa/one_by_one_executor.rb:106-128 | a candidate's check ends the walk, skips a known text, or sends a new one |
| LodqaExecutor.OneByOneExecutor.SendCandidate | lib/lodqa/one_by_one_executor.rb:113-128 | a new text becomes known, is sent under the next number with its events logged, and its queue entry is kept |
| LodqaExecutor.OneByOneExecutor.Drain | lib/lodqa/one_by_one_executor.rb:132-138 | popping `count` entries, where `count` went up by one per query sent, counts the errors and the successes of the queries sent |
| LodqaExecutor.OneByOneExecutor.Gateway | lib/lodqa/one_by_one_executor.rb:153-165 | a parser failure emits the enju gateway error, a dictionary failure the lookup one, any other failure nothing |
| Subscribable.ArrayJsonLength | app/models/concerns/search/subscribable.rb:41 | the array's text is its brackets, its elements and a comma between each two |
| Subscribable.ChunkCount | app/models/concerns/search/subscribable.rb:46 | the least number of 500 000-character chunks that hold the text |
| Subscribable.EachSliceShape | app/models/concerns/search/subscribable.rb:48 | `each_slice` gives back the list in order in non-empty slices of the size, the last possibly shorter, ceil(n / size) of them |
| Subscribable.DivideIntoSize | app/models/concerns/search/subscribable.rb:38-49 | no events give no slices; a text within the limit gives one slice; the only error is the invalid slice size |
| Subscribable.Split | app/models/concerns/search/subscribable.rb:32-35 | one transmission per slice, in order, and the error when dividing fails |
| Subscribable.DivideShape | app/models/concerns/search/subscribable.rb:44-48 | the slices give back the events; none is empty; all but the last hold `chunk_size` events; there are at least `number_of_chunk` of them |
| Subscribable.DivideFails | app/models/concerns/search/subscribable.rb:46-48 | dividing fails exactly when the text is over the limit and there are fewer events than chunks |
| Subscribable.OversizedEventFails | app/models/concerns/search/subscribable.rb:44-48 | a single event whose own text fills a transmission makes `split` fail |
| Subscribable.SplitRoundTrip | app/models/concerns/search/subscribable.rb:32-35 | the transmissions' events, in order, are the events given |

## Left out

- HTTP and network I/O are parameters, not modelled. This covers the Enju server, the SPARQL endpoint, the label query and the URL-forwarding service. So are logging, `Time.now`, the `duration` and the float `error_rate` of the stats.
- `PGPFactory`, `Term::Finder`, `AnchoredPgps`, `GraphFinder` and `Graph#shortest_path` are not part of this model. Their outputs are inputs (`Env`, `sp`).
- The queue's thread handoff and the asynchrony of `query_async` are not modelled. The callback runs synchronously between a query's `sparql` and `query_sparql` events; the queue is a sequence the walk appends to.
- JSON parsing of the forwarding service's body and the serialisation of one event are inputs.
- `to_h` on a solution keeps one value per variable name; the model keeps the bindings as a list and does not merge duplicate names.
- LodqaAnswers.SortByScore: Ruby's `sort_by` is not stable; the model sorts stably, which is one of the orders Ruby may give.
- LodqaAnswers.ForwardedUrls: `matching_score` and `priority` are integers in the model; floating-point scores are not modelled.
- Exceptions raised inside the walk are not modelled, for example an endpoint error from GraphFinder. Only failures to build the pgp or the mappings are.
- `on`'s guard `return unless events.is_a? Array` can never fire for a splat argument, so it is not modelled.
- The `cancel_flag` accessor is modelled as the value of the flag at each successive check (`Env.cancelAt`).
- RubyStrings.ToI: Ruby's `to_i` also reads an underscore between two digits (`"1_2".to_i` is 12); the model stops at the underscore. Enju's argument references are plain decimal numbers.
- `Graph#shortest_path` is assumed to return a path for every pair of heads (`ShortestPathContract`); a pair of heads with no path between them is outside the model.
- Subscribable.ChunkCount: `fdiv(...).ceil` is computed exactly in integers. It agrees with floating point for sizes below 2^53.
- `subscribe`, `subsribe_serach_if_running` and `notify_existing_events_to` do database and HTTP delivery, and are not modelled.
