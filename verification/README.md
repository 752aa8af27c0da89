# Knowledge search worker: a verified model

The worker is a gRPC service in front of Elasticsearch. This project models the parts of it
that decide something, and proves what they guarantee as a whole:

- **Rank fusion.** `Fusion.dfy` says what the fused result of two ranked lists is, document by
  document; `FuseRrf.dfy` is the algorithm (mutable aggregates in a map, two passes, a read-out in
  arbitrary order, a sort in place), proved to compute it; `FusedAnswer.dfy` describes the result a
  second time, by positions in the lists, and shows that nothing else fits; `FusionLaws.dfy` has the
  theorems about the result; `SemanticSearch.dfy` adds failing retrievers, the degraded flag and the cut to top-K.
- **Versioned indices and the alias.** `Cluster.dfy` has the cluster as a value, the effect of each
  request, and the names of the versioned indices. `Workers.dfy` is a step machine: any number of
  workers, each moving by one request, with failures, lost replies and crashes as part of the
  events. `AliasSafety.dfy`, `Recovery.dfy`, `StoredDocuments.dfy` and `Readiness.dfy` prove what
  holds over all runs. `Delivery.dfy` says what can happen to a request, here and in the admin store.
- **Bulk upsert, delete and status.** `KnowledgeStore.dfy` has the store's own methods in their own
  order, proved to do what the step machine does request by request. `BulkBody.dfy` frames and reads
  back request bodies, `BulkReply.dfy` counts replies.
- **Admin store and paging.** `AdminStore.dfy` relates the flat `type:entity` index to a store keyed
  by both parts; `ListPaging.dfy` and `AutocompletePaging.dfy` follow the two paging contracts to the
  end of the result.

`Text.dfy` has the string and number functions of the Go library that these use, `Sets.dfy` and
`Wrappers.dfy` small shared definitions.

`dafny verify dfyconfig.toml` checks everything.

## What the code does that its comments do not say

- The alias is moved, and older indices are deleted, before a document is written
  (`internal/search/knowledge.go:287` comes before line 327). The comments promise that a re-embed
  happens without interruption. `Recovery.RebuildInterruptsReaders` is a call in which readers lose
  everything until it sends documents, `Recovery.FailedRebuildLeavesNothing` one that fails and
  leaves them with nothing. `Recovery.ContentKeptExactlyWhenPresent` says, for every call, what is
  left to read and exactly when nothing is lost.
- Workers of different configurations can delete each other's live index. The alias is never lost
  exactly when all workers share one index name (`AliasSafety.AliasIsSafeExactlyForOneName`).
- `Degraded` depends on which retrievers were asked and answered, not on whether a list is empty;
  when none was asked the result is empty and not degraded.
- A failed clean-up of stale indices fails the upsert, although the comment calls it best-effort.
- `Status` does not compare the active index with the configured index name: the gate is about the
  number of documents and the model (`Readiness.ReadyMeansComplete`), and it can be open on another
  index (`Readiness.GateOpensOnOlderIndex`). `Readiness.GateTellsIndexExactlyForOneName` says exactly
  when an open gate is about the configured one.
- A listing page is judged full after empty ids were dropped from it, so one document with an empty
  id ends the paging early (`ListPaging.ListingCompleteExactlyWhenNoEmptyId`).
- Flat document keys collide when one document type followed by a colon begins another
  (`AdminStore.KeysCollideExactlyWhenTypesOverlap`).

## Assumptions

- Scores are exact reals; the code uses float64.
- The cluster applies each request as a whole. A request is carried out, never arrives, is carried
  out with its reply lost, or is refused; a refusal has an error status other than 404, which the
  cluster keeps for missing names. `_aliases` fails as a whole when the index to add is missing;
  deleting an index drops its alias; a delete of several names with one missing deletes nothing;
  bulk items are judged one by one, and a write to a missing index creates it if the cluster is set
  up to do so. The admin store's cluster is.
- The model tag, the first eight hexadecimal digits of a hash, is a field of the configuration.
- The JSON encoder is a parameter that has an inverse, writes no raw newline (section 7 of
  RFC 8259) and may reject a document.
- A result that is paged through is fixed while it is; its size plus a page fits in a 64-bit
  integer for listings, and in a signed 32-bit integer for autocomplete.

## Model

| member | source | states |
|---|---|---|
| Fusion.BeforeIsStrictTotalOrder | internal/search/knowledge.go:629-637 | the comparator (score descending, bundle index ascending, id ascending) is asymmetric, transitive, and total on hits of different documents |
| Fusion.FusionIsUnique | internal/search/knowledge.go:586-639 | a sequence is the fusion of two lists exactly when it is strictly sorted and holds exactly the hits of the union; there is only one |
| Fusion.FusionExists | internal/search/knowledge.go:617-638 | the hits of any set of documents can be arranged in strict order |
| FuseRrf.Add | internal/search/knowledge.go:601-611 | one list entry finds or makes the aggregate of its id, adds its share to it and sets its rank, and leaves every other aggregate alone |
| FuseRrf.Accumulate | internal/search/knowledge.go:598-615 | after a pass over a list the map of mutable aggregates holds, for each id of the entries seen, the first metadata, the summed shares and the last ranks |
| FuseRrf.ReadOut | internal/search/knowledge.go:617-628 | ranging over the map in any order gives each document's hit exactly once |
| FuseRrf.SortHits | internal/search/knowledge.go:629-637 | sorting in place leaves a permutation in which no later hit comes before an earlier one |
| FuseRrf.FusionIsDeterministic | internal/search/knowledge.go:584-588 | for every read-out order and every correct sort, stable or not, the result is the one fusion, and conversely |
| FuseRrf.FuseRRF | internal/search/knowledge.go:589-639 | the two-pass algorithm over mutable aggregates computes the fusion of its lists, repeated documents included, as `FusedAnswer.IsAnswer` describes it; for lists without repetition each score is 1 / (k + rank) summed over the ranks that are not 0 |
| FusedAnswer.AnswerIsFusion | internal/search/knowledge.go:596-639 | the fused result is the one sequence in which every listed document has a hit, with the weights 1 / (k + position) summed over its positions, its last rank in each list, the metadata of its first position (vector list first), and higher score, then lower bundle index, then the id smaller at its first difference in front |
| FusedAnswer.ScoreFromRanks | internal/search/knowledge.go:606 | for lists without repetition the score of a hit follows from its two ranks |
| FusionLaws.FusedIsOnePerDocument | internal/search/knowledge.go:596-628 | the result has exactly one hit for every document of the union of the lists |
| FusionLaws.FusionConservesMass | internal/search/knowledge.go:606 | the scores of all hits add up to 1 / (k + 1) + ... + 1 / (k + n) for each list of n entries, even with repeated documents |
| FusionLaws.TailIndependence | internal/search/knowledge.go:598-637 | appending any candidate to the end of either list changes neither score, ranks nor relative order of the other hits |
| FusionLaws.RetrieverSymmetry | internal/search/knowledge.go:598-637 | swapping the lists gives the same hits in the same order with ranks exchanged, exactly when the lists agree on the metadata of shared documents |
| FusionLaws.SingleListKeepsOrder | internal/search/knowledge.go:598-637 | with one list only, the result is that list in its own order with ranks 1, 2, ..., exactly when it repeats no document |
| FusionLaws.PromotionNeverDemotes | internal/search/knowledge.go:598-637 | moving a document up in one list lets no new document get ahead of it in the result and does not worsen its position |
| FusionLaws.ConsensusBoundIsExact | internal/search/knowledge.go:606 | for lists of at most n distinct documents, those found by both retrievers always precede those found by one if and only if n <= k + 1 |
| FusionLaws.ConsensusBeyondBound | internal/search/knowledge.go:606 | for every k, two lists of k + 2 candidates in which a hit of one retriever precedes a hit of both |
| SemanticSearch.Search | internal/search/knowledge.go:430-485 | an error only when no retriever succeeded and one failed, kNN's first; hits are the cut of the fusion, as many as asked for (at least 1) or as there are, scored with the constant asked for or 60; BM25 takes part exactly for a text that is not all white space; degraded exactly when one retriever contributed |
| SemanticSearch.SmallerLimitIsPrefix | internal/search/knowledge.go:480-483 | a smaller top-K gives a prefix of what a larger one gives |
| SemanticSearch.DegradedSearchKeepsOrder | internal/search/knowledge.go:463-484 | with one contributing retriever the hits are the head of its own list, in its own order, with ranks 1 to m |
| SemanticSearch.CutKeepsConsensus | internal/search/constants.go:28-33 | with the default constant and 50 candidates, the cut never keeps a hit of one retriever and drops a hit of both |
| Cluster.NameDeterminesSettings | internal/search/knowledge.go:83-87 | the index name determines mapping version, dimension and model tag |
| Cluster.IndexNameSpelledOut | internal/search/constants.go:18-25 | the name character by character, and which names are versioned |
| Cluster.IndexNameIsVersioned | internal/search/constants.go:18-22 | every concrete index carries the versioned prefix and is not the alias |
| Workers.AcceptedAreInDimension | internal/search/knowledge.go:293-307 | what passes the drift guard is the batch read at the positions `GuardedAt` |
| Workers.GuardedAtExactly | internal/search/knowledge.go:293-307 | those positions are, in ascending order, exactly those of vectors whose length is (or is not) the dimension |
| Workers.RunsKeepTidy | internal/search/knowledge.go:174-204 | in every run of workers of any configurations the alias has at most one target, an existing versioned index |
| AliasSafety.AliasSafety | internal/search/knowledge.go:128-231 | for workers of one configuration, in every interleaving with failures and crashes: a resolving alias resolves for good, stays on the common index once there, that index is in no pending deletion, is never dropped and loses documents only to explicit deletes |
| AliasSafety.RacesAreBenign | internal/search/knowledge.go:128-231 | after any run of workers of one configuration, an upsert whose own requests are carried out gets to send its batch within five of them, whatever the others do and whatever happens to their requests: a lost race for the create or a deletion is no failure |
| AliasSafety.TakeoverLosesAlias | internal/search/knowledge.go:206-231 | two workers of different index names and a run that leaves the alias without target |
| AliasSafety.AliasIsSafeExactlyForOneName | internal/search/knowledge.go:128-231 | no run ever loses the alias if and only if all workers share one index name |
| Recovery.DriveIsARun | internal/search/knowledge.go:128-145 | an undisturbed call is one of the runs of the step machine |
| Recovery.SuccessSettles | internal/search/knowledge.go:119-145 | an undisturbed successful call leaves exactly the concrete index, alias on it, its documents and all other indices unchanged, although every 400 on create is ignored |
| Recovery.SettledIsStable | internal/search/knowledge.go:128-145 | on a settled cluster no further call changes anything, however it ends |
| Recovery.CrashRecovery | internal/search/knowledge.go:119-145 | after any run of any workers, stopped anywhere, one undisturbed successful call repairs the cluster and a second one changes nothing |
| Recovery.CallSucceedsExactlyWhen | internal/search/knowledge.go:128-265 | an undisturbed call succeeds if and only if the index is found or gets created, the alias moves, the listing works, and stale indices, if any, are deleted |
| Recovery.ContentKeptExactlyWhenPresent | internal/search/knowledge.go:128-231 | for every call, successful or not: once its alias request is carried out readers see exactly the concrete index's earlier documents, else what they saw before; they lose nothing if and only if the alias does not move or that index held all they could read |
| Recovery.RebuildInterruptsReaders | internal/search/knowledge.go:5-11 | a cluster and a new configuration for which a call whose requests are all carried out leaves readers nothing before it sends documents |
| Recovery.FailedRebuildLeavesNothing | internal/search/knowledge.go:196-202 | the same with the listing failing: the call ends with an error and readers are left with nothing |
| StoredDocuments.IndexedMeansStored | internal/search/knowledge.go:310-353 | the index gains exactly the ids counted as indexed, each with the last document granted for it, and nothing else changes, also when the index is gone by then |
| StoredDocuments.EveryVectorFitsItsIndex | internal/search/knowledge.go:292-316 | under any interleaving of workers of any configurations every vector in a versioned index has the dimension in the index's name, whatever foreign indices hold |
| Readiness.ReadyMeansExactCount | internal/search/knowledge.go:655-698 | with batches drawn from any catalog, and with the cluster moving on between the two requests, the gate is open if and only if the active index holds exactly the expected number of documents and the model agrees; it then holds the whole catalog exactly when the catalog has that size |
| Readiness.ReadyMeansComplete | internal/search/knowledge.go:655-698 | with a catalog of the expected size the gate is open if and only if the active index holds exactly the catalog and the model agrees |
| Readiness.CompleteUpsertOpensGate | internal/search/knowledge.go:281-366 | after any run of any workers one undisturbed, fully granted upsert of the whole catalog leaves the alias on the concrete index, and the gate open exactly when the catalog has the expected size |
| Readiness.GateOpensOnOlderIndex | internal/search/knowledge.go:672-693 | any older index with the expected number of documents of the configured model opens the gate of a configuration with another index name |
| Readiness.GateTellsIndexExactlyForOneName | internal/search/knowledge.go:655-698 | from an alias on the configured index or none, an open gate is always about the configured index if and only if all workers share its name or no count is the expected one |
| BulkBody.BodySnoc | internal/search/knowledge.go:313-325 | one more action and document line read back as one more item |
| BulkBody.WriteBody | internal/search/knowledge.go:312-325 | the buffer exists unless a document cannot be encoded, and reads back as exactly the documents, in order, each under its own id and the one index |
| BulkReply.CountReply | internal/search/knowledge.go:351-365 | for every reply the entries with a status from 200 to 299 count as indexed and each other one as a failure with an error; for one verdict per item the counts and errors are those verdicts in order |
| BulkReply.CountsByStatus | internal/search/knowledge.go:353-362 | the indexed are as many as there are statuses from 200 to 299; the errors are, in order, the id and reason at exactly the other positions |
| BulkReply.RefusedAtExactly | internal/search/knowledge.go:353 | those positions, ascending, are exactly the ones with a status outside 200 to 299 |
| BulkReply.CountsAccountForAll | internal/search/knowledge.go:351-364 | with one verdict per sent document the errors name the refused ones in order, and every document is indexed or refused once |
| KnowledgeStore.GuardSplitsBatch | internal/search/knowledge.go:292-307 | accepted and drifted documents together are the batch |
| KnowledgeStore.UpsertAccountsForAll | internal/search/knowledge.go:281-365 | indexed plus failed is the batch size, and the errors name the drifted documents and then the refused ones, positions counting among the accepted |
| KnowledgeStore.UpsertReports | internal/search/knowledge.go:292-362 | the errors one by one: knowledge id and drift message of each document of another dimension, then knowledge id and reason of each document sent and answered with a status outside 200 to 299; the rest is counted as indexed |
| KnowledgeStore.KnowledgeStore.DropStaleIndices | internal/search/knowledge.go:207-231 | does what the worker does from listing on |
| KnowledgeStore.KnowledgeStore.RepointAlias | internal/search/knowledge.go:176-204 | does what the worker does from moving the alias on, and fails when the clean-up fails |
| KnowledgeStore.KnowledgeStore.ListVersionedIndices | internal/search/knowledge.go:234-265 | the versioned indices, none on 404, an error on any other error status |
| KnowledgeStore.KnowledgeStore.EnsureIndexAndAlias | internal/search/knowledge.go:128-145 | the cluster ends as after the undisturbed worker's requests; success exactly when it gets to sending |
| KnowledgeStore.KnowledgeStore.Partition | internal/search/knowledge.go:292-307 | splits the batch at the guard and reports the id and the drift message of each document held back |
| KnowledgeStore.KnowledgeStore.BulkUpsertKnowledge | internal/search/knowledge.go:281-366 | nothing for an empty batch; otherwise the cluster ends as after the worker's requests, through the framed body, with the counts and errors of the drift guard and of the statuses |
| KnowledgeStore.KnowledgeStore.DeleteKnowledge | internal/search/knowledge.go:370-387 | success exactly when the request is carried out and the alias has at most one target, so missing documents and a missing alias are successes; afterwards the document is not in the active index |
| KnowledgeStore.KnowledgeStore.AliasTarget | internal/search/knowledge.go:702-732 | the greatest name among the targets, whatever the iteration order, or none |
| KnowledgeStore.KnowledgeStore.Status | internal/search/knowledge.go:664-699 | ready exactly when there is an active index whose document count equals the expected one and whose model, if any, is the configured one; degraded otherwise; an error message exactly without an alias or with another model; no error for a missing alias |
| AdminStore.EnrichmentOnlyFillsEmail | internal/search/store.go:68-87 | enrichment changes only an empty email, from the title first and then the search text, and is idempotent |
| AdminStore.KeysCollideExactlyWhenTypesOverlap | internal/search/store.go:41-43 | two documents share a flat key if and only if one type with a colon begins the other |
| AdminStore.FlatRefinesKeyedExactlyWhenSeparable | internal/search/store.go:89-213 | every sequence of upserts and deletes over given types agrees with a store keyed by type and id if and only if no type overlaps another |
| AdminStore.ColonFreeTypesAreSeparable | internal/search/store.go:41-43 | types without a colon never overlap |
| AdminStore.FlatComposes | internal/search/store.go:89-213 | calls made one after the other add up to one run |
| AdminStore.ItemsArePuts | internal/search/store.go:135-152 | a bulk request writes what its granted documents would write one by one |
| AdminStore.GrantedPutsHold | internal/search/store.go:135-152 | that is, under each key the last document with a status from 200 to 299, enriched, and under all other keys what was there before |
| AdminStore.CountsReport | internal/search/store.go:177-195 | the errors are, in order, the entity id and reason of exactly the documents with a status outside 200 to 299 |
| AdminStore.Store.EnsureIndex | internal/search/store.go:45-66 | success exactly when the index is found or the create passes, as every 400 on it does; the index is there afterwards exactly when it was before or its create was carried out |
| AdminStore.Store.Upsert | internal/search/store.go:89-114 | success exactly when the index is ensured, the document encodes and the write is carried out; the store then holds the enriched document under type, colon and entity id, and is unchanged unless the write was carried out |
| AdminStore.Store.BulkUpsert | internal/search/store.go:127-197 | success exactly when the index is ensured, every document encodes and the request is carried out; it writes the last granted document under each key, and reports each other status under the document's own entity id with its reason |
| AdminStore.Store.Delete | internal/search/store.go:199-213 | success exactly when the request is carried out, so a missing key is a success; the key is gone afterwards |
| Text.LessIsFirstDifference | internal/search/knowledge.go:629-637 | a string is less exactly when it has the smaller character at the first difference, or ends there |
| Text.AtoiReadsItoa | internal/search/store.go:306-313 | a printed offset reads back as itself |
| Text.AtoiReadsNumerals | internal/search/store.go:306-313 | exactly the numerals with an optional sign, in base ten and within 64 bits, can be read |
| Text.TrimSpaceTrims | internal/search/store.go:81-87 | trimming cuts white space off both ends and nothing else |
| Text.TrimsToNothingExactlyWhenBlank | internal/search/store.go:224-226 | nothing is left exactly of strings of the listed white-space characters; one printable ASCII character is enough for something to be left |
| Text.PrintableStays | internal/search/store.go:81-87 | a string that begins and ends with printable ASCII is left alone |
| ListPaging.ListEntityIds | internal/search/store.go:295-363 | an error exactly for no type, a cursor that is no number and a negative offset; else the non-empty ids of the window of the requested size or 500, in order, and its end as next cursor if they fill it |
| ListPaging.NextCursor | internal/search/store.go:358-361 | a next cursor means a full page and reads back as the offset after it |
| ListPaging.FollowFrom | internal/search/store.go:306-362 | from any offset the pages give the rest of the result, in floor(n/p) + 1 calls |
| ListPaging.ListingCompleteExactlyWhenNoEmptyId | internal/search/store.go:352-361 | following the cursor returns every non-empty id once, in ascending order, if and only if there is no empty id or one page holds all |
| ListPaging.PagesShowTheStore | internal/search/store.go:295-363 | after any sequence of writes the pages of a type are exactly the ids stored for it |
| AutocompletePaging.StoreAutocomplete | internal/search/store.go:223-293 | an error exactly for a query of white space only; else the window of the requested size if that is from 1 to 100, or 100, and the exact total |
| AutocompletePaging.Autocomplete | internal/server/search_service.go:162-199 | an error exactly for a query of white space only; else that window, has_more exactly if its end is before the total, and next_offset its end in 32 bits |
| AutocompletePaging.PageFacts | internal/server/search_service.go:191-192 | while there is more the page is full and next_offset strictly larger; otherwise the page is the rest |
| AutocompletePaging.BrowsingIsComplete | internal/server/search_service.go:166-198 | following next_offset while has_more shows every hit once, in order, for any requested page size |

## Left out

- Elasticsearch's own retrieval, analysis, mappings, refresh timing, result window and capped totals: retrievers are arbitrary ranked lists and the cluster is the value of `Cluster.dfy`.
- HTTP, JSON decoding of replies, contexts, logging and the client library's own retries: replies are values.
- float64 rounding, and the narrowing of counts to 32 bits in handlers, apart from autocomplete's next_offset.
- The wording of error messages, except the drift message.
- Collision freedom of the model hash: two models may share a tag.
- Strings that are not valid UTF-8.
- Autocomplete scores and highlights, whose maps are keyed by entity id alone, and negative autocomplete offsets.
- `buildRouteParams`, the query bodies, the handlers that only convert messages, authentication, TLS and configuration: single-branch facts.
- BulkReply.CountReply: for a reply item with several entries the order of its errors is left open, as the map order in the code is.
- KnowledgeStore.KnowledgeStore.Status: the reply to the statistics query is a value, so its aggregations are not modelled.
- ListPaging.ListEntityIds: transport errors and the EnsureIndex call before the query, which end the call with an error; the query's result for the type is an input.
- AutocompletePaging.StoreAutocomplete: the same, and the query's sort order, which is part of the input.
- AdminStore.Store.EnsureIndex: the mapping sent with the create request.
