# Palmira: a Dafny model of its retrieval, conversion and protocol code

`dafny verify dfyconfig.toml` checks the whole project.

The model covers these pieces of the search service:

- **The document collector** (`ranking.dfy`, `quotes.dfy`, `exchange.dfy`, `ties.dfy`, `quotebox.dfy`,
  `collection.dfy`, `collector.dfy`, `sections.dfy`, `parallel.dfy`, `progress.dfy`, `pages.dfy`). A collector keeps
  the best `nLimit` hits of a query in a buffer updated in place, and a cut-down abstract of each of them in a second
  store. It works in one pass, or in sections that executor threads search apart and pour into the shared collector
  under a lock. The main results: whatever the schedule, the parallel search ends with the documents and the count of
  one linear pass, and these are the best hits under the comparator; the quotes are the same, too, if one sort makes
  all first copies, and for an arbitrary sort exactly where the abstract is settled (see below); the two stores always
  hold the same documents, so neither of the store's errors can occur; and going through the pages with separate
  requests, each searched in one pass or in parallel, shows the whole ranking.
- **Metadata and documents on the wire** (`metadata.dfy`, `fields.dfy`, `documents.dfy`). What is sent for a tree and
  what is read from a message, kind by kind and number by number; which trees can be sent, which come back in their
  normal form with every number unchanged, which messages come back unchanged, each as an equivalence.
- **The request throttle** (`throttle.dfy`). Every interleaving of submitters and callbacks, load by load.
- **The chunked writer** (`chunked.dfy`). Undone by a parser for the chunked format (section 7.1 of RFC 9112).
- **The quote tree and the text dump** (`quotetree.dfy`, `textdump.dfy`).
- **One-time client creation** (`clientinit.dfy`).

## How to read the model

Objects that the program updates in place are classes with the same fields: the collector's buffer and the blocks of
the quote store are arrays, counters are fields. Their methods are tied to relations on values (`Collected`,
`Blended`, `MergedInto`, `IsCut`), and lemmas about these relations say what they promise. Threads are steps of a
state machine; a run is a sequence of states from an initial one.

Growing documents and quotes are trees that are changed in place. A reference into such a tree is a path of child
numbers: it stays good because children are only ever added at the end.

A position pointer of a quote is `Foreign`, with the cells it points to, or `Own`, with two indices into the arena of
its block.

Assumptions:

- Weights are real numbers: totally ordered, no NaN.
- A query is a list of hits with strictly ascending ids between 1 and 2^32 - 2, all below `LastIndex()`.
  `SearchDoc(n)` yields the least id that is at least `n`, or 2^32 - 1. `Duplicate` restricts the query to a range of
  ids, and may return null when the restriction is empty.
- The comparator orders documents with ids below some `bound` strictly. `WrappedIsStrict` provides this with the bound
  2^31 for every consistent comparator passed to `SetOrder`, and `RangeOrderExactly` shows that 2^31 is the limit for
  the default one: ids that lie further apart compare wrongly when their ranks are equal.
- `nfirst + ncount - 1` is at least 1 and does not wrap.
- A collector serves one `Search`, as its callers do.
- `std::sort` is any sorted permutation. Statements about quotes therefore hold up to the order of entries with the
  same `uMin` and of positions with the same `offset`. In a full set of four entries the order of a tie may also
  decide which positions are stored. An abstract is settled if this cannot happen: fewer than four entries are kept,
  or any two neighbours of a tie, in any sorted order, can be exchanged, because the end of the 128 positions of the
  arena does not fall into the two, or because they look alike there (same limits, weight and leading positions).
  Copies of an abstract agree whatever the sort does if and only if it is settled (`Exchange.CutsAgreeExactly`);
  `Ties.TornExample` is one that is not. A source is settled whenever no tie reaches across the end of the arena
  (`Ties.DeterminedIsSettled`).
- Where the order in which ties leave the sort is one function of the entries, all copies of all sources agree
  (`Exchange.CopiesByAgree`). The class `Abstracts` is such a store (`QuoteBox.StoreSorts`).
- The reader's `AddBlock` of a UTF-8 text is `AddParagraph` of that text.
- Character set converters and the ranker are parameters.
- A zval that a quote tag refers to stays where it is when the zmap that holds it is moved.

Where the program's text and its comments differ, the model follows the program: the comment at
utils/libruseq/sender.cpp:149-151 speaks of 2 seconds, the code raises the limit below 1.5 seconds.

## Model

| member | source | states |
|---|---|---|
| Ranking.TieFollowsIds | src/service/collect-docs.cpp:28-38 | On a tie of ranks the result computed in uint32 agrees with the id order exactly while the difference of the ids is an int32, and is 0 only for equal ids |
| Ranking.SignSurvives | src/service/collect-docs.cpp:28-32 | A non-zero result of the caller's comparator survives the conversion to uint32 and back |
| Ranking.WrappedCmp | src/service/collect-docs.cpp:28-32 | The wrapped comparator puts first what the caller's comparator puts first, and on a tie the smaller id |
| Ranking.WrappedIsStrict | src/service/collect-docs.cpp:24-33 | Every consistent three-way comparator, wrapped, strictly orders all documents with ids below 2^31 |
| Ranking.RangeOrderIs | src/service/collect-docs.cpp:34-38 | The default order: heavier documents first, equal weights in id order |
| Ranking.RangeOrderExactly | src/service/collect-docs.cpp:34-38 | The default comparator is a strict order on all ids below a bound if and only if the bound is at most 2^31 |
| Ranking.FarIdsCycle | src/service/collect-docs.cpp:34-38 | Three documents of equal weight with far-apart ids compare in a cycle |
| Ranking.BestIsUnique | src/service/collect-docs.cpp:259-297 | A set of documents has only one set of k best ones |
| Ranking.BestGrows | src/service/collect-docs.cpp:273-277 | While the buffer is not full, adding the new hit keeps it the best ones of everything seen |
| Ranking.BestReplaces | src/service/collect-docs.cpp:286-292 | In a full buffer, a hit that beats the worst document replaces it and the buffer stays best |
| Ranking.BestStays | src/service/collect-docs.cpp:286-287 | A hit worse than everything in a full buffer leaves it best |
| Ranking.BestOfParts | src/service/collect-docs.cpp:214-254 | The k best of the k best of two disjoint sets are the k best of their union |
| Ranking.SortedIsUnique | src/service/collect-docs.cpp:180-181 | There is only one way to sort a set of documents |
| Ranking.PrefixIsBest | src/service/collect-docs.cpp:174-183 | The first k documents of the full ranking are the k best ones |
| Ranking.BestIsPrefix | src/service/collect-docs.cpp:174-183 | The k best documents, sorted, are the first k of the full ranking |
| Quotes.RescanExactly | src/service/collect-quotes.cpp:88-90 | The scan after a replacement stays where it is if no slot is lighter, and otherwise ends on the first of the lightest slots |
| Quotes.Select | src/service/collect-quotes.cpp:77-91 | Keeps min(n, 4) entries, and `worst` is always a lightest of them |
| Quotes.SelectTakes | src/service/collect-quotes.cpp:77-91 | The selection entry by entry, ties included: a full set gives up its worst entry only for a strictly heavier one; the worst slot is the first of the lightest, or the one just written if none is lighter |
| Quotes.EqualsKeepFirst | src/service/collect-quotes.cpp:77-91 | Of entries that all weigh the same the first four are kept |
| Quotes.ShortIsKept | src/service/collect-quotes.cpp:77-80 | Up to four entries are all kept, in source order |
| Quotes.KeepsHeaviest | src/service/collect-quotes.cpp:66-91 | The kept entries are a sub-multiset of the source, and no dropped entry outweighs the lightest kept one |
| Quotes.DroppedAreLighter | src/service/collect-quotes.cpp:82-91 | No dropped entry outweighs any kept one |
| Quotes.CutIsCompact | src/service/collect-quotes.cpp:50-122 | Whatever is stored has at most 4 entries, 128 positions or 32 terms; a full set is ordered by uMin, positions by offset |
| Quotes.CutShows | src/service/collect-quotes.cpp:50-122 | What a copy shows of its source: as many words; the first 32 BM25 terms; min(n, 4) entries, fewer than four in source order, each with limits, weight and its first positions, sorted, and all of them unless 128 are stored |
| Quotes.CutLength | src/service/collect-quotes.cpp:102-115 | A stored abstract has min(128, all) of the positions of the kept entries |
| Quotes.RoomyPack | src/service/collect-quotes.cpp:102-115 | When all positions fit, every stored entry has exactly the positions of its source |
| Quotes.CutOfCompact | src/service/collect-quotes.cpp:50-122 | Copying a stored abstract again changes nothing but the order of ties |
| Quotes.CopyTwice | src/service/collect-quotes.cpp:50-122 | A copy of a copy is a copy of the original, the same quote up to ties |
| Quotes.RangeSurvives | src/service/collect-docs.cpp:299-314 | The rank of a Rich abstract is the rank of every copy of it |
| Exchange.PairExactly | src/service/collect-quotes.cpp:102-115 | Two entries laid out one after the other are stored the same in either order if and only if the end of the arena does not fall into them or they look alike there |
| Exchange.ExchangeExactly | src/service/collect-quotes.cpp:95-115 | The same for neighbours of a tie within a sorted set: the exchanged order is sorted, too, and stores the same exactly then |
| Exchange.OrdersStoreSame | src/service/collect-quotes.cpp:95-115 | If all neighbours of ties can be exchanged, any two sorted orders store the same |
| Exchange.CutsAgreeExactly | src/service/collect-quotes.cpp:50-122 | All cuts of a source are the same up to ties if and only if it is settled, for every source |
| Exchange.SettledCopiesAgree | src/service/collect-quotes.cpp:50-122 | Copies of a settled source, made any number of times over, are the same up to ties |
| Exchange.LaterCopyBy | src/service/collect-quotes.cpp:50-122 | Copying a copy, with whatever order of ties, keeps it a copy of the first one that one sort made |
| Exchange.CopiesByAgree | src/service/collect-quotes.cpp:50-122 | If one sort makes all first copies, all copies of a source are the same up to ties, settled or not |
| Ties.CutsAgree | src/service/collect-quotes.cpp:95-115 | Two cuts of one source are the same up to ties, unless a tie of a full set reaches across the end of the arena |
| Ties.CutsDiffer | src/service/collect-quotes.cpp:95-115 | If one does, two cuts keep different positions of any tied entry that differs from each other one in limits, weight or first positions |
| Ties.ToldCutsAgreeExactly | src/service/collect-quotes.cpp:95-115 | Where one entry of a crossing tie differs from each other in limits, weight or first positions, settled means that fewer than four entries are kept or that no tie reaches across the end of the arena |
| Ties.DeterminedIsSettled | src/service/collect-quotes.cpp:95-115 | A source in which no tie reaches across the end of the arena is settled |
| Ties.TornExample | src/service/collect-quotes.cpp:95-115 | A source of four entries with two cuts that are different quotes |
| Ties.TwinsAgree | src/service/collect-quotes.cpp:95-115 | Two identical entries are a tie that may reach across the end without any effect |
| Ties.CopiesAgree | src/service/collect-quotes.cpp:50-122 | Copies of one source, made any number of times over, are the same up to ties unless a tie reaches across the end of the arena |
| Ties.SameWithoutTies | src/service/collect-quotes.cpp:98-114 | Without ties, copies that are the same up to ties are identical |
| QuoteBox.SortRange | src/service/collect-quotes.cpp:98-114 | Sorts a range by a key: a permutation, ascending, nothing else touched |
| QuoteBox.Item.CopyAbstract | src/service/collect-quotes.cpp:50-122 | Leaves a cut of the source in the block, with spreads that are consecutive slices of the block's own arena; of equally heavy entries the first four |
| QuoteBox.Item.SelectEntries | src/service/collect-quotes.cpp:77-91 | The slots hold the selected entries: of equally heavy ones the first four |
| QuoteBox.Item.FillSlots | src/service/collect-quotes.cpp:77-80 | After the first loop the slots and the worst pointer are those of the selection so far |
| QuoteBox.Item.ReplaceWorst | src/service/collect-quotes.cpp:86-91 | Overwrites the worst slot; the worst one is then the same if no slot is lighter, else the first of the lightest |
| QuoteBox.Item.SortEntries | src/service/collect-quotes.cpp:95-100 | A full set is ordered by uMin, a short one stays in source order |
| QuoteBox.StoreSorts | src/service/collect-quotes.cpp:95-100 | The order in which the store leaves the entries is one function of the kept entries, and sorted |
| QuoteBox.Item.PackPositions | src/service/collect-quotes.cpp:102-115 | Spreads become consecutive slices of the arena; each holds the sorted prefix of its source that still fits |
| QuoteBox.Item.PackOne | src/service/collect-quotes.cpp:105-114 | The same for one entry, earlier slices unchanged |
| QuoteBox.Item.CopyCells | src/service/collect-quotes.cpp:109-110 | Copies cells until the source or the arena runs out |
| QuoteBox.PackedView | src/service/collect-quotes.cpp:102-115 | A reader of packed slots sees the packed entries |
| QuoteBox.FirstIndex | src/service/collect-quotes.cpp:143-144 | The first item with an id, or none |
| QuoteBox.Abstracts.constructor | src/service/collect-quotes.cpp:126-128 | An empty store with room for the given number of abstracts |
| QuoteBox.Abstracts.Set | src/service/collect-quotes.cpp:139-157 | Replaces the abstract of `oldid`, or adds one; fails exactly when there is neither such an id nor room |
| QuoteBox.Abstracts.Fill | src/service/collect-quotes.cpp:146-147 | Overwrites one item and leaves all others as they are |
| QuoteBox.Abstracts.Get | src/service/collect-quotes.cpp:159-166 | The stored abstract of a document, or nothing |
| Collection.Query.CursorSteps | src/service/collect-docs.cpp:261-265 | The cursor visits the hits one after another and then ends |
| Collection.RatedExactly | src/service/collect-docs.cpp:265-267 | The hits that count are those with a BM25 or a Rich abstract |
| Collection.BoxSize | src/service/collect-docs.cpp:273-291 | A quote box that agrees with the buffer is exactly as full |
| Collection.BoxHasRoom | src/service/collect-quotes.cpp:143-154 | While the buffer has room the box has, and no card is mistaken for a predecessor |
| Collection.BoxHasCard | src/service/collect-docs.cpp:289-289 | Every document in the buffer has a card that can be replaced |
| Collection.NoCardForNobody | src/service/collect-quotes.hpp:18-18 | No stored document has the id 2^32 - 1, the default of `old_id` |
| Collection.FoundFits | src/service/collect-docs.cpp:271-271 | The 32-bit counter of found documents cannot wrap |
| Collection.HitAppended | src/service/collect-docs.cpp:273-277 | Appending a hit and its quote keeps the collected state |
| Collection.HitReplaces | src/service/collect-docs.cpp:287-292 | Replacing the worst document and its quote keeps the collected state |
| Collection.HitDropped | src/service/collect-docs.cpp:286-287 | A hit that does not beat the worst document only counts |
| Collection.PlaceFound | src/service/collect-docs.cpp:232-233 | Where the inner loop stops, everything before precedes the new document and everything from there on follows it |
| Collection.BlendGrows | src/service/collect-docs.cpp:238-251 | Inserting while there is room keeps buffer and box the sorted best of what was merged so far |
| Collection.BlendReplaces | src/service/collect-docs.cpp:245-251 | So does inserting into a full buffer, where the last document and its quote fall out |
| Collection.BlendStops | src/service/collect-docs.cpp:235-236 | At the early break nothing that is left could enter |
| Collection.MergedQuotes | src/service/collect-docs.cpp:240-248 | After a merge every quote is a copy of the abstract the query returned |
| Collection.MergeCollects | src/service/collect-docs.cpp:214-254 | Merging the collected hits of two disjoint sets gives the collected hits of both |
| Collection.MergeIsPrefix | src/service/collect-docs.cpp:218-252 | The merged buffer is the first `nLimit` documents of the sorted union |
| Collection.CollectionsAgree | src/service/collect-docs.cpp:119-166 | Two collections of the same hits have the same documents and count, and the same quotes of all settled abstracts |
| Collection.OneSortAgrees | src/service/collect-docs.cpp:119-166 | If one sort made all first copies, two collections of the same hits have the same quotes of all abstracts |
| Collection.MergedQuotesBy | src/service/collect-docs.cpp:240-248 | A merge, which copies quotes once more, keeps them copies of the first ones |
| Collection.QuotesAgreeExactly | src/service/collect-docs.cpp:240-291 | A document that is held has the same quote in every other collection of the same hits, whatever the sort does, if and only if its abstract is settled |
| Collecting.GetRange | src/service/collect-docs.cpp:299-313 | The rank of a Rich abstract is the weight of a heaviest entry, or 0.0 |
| Collecting.Collector.constructor | src/service/collect-docs.cpp:77-80 | An empty collector with room for `nfirst + ncount - 1` documents |
| Collecting.Collector.FindWorst | src/service/collect-docs.cpp:280-284 | The cached or newly found worst document follows all others |
| Collecting.Collector.StoreAtEnd | src/service/collect-docs.cpp:275-276 | The new contents after an append |
| Collecting.Collector.StoreOver | src/service/collect-docs.cpp:289-291 | The new contents after a replacement; the worst document is forgotten |
| Collecting.Collector.Accept | src/service/collect-docs.cpp:269-293 | One more hit: the collector holds the best of one hit more, with its quotes |
| Collecting.Collector.SearchLinear | src/service/collect-docs.cpp:259-297 | After the pass the collector holds the best of all hits with a BM25 or Rich abstract, their quotes and their number; the result says whether there were any |
| Collecting.Collector.SortBuffer | src/service/collect-docs.cpp:180-181 | The buffer is sorted and holds the same documents |
| Collecting.Collector.PutAt | src/service/collect-docs.cpp:242-251 | The block move and the write: one document inserted, the rest in order, all in bounds |
| Collecting.Collector.SkipBetter | src/service/collect-docs.cpp:232-233 | Skips exactly the documents that precede the new one |
| Collecting.Collector.StoreAt | src/service/collect-docs.cpp:238-244 | Buffer and box after an insertion while there is room |
| Collecting.Collector.StoreAndDropLast | src/service/collect-docs.cpp:245-250 | Buffer and box after an insertion into a full buffer |
| Collecting.Collector.InsertOne | src/service/collect-docs.cpp:225-252 | One pass of the merge loop keeps buffer and box the sorted best, or breaks because nothing more can enter |
| Collecting.Collector.MergeLoop | src/service/collect-docs.cpp:224-252 | After the loop buffer and box are the sorted best of both |
| Collecting.Collector.InsertAll | src/service/collect-docs.cpp:214-254 | The shared collector has taken over the hits, the count and the quotes of the partial one |
| Collecting.Collector.Search | src/service/collect-docs.cpp:119-166 | In either mode, and whatever the order of the merges, the collector holds the best of all hits of the query with a BM25 or Rich abstract |
| Collecting.Collector.SearchParts | src/service/collect-docs.cpp:138-159 | Any order of the sections gives the collected hits of all of them |
| Collecting.Collector.SearchPart | src/service/collect-docs.cpp:148-157 | The work of one executor thread adds the hits of its section |
| Collecting.Collector.Finish | src/service/collect-docs.cpp:168-207 | Reports the number of hits and, if the page is not beyond them, exactly the positions `nFirst` to min(found, `nLimit`) of the ranking, each with its stored abstract |
| Collecting.Collector.LineOf | src/service/collect-docs.cpp:195-203 | A line shows the document, its rank and its stored abstract, which is never missing |
| Collecting.BufferIsPrefix | src/service/collect-docs.cpp:174-183 | The sorted buffer is the beginning of the ranking of everything found |
| Collecting.CollectorsAgree | src/service/collect-docs.cpp:119-166 | Two collectors that saw the same hits, in one pass or in sections, hold the same documents and count, and the same quotes of all abstracts |
| Paging.Request | src/service/collect-docs.cpp:119-207 | One request for a page, in one pass or in parallel: the number found is that of the hits with a BM25 or Rich abstract, and the lines are those positions of their ranking, each with a copy of the abstract of its document |
| Paging.RankedExactly | src/service/collect-docs.cpp:265-276 | The ranking has the document of every hit with a BM25 or Rich abstract, with the rank that the ranker gives it, and of no other hit |
| Paging.Browse | www/search.html:920-931 | Separate requests for the first n pages, with first = 1, count + 1, 2 * count + 1, ...: the lines shown are the beginning of the ranking, without gap or repeat |
| Paging.BrowseAll | www/search.html:920-945 | Going through all pages that the total of the first request offers shows the whole ranking |
| Sections.LoopEndsExactly | src/service/collect-docs.cpp:138-138 | The uint32 loop over the sections ends if and only if `LastIndex()` is at most 0xFFFFC000 |
| Sections.RestrictIsFilter | src/service/collect-docs.cpp:141-141 | A section's query has exactly the hits with ids in the section |
| Sections.Duplicate | src/service/collect-docs.cpp:141-143 | The restricted query, or null when it is empty |
| Sections.Share | src/service/collect-docs.cpp:138-159 | The sub-queries are aligned sections, and laid end to end they are the query |
| Sections.PartsOfHits | src/service/collect-docs.cpp:138-143 | Every rated hit is in exactly one sub-query |
| Parallel.CountInv | src/service/collect-docs.cpp:145-146 | `++nParts` keeps the invariant |
| Parallel.EnqueueInv | src/service/collect-docs.cpp:138-148 | Handing the section over and going on keeps the invariant |
| Parallel.SkipInv | src/service/collect-docs.cpp:141-143 | Passing over a null sub-query keeps the invariant: its section is empty |
| Parallel.PourInv | src/service/collect-docs.cpp:150-151 | The locked merge, or its omission, keeps the invariant: the shared buffer is the sorted best of the merged sections |
| Parallel.CountDownInv | src/service/collect-docs.cpp:155-155 | `--nParts` keeps the invariant: the counter is the number of parts submitted and not finished |
| Parallel.NextInv | src/service/collect-docs.cpp:138-159 | Every step of the submitter and of every thread keeps the invariant |
| Parallel.RunInv | src/service/collect-docs.cpp:119-166 | The invariant holds at every moment of every run |
| Parallel.OverMeansAll | src/service/collect-docs.cpp:138-163 | When submission is over and no part is left, every hit has been merged, once |
| Parallel.ParallelRefinesLinear | src/service/collect-docs.cpp:119-166 | Every finished run has the documents and the count of a linear pass, the quotes of all settled abstracts, and, if one sort makes all first copies, the quotes of all abstracts |
| Parallel.RunQuotesBy | src/service/collect-docs.cpp:138-159 | If one sort makes the copies of the section collectors, every quote in the shared box is a copy of such a copy, at every moment of every run |
| Parallel.ParallelQuotesExactly | src/service/collect-docs.cpp:119-166 | After a finished run the quote of a document is that of every other collection of the hits, whatever the sort does, if and only if its abstract is settled |
| Parallel.SchedulesAgree | src/service/collect-docs.cpp:119-166 | Any two finished runs have the same buffer, element by element, the same count, the same quotes of all settled abstracts, and, if one sort makes all first copies, of all abstracts |
| Exchange.CutExists | src/service/collect-quotes.cpp:50-122 | Every abstract has a copy that fits its block |
| Progress.CollectedExists | src/service/collect-docs.cpp:259-297 | Whatever hits a section has, there is a partial result for them |
| Progress.MergeExists | src/service/collect-docs.cpp:214-254 | Two results for disjoint sets of hits can be merged |
| Progress.FinishedRunExists | src/service/collect-docs.cpp:119-166 | Every query has a run in which submission is over and no part is left, and in which any given sort makes all first copies |
| Metadata.EncodeSucceeds | src/network/grpc/messages.cpp:116-181 | Conversion to a message throws exactly when the tree holds a value of an unknown type or a key that is no string |
| Metadata.EncodeMapSucceeds | src/network/grpc/messages.cpp:185-194 | The same for a zmap |
| Metadata.ReplayExactly | src/network/grpc/messages.cpp:67-112 | A MetaValue comes back unchanged from a zval if and only if it uses only the kinds of values that the encoder writes |
| Metadata.ReplayMapExactly | src/network/grpc/messages.cpp:198-203 | The same for Metadata |
| Fields.DecodeThrowsExactly | src/network/grpc/messages.cpp:67-112 | Reading a MetaValue throws exactly when some value in it, at whatever depth, is not set |
| Fields.DecodeMapThrowsExactly | src/network/grpc/messages.cpp:198-203 | The same for Metadata |
| Fields.DecodeHolds | src/network/grpc/messages.cpp:67-112 | Otherwise every number, string and key of the message is in the zval unchanged, with the width, the sign and the float or double kind of its field, at any depth |
| Fields.DecodeMapHolds | src/network/grpc/messages.cpp:198-203 | The same for Metadata |
| Fields.DecodeIsInjective | src/network/grpc/messages.cpp:67-112 | Different MetaValues never become the same zval |
| Fields.DecodeMapIsInjective | src/network/grpc/messages.cpp:198-203 | The same for Metadata |
| Fields.EncodeSends | src/network/grpc/messages.cpp:116-181 | What is sent for a zval: the kind of every field, every string and key, and every number, equal in 32 bits and unchanged for scalars other than word64; elements of floating-point arrays without their fraction |
| Fields.EncodeMapSends | src/network/grpc/messages.cpp:185-194 | The same for a zmap |
| Metadata.EncodedIsReplayable | src/network/grpc/messages.cpp:116-181 | The encoder writes only such values |
| Metadata.ResendSame | src/network/grpc/messages.cpp:185-203 | What the receiver decodes encodes to the same message again, even where numbers were narrowed |
| Metadata.SurvivesExactly | src/network/grpc/messages.cpp:67-181 | A zval comes back in its normal form if and only if every word64, array_int64, array_word64 and floating-point array element fits the 32-bit type it is sent as, and the tree is convertible |
| Metadata.MapSurvivesExactly | src/network/grpc/messages.cpp:185-203 | The same for a zmap, at any depth |
| Metadata.NormalAgrees | src/network/grpc/messages.cpp:116-181 | The normal form has every number and string of the tree, at any depth |
| Metadata.NormalTwice | src/network/grpc/messages.cpp:67-181 | What is in normal form stays as it is |
| Metadata.NormalEncodes | src/network/grpc/messages.cpp:185-203 | The normal form of a lossless zmap encodes to the same message |
| Metadata.TruncateExactly | src/network/grpc/messages.cpp:165-168 | A floating-point element keeps its value as an int32 exactly when it is a whole number in range |
| Metadata.ConvertZval | src/network/grpc/messages.cpp:116-181 | The converter with its loops computes the encoding |
| Metadata.AddValues | src/network/grpc/messages.cpp:37-51 | The loop over an array yields every converted element in order |
| Metadata.ConvertSigned | src/network/grpc/messages.cpp:149-168 | Arrays of signed and of floating-point numbers go out as arrays of int32, narrowed or truncated element by element |
| Metadata.ConvertUnsigned | src/network/grpc/messages.cpp:151-164 | Arrays of unsigned numbers go out as arrays of uint32, narrowed element by element |
| Metadata.ConvertZmap | src/network/grpc/messages.cpp:185-194 | So does the loop over a zmap, in whatever order the keys come |
| Metadata.ConvertZvals | src/network/grpc/messages.cpp:59-63 | So does the loop over an array of zvals, which stops at the first that throws |
| Metadata.ConvertZmaps | src/network/grpc/messages.cpp:53-57 | So does the loop over an array of zmaps |
| Metadata.ConvertMetaValue | src/network/grpc/messages.cpp:67-112 | The reader with its loops computes the decoding |
| Metadata.ConvertPlainArray | src/network/grpc/messages.cpp:90-105 | So do its loops over arrays of numbers and strings |
| Metadata.ConvertMeta | src/network/grpc/messages.cpp:198-203 | So does the loop over Metadata, in whatever order the keys come |
| Documents.GrowChild | src/network/grpc/messages.cpp:216-221 | What is added through the reference to a new tag ends up in that tag, and nowhere else |
| Documents.GrowTwice | src/network/grpc/messages.cpp:222-244 | Adding in two steps through one reference is adding in one |
| Documents.ToUtf8Keeps | src/network/grpc/messages.cpp:222-244 | Read as UTF-8 the converted text has the characters of the paragraph, wide, legacy or UTF-8, under every reading for which the converters are right; unknown encodings are refused |
| Documents.KeptMakesSameCalls | src/network/grpc/messages.cpp:256-271 | Of an incomplete document the reader keeps a complete one with the same texts and tags, in the same order and nesting |
| Documents.KeptExactly | src/network/grpc/messages.cpp:256-271 | The reader keeps a document as it is if and only if every element, at any depth, is a text or a tag with items |
| Documents.Writer.AddMarkupTag | src/network/grpc/messages.cpp:216-221 | Adds a tag with empty items and yields the reference to them; complete documents stay complete |
| Documents.Writer.AddParagraph | src/network/grpc/messages.cpp:222-244 | Adds a text that reads, as UTF-8, as the characters of the paragraph; throws exactly for unknown encodings and then changes nothing |
| Documents.Writer.Replay | src/network/grpc/messages.cpp:256-271 | Appends what the reader keeps of a message at the given place |
| Documents.ReplayFresh | src/network/grpc/messages.cpp:247-271 | A message read back into a fresh text is the message if and only if it is complete; in any case it has the same texts and tags |
| Throttle.ReplayInRange | utils/libruseq/sender.cpp:130-131 | No sequence of adjustments leaves 4..100 |
| Throttle.SubmitterKeeps | utils/libruseq/sender.cpp:173-201 | Locking, the two loads of the comparison, waiting, giving up, counting and unlocking keep the invariant |
| Throttle.InsertKeeps | utils/libruseq/sender.cpp:180-180 | A request sent by an admitted submitter keeps at most 100 in flight |
| Throttle.CountOutKeeps | utils/libruseq/sender.cpp:182-182 | A callback counting out keeps the invariant, even before its request was counted in |
| Throttle.AdjustKeeps | utils/libruseq/sender.cpp:152-169 | Loading the limit and every attempt to exchange it keep the invariant |
| Throttle.NextKeeps | utils/libruseq/sender.cpp:124-201 | Every step of every thread keeps the invariant |
| Throttle.ThrottleHolds | utils/libruseq/sender.cpp:124-201 | In every run the limit stays in 4..100, at most 100 requests are in flight, and `processing` is their number, one less exactly between `Insert` and `++processing` |
| Throttle.LimitHolds | utils/libruseq/sender.cpp:173-201 | As long as the limit has never been above some bound, no more requests than that are in flight |
| Throttle.AdmittedExactly | utils/libruseq/sender.cpp:176-176 | A submitter is admitted exactly if the number of requests it loaded is below the limit it loaded, in either order; else it waits and the mutex is free |
| Throttle.OnlyExchangesMove | utils/libruseq/sender.cpp:124-171 | Nothing but an exchange by a callback changes the limit |
| Throttle.AnswerTries | utils/libruseq/sender.cpp:150-169 | The callback of a timeout, of an answer slower than 3.0 or of one quicker than 1.5 tries to exchange the limit, that of any other answer does not |
| Throttle.AnswerMovesLimit | utils/libruseq/sender.cpp:130-167 | An exchange lowers the limit by one after a timeout or a slow answer, down to 4, and raises it by one after a quick one, up to 100; a failed attempt leaves it and is repeated |
| Throttle.NoLostUpdate | utils/libruseq/sender.cpp:34-167 | The limit is 20 at first and then the result of the successful exchanges one after another, at most one per finished callback |
| Chunked.HexRoundTrip | utils/libruseq/chunked-client.cpp:32-32 | A chunk size printed with %X reads back; it has upper-case digits and no leading zero |
| Chunked.FullChunkHeader | utils/libruseq/chunked-client.cpp:94-96 | The constant header is the size of a full buffer |
| Chunked.ChunkShape | utils/libruseq/chunked-client.cpp:32-48 | A chunk is its size in hexadecimal digits, the data, and a line end behind each of them |
| Chunked.ChunkParses | utils/libruseq/chunked-client.cpp:96-106 | The parser takes one chunk, whatever follows |
| Chunked.WireFills | utils/libruseq/chunked-client.cpp:87-111 | Filling the buffer puts it on the wire as one more chunk |
| Chunked.WireParses | utils/libruseq/chunked-client.cpp:79-115 | The parser recovers all data that has left the buffer and goes on behind it |
| Chunked.WrittenIsRecovered | utils/libruseq/chunked-client.cpp:79-115 | The parsed wire and the buffer together are exactly the data written |
| Chunked.FlushedIsRecovered | utils/libruseq/chunked-client.cpp:29-50 | After a flush the parser has all data and stops at one extra CRLF, whatever is written behind it |
| Chunked.ChunkedStream.Send | utils/libruseq/chunked-client.cpp:124-127 | A socket that takes any part of what it is offered, or fails |
| Chunked.ChunkedStream.PutAll | utils/libruseq/chunked-client.cpp:117-130 | All bytes are sent, or the send failed after a proper part of them |
| Chunked.ChunkedStream.SendBuffer | utils/libruseq/chunked-client.cpp:96-110 | Header, buffer and line end are sent, or the socket is closed after a proper prefix of them |
| Chunked.ChunkedStream.Put | utils/libruseq/chunked-client.cpp:79-115 | Wire and buffer are those of all data so far; on failure the socket is closed and the wire is a prefix of what it would have been |
| Chunked.ChunkedStream.FlushBuffer | utils/libruseq/chunked-client.cpp:28-50 | Sends the buffer as a chunk of its own and an extra CRLF; the parser then has all data |
| Chunked.PutEach | utils/libruseq/chunked-client.cpp:79-115 | Wire and buffer depend only on the concatenated data, not on how it was split into writes or taken by the socket |
| QuoteTree.KidsRoundTrip | src/objects/doc-zmap.cpp:52-86 | A stored list of children reads back |
| QuoteTree.EncodingIsInjective | src/objects/doc-zmap.cpp:52-86 | Different trees are stored differently |
| QuoteTree.KidsAreCollapsed | src/objects/doc-zmap.cpp:57-84 | A stored list of children holds no array of fewer than two items, at any depth; a single child is stored as itself |
| QuoteTree.KidsMarks | src/objects/doc-zmap.cpp:52-86 | Reading the stored strings and tags in order gives the calls that describe the tree |
| QuoteTree.PushStores | src/objects/doc-zmap.cpp:57-84 | A push through any reference turns the stored tree into the stored form of the tree with one node more |
| QuoteTree.GrowChild | src/objects/doc-zmap.cpp:54-66 | What is added through the reference to a new tag ends up in that tag |
| QuoteTree.Quote.PushValue | src/objects/doc-zmap.cpp:57-101 | The array is the stored form of the tree after the call |
| QuoteTree.Quote.AddMarkupTag | src/objects/doc-zmap.cpp:52-95 | Adds a tag without children and yields the reference to its value |
| QuoteTree.Quote.AddParagraph | src/objects/doc-zmap.cpp:70-101 | Adds a paragraph |
| QuoteTree.Quote.Emit | src/objects/doc-zmap.cpp:52-101 | The depth-first calls for any forest add exactly that forest |
| QuoteTree.Quote.OutputIsCollapsed | src/objects/doc-zmap.cpp:57-84 | Whatever was called, no array inside a tag has fewer than two items |
| QuoteTree.BuildAndRead | src/objects/doc-zmap.cpp:52-101 | What the calls for a forest build reads back as the forest, shows these calls, and is collapsed |
| TextDump.Text.Serialize | src/objects/doc-zmap.cpp:105-137 | Every line with its text and encoding, every span with its tag under "f", its lower end under "l" and its upper end under "h"; an empty list leaves what was there |
| TextDump.Text.FetchFrom | src/objects/doc-zmap.cpp:139-173 | Appends the lines before the first bad one, and throws exactly if there is one; else appends the spans, too, with the ends from "l" and "h" |
| TextDump.BlocksBack | src/objects/doc-zmap.cpp:114-160 | Dumped lines are readable and read back with their encodings |
| TextDump.DumpAndLoad | src/objects/doc-zmap.cpp:105-173 | A text comes back from its dump into a zmap if and only if no old entry takes the place of an empty list |
| ClientInit.SpinKeeps | src/network/http/client.cpp:339-344 | Loading, leaving the loop and every attempt to exchange keep the invariant |
| ClientInit.WinnerKeeps | src/network/http/client.cpp:346-347 | Creating and storing the client keep the invariant |
| ClientInit.RunInv | src/network/http/client.cpp:337-347 | The invariant holds at every moment of every run |
| ClientInit.OneClient | src/network/http/client.cpp:337-354 | At most one client is ever created and every thread leaves with that one |
| ClientInit.SpinnerIsServed | src/network/http/client.cpp:342-344 | While a thread must spin, the pointer is ready for it or another thread is about to store it |
| ClientInit.FirstExchangeWins | src/network/http/client.cpp:342-344 | The first thread that attempts the exchange wins it |
| ClientInit.SpinnerLeaves | src/network/http/client.cpp:342-354 | Once the client is stored, a spinning thread needs one more attempt and leaves with it |

## Left out

- Collecting.Collector.Search: for an asynchronous search it asks for `LastIndex()` up to 0xFFFFC000, because above that the loop of the program does not end (`Sections.LoopEndsExactly`); it models each thread's work as one piece, the steps of the threads are in `Parallel`.
- Collecting.Collector.constructor: asks for room for at least one document: with `nfirst` 1 and `ncount` 0, which `SetCount` accepts, the linear search of the program reads the first document of an empty buffer.
- Collecting.Collector.InsertAll: asks for a sorted buffer and no known worst document, which is the state of every shared collector, because a collector serves one search.
- Collecting.Collector.Finish: the lookup of the entity and its extras, and its error when the index has no such entity, are not modelled; `count` of the report is the length of the page; the quoter is represented by the abstract it is given.
- Collecting.Collector.LineOf: the string id and the extra data that the index keeps of the entity are not part of the line.
- Collecting.GetRange: the BM25 branch with its product and logarithm, and the error for other modes, are not modelled.
- The wait for the end of a parallel search (src/service/collect-docs.cpp:162): it has no predicate, so neither wake-up nor progress is decided by it; the statements are about states where submission is over and no part is left. The counters `nloops`, `nquery`, `nmerge` and `nfound` of that function are never read.
- Raw allocation, alignment and placement: a block of the quote store has separate arrays for terms, entries and positions, where the program overlays them.
- Metadata.SurvivesExactly: a floating-point array element out of int32 range, undefined in C++, is modelled as wrapping; the statement counts it as lost either way.
- Documents.Writer.AddParagraph: the code page numbers are not part of this model, a paragraph says whether its encoding is known.
- QuoteTree.Quote.AddParagraph: takes the text in UTF-8; the conversion before it is not modelled.
- Markup attributes, which both text writers ignore.
- Request arguments and update reports of src/network/grpc/messages.cpp: field copies and checks for empty ids.
- Throttle.ThrottleHolds: wake-ups of waiting submitters and the statistics counters are not modelled; one callback per request is assumed.
- Chunked.ChunkedStream.Send: the results of `send` are a finite list given beforehand, and an exhausted list is an error, so that a socket that never takes anything is not modelled; the reading part of `Get` is left out.
- ClientInit.OneClient: a constructor of the client that throws is not modelled.
- The queue pipeline of utils/libruseq/local-indexer.cpp, the file watchers, servers, argument loaders, compression wrappers, archive readers and plugins: foreign engines decide their results; each queue alone is a plain first-in first-out list.
