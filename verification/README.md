# Blog scrapers, modelled in Dafny

The repository is a set of near-duplicate scrapers for Blogger sites. Each one
lists a blog's post links from its RSS or Atom feed, falling back to headings on
the home page. It then fetches each post, keeps the first content container
found on the page, caches snippets by link, and writes HTML parts with an index.
Two helper scripts go with them:

- an HTML cleaner, which keeps only an allow-list of attributes and drops
  dangerous elements;
- a health monitor, which scores each target site from its HTTP response.

This project models the deterministic logic under the I/O as pure functions on
sequences, sets and maps, and proves properties about them. Each module covers
one script or concern:

| module | models |
|---|---|
| `Common` | optional values, `(title, link)` posts, list comprehension filtering, subsequences |
| `Text` | substring search, `str.strip`, `split`/`join`, `str(int)` |
| `Extract` | the content fallback chains of every variant, `raise_for_status`, the snippet each variant builds |
| `Pipeline` | Artikel.py `scrape_links_parallel`: worklist, merge, checkpoints, stop flag |
| `Parts` | Artikel.py `build_html_parts`, daily_aggregator.py `build_parts`, the GUI's page arithmetic |
| `Selection` | Artikel.py `cli_run` headless selection, then scrape and build |
| `Feed` | Artikel.py `ambil_daftar_post_from_feed`: cache, RSS batches, dedup, homepage fallback |
| `Collector` | tools/link_collector.py `collect`: Atom batches, `rel` filter, homepage merge, sorted unique output |
| `Daily` | daily_aggregator.py `fetch_all_links` and `main`: snippet cache, flushes, queue to done |
| `Stream` | tools/scraper_stream.py `scrape`: progress set, append-only output, retry on failure |
| `Slug`, `QueueOne` | artikel.py `slugify` and `process_one` |
| `Cleaner` | tools/html_cleaner.py `clean_html` over a parsed element tree |
| `Monitor` | monitor.js `check` and its per-target loop, with scores in integer tenths |

How the outside world is represented:

- **Network.** Every request is an oracle. A loop that issues requests
  receives the answers as a sequence, in the order it gets them. When the
  answers run out, `Feed.ReadFeed` and `Collector.ReadAtom` end their loops
  normally with what they have read. `Daily.FetchAllLinks` returns None
  instead, because its loop retries a raised request and only a non-200 status
  or an empty batch ends it. A per-URL or per-position oracle is used where a
  single page is fetched.
- **Thread pool.** It becomes the sequence in which `as_completed` hands back
  finished tasks. Each task carries the stop flag as the loop saw it.
- **Parsers.** The HTML parser is represented by what a page reports for each
  selector. The XML parser is represented by the items it yields, or by a
  parse failure.
- **Files.** A file read is an `Option`, with None for a missing file. Written
  files are returned as values. Only Artikel.py's `safe_load_json` turns a
  corrupt file into the default. The other loaders call `json.load` with no
  handler, and their crash on a corrupt file is listed under "Left out".
- **`requests`.** `raise_for_status` raises only for statuses 400 to 599, so
  it is not a 2xx check: a 1xx or 3xx status passes through it.
- **monitor.js headers.** `!lastModified` is also true for an empty header,
  so `no_last_modified` fires for an empty `last-modified` value as well as
  for an absent one.
- **monitor.js score.** The score cannot fall below 0.1, so the clamp at 0
  never applies.

## Model

| member | source | states |
|---|---|---|
| Extract.RaiseForStatus | Artikel.py:146 | a response becomes an exception exactly for a 4xx/5xx status (or an earlier exception); the message names the response's own URL (the one that answered, after redirects and URL preparation), not the requested link; anything else passes through unchanged |
| Extract.FirstPresent | Artikel.py:148-153 | the chained `or`: None exactly when every candidate is absent, else the first present candidate |
| Extract.ArtikelContent | Artikel.py:148-159 | post-body, else entry-content, else article, else `#post-body`, else the body, else "(Gagal ambil isi)" |
| Extract.FetchPostContent | Artikel.py:140-165 | None exactly when stop is set; otherwise a card holding both the title and the link: the content card for a response that passes the status check, the error card with the exception message otherwise |
| Extract.CardMentions | Artikel.py:160-164 | both card shapes contain the title and the link |
| Extract.DailyContent | daily_aggregator.py:119-125 | post-body, else entry-content, else article, else "<p>(Gagal ambil isi)</p>" |
| Extract.ArticleHtml | daily_aggregator.py:112-130 | the failure line `<hr><p>Gagal ambil: {link}</p>` is produced exactly when the request or the status check raised; otherwise the titled section with the content; the link is always in the snippet |
| Extract.StreamContent | tools/scraper_stream.py:38-43 | post-body, else article, passed through the cleaner; "<p>(Kosong)</p>" when neither is there, and that marker is not cleaned |
| Extract.StreamBlock | tools/scraper_stream.py:34-47 | a block is produced exactly when the request did not raise, with no status check; it is the title, the content and the source link |
| Extract.QueueContent | artikel.py:46-52 | post-body, else entry-content, else article, else "<p>Gagal ambil konten</p>" |
| Pipeline.Worklist | Artikel.py:181-182 | the worklist holds exactly the selected pairs whose link is not cached; its length plus the number of cached selected pairs is the selection's length; it is empty exactly when every selected link is cached |
| Pipeline.WorklistInOrder | Artikel.py:181 | the worklist is a subsequence of the selection |
| Pipeline.WorklistCounts | Artikel.py:181 | the worklist holds each uncached pair as often as it was selected and no cached pair |
| Pipeline.Step | Artikel.py:204-224 | one completion is counted whether or not it stores anything; the snippet is stored only when it is not None; a checkpoint is saved and `last_checkpoint` reset exactly when `counter - last_checkpoint >= CHECKPOINT_EVERY`, after which the gap is below the threshold |
| Pipeline.Taken | Artikel.py:199-203 | the completions handled are the longest prefix before the first one at which the stop flag is seen |
| Pipeline.Drain | Artikel.py:199-224 | the loop counts every handled completion; the key set grows by exactly the handled links that produced a snippet |
| Pipeline.DrainKeeps | Artikel.py:209-210 | entries that no handled completion is about keep their value |
| Pipeline.DrainSaves | Artikel.py:219-224 | earlier checkpoints stay as they were; each checkpoint records the key set of the cache it saves, and that cache lies between the initial and the final one |
| Pipeline.Scrape | Artikel.py:167-237 | submitted tasks are the worklist; an empty worklist returns the loaded cache with no save; otherwise the key set grows by the stored links and a final save of the returned cache closes the run; `counter` is `already` plus the completions handled |
| Pipeline.ScrapeSaves | Artikel.py:219-230 | every save's `completed` equals its cache's key set, and saved caches only grow |
| Pipeline.StoredWithin | Artikel.py:209-210 | a link is stored only if a handled completion is about it, and every completion with a snippet stores its link |
| Pipeline.ScrapeKeepsLoaded | Artikel.py:181-210 | no loaded entry is overwritten, because completions are only for worklist links |
| Pipeline.ScrapeLeavesPending | Artikel.py:181-210 | the next run's worklist is exactly the selected posts whose link was neither loaded nor stored; only a link whose worker saw the stop flag, or that was not handled before the stop, stays pending, since a failed fetch is stored as its error card and a raising future as its crash card |
| Pipeline.Merged | Artikel.py:205-210 | a completion contributes no snippet only when its worker returned None; a raising future contributes its crash card |
| Pipeline.WorkerResultStored | Artikel.py:140-210 | a worker that saw the stop flag stores nothing; any other `fetch_post_content` result is stored under its link whatever the response, and a request or status check that raised is stored as the error card with the exception message |
| Pipeline.HandledStaysCached | Artikel.py:199-210 | a handled completion whose future raised, or whose worker was not stopped, leaves its link in the returned cache, whatever the request gave |
| Pipeline.ScrapeCompletes | Artikel.py:181-237 | when the completions are the submitted tasks in some order, each exactly once, and none saw the stop flag, every selected link is cached afterwards, so the next run over the selection takes the fast path |
| Pipeline.CompletedCovers | Artikel.py:198-210 | completions that are the worklist in some order and saw no stop flag store every worklist link |
| Pipeline.DrainFilled | Artikel.py:199-224 | when the cache holds no empty snippet and no completion merges one, the cache after the loop holds no empty snippet |
| Pipeline.ScrapeFilled | Artikel.py:173-237 | the same for the whole run: no empty snippet in the returned cache |
| Pipeline.ScrapeFillsSelection | Artikel.py:181-237 | a run that is not stopped, whose workers return no empty snippet, over a cache with none, leaves a non-empty snippet for every selected link; the crash card is never empty |
| Pipeline.Save | Artikel.py:219-230 | no contract of its own; `Pipeline.ScrapeSaves` states that each save's `completed` is its cache's key set and that saved caches only grow |
| Pipeline.DrainCheckpoints | Artikel.py:219-224 | starting with a gap below K, the gap stays below K and each checkpoint advances `last_checkpoint` by exactly K |
| Pipeline.ScrapeCheckpointCount | Artikel.py:195-230 | with fewer than K cached posts, f in-loop checkpoints plus the final save satisfy f·K ≤ counter < (f+1)·K |
| Parts.Ceil | Artikel.py:389 | the number of parts is zero exactly for an empty list |
| Parts.CeilBounds | Artikel.py:389 | `Ceil(n, per)` pieces of size per cover n, and one fewer does not |
| Parts.CeilUnique | Artikel.py:389 | the ceiling is the only count with that property |
| Parts.ChunkSizes | Artikel.py:255-256 | every part is non-empty and at most the part size; all but the last are exactly the part size |
| Parts.ChunksFlatten | Artikel.py:255-256 | concatenating the parts gives back the list in order |
| Parts.ChunkCount | Artikel.py:255 | there are ceil(n / size) parts |
| Parts.ChunkLength | Artikel.py:256 | part k starts at k·size and is cut at the end of the list |
| Parts.ChunkAt | Artikel.py:256 | offset j of part k is element k·size + j |
| Parts.ChunkSlice | Artikel.py:256 | part k is the slice `xs[k*size : k*size+size]`, cut at the end |
| Parts.ChunkSliceProduct | Artikel.py:256 | the same with the product written as Python computes it |
| Parts.ChunkOf | Artikel.py:255-257 | element i lands in part `i // size`, at offset `i % size`, the part Python numbers `i // part_size + 1` |
| Parts.PartIndex | Artikel.py:257 | `i // size` is a part index and `i % size` an offset within it |
| Parts.DivMod | Artikel.py:257 | Python's `//` and `%` on non-negative operands agree with Dafny's |
| Parts.LinkHtml | Artikel.py:261-266 | a link writes its cached snippet when that is present and non-empty, else the "(Belum diambil)" placeholder; an empty snippet counts as missing |
| Parts.LinkHtmlShowsLink | Artikel.py:261-266 | every link writes something, and a placeholder names its link |
| Parts.RenderedAppend | Artikel.py:261-266 | rendering distributes over concatenation |
| Parts.BuildHtmlParts | Artikel.py:252-268 | a zero part size raises; a negative one writes nothing; otherwise there are ceil(n/size) files, and file k is named `{prefix}{k}.html` and renders part k |
| Parts.NumberedNamesDistinct | Artikel.py:258 | different part numbers give different file names, so no part overwrites another |
| Parts.PartsKeepOrder | Artikel.py:255-267 | the part bodies read in order are every link's text in selection order, each exactly once |
| Parts.LinkInItsPart | Artikel.py:255-266 | each link's text is in the file named for its part |
| Parts.PartHasLink | Artikel.py:259-267 | a part page contains the text of each of its links |
| Parts.PartFor | Artikel.py:255-266 | link i is written into the part file named `{prefix}{i // size + 1}.html` |
| Parts.Chunks | Artikel.py:255-256 | no contract of its own; `Parts.ChunkSizes`, `Parts.ChunksFlatten`, `Parts.ChunkCount` and `Parts.ChunkSlice` state that the parts are the slices `xs[i:i+size]` in order, ceil(n/size) of them |
| Parts.PageItems | Artikel.py:382-385 | no contract of its own; `Parts.PageIsChunk` states that page p shows part p-1 of the list |
| Parts.BuildParts | daily_aggregator.py:134-155 | files `part1.html` to `partK.html` with K = ceil(n/500); part k holds the k-th slice; `index.html` lists the parts |
| Parts.BuildPartsSlices | daily_aggregator.py:136-145 | part k (1-based) holds `snippets[(k-1)*500 : k*500]` |
| Parts.BuildPartsEmpty | daily_aggregator.py:134-155 | zero snippets give no part file and an index with an empty list |
| Parts.BuildPartsIndexed | daily_aggregator.py:138-153 | part names are distinct and each appears in the index |
| Parts.IndexLists | daily_aggregator.py:151-153 | the index contains each part's name |
| Parts.ConcatChunks | daily_aggregator.py:136-145 | the part bodies read in order are all the snippets in order |
| Parts.TotalPages | Artikel.py:389 | the page count shown is 1 for an empty list and ceil(n / per) otherwise, so it is never below 1 or below ceil(n / per) |
| Parts.NextPage | Artikel.py:401-404 | the page advances exactly when it is below ceil(n / per) |
| Parts.PrevPage | Artikel.py:396-399 | the page goes back exactly when it is above 1 |
| Parts.Slice | Artikel.py:382-385 | Python slicing with both bounds cut at the length: `xs[a..b]` inside the list, `xs[a..]` when only the end is past it (the last page), and empty when the start is past the length or the end is not after the start |
| Parts.PagingStaysInRange | Artikel.py:389-404 | from a page between 1 and the page count, next and prev stay in that range |
| Parts.PageIsChunk | Artikel.py:382-385 | page p shows part p-1 of the list |
| Selection.Wanted | Artikel.py:494 | the wanted links are exactly the non-empty stripped pieces |
| Selection.WantedClean | Artikel.py:494 | wanted links are non-empty and carry no surrounding whitespace |
| Selection.WantedRoundTrip | Artikel.py:494 | joining clean links with commas and reading them back gives the same links in order |
| Selection.Choose | Artikel.py:486-507 | no posts ends the run; an explicit list that matches nothing aborts; `select_all` takes every post; otherwise the first min(50, n) posts; an explicit list selects exactly the picked posts; a selection is never empty |
| Selection.Pick | Artikel.py:495-497 | a post is picked exactly when its link is wanted; nothing is picked exactly when no post's link is wanted |
| Selection.ExplicitChoice | Artikel.py:495-497 | the picked posts keep feed order, and each post is picked as often as it is listed when its link is wanted and never otherwise |
| Selection.DefaultChoice | Artikel.py:501-507 | without a list, the selection is the prefix of all posts or of the first fifty |
| Selection.RunSelected | Artikel.py:509-518 | the progress file's `selected` field is the selected links in order; the scrape submits exactly the uncached selected posts; a part size of 0 raises, and a positive size writes ceil(n/size) part files |
| Selection.RunSelectedInOrder | Artikel.py:516-518 | the part files read in order show one entry per selected link, in selection order |
| Selection.RunSelectedPending | Artikel.py:516-518 | a selected link has no snippet for the part files exactly when it was neither loaded nor stored by a handled completion |
| Selection.RunSelectedShows | Artikel.py:516-518 | selected link i is in part file `i // size + 1`, as its cached snippet, or as the placeholder when it is not cached or its snippet is empty |
| Selection.RunSelectedComplete | Artikel.py:509-518 | a run that is not stopped, whose workers return no empty snippet, over a cache with none, writes every selected link's own snippet and no placeholder |
| Feed.AddIfNew | Artikel.py:95-96 | a post is appended exactly when it is admitted and its link is not yet listed |
| Feed.AddAllAppends | Artikel.py:90-96 | adding only appends, and whatever is added was admitted |
| Feed.AddAllInOrder | Artikel.py:90-96 | the added posts are a subsequence of the candidates |
| Feed.AddAllNoDup | Artikel.py:90-96 | no link is listed twice |
| Feed.AddAllCovers | Artikel.py:90-96 | every admitted candidate's link ends up listed, and listed links stay |
| Feed.AddAllFirst | Artikel.py:90-96 | a link keeps its first admitted occurrence, title included |
| Feed.TagValue | Artikel.py:93-94 | an absent tag gives the default; a present tag gives its stripped text; an empty element raises |
| Feed.ItemPost | Artikel.py:91-94 | an item yields its title and link, or raises when either tag is empty |
| Feed.ItemPosts | Artikel.py:90-96 | a batch's posts stop at the first item that raises |
| Feed.BatchItems | Artikel.py:79-89 | a batch is read exactly when stop is unset, the request succeeded, the status is 200, the body is not blank, the XML parses, and there are items |
| Feed.HomeNoDup | Artikel.py:104-117 | the homepage fallback lists no link twice |
| Feed.ListPosts | Artikel.py:63-129 | a loaded cache is returned without a write; otherwise the list is written, has no duplicate links, and is the feed's list when the feed gave posts and the homepage fallback's list when it gave none |
| Feed.AddAll | Artikel.py:90-96 | no contract of its own; `Feed.AddAllAppends`, `Feed.AddAllInOrder`, `Feed.AddAllNoDup`, `Feed.AddAllCovers` and `Feed.AddAllFirst` state it |
| Feed.ReadFeed | Artikel.py:78-101 | no contract of its own; `Feed.FeedNoDup` and `Feed.FeedLinksFiltered` state that it lists no link twice and only links containing "/20" |
| Feed.ReadHome | Artikel.py:103-117 | no contract of its own; `Feed.HomeNoDup` and the three lemmas below state it |
| Feed.HomeCandidatesAt | Artikel.py:109-113 | the j-th homepage candidate is the heading at the j-th candidate position, as its link text and its resolved href, and that heading's href contains "/20" |
| Feed.CandidateIndicesIncrease | Artikel.py:109 | candidate positions increase, so the candidates keep heading order |
| Feed.CandidateIndicesComplete | Artikel.py:109-111 | every heading whose link's href contains "/20" is a candidate position |
| Feed.FeedNoDup | Artikel.py:78-101 | the feed pass never lists a link twice |
| Feed.FeedLinksFiltered | Artikel.py:95 | every post of the feed pass has a non-empty link containing "/20" |
| Feed.ListPostsFeedFiltered | Artikel.py:95-104 | when the feed gave posts, every listed post passed the link filter |
| Collector.BelowIrreflexive | tools/link_collector.py:44 | Python string order is irreflexive |
| Collector.BelowTransitive | tools/link_collector.py:44 | it is transitive |
| Collector.BelowTotal | tools/link_collector.py:44 | it is total on distinct strings |
| Collector.BelowAsymmetric | tools/link_collector.py:44 | it is asymmetric |
| Collector.InsertMembers | tools/link_collector.py:30 | `set.add`: the members are the old ones plus the new one |
| Collector.InsertSorted | tools/link_collector.py:30-44 | adding a link keeps the list strictly increasing |
| Collector.InsertAllSorted | tools/link_collector.py:30-44 | adding many links keeps the list strictly increasing, with exactly the old and the added members |
| Collector.Insert | tools/link_collector.py:30 | no contract of its own; `Collector.InsertMembers` and `Collector.InsertSorted` state it |
| Collector.InsertAll | tools/link_collector.py:25-30 | no contract of its own; `Collector.InsertAllSorted` states it |
| Collector.ReadAtom | tools/link_collector.py:14-33 | no contract of its own; `Collector.ReadAtomSorted` states it |
| Collector.HeadIsLeast | tools/link_collector.py:44 | the head of a strictly increasing list is below all its other members |
| Collector.SortedUnique | tools/link_collector.py:44 | a set has only one strictly increasing listing, so the kept list is `sorted(links)` |
| Collector.EntryHrefs | tools/link_collector.py:25-30 | an entry contributes exactly the hrefs of its links whose `rel` is absent or "alternate" and whose href is non-empty and contains "/20" |
| Collector.AnchorHrefs | tools/link_collector.py:38-41 | the homepage contributes exactly the non-empty anchor hrefs containing "/20" |
| Collector.Collect | tools/link_collector.py:10-44 | the run raises exactly when a feed request or parse raises, or the homepage request raises |
| Collector.AddEntriesSorted | tools/link_collector.py:25-30 | one batch keeps the list sorted and adds exactly its filtered hrefs |
| Collector.ReadAtomSorted | tools/link_collector.py:14-32 | the feed loop raises exactly when the reference does; otherwise it gives a sorted list of exactly the filtered hrefs of the batches read |
| Collector.CollectSpec | tools/link_collector.py:10-44 | the written list is strictly increasing (sorted, no duplicates) and holds exactly the filtered feed hrefs and homepage hrefs |
| Collector.CollectFiltered | tools/link_collector.py:29-41 | every written link is non-empty and contains "/20" |
| Collector.FeedHrefsFiltered | tools/link_collector.py:29-30 | every feed href passed the filter |
| Collector.EntriesFiltered | tools/link_collector.py:26-30 | every entry href passed the filter |
| Daily.ItemLinks | daily_aggregator.py:96-99 | a batch contributes exactly the non-empty `findtext("link")` results |
| Daily.FetchAllLinks | daily_aggregator.py:79-108 | links are only appended to |
| Daily.FetchAllLinksStep | daily_aggregator.py:84-105 | an answer that does not end the loop adds its item links, or none when it raised or did not parse, and the loop goes on |
| Daily.FetchAllLinksEnds | daily_aggregator.py:84-105 | the loop finishes exactly when some answer is a non-200 status or a parsed batch without items |
| Daily.FetchAllLinksGathers | daily_aggregator.py:79-108 | when answer n is the first that ends the loop, the result is the starting links followed, in answer order, by the item links of every parsed 200 batch before n |
| Daily.FailingFeedNeverEnds | daily_aggregator.py:84-105 | a feed whose every request raises never ends the loop, however many answers there are |
| Daily.Harvesting | daily_aggregator.py:175-199 | one snippet per link |
| Daily.HarvestKeys | daily_aggregator.py:176-184 | after the loop the keys are the old keys plus every link |
| Daily.HarvestKeepsOld | daily_aggregator.py:177-179 | entries present beforehand are never overwritten |
| Daily.HarvestEntries | daily_aggregator.py:177-184 | snippet i is its link's final cache entry: the cached value for a cached link, the first occurrence's snippet for a repeated one |
| Daily.HarvestProduces | daily_aggregator.py:182-184 | a link neither cached nor seen earlier gets the snippet `fetch_article` builds |
| Daily.FreshShift | daily_aggregator.py:177-184 | whether a later position is fetched is unchanged when seen from the keys after the first step |
| Daily.HarvestFlushPoints | daily_aggregator.py:196-198 | the loop flushes exactly at the reference flush points, in order |
| Daily.PointIsDue | daily_aggregator.py:196-198 | a flush point is a position divisible by 10 whose link was fetched there |
| Daily.DuePoint | daily_aggregator.py:196-198 | every fetched position divisible by 10 is a flush point |
| Daily.PointsIncrease | daily_aggregator.py:196-198 | flush points increase |
| Daily.FlushesAreDue | daily_aggregator.py:176-198 | each write inside the loop follows a fetched link at a position divisible by 10 |
| Daily.DueFlushesHappen | daily_aggregator.py:176-198 | each fetched link at a position divisible by 10 is followed by a write |
| Daily.FlushesInOrder | daily_aggregator.py:176-198 | the writes come in loop order |
| Daily.Main | daily_aggregator.py:159-211 | an empty queue means no run; a completed run moves exactly the head blog to the end of `done`, and the rest of the queue keeps its order |
| Daily.MainCompletes | daily_aggregator.py:171-205 | the parts are built from one snippet per listed link, each its link's final cache entry; the cache gains exactly the listed links; loaded entries survive |
| Stream.LoadProgress | tools/scraper_stream.py:11-14 | no file gives the empty set; otherwise the saved links as a set |
| Stream.SaveProgress | tools/scraper_stream.py:16-18 | some listing of the set with each link once |
| Stream.ProgressRoundTrip | tools/scraper_stream.py:11-18 | loading any listing of a set gives back that set |
| Stream.SaveLoad | tools/scraper_stream.py:11-18 | saving then loading gives back the set |
| Stream.Walk | tools/scraper_stream.py:30-57 | one save per appended block |
| Stream.WalkDone | tools/scraper_stream.py:30-57 | `done` ends as the initial set with every link whose request succeeded; a link whose request raised stays pending |
| Stream.WalkCount | tools/scraper_stream.py:31-49 | `done` only grows, by exactly one link per block |
| Stream.WalkStep | tools/scraper_stream.py:30-57 | one step of the walk: a skip, or a block followed by a save |
| Stream.BlockIsFor | tools/scraper_stream.py:30-50 | each block is for a link not done when it was reached: neither loaded nor in the set saved after the block before it; the block is what that link's request yielded |
| Stream.BlocksDistinct | tools/scraper_stream.py:30-50 | no link gets two blocks: a link repeated in the list after its request succeeded is skipped and writes nothing |
| Stream.BlockPairDistinct | tools/scraper_stream.py:30-50 | an earlier block's link is in every later save, so a later block is for a different link |
| Stream.BlocksInOrder | tools/scraper_stream.py:30-47 | blocks come in link order |
| Stream.SaveAt | tools/scraper_stream.py:49-50 | the save after a block holds that block's link, and lies between the initial and the final set |
| Stream.SaveBetween | tools/scraper_stream.py:49-50 | each save lies between the loaded set and the final set |
| Stream.SaveHoldsBlock | tools/scraper_stream.py:46-50 | the save after a block holds that block's link |
| Stream.SavesGrow | tools/scraper_stream.py:49-50 | saves only grow, the last is the final set, and with no save `done` is unchanged |
| Stream.AttemptFails | tools/scraper_stream.py:34-57 | an attempt fails exactly when the request raised; a 4xx/5xx answer still yields a block |
| Stream.ScrapeDone | tools/scraper_stream.py:25-57 | `done` becomes the loaded set plus every link whose request succeeded, growing by one link per block, and the last save is the final set |
| Stream.Scrape | tools/scraper_stream.py:25-60 | no contract of its own; `Stream.ScrapeDone` and `Stream.ScrapeOutput` state it |
| Stream.InitOutput | tools/scraper_stream.py:20-23 | a missing output file starts as the header; an existing one is kept as it is |
| Stream.ScrapeOutput | tools/scraper_stream.py:20-60 | the output starts with the existing file, or the header for a new one, ends with the closing tags, and holds every appended block |
| Slug.AlnumsAppend | artikel.py:21 | the letters and digits of a concatenation are those of each half |
| Slug.DashesShape | artikel.py:21 | the substitution leaves only letters, digits and single dashes |
| Slug.DashesKeepsAlnum | artikel.py:21 | the substitution keeps the letters and digits in order |
| Slug.SlugifyShape | artikel.py:20-22 | a slug holds only ASCII letters, digits and '-', never "--", and does not start or end with '-' |
| Slug.SlugifyKeepsAlnum | artikel.py:20-22 | a slug keeps the input's ASCII letters and digits, in order |
| Slug.TrimmedAlnums | artikel.py:22 | stripping dashes keeps the letters and digits |
| Slug.DashesFixed | artikel.py:21 | on letters, digits and single dashes the substitution changes nothing |
| Slug.SlugFixed | artikel.py:20-22 | a slug is its own slug |
| Slug.SlugifyIdempotent | artikel.py:20-22 | slugifying twice equals slugifying once |
| QueueOne.ProcessOne | artikel.py:25-59 | an empty or missing queue does nothing; a failing request or 4xx/5xx status crashes before anything is written; otherwise the head link's content is written and the rest of the queue is saved |
| QueueOne.ResultPath | artikel.py:40-54 | the result file is `output/<slug>/result.html`, or `output/result.html` for an empty slug, so it never escapes the output directory |
| QueueOne.UntitledFolder | artikel.py:40-41 | a page without a title goes to the folder "tanpa-judul" |
| QueueOne.Folder | artikel.py:40-41 | no contract of its own; `QueueOne.UntitledFolder` and `QueueOne.ResultPath` state it |
| QueueOne.Drain | artikel.py:25-57 | no contract of its own; `QueueOne.DrainStops` states it |
| QueueOne.DrainStops | artikel.py:25-57 | repeated runs write one file per link of the longest prefix whose requests succeed, then stop at the first failing link |
| Cleaner.CleanHtml | tools/html_cleaner.py:5-20 | the output has no blacklisted element and no attribute outside the allowed set, and a document that is already clean comes out unchanged |
| Cleaner.PruneAll | tools/html_cleaner.py:8-12 | no contract of its own; `Cleaner.PruneAllClean` and `Cleaner.PruneAllKeepsOrder` state it |
| Cleaner.Prune | tools/html_cleaner.py:14-18 | no contract of its own; `Cleaner.PruneClean` states it |
| Cleaner.KeepAttrs | tools/html_cleaner.py:14-18 | the kept attributes are exactly the original pairs whose name is allowed |
| Cleaner.PruneAllClean | tools/html_cleaner.py:8-18 | after cleaning, no blacklisted element remains anywhere, and every attribute is in {href, src, alt, title} |
| Cleaner.PruneClean | tools/html_cleaner.py:8-18 | a kept element's cleaned subtree is clean |
| Cleaner.CleanForestFixed | tools/html_cleaner.py:8-18 | an already clean document comes out unchanged |
| Cleaner.CleanNodeFixed | tools/html_cleaner.py:8-18 | a clean node is kept and comes out unchanged |
| Cleaner.CleanHtmlIdempotent | tools/html_cleaner.py:5-20 | cleaning twice equals cleaning once |
| Cleaner.PruneAllKeepsOrder | tools/html_cleaner.py:8-12 | the surviving nodes are the non-blacklisted ones, in their original order, each cleaned; a blacklisted node goes with its whole subtree |
| Cleaner.AttrsKept | tools/html_cleaner.py:14-18 | kept attributes keep their values and their relative order |
| Monitor.Signals | monitor.js:17-35 | each signal appears exactly when its condition holds: status not 200, redirected, `last-modified` missing or empty, length zero |
| Monitor.SignalsOrdered | monitor.js:17-35 | signals come in the fixed order http_error, redirect, no_last_modified, unknown_size, each at most once |
| Monitor.OrderedPicks | monitor.js:17-35 | optional picks of the four signals, concatenated in test order, follow that order |
| Monitor.ScoreRange | monitor.js:14-40 | the score is 10 minus the weights of the signals raised, lies between 1 and 10 tenths, and is 10 exactly when there is no signal |
| Monitor.SubseqWeight | monitor.js:14-35 | a subset of the deductions weighs no more than all of them |
| Monitor.ReportFor | monitor.js:37-58 | a reachable target reports its status, signals and score; an unreachable one reports "error", score 0 and ["unreachable"]; name and URL are the target's |
| Monitor.ReportScore | monitor.js:37-58 | every report scores between 0 and 10 tenths, 0 exactly when the target is unreachable and 10 exactly when no signal is raised; no signal is listed twice |
| Monitor.Results | monitor.js:47-60 | no contract of its own; `Monitor.ResultsInOrder` states it |
| Monitor.ResultsInOrder | monitor.js:47-60 | the loop keeps the reports already pushed and pushes one report per target, in target order |
| Monitor.Health | monitor.js:46-60 | the `results` array holds exactly one report per target, the i-th for the i-th target |

## Left out

- Every network call, including the `requests` sessions, the `HTTPAdapter` pool and JavaScript `fetch`. Each is an oracle, so timeouts, retries and headers are not modelled.
- Threading in Artikel.py: `ThreadPoolExecutor`, `stop_event`, `file_lock` and `ui_q`. The completion order and the stop flag are inputs, and the UI messages are not modelled.
- RSS and Atom XML parsing, BeautifulSoup parsing and serialisation, and `decode_contents`. A page is the outcome of each selector, and `clean_html`'s parse and `str(soup)` are not modelled; the cleaner works on the tree.
- File I/O and JSON encoding, including the atomic temp-then-replace save, `os.makedirs`, and the exception swallowed by `safe_load_json`. Files are values. In Artikel.py, a file that fails to load counts as missing, as `safe_load_json` makes it.
- Sleeps, random delays and long pauses, because they affect timing only.
- The tkinter GUI, apart from the page arithmetic of `tampilkan_halaman`, `prev_page` and `next_page`. The search filter is not modelled; the page arithmetic takes the filtered list as given.
- argparse and the environment variables, which are parameters here. A non-positive ITEMS_PER_PAGE makes the GUI divide by zero; the paging functions require a positive count.
- `urljoin` in the Artikel.py homepage fallback is the `resolve` parameter. `urlparse(...).netloc` in `blog_slug` is not modelled; it only names the cache file and the output folder.
- app.js, which renders health.json in the browser.
- The `generated_at` timestamp of health.json, because it is the clock.
- JavaScript `Number` on a non-empty `content-length` is the `isZero` parameter.
- The floating-point score: monitor.js computes 1.0 - 0.5 - …; here it is integer tenths.
- Extract.RaiseForStatus: the message is modelled only far enough to contain the response's URL; the reason phrase `requests` picks and the final URL after redirects and URL preparation are fields of the response, not computed from the requested link.
- Daily.FetchAllLinks: a feed that keeps raising makes the loop run forever. Here that is None once the answers run out, so a run whose answers end without a non-200 status or an empty batch has no result.
- Daily.Main: a run whose feed loop does not finish within the answers is `Unfinished`, and then nothing is written.
- Stream.SaveProgress: `list(done)` follows the set's iteration order, which the program does not fix. This function is one such listing, and the round trip is proved for every listing.
- Stream.Scrape: `json.load(open(LINKS_FILE))` raising on a missing links file is not modelled; the links are an input.
- Stream.LoadProgress: a progress file that exists but is not valid JSON makes `load_progress` raise, and the run crashes. Here the file is given as its parsed list, so that crash is not modelled.
- Daily.Main: a cache or queue file that exists but is not valid JSON makes `load_json` raise, and the run crashes. Here both are given parsed, so that crash is not modelled.
- QueueOne.ProcessOne: a queue file that exists but is not valid JSON makes `load_queue` raise before anything is written. Here the queue is given parsed, so that crash is not modelled.
- QueueOne.ProcessOne: a queue file whose JSON is not a list is not modelled, and neither is the file write itself; the run returns the path and content it would write.
- Collector.Collect: the run has no handler, so any exception is None and nothing is written. Which exception it was is not kept.
