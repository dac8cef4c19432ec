# Ranking ingestion, modelled in Dafny

The fetcher scrapes basketball ranking pages and stores what it finds in a Supabase
database and storage bucket. It covers player rankings, high-school rankings and circuit
(travel-team) rankings. This project models the logic that sits between the HTML already
taken apart into strings and the database rows written, and proves what that logic
guarantees:

- **Row extraction.** A ranking-table row becomes a record; rows that should not be ranked
  are dropped (`PlayerTable`, `HsTable`, `CircuitIngest`).
- **Rating and comment.** A player's detail text yields a rating and a scouting comment
  (`Detail`).
- **The older heuristic scraper.** It reads positional table cells and `N) Name - Pos -
  School - College` lines (`Heuristic`).
- **De-duplication** by `rank|lower-cased name` (`RowDedup`).
- **The season key.** It is derived from a page URL (`Season`).
- **Merging per season.** A run's pages are merged by season. For players, the run's values
  are also merged into the stored row (`HsIngest`, `CircuitIngest`, `HsExport`,
  `Reconcile`).
- **Uploads.** An image is uploaded only when absent, under an extension inferred from its
  content type. Related high schools, circuit teams and colleges are resolved or created by
  their natural key (`Assets`, `Reconcile`).
- **The guarded truncation script**, with its paged listing and batched removal
  (`Truncate`).
- **The public image URL join** of the client (`ImageUrl`).

External services are values, threaded through the model:

- **The database** is `Store.Db`: one map per table, keyed by the table's conflict column,
  plus the next fresh id.
- **The bucket** is a `set<string>` of object paths.
- **Every other service outcome is a parameter.** This covers an HTTP status, a failing
  select, upsert, download or upload, a listing page that errors, and the header of a
  download.

The scripts keep their state in local variables, Maps and Sets that are updated in loops.
Each loop is a Dafny `method` with a loop invariant, and each is proved equal to a
specification function of its inputs. The properties the source promises are proved as
lemmas about those functions.

Where a construct matters (a greedy or lazy regular expression, `split`, `trim`,
`String.prototype.match`, and `parseInt` on digit strings below 2^53), its JavaScript
semantics are written out by hand. The
backtracking order of each pattern is proved sound and complete against a declarative
statement of what a match is.

The two copies of `bufferFromUrl` behave alike, and so do the two `parseHsTable` and the
three `fetchHtml` functions that check a status. Each is modelled once. The Model table cites
one copy; the other copies are at `src/index.ts:123-134`, `fetcher/src/fetch_hs_rankings.ts:32-63`,
`fetcher/src/ingest_circuit_rankings.ts:39-43` and `fetcher/src/fetch_hs_rankings.ts:26-30`.

## Model

| member | source | states |
|---|---|---|
| PlayerTable.PlayerName | fetcher/src/index.ts:70-72 | the name is the `.name` text, else the anchor text; it is empty exactly when both trim to empty |
| PlayerTable.ParseRow | fetcher/src/index.ts:63-150 | one visit of `rows.each` (detail block, name guard, record) yields the row's record, or nothing for an empty name |
| PlayerTable.ParsePlayers | fetcher/src/index.ts:53-163 | the row filter, the row visits and the de-duplication loop together return the specified player list |
| PlayerTable.PlayerOfRowSpec | fetcher/src/index.ts:133-147 | a ranked row is emitted exactly when its name is non-empty, whatever its rank text; the record carries that name; the rank is absent exactly when the rank text has no digit |
| PlayerTable.RankOfDecorated | fetcher/src/index.ts:67-68 | a rank text such as `#12.` (a number decorated with non-digits) gives exactly that number |
| PlayerTable.PlayerRatingBounded | fetcher/src/index.ts:88-97 | a rating is present only when the row has a detail id, and then lies in 0..100 |
| PlayerTable.ParsedFromRows | fetcher/src/index.ts:57-61 | every record gathered before de-duplication comes from a non-founder row with a `.rank-count` and a name, in row order |
| PlayerTable.RowsReachParsed | fetcher/src/index.ts:63-149 | every ranked, named row's record reaches the list before de-duplication |
| PlayerTable.ParsedPlayersDistinct | fetcher/src/index.ts:152-160 | no two returned players share a rank and lower-cased name |
| PlayerTable.ParsedPlayersFromRows | fetcher/src/index.ts:57-160 | the returned players are an order-preserving selection of the ranked, named rows' records |
| PlayerTable.ParsedPlayersCover | fetcher/src/index.ts:152-160 | every ranked, named row is represented by a returned player with its rank and lower-cased name |
| Detail.RatingMatchAtShape | fetcher/src/index.ts:93 | a match of `rating\s*[:\-]?\s*(\d{1,3})` is the label (any case), white space with at most one `:` or `-`, and one to three digits whose value is the match's number |
| Detail.RatingLabelAtIff | fetcher/src/index.ts:93 | the label test is exactly a case-insensitive match of `rating` |
| Detail.RatingAtStart | fetcher/src/index.ts:92-93 | `Rating 98`, `Rating: 98` and the like are matched at the start, with the digits' value |
| Detail.FirstRatingLeftmost | fetcher/src/index.ts:93 | the match found is the leftmost one, and none is found only when the pattern matches nowhere |
| Detail.RatingOfSpec | fetcher/src/index.ts:93-97 | a rating is present exactly when the leftmost match denotes a number in 0..100, and then it is that number |
| Detail.FirstPairFromSpec | fetcher/src/index.ts:99-106 | the leftmost `open([^close]+)close` is found; its inner text is non-empty and free of the closing mark; none is found only when no pair exists |
| Detail.FirstQuoted | fetcher/src/index.ts:105-108 | the `for … break` over the four quote matchers yields the trimmed inner text of the first style with a pair |
| Detail.QuotedCommentIsQuoted | fetcher/src/index.ts:99-107 | a quoted comment is the trimmed inner text of an actual pair of one of the four styles in the text |
| Detail.QuotedCommentOpens | fetcher/src/index.ts:99-107 | a quoted comment is found only where an opening quotation mark occurs |
| Detail.FirstOpeningQuote | fetcher/src/index.ts:111 | `search(/[“"‘']/)` finds the first opening mark, and none only when there is none |
| Detail.QuoteTail | fetcher/src/index.ts:110-118 | the unpaired-quote tail exists exactly when the text holds an opening quotation mark |
| Detail.ExtractDetail | fetcher/src/index.ts:86-131 | the detail block's successive assignments to `rating` and `rating_comment` produce the specified rating and comment |
| Detail.CommentPresentIff | fetcher/src/index.ts:105-130 | a comment is produced exactly when the text holds an opening quotation mark, or a rating was read and text remains after cutting the rating out |
| Detail.NoQuoteComment | fetcher/src/index.ts:120-130 | without quotation marks the comment can only be the text after the rating; without a rating there is none |
| Detail.QuotedPairWins | fetcher/src/index.ts:105-121 | a non-blank quoted pair wins over both fallbacks, whatever the rating |
| Detail.PositionalComment | fetcher/src/index.ts:121-130 | with no quotation marks, a rating cut that leaves `- text` gives `text` as the comment |
| Detail.StripDash | fetcher/src/index.ts:124-128 | the positional clean-up removes the dash and the blank before the text and nothing more |
| Detail.RatedQuote | fetcher/src/index.ts:92-107 | `Rating: n "text"` gives rating n and comment text, for every n in 0..100 and every trimmed text without double quotes |
| Detail.RatedDash | fetcher/src/index.ts:92-130 | `Rating n - text` without quotation marks gives rating n and comment text |
| Detail.RatedQuoteExample | fetcher/src/index.ts:92-107 | `Rating: 92 "Elite athleticism"` gives 92 and `Elite athleticism` |
| Detail.RatedDashExample | fetcher/src/index.ts:92-130 | `Rating 85 - high floor, great motor` gives 85 and the text after the dash |
| RowDedup.DedupKeyInjective | fetcher/src/index.ts:156 | two records share a de-duplication key exactly when their ranks are equal (or both absent) and their lower-cased names are equal |
| RowDedup.Dedup | fetcher/src/index.ts:152-160 | the `seen`/`deduped` loop keeps exactly the first occurrence of every key, in input order |
| RowDedup.FirstOccurrencesIndexed | src/index.ts:110-118 | the kept rows are taken at strictly increasing input positions, each the first with its key |
| RowDedup.FirstOccurrencesDistinctKeys | fetcher/src/index.ts:157-159 | no two kept rows share a key |
| RowDedup.FirstOccurrencesCoverKeys | fetcher/src/index.ts:155-159 | every input key is the key of some kept row |
| Heuristic.ParseTableRow | src/index.ts:56-83 | one `table tr` visit, setting fields one by one, yields the specified row record |
| Heuristic.ParseTableRows | src/index.ts:54-84 | the `table tr` loop of a container pushes the records of its rows in order |
| Heuristic.ParseLines | src/index.ts:87-107 | the split/trim/filter/forEach chain pushes the record of every non-blank line that parses, in order |
| Heuristic.ParsePlayers | src/index.ts:46-121 | each container's table rows then its lines, over all containers, then de-duplication, give the specified list |
| Heuristic.TableRowPlayerSpec | src/index.ts:57-70 | a row gives a record exactly when it has two cells and a non-blank second cell; the rank is the first cell's digits (absent when there are none); cells 2 to 5 are position, height, school and college, each present only when the cell exists and is non-blank |
| Heuristic.ImageUrlsSkip | src/index.ts:73-77 | missing or empty image sources are filtered out |
| Heuristic.ImageUrlsNonEmpty | src/index.ts:73-77 | every kept image URL is non-empty, and there are no more of them than sources |
| Heuristic.TableRowImages | src/index.ts:73-81 | the first usable image source is the player image and the second the college logo |
| Heuristic.TableRowOneImage | src/index.ts:78-80 | with one usable image source, it is the player image and there is no college logo |
| Heuristic.MatchLine | src/index.ts:92 | the hand-coded matcher of `^(\d{1,3})\)?\s*[-.)]?\s*(.+)$` returns one to three leading digits and a non-empty rest |
| Heuristic.MatchLineSound | src/index.ts:92 | what the matcher returns are the groups of a genuine match of the pattern |
| Heuristic.MatchLineComplete | src/index.ts:92 | whenever the pattern matches, the matcher finds a match, with at least as many rank digits as that match |
| Heuristic.MatchNumberedLine | src/index.ts:92-94 | `N) rest`, the rest starting with a non-space non-separator, is matched with rank N and the rest right after `) ` |
| Heuristic.SplitDashRoundTrip | src/index.ts:97 | `split(/\s+-\s+/)` gives back clean fields written with ` - ` between them |
| Heuristic.SplitLinesNoBreak | src/index.ts:88 | the pieces of the split at `\n` and `\r` hold no line break |
| Heuristic.SplitLinesCount | src/index.ts:88 | there is one piece more than the text has line breaks |
| Heuristic.FreeformLine | src/index.ts:92-105 | `N) Name - Pos - School - College` (N below 1000, one to four clean fields) gives rank N and the fields in order |
| Heuristic.LinePlayerRanked | src/index.ts:92-100 | a freeform record always has a rank below 1000 and a non-empty name |
| Heuristic.ParsedPlayersDistinct | src/index.ts:110-118 | no two returned records share a rank and lower-cased name |
| Heuristic.ParsedPlayersCover | src/index.ts:110-118 | every collected record's rank and lower-cased name is kept by some returned record |
| Season.LastSegment | fetcher/src/index.ts:286 | `split("/").pop()` is the suffix after the last `/`, free of `/` |
| Season.SeasonKey | fetcher/src/index.ts:281-291 | a season key is never empty and holds no `/` |
| Season.ClassYearFound | fetcher/src/index.ts:273-279 | the class year is the leftmost `20dd` of the URL read as a number, and always lies in 2000..2099 |
| Season.ClassYearAbsent | fetcher/src/index.ts:274-275 | there is no class year exactly when the URL holds no `20dd` |
| Season.SeasonKeyYear | fetcher/src/index.ts:282-283 | with a class year, the key is its decimal text and reads back as the year |
| Season.SeasonKeyFromPath | fetcher/src/index.ts:284-287 | without a class year, a path `…/seg` or `…/seg/` gives the key seg |
| Season.SeasonKeyDefault | fetcher/src/index.ts:284-290 | without a class year, a path ending in `//`, `/`, an empty path or an unparsable URL gives `ranking` |
| Assets.ExtOfSpec | fetcher/src/index.ts:165-176 | the extension is `.png` iff the content type mentions png; else `.jpg` iff it mentions jpeg or jpg; else `.webp` iff it mentions webp; else empty |
| Assets.ExtOfImageTypes | fetcher/src/index.ts:168-174 | `image/png`, `image/jpeg` and `image/webp` map to `.png`, `.jpg` and `.webp` |
| Assets.OctetStreamNoExt | fetcher/src/index.ts:167-174 | a download without a content type gets no extension |
| Assets.UploadTypeMatchesExt | fetcher/src/index.ts:311-332 | for every download, the content type sent for a player image or logo names the extension its file is stored under |
| Assets.CollegeExt | fetcher/src/index.ts:241-242 | the college logo rule always yields `.png`, `.webp` or `.jpg` |
| Assets.CollegeExtAgrees | fetcher/src/index.ts:241-242 | the college rule agrees with `bufferFromUrl`'s on png and webp; where that one gives nothing the college rule gives `.jpg`; where it gives `.jpg` the college rule gives `.webp` if the type also names webp (it tests webp first), else `.jpg` |
| Assets.ListingFindsExactly | fetcher/src/index.ts:179-182 | searching the directory listing for the exact basename finds it exactly when the object is stored |
| Assets.Upload | fetcher/src/index.ts:186-189 | an `upsert: false` upload succeeds exactly when it does not fail and the path is free, and then adds exactly that path |
| Assets.UploadIfNeeded | fetcher/src/index.ts:178-191 | the bucket gains at most the object asked for, under its directory, and a success reports its joined path |
| Assets.UploadIfNeededSpec | src/index.ts:136-150 | when the listing answers, a stored object is reported as already existing and nothing is uploaded; the bucket changes only by a new upload reported as not existing before; a success leaves the object stored at its path |
| Assets.UploadIfNeededIdempotent | fetcher/src/index.ts:178-184 | uploading the same object a second time finds it and changes nothing |
| Assets.StorePlayerImage | fetcher/src/index.ts:309-318 | a player image is stored under `players/` and nothing else changes |
| Assets.StoreLogo | fetcher/src/index.ts:325-334 | a college logo beside a player is stored under `logos/` |
| Assets.StoreCollegeLogo | fetcher/src/index.ts:238-246 | a new college's logo is stored under `college_logos/` |
| Assets.StoreSchoolLogo | src/ingest_hs_rankings.ts:88-96 | a high-school logo is stored under `hs_logos/` |
| Store.UpsertPlayer | fetcher/src/index.ts:260-267 | upsert on `name`: only that row changes; it holds the given columns; a stored row keeps its id; ids stay fresh |
| Store.UpsertHighSchoolSpec | src/ingest_hs_rankings.ts:103-110 | upsert on `school`: only that row changes, every column but the id is replaced, and a stored row keeps its id |
| Store.UpsertCircuitTeamSpec | fetcher/src/ingest_circuit_rankings.ts:92-99 | upsert on `team`: only that row changes, every column but the id is replaced, and a stored row keeps its id |
| Store.UpsertCollege | fetcher/src/index.ts:251-255 | upsert on `name`; an undefined logo path keeps the stored one |
| Store.UpsertSchoolStub | fetcher/src/index.ts:201-205 | the stub empties the ranks, records and key wins and keeps a stored row's id, logo and sources; a new row gets a fresh id |
| Store.UpsertTeamStub | fetcher/src/index.ts:218-222 | the same for a circuit team, which also empties its placements |
| Store.KeepIdZero | fetcher/src/truncate_all.ts:21 | `delete().neq("id", 0)` spares exactly the rows whose id is 0 |
| Reconcile.UploadImages | fetcher/src/index.ts:308-338 | the two upload attempts give the player image's path when it was stored, and the bucket after both; a failure leaves the path undefined |
| Reconcile.ReadStored | fetcher/src/index.ts:340-410 | the selects of the stored row give its maps and sources, and its image path when no new image was stored |
| Reconcile.SetIf | fetcher/src/index.ts:354-355 | `{ ...stored }` and then `if (v) m[key] = v` |
| Reconcile.MergeMaps | fetcher/src/index.ts:354-399 | the eight per-season copies, each given the season's entry when the value is set, are the specified merge |
| Reconcile.MergeSeasonsSpec | fetcher/src/index.ts:354-399 | merging keeps every stored entry of every map except `[key]`, and writes `[key]` exactly when the value is present (a number for rank and rating, non-empty for the strings) |
| Reconcile.EnsureHighSchoolSpec | fetcher/src/index.ts:193-208 | no name gives no id and no write; a found row with a non-zero id gives its id and no write; otherwise the school is upserted with empty maps and its id returned; a failed upsert throws and writes nothing |
| Reconcile.EnsureCircuitTeamSpec | fetcher/src/index.ts:210-225 | the same for circuit teams, whose stub also empties placements |
| Reconcile.EnsureCollegeSpec | fetcher/src/index.ts:227-258 | no name gives nothing; a found college gives its id and logo path with no write; otherwise a logo failure is swallowed and the college is still upserted, with the new logo path when the upload worked |
| Reconcile.ResolveAndSave | fetcher/src/index.ts:413-462 | the three resolve-or-create calls and the caught player upsert give the specified outcome |
| Reconcile.ResolveKeeps | fetcher/src/index.ts:413-462 | these touch only the player's row, and leave the players table as it was when they throw or the upsert fails |
| Reconcile.ResolveWrites | fetcher/src/index.ts:420-449 | when they complete, the player row holds the built columns and maps, `college_logo_path` null, a stored row keeping its id |
| Reconcile.IngestPlayer | fetcher/src/index.ts:305-463 | one player visit (uploads, reads, merges, resolves and upsert) gives the specified step |
| Reconcile.PlayerStepKeeps | fetcher/src/index.ts:305-462 | a player visit touches only that player's row and never loses a stored object |
| Reconcile.PlayerStepWrites | fetcher/src/index.ts:340-449 | a visit that completes writes the stored maps with `[seasonKey]` added where present, sources = stored ∪ {url}, the new image or else the stored one, `college_logo_path` null, and a stored row keeps its id |
| Reconcile.IngestPlayers | fetcher/src/index.ts:305-463 | the player loop runs the visits in order and stops at the first that throws |
| Reconcile.IngestPage | fetcher/src/index.ts:299-463 | a fetched page runs its parsed players under its class year and season key |
| Reconcile.RunPages | fetcher/src/index.ts:296-464 | the page loop runs the pages in order and stops at the first one that cannot be fetched or throws |
| Reconcile.Run | fetcher/src/index.ts:293-467 | `main`'s nested loops give the specified run |
| Reconcile.PageStepKeeps | fetcher/src/index.ts:296-463 | a page touches only the rows of the players it lists |
| Reconcile.ReconciledKeeps | fetcher/src/index.ts:293-467 | a run never removes a stored object or player row, keeps ids fresh, and leaves every player no fetched page lists as it was |
| Reconcile.RunStopsAtFetchFailure | fetcher/src/index.ts:296-298 | a page that cannot be fetched ends the run there; nothing after it is written |
| Pages.FetchHtml | src/ingest_hs_rankings.ts:43-47 | the page is read exactly when a response came with a status below 400, and then it is the body |
| Pages.LoginWallIgnoresCase | src/ingest_hs_rankings.ts:119 | a page is walled exactly when its lower-cased text is |
| Pages.LoginWallAt | fetcher/src/ingest_circuit_rankings.ts:107 | any of the three phrases anywhere, in any case, walls a page |
| Pages.FirstFailure | src/ingest_hs_rankings.ts:116-118 | the first page whose fetch throws, or none exactly when every page is read |
| Pages.FlatFromPages | src/ingest_hs_rankings.ts:116-125 | every aggregated row comes from a read, unwalled page, as parsed from its table |
| Pages.FlatHasPages | fetcher/src/ingest_circuit_rankings.ts:104-113 | every parsed row of every read, unwalled page is aggregated |
| HsTable.ParseHsTable | src/ingest_hs_rankings.ts:49-70 | the `rows.each` loop pushes the kept rows in table order |
| HsTable.TeamRowOfSpec | src/ingest_hs_rankings.ts:56-67 | a row is kept exactly when it is no founder row and its school text (name cell, else anchor) is not blank; the rank is null exactly when the rank text has no digit; the record and key wins are cells 2 and 3, undefined when blank |
| HsTable.TeamRowsSpec | fetcher/src/fetch_hs_rankings.ts:43-62 | the table yields the kept rows in order, at most one per row, each naming a school and none from a founder row |
| HsIngest.AddRows | src/ingest_hs_rankings.ts:125-141 | the row loop folds each row into its school's entry in turn |
| HsIngest.Aggregate | src/ingest_hs_rankings.ts:116-142 | the page loop gives the specified aggregate, or the error of a page that cannot be fetched |
| HsIngest.AggregatedFails | src/ingest_hs_rankings.ts:118 | the first page that cannot be fetched gives the run's error |
| HsIngest.AggregatedAll | src/ingest_hs_rankings.ts:116-142 | when every page is read, the aggregate is the rows of all pages folded in page order |
| HsIngest.NextPage | src/ingest_hs_rankings.ts:118-141 | a walled page leaves the map unchanged; otherwise its rows are folded in |
| HsIngest.AbsorbSpec | src/ingest_hs_rankings.ts:135-139 | a row writes only its season key's entries of ranks, records and key wins: the rank when not null, the record and key wins when not blank, each then holding the row's value; the logo only when none is set; its page joins the sources |
| HsIngest.FoldNames | src/ingest_hs_rankings.ts:126-128 | every entry is filed under its own school |
| HsIngest.FoldSchools | src/ingest_hs_rankings.ts:125-141 | the map holds exactly one entry per school some row names, each listed once in its order |
| HsIngest.FoldSources | src/ingest_hs_rankings.ts:139 | a school's sources are exactly the URLs of the pages that gave a row for it |
| HsIngest.FoldNoLogo | src/ingest_hs_rankings.ts:138 | a school none of whose rows has a logo has none |
| HsIngest.FoldFirstLogo | src/ingest_hs_rankings.ts:138 | the first logo seen for a school wins |
| HsIngest.FoldRankSet | src/ingest_hs_rankings.ts:135 | `ranks[k]` is set exactly when some row of that school and season k has a rank |
| HsIngest.FoldRankLast | src/ingest_hs_rankings.ts:135 | a set `ranks[k]` holds the rank of the last such row |
| HsIngest.FoldRecordSet | src/ingest_hs_rankings.ts:136 | `records[k]` is set exactly when some row of that school and season k has a non-blank record |
| HsIngest.FoldRecordLast | src/ingest_hs_rankings.ts:136 | a set `records[k]` holds the record of the last such row |
| HsIngest.FoldKeyWinsSet | src/ingest_hs_rankings.ts:137 | `key_wins[k]` is set exactly when some row of that school and season k has non-blank key wins |
| HsIngest.FoldKeyWinsLast | src/ingest_hs_rankings.ts:137 | a set `key_wins[k]` holds the key wins of the last such row |
| HsIngest.LogoPath | src/ingest_hs_rankings.ts:85-101 | no logo URL, or a failed download or upload, gives no path; a path is one newly stored under `hs_logos/` |
| HsIngest.WriteSchools | src/ingest_hs_rankings.ts:145-160 | the write loop writes the entries in the map's order |
| HsIngest.Ingest | src/ingest_hs_rankings.ts:112-163 | `main` gives the specified stores, or the error of the first page that cannot be fetched |
| HsIngest.AggregatedListed | src/ingest_hs_rankings.ts:114-145 | an aggregate's iteration order lists every school once |
| HsIngest.IngestFails | src/ingest_hs_rankings.ts:112-168 | the run fails exactly when some page cannot be fetched, with the first such URL, and then writes nothing |
| HsIngest.WriteSchoolSpec | src/ingest_hs_rankings.ts:146-159 | writing a school replaces its row with this run's maps, sources and the uploaded logo path (null when none), unless the upsert fails; the bucket gains only the logo |
| HsIngest.WriteAllKeeps | src/ingest_hs_rankings.ts:145-160 | a school not written, or whose upsert fails, keeps its stored row; no object is lost |
| HsIngest.WriteAllWrites | src/ingest_hs_rankings.ts:145-160 | a school written holds exactly this run's maps and sources, whatever was stored before |
| HsIngest.IngestedWrites | src/ingest_hs_rankings.ts:112-160 | after a run, a school named by a row of a read page is stored with this run's maps, its sources are exactly the pages naming it, unless its upsert failed |
| HsIngest.IngestedKeeps | src/ingest_hs_rankings.ts:112-160 | after a run, a school no row named keeps its stored row |
| CircuitIngest.CloseFrom | fetcher/src/ingest_circuit_rankings.ts:66 | `([^)]+)\)` ends at the first `)` and leaves the group non-empty |
| CircuitIngest.ParenAfter | fetcher/src/ingest_circuit_rankings.ts:66 | the rest of the parenthesis pattern, once the first group ends, is a genuine match of it |
| CircuitIngest.MatchParen | fetcher/src/ingest_circuit_rankings.ts:66 | what the matcher of `^(.*)\s*\(([^)]+)\)\s*(.*)$` returns is a match of the pattern |
| CircuitIngest.ParenAfterComplete | fetcher/src/ingest_circuit_rankings.ts:66 | once the first group ends, every match has the same parentheses, and the one found starts the third group as late as any |
| CircuitIngest.MatchParenGreedy | fetcher/src/ingest_circuit_rankings.ts:66 | the pattern matches whenever a match exists, and the match found has the longest first group |
| CircuitIngest.MatchLazy | fetcher/src/ingest_circuit_rankings.ts:76 | the lazy first group of `^(.*?)(…)?$` spans no line terminator |
| CircuitIngest.LazyMatchAt | fetcher/src/ingest_circuit_rankings.ts:76 | a placement word ending the text is split at its start: no shorter first group lets the rest match |
| CircuitIngest.NoEarlierPlacement | fetcher/src/ingest_circuit_rankings.ts:76 | no placement word ends with another, so no earlier alternative matches |
| CircuitIngest.NoParenNoMatch | fetcher/src/ingest_circuit_rankings.ts:66-74 | a text without `(` takes the fallback branch |
| CircuitIngest.SplitCell | fetcher/src/ingest_circuit_rankings.ts:62-81 | the `let team/circuit/placement` reassignments give the specified split |
| CircuitIngest.ParenRoundTrip | fetcher/src/ingest_circuit_rankings.ts:66-73 | `Team (Circuit) tail` splits into the trimmed team, the trimmed circuit, and the tail as placement exactly when it names one; the last pair of parentheses is the circuit |
| CircuitIngest.LazyRoundTrip | fetcher/src/ingest_circuit_rankings.ts:74-81 | `Team Placement` without parentheses splits off the placement, the team being the trimmed text before it, or the whole text when nothing precedes it |
| CircuitIngest.ParseCircuitTable | fetcher/src/ingest_circuit_rankings.ts:45-90 | the `rows.each` loop pushes the kept rows in table order |
| CircuitIngest.CircuitRowOfSpec | fetcher/src/ingest_circuit_rankings.ts:52-87 | a row is kept exactly when it is no founder row and its cell yields a team; the rank is null exactly when the rank text has no digit; record and key wins are cells 2 and 3, undefined when blank |
| CircuitIngest.CircuitRowsSpec | fetcher/src/ingest_circuit_rankings.ts:45-90 | the table yields the kept rows in order, at most one per row, each naming a team |
| CircuitIngest.AddRows | fetcher/src/ingest_circuit_rankings.ts:113-131 | the row loop folds each row into its team's entry in turn |
| CircuitIngest.Aggregate | fetcher/src/ingest_circuit_rankings.ts:104-132 | the page loop gives the specified aggregate, or the error of a page that cannot be fetched |
| CircuitIngest.AggregatedFails | fetcher/src/ingest_circuit_rankings.ts:106 | the first page that cannot be fetched gives the run's error |
| CircuitIngest.AggregatedAll | fetcher/src/ingest_circuit_rankings.ts:104-132 | when every page is read, the aggregate is the rows of all pages folded in page order |
| CircuitIngest.NextPage | fetcher/src/ingest_circuit_rankings.ts:106-131 | a walled page leaves the map unchanged; otherwise its rows are folded in |
| CircuitIngest.AbsorbSpec | fetcher/src/ingest_circuit_rankings.ts:124-129 | a row writes only its season key's entries of all four maps, and each exactly when its value is present (a rank not null, the strings not blank), then holding the row's value; the circuit only while blank; its page joins the sources |
| CircuitIngest.FoldNames | fetcher/src/ingest_circuit_rankings.ts:114-116 | every entry is filed under its own team |
| CircuitIngest.FoldTeams | fetcher/src/ingest_circuit_rankings.ts:113-131 | exactly one entry per team some row names, each listed once |
| CircuitIngest.FoldSources | fetcher/src/ingest_circuit_rankings.ts:129 | a team's sources are exactly the URLs of the pages that gave a row for it |
| CircuitIngest.FoldNoCircuit | fetcher/src/ingest_circuit_rankings.ts:117-124 | a team none of whose rows names a circuit has none |
| CircuitIngest.FoldFirstCircuit | fetcher/src/ingest_circuit_rankings.ts:117-124 | the first circuit seen for a team wins |
| CircuitIngest.FoldPlacementSet | fetcher/src/ingest_circuit_rankings.ts:128 | `placements[k]` is set exactly when some row of that team and season has a placement |
| CircuitIngest.FoldPlacementLast | fetcher/src/ingest_circuit_rankings.ts:128 | a set `placements[k]` holds the placement of the last such row |
| CircuitIngest.FoldRankSet | fetcher/src/ingest_circuit_rankings.ts:125 | `ranks[k]` of a team is set exactly when some row of that team and season k has a rank |
| CircuitIngest.FoldRankLast | fetcher/src/ingest_circuit_rankings.ts:125 | a set `ranks[k]` holds the rank of the last such row |
| CircuitIngest.FoldRecordSet | fetcher/src/ingest_circuit_rankings.ts:126 | `records[k]` is set exactly when some row of that team and season k has a non-blank record |
| CircuitIngest.FoldRecordLast | fetcher/src/ingest_circuit_rankings.ts:126 | a set `records[k]` holds the record of the last such row |
| CircuitIngest.FoldKeyWinsSet | fetcher/src/ingest_circuit_rankings.ts:127 | `key_wins[k]` is set exactly when some row of that team and season k has non-blank key wins |
| CircuitIngest.FoldKeyWinsLast | fetcher/src/ingest_circuit_rankings.ts:127 | a set `key_wins[k]` holds the key wins of the last such row |
| CircuitIngest.WriteTeams | fetcher/src/ingest_circuit_rankings.ts:134-149 | the write loop writes the entries in the map's order |
| CircuitIngest.Ingest | fetcher/src/ingest_circuit_rankings.ts:101-152 | `main` gives the specified database, or the error of the first page that cannot be fetched |
| CircuitIngest.AggregatedListed | fetcher/src/ingest_circuit_rankings.ts:102-134 | an aggregate's iteration order lists every team once |
| CircuitIngest.IngestFails | fetcher/src/ingest_circuit_rankings.ts:101-157 | the run fails exactly when some page cannot be fetched, with the first such URL, and then writes nothing |
| CircuitIngest.WriteAllKeeps | fetcher/src/ingest_circuit_rankings.ts:134-149 | a team not written, or whose upsert fails, keeps its stored row; no other table changes |
| CircuitIngest.WriteAllWrites | fetcher/src/ingest_circuit_rankings.ts:135-145 | a team written holds exactly this run's circuit, maps and sources |
| CircuitIngest.IngestedWrites | fetcher/src/ingest_circuit_rankings.ts:101-149 | after a run, a named team is stored with this run's maps, the circuit of its first row naming one, and exactly the pages naming it as sources, unless its upsert failed |
| CircuitIngest.IngestedKeeps | fetcher/src/ingest_circuit_rankings.ts:101-149 | after a run, a team no row named keeps its stored row |
| HsExport.CollectSeasons | fetcher/src/fetch_hs_rankings.ts:80-99 | the page loop, with its caught errors, gives the specified `perSeason` |
| HsExport.ReadPagesSpec | fetcher/src/fetch_hs_rankings.ts:82-98 | every readable page contributes, in page order, whatever the others do; a failing or walled page is skipped and the loop goes on |
| HsExport.LastSeasonWins | fetcher/src/fetch_hs_rankings.ts:92 | a later page of a season replaces the rows of an earlier one |
| HsExport.PerSeasonSpec | fetcher/src/fetch_hs_rankings.ts:81-99 | `perSeason` lists each season once, holds exactly the seasons of the pages read, and for each the rows of the last page read for it |
| HsExport.MergeBySchool | fetcher/src/fetch_hs_rankings.ts:65-78 | the nested loops and `Object.values` give the specified merged records |
| HsExport.MergeOne | fetcher/src/fetch_hs_rankings.ts:69-74 | the inner loop body creates the school's record if missing and then updates it |
| HsExport.UpdateSchool | fetcher/src/fetch_hs_rankings.ts:71-74 | the four assignments give the specified record update |
| HsExport.Values | fetcher/src/fetch_hs_rankings.ts:77 | `Object.values` lists the entries in their keys' order |
| HsExport.Export | fetcher/src/fetch_hs_rankings.ts:80-101 | `main` produces the specified combined records |
| HsExport.MergeRowWrites | fetcher/src/fetch_hs_rankings.ts:70-74 | each row writes its season's `seasons` entry always, and the record, key wins and logo only when not blank |
| HsExport.MergedSchools | fetcher/src/fetch_hs_rankings.ts:67-76 | one record per school some row names, filed under its name, each listed once |
| HsExport.ExportedDistinct | fetcher/src/fetch_hs_rankings.ts:65-78 | the exported records have distinct schools |
| HsExport.MergedSeasons | fetcher/src/fetch_hs_rankings.ts:71-74 | `seasons[k]` exists exactly when some row of the school is in season k and holds the last such row's rank or null; records, key wins and logos exist exactly when some such row has a non-blank value |
| HsExport.MergedRecordLast | fetcher/src/fetch_hs_rankings.ts:72 | a later row of the same school and season overwrites the record |
| HsExport.MergedKeyWinsLast | fetcher/src/fetch_hs_rankings.ts:73 | a later row of the same school and season overwrites the key wins |
| HsExport.MergedLogoLast | fetcher/src/fetch_hs_rankings.ts:74 | a later row of the same school and season overwrites the logo |
| HsExport.SeasonRowsFrom | fetcher/src/fetch_hs_rankings.ts:67-68 | every merged row comes from the season it is filed under |
| Grouping.FoldKeys | src/ingest_hs_rankings.ts:127-140 | a `Map` built by get-or-start and `set` has one entry per key seen, its iteration order listing each once |
| Grouping.FoldFieldSet | fetcher/src/ingest_circuit_rankings.ts:125-128 | an entry holds a per-season field exactly when one of its rows wrote it |
| Grouping.FoldFieldLast | fetcher/src/ingest_circuit_rankings.ts:125-128 | a per-season field holds what the last row writing it wrote |
| Truncate.DeleteRows | fetcher/src/truncate_all.ts:19-23 | a delete fails exactly when its table is failing, and then leaves it as it was |
| Truncate.DeleteTables | fetcher/src/truncate_all.ts:80-83 | the four awaited deletes give the specified ordered deletion |
| Truncate.DeleteOrderSpec | fetcher/src/truncate_all.ts:79-83 | the order is players, colleges, circuit_teams, high_schools; the first failing delete stops the run; every table before it keeps only id-0 rows, and it and every later table are unchanged |
| Truncate.Page | fetcher/src/truncate_all.ts:30-32 | a page holds at most 1000 names, and a short page is the last |
| Truncate.ListAllPaths | fetcher/src/truncate_all.ts:25-50 | the `while (true)` pagination gives the specified listing, or fails when a requested page fails |
| Truncate.ListingPaths | fetcher/src/truncate_all.ts:29-48 | a successful listing holds, in order, the path of every listed name not ending in `/`, and nothing else |
| Truncate.FailedBatchSpec | fetcher/src/truncate_all.ts:62-65 | the loop stops at the first batch whose remove fails, or runs to the end |
| Truncate.ChunksCover | fetcher/src/truncate_all.ts:61-66 | the batches cover the files exactly once, in order, each of 1 to 1000 paths |
| Truncate.RemoveAllUnder | fetcher/src/truncate_all.ts:52-71 | the batch loop, with its caught failure, gives the specified removal |
| Truncate.RemovalsSpec | fetcher/src/truncate_all.ts:54-70 | the remove calls are batches of 1 to 1000 making up the listed paths up to the first failing batch; none for an empty or failing listing; all paths when no batch fails |
| Truncate.ClearedSpec | fetcher/src/truncate_all.ts:86-89 | a failure under one prefix never stops the others; the bucket loses exactly the paths removed |
| Truncate.Truncate | fetcher/src/truncate_all.ts:10-97 | the script's top level and `main` give the specified end state |
| Truncate.TruncatedSpec | fetcher/src/truncate_all.ts:10-97 | exit code 0 exactly with credentials, confirmation (`--force` or `TRUNCATE_FORCE=1`) and no failing delete; without confirmation the database is untouched; on failure the bucket is untouched; on success every table keeps only id-0 rows and the bucket loses exactly the paths of the remove batches made (a prefix whose listing or remove fails is left as far as it got) |
| ImageUrl.ImageUrlFromPath | client/src/lib/api.ts:8-12 | there is no URL exactly when the path is missing or empty |
| ImageUrl.ImageUrlShape | client/src/lib/api.ts:10-11 | without a prefix the path comes back unchanged; with one, the URL is the prefix less one trailing `/`, a `/`, and the path less one leading `/` |
| ImageUrl.ImageUrlSeam | client/src/lib/api.ts:11 | a prefix ending in exactly one `/` and a path starting with exactly one `/` join with no `//` at the seam |

## Left out

- I/O is out of the model: HTTP (axios), the Supabase clients, `dotenv`, console logging and the JSON file writes of `fetch_hs_rankings.ts`. Each call's outcome is a parameter; `process.exit` codes appear only where the truncation script's result depends on them.
- cheerio and the DOM are out of the model: a row is its already-extracted texts, attributes and image sources, and a page is its list of rows.
- `slugify` and `crypto.randomUUID`: the generated file name stem is a parameter of each upload; nothing is claimed about name collisions.
- `new URL(url)`: whether it parses, and its `pathname`, are a parameter of the season key.
- `toLowerCase` and the `/i` flag are modelled for ASCII letters only.
- The `results` array, and the `collegeLogoPath` value that only feeds it (fetcher/src/index.ts:294, 324-338, 351, 418, 450-456), are left out: they are only logged. The logo upload itself is modelled.
- The three selects of the stored player row (fetcher/src/index.ts:343-410) are modelled as one read of the stored row, which either fails as a whole or succeeds as a whole.
- `source_urls` is a set: the order produced by `Array.from(new Set(...))` is not modelled.
- Reconcile.Fetched: axios's default status check is taken to be 2xx.
- Truncate.ListAllPaths: the listing of a prefix is a fixed sequence of names, and `list(prefix, {limit, offset})` returns its slice. Its relation to the bucket's contents, and the `id` and `metadata` no-ops, are not modelled.
- Truncate.RemoveAllUnder: a `remove` call that fails is taken to remove nothing.
- Assets.UploadIfNeeded: the storage service is taken to report back the path it was given, so `uploaded?.path ?? filePath` is always that path; a service that renames the object is not modelled.
- The credentials checks at the top of each script are a boolean; only truncation models the exit they cause.
- `main` and `upsertPlayer` of `src/index.ts` (conflict key `name,rank`, line 153) are not modelled. Only its `parsePlayers`, `bufferFromUrl` and `uploadIfNeeded` are. The player upsert that is modelled is the one with the `name` key (fetcher/src/index.ts:263).
- `src/ingest_all.ts` (child-process stage order) and `scripts/apply-schema.ts` (SQL sent to Postgres) are process plumbing and are not part of this model. The UI pages and components are not part of this model.
- Concurrent runs, and the read-modify-write race between them, are not modelled: each script runs alone.
- Object key order: the model keeps per-season maps as `map`, so the order of a JSON object's keys is not modelled. The first-insertion order of JavaScript `Map`s is modelled.
- HsExport.CollectSeasons: `perSeason` is a plain object, modelled in first-insertion order; season labels are assumed not to be integer-like (those `Object.entries` lists first, in numeric order) and not to be `__proto__`.
- HsExport.MergeBySchool: `merged` is a plain object; school names are assumed to be neither integer-like nor the name of an `Object.prototype` member (`constructor`, `toString`, `__proto__`, …). For such a name the source throws a `TypeError` outside the per-page `try` and writes no combined file, and integer-like names are listed first in numeric order; the model does neither.
- HsExport.MergeOne: `!merged[key]` is modelled as "no entry yet"; for a school named after an `Object.prototype` member it is false in the source, and the update that follows throws. The model creates the entry instead.
- HsExport.Values: `Object.values` is modelled as first-insertion order; the source lists integer-like school names (such as `42`) first, in ascending numeric order.
- Text.IntOfDigits: `parseInt` yields a double, so a digit string denoting 2^53 or more is rounded in JavaScript (and two different rank texts can then share a de-duplication key). The model reads the digits as an exact integer; rank digits are assumed to denote numbers below 2^53.
- PlayerTable.RankOfDecorated: exact only for ranks below 2^53, for the reason given for Text.IntOfDigits.
