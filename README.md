# anime-bot, modelled in Dafny

anime-bot is a Telegram bot. A user searches the locally cached AnimePahe
catalogue by a fuzzy score and picks a show from buttons. The user then picks
one episode, or sends an episode spec such as `1-3,5`. A background task
downloads each chosen episode from the provider and uploads it to a vault
channel with a thumbnail and a caption. Every upload is kept in a SQL
ledger, which backs the `/list` command. A read-only HTTP API is meant to
serve it as well, but its file routes fail at import as written (see
"## Left out"); the model follows their evident intent. A
retention sweep moves old downloads to an archive directory.

This project models the decision logic of that pipeline:

- the episode-spec grammar, its expansion and the episode picker;
- the fuzzy score and the catalogue-cache line format;
- stream parsing, stream selection and the staged download;
- the per-episode task loop and its progress debounce;
- one retention sweep;
- the ledger queries;
- the search/list ranking, button and payload helpers;
- the API's pagination arithmetic and alternative-title splitting.

Everything the code talks to becomes an input to the model:

- the provider, Telegram, SQL, the clock and the filesystem;
- each of them as a `Call<T>` (`Returns(value)` or `Raises(message)`), an
  `Option`, or a flag.

Effects become values:

- the task's status messages, uploads and deletions are an event trace;
- the downloader's directory operations are a list of filesystem effects;
- the sweep changes the `downloads` set and the `archive` map of a `Storage`
  object;
- the ledger appends to the record sequence of a `Store` object;
- the bot's per-chat session map is a field of a `Sessions` object.

Python text semantics are written out for ASCII:

- `strip`, `lower`, `upper`, `split`, `split(sep, 1)`, `"|".join` and
  `int()` (sign, digits, single underscores, surrounding white space);
- `quote_plus`/`unquote_plus`;
- `os.path.join`/`basename`;
- `list.sort` as a stable insertion sort (`Sorting.SortBy`), with an
  in-place array version (`Sorting.SortInPlace`) for the sorts that run on
  a list.

Modules, one file each:

- `Common`: Option, Call.
- `Text`, `Sorting`, `Constants`: shared helpers and constants.
- `EpisodeSpec`, `Fuzzy`, `CatalogCache`: `utils.py`.
- `Downloader`: `downloader.py`.
- `Tasks`: `tasks.py`.
- `Cleanup`: `cleanup.py`.
- `Ledger`: `db.py`.
- `Ranking` and `Bot`: `bot.py`.
- `ListCommand`: `commands/list.py`.
- `FilesApi`: `api/routes/files.py`.

Where the code and its documentation disagree, the model follows the code.
The places where this matters:

- the cache refresh is a no-op (the lambda at `utils.py:131` returns the
  bound method of the synchronous API client without calling it);
- the progress message is never sent (`tasks.py:128` does not await);
- the fallback stream records no quality or language;
- a `None` stream list fails with the `TypeError` text, not "No stream URL";
- every `/list` summary line reads "0 uploaded — langs: unknown".

## Model

| member | source | states |
|---|---|---|
| EpisodeSpec.ValidSpecIffRendered | src/anime_bot/utils.py:23-34 | a stripped text passes the grammar iff it is the rendering of a non-empty list of well-formed tokens `N` or `N-M`, joined by commas |
| EpisodeSpec.ValidIsRendered | src/anime_bot/utils.py:23-34 | a valid spec is exactly the rendering of the tokens its comma split parses to |
| EpisodeSpec.RenderIsValid | src/anime_bot/utils.py:23-34 | rendering any non-empty list of well-formed tokens yields a spec the grammar accepts |
| EpisodeSpec.RejectsEmpty | src/anime_bot/utils.py:23-34 | the empty text is rejected |
| EpisodeSpec.RejectsOpenRange | src/anime_bot/utils.py:23-34 | `1-` is rejected |
| EpisodeSpec.RejectsLetters | src/anime_bot/utils.py:23-34 | `a,b` is rejected |
| EpisodeSpec.RejectsTrailingComma | src/anime_bot/utils.py:23-34 | `1,` is rejected |
| EpisodeSpec.ValidSpecParses | src/anime_bot/utils.py:37-55 | every spec the grammar accepts is expanded without an exception |
| EpisodeSpec.NonEmptyStripped | src/anime_bot/utils.py:46 | the stripped, non-empty comma pieces contain no empty piece |
| EpisodeSpec.AddPart | src/anime_bot/utils.py:49-54 | adding a part puts exactly its range `a..b` into the set (nothing when `a > b`) and keeps the bounds that cover the set |
| EpisodeSpec.Collect | src/anime_bot/utils.py:46-54 | the loop over the parts fails iff some part does not parse as `int` or `int-int`; otherwise the set holds exactly the numbers some part covers |
| EpisodeSpec.SortedSet | src/anime_bot/utils.py:55 | `sorted(set)` is strictly ascending and holds exactly the set's members |
| EpisodeSpec.Expand | src/anime_bot/utils.py:37-55 | the expansion fails iff some part does not parse; otherwise it is strictly ascending and `n` is in it iff some part `a` equals `n` or some part `a-b` has `a <= n <= b` |
| EpisodeSpec.Numbers | src/anime_bot/utils.py:70 | `int(ep["episode"])` of every available episode, or failure iff one of them does not parse |
| EpisodeSpec.IndexFails | src/anime_bot/utils.py:70 | building the number index fails iff some episode number does not parse |
| EpisodeSpec.IndexLastWins | src/anime_bot/utils.py:70 | the index holds exactly the available numbers, and each maps to the last episode with that number |
| EpisodeSpec.BuildIndexLastWins | src/anime_bot/utils.py:70 | the dictionary comprehension keeps, for each number, the entry with the highest position |
| EpisodeSpec.SelectedFollowsDesired | src/anime_bot/utils.py:71-75 | the picked episodes follow the order of the desired numbers, skip those missing from the index, and are the indexed episodes |
| EpisodeSpec.PickEpisodes | src/anime_bot/utils.py:58-75 | the append loop fails iff the index fails, and otherwise returns the selection of the desired numbers |
| Fuzzy.GreedyIffSubsequence | src/anime_bot/utils.py:173-182 | the greedy cursor scan succeeds iff the query is an in-order subsequence of the title |
| Fuzzy.GreedyIffEmbedsFrom | src/anime_bot/utils.py:174-182 | the greedy scan from a cursor succeeds iff the query embeds in the title from that cursor |
| Fuzzy.FuzzyScore | src/anime_bot/utils.py:154-182 | the loop computes the score function |
| Fuzzy.ScoreSubstring | src/anime_bot/utils.py:166-171 | when the lower-cased query occurs in the lower-cased title, the score is `1000 - 2*i` for the first occurrence `i`, and it is `<= 0` iff `i >= 500` |
| Fuzzy.ScoreEmptyQuery | src/anime_bot/utils.py:170-171 | the empty query scores 1000 |
| Fuzzy.ScoreSubsequence | src/anime_bot/utils.py:173-182 | without a substring match the score is `10*len(query)` if the query is a subsequence of the title, and 0 otherwise |
| CatalogCache.FreshnessWindow | src/anime_bot/utils.py:113-122 | freshness holds only for a readable stamp, stops one day and one second after `mtime`, and once lost stays lost |
| CatalogCache.ParseLineMeaning | src/anime_bot/utils.py:140-145 | a line fails iff its stripped text has no `::::`; otherwise the session contains no delimiter and session, delimiter and title rebuild the stripped line |
| CatalogCache.ParseLineRoundTrip | src/anime_bot/utils.py:140-145 | a written line `session::::title` parses back to the entry when the session cannot hold the delimiter and the line has no outer blanks |
| CatalogCache.ColonSlugDoesNotRoundTrip | src/anime_bot/utils.py:142 | a session ending in a colon moves that colon into the title: `a:` + `::::x` reads back as `a` and `:x` |
| CatalogCache.ReadCache | src/anime_bot/utils.py:138-146 | the reader fails iff the file is empty or some line has no delimiter; otherwise it yields one parsed entry per line, in order |
| CatalogCache.LoadFromCache | src/anime_bot/utils.py:78-152 | a refresh is requested iff the cache is not fresh, yet the result does not depend on it; a missing file or a read error gives `[]`, otherwise the parsed entries or `[]` |
| Downloader.OrNone | src/anime_bot/downloader.py:99-101 | `x or None`: kept iff it is a non-empty string |
| Downloader.RawStream | src/anime_bot/downloader.py:97-105 | a button's stream carries its resolution, or `"0"` when the resolution is missing or empty |
| Downloader.ParseButtons | src/anime_bot/downloader.py:94-122 | one stream per button, in button order, each with its parsed quality value |
| Downloader.UnparsedQualityIsZero | src/anime_bot/downloader.py:117-122 | a quality that does not parse as `int` gets `quality_val` 0 and keeps its text |
| Downloader.RawStreams | src/anime_bot/downloader.py:94-105 | the append loop yields one stream per button, in order |
| Downloader.AddQualities | src/anime_bot/downloader.py:117-122 | the loop sets each stream's `quality_val` in place of position |
| Downloader.StreamsSorted | src/anime_bot/downloader.py:125 | the sorted streams are ascending by quality value, a permutation of the parsed ones, and stable among equal values |
| Downloader.GetStreamQualities | src/anime_bot/downloader.py:74-127 | `None` iff the response is falsy or has no buttons; otherwise the parsed streams sorted by quality value |
| Downloader.WithAudio | src/anime_bot/downloader.py:164-166 | the streams whose audio is the requested one, and nothing when none is |
| Downloader.CandidatesMeaning | src/anime_bot/downloader.py:164-169 | the soft audio filter keeps the matching streams when there are any and all streams otherwise, so it never empties a non-empty pool |
| Downloader.SelectStream | src/anime_bot/downloader.py:176-187 | the `for`/`break` loop makes the same choice as the selection function |
| Downloader.ChooseMeaning | src/anime_bot/downloader.py:176-187 | by position: no stream iff no candidates; otherwise the first candidate at or above the target, with its quality and language, or the last candidate with no quality and no language when none qualifies |
| Downloader.WithAudioSorted | src/anime_bot/downloader.py:164 | filtering a pool in quality order by audio keeps it in quality order |
| Downloader.CandidatesSorted | src/anime_bot/downloader.py:164-169 | the soft audio filter keeps a pool in quality order |
| Downloader.ChooseCheapest | src/anime_bot/downloader.py:176-187 | on candidates in quality order, a stream at or above the target is the cheapest such candidate, and the fallback is a best candidate |
| Downloader.SelectionCheapest | src/anime_bot/downloader.py:159-187 | for a page with streams, a stream is always chosen from the page's buttons; at or above the target it is the cheapest candidate that reaches it, otherwise every candidate is below the target and none beats the fallback |
| Downloader.FirstAtLeast | src/anime_bot/downloader.py:179-184 | the index of the first candidate whose quality value reaches the target, or none if none does |
| Downloader.OutputPathInDownloadDir | src/anime_bot/downloader.py:251-252 | the output file is `<title with / replaced by _>_ep<N>.mp4` joined to the download directory |
| Downloader.VideosFound | src/anime_bot/downloader.py:254-262 | the fallback finds a video iff some file in the temporary directory ends in `.mp4` or `.mkv` |
| Downloader.VideosFirst | src/anime_bot/downloader.py:254-262 | the fallback takes the first such file in listing order |
| Downloader.Prelude | src/anime_bot/downloader.py:159-209 | the stages before the temporary directory, on the episode page's sorted streams: the page exception, the `None` stream list of a falsy or button-less page, the non-numeric quality, "No stream URL", the playlist exception and "No playlist URL", in that order |
| Downloader.DownloadEpisode | src/anime_bot/downloader.py:129-282 | the whole staged download: each early exit with its reason and no effects, `None` iff the quality is not a number, and the outcome in the temporary directory |
| Downloader.InTempDir | src/anime_bot/downloader.py:212-279 | the stages inside `try/finally`: playlist, segments, compile with the video fallback, success; every path ends by removing the temporary directory |
| Downloader.StagedSuccess | src/anime_bot/downloader.py:245-279 | success means the full result with the output path and no reason, reached only after the playlist path, the segments and a compile (or a moved video); failure means no path, quality 0 and a reason |
| Tasks.EpisodeNumbers | src/anime_bot/tasks.py:83 | the starting message lists the episode numbers in task order |
| Tasks.Run | src/anime_bot/tasks.py:68-176 | the episode loop emits exactly the trace of the run function and finishes iff no episode raised outside a `try` |
| Tasks.RunFrame | src/anime_bot/tasks.py:83-176 | the trace opens with "Starting task", ends with "Task finished." when the run finishes, and holds no "Task finished." when it aborts |
| Tasks.EpisodesInOrder | src/anime_bot/tasks.py:84-174 | a finished run's trace is the concatenation of the episodes' blocks in list order |
| Tasks.EpisodeOpens | src/anime_bot/tasks.py:85-92 | each episode that does not raise opens with "Preparing to download ep N" followed by the provider call |
| Tasks.NoEpisodeRaised | src/anime_bot/tasks.py:84-174 | in a finished run no single episode raised |
| Tasks.DownloadFailureIsolated | src/anime_bot/tasks.py:93-97 | a failed download emits the failure message and a pause and nothing else: no upload, record or removal |
| Tasks.ExactlyOneVerdict | src/anime_bot/tasks.py:110-158 | a downloaded episode gets exactly one of "Uploaded" or "Upload failed", and "Uploaded" iff the upload returned, whatever the ledger insert does |
| Tasks.UploadVerdict | src/anime_bot/tasks.py:111-158 | the upload block holds exactly one verdict, "Uploaded" iff the upload returned |
| Tasks.CleanupAfterUpload | src/anime_bot/tasks.py:160-171 | thumbnail removal is always attempted; the media file is removed iff deletion is configured, the path is non-empty and the file exists |
| Tasks.ScreenshotAtHalfDuration | src/anime_bot/tasks.py:100-108 | the thumbnail is taken at half the duration, with duration 0 when the metadata has none |
| Tasks.UploadTarget | src/anime_bot/tasks.py:136-144 | every upload goes to the vault channel with the caption `<title> - Episode N` and the uploader line, and with the thumbnail |
| Tasks.PercentBounds | src/anime_bot/tasks.py:120 | the percent is at most 100, and 100 iff all bytes are sent (for a non-zero total) |
| Tasks.DebounceMeaning | src/anime_bot/tasks.py:121-124 | completion always fires; an unfinished transfer never fires within the interval |
| Tasks.ProgressMeter.Tick | src/anime_bot/tasks.py:115-126 | fires iff (`dt >= 5` and `dpercent >= 5`) or the percent is 100; the state changes only when it fires, and then to the current time and percent |
| Tasks.ProgressMeter.constructor | src/anime_bot/tasks.py:115 | the debounce state starts at time 0 and percent 0 |
| Cleanup.FateOf | src/anime_bot/cleanup.py:40-55 | a file is skipped iff its mtime cannot be read, kept iff it is not old enough, archived iff eligible and the move works, deleted iff the move fails and the removal works, and stuck otherwise |
| Cleanup.Storage.constructor | src/anime_bot/cleanup.py:20-32 | the storage holds the given download tree, archive, archive directory and retention |
| Cleanup.Storage.Sweep | src/anime_bot/cleanup.py:35-57 | one pass over the walk leaves the tree of the sweep function |
| Cleanup.Storage.Loop | src/anime_bot/cleanup.py:34-61 | the loop leaves the tree of its cycles, each with its own walk and one `now` |
| Cleanup.ClearedMeaning | src/anime_bot/cleanup.py:37-55 | a path leaves the download tree iff some listed file at that path is archived or deleted |
| Cleanup.OnlyStuckRemain | src/anime_bot/cleanup.py:37-55 | an eligible file is still in the tree after a sweep only if both its move and its removal failed |
| Cleanup.YoungUntouched | src/anime_bot/cleanup.py:44-45 | a path with no eligible listing stays or stays absent, and no archive entry newly names it |
| Cleanup.ArchiveSources | src/anime_bot/cleanup.py:46-49 | every archive entry after a sweep is an old entry or the last archived file with that basename |
| Cleanup.ArchiveLastWins | src/anime_bot/cleanup.py:46-49 | an archived file not overwritten later in the walk is at `archive_dir/<basename>` afterwards |
| Cleanup.SameNameOverwrites | src/anime_bot/cleanup.py:46-48 | two archived files with the same basename leave only the second in the archive |
| Cleanup.StopEndsLoop | src/anime_bot/cleanup.py:34 | the cycles after a set stop event have no effect |
| Cleanup.LoopOnlyShrinks | src/anime_bot/cleanup.py:34-61 | the sweep never adds a file to the download tree |
| Ledger.NewRecord | src/anime_bot/db.py:64-76 | the record holds the given fields, with the vault chat and message equal to the uploaded ones |
| Ledger.Store.constructor | src/anime_bot/db.py:24-33 | an empty ledger whose first id is 1 |
| Ledger.Store.Insert | src/anime_bot/db.py:36-80 | a record with a quality is appended with the next id and nothing else changes; a missing quality is refused by the NOT NULL column and changes nothing |
| Ledger.Latest | src/anime_bot/db.py:83-101 | none iff no record matches title and episode; otherwise a matching record with the greatest `created_at` |
| Ledger.InsertedIsLatest | src/anime_bot/db.py:83-101 | a record inserted no earlier than every other is the latest of its title and episode |
| Ledger.OfTitle | src/anime_bot/db.py:117 | exactly the records with that title |
| Ledger.OfTitleCount | src/anime_bot/db.py:117 | each record of the title is kept as often as it is stored, and no record of another title is kept |
| Ledger.OfTitleConcat | src/anime_bot/db.py:117 | the title filter keeps insertion order: filtering a concatenation concatenates the filtered parts |
| Ledger.ListForAnimeMeaning | src/anime_bot/db.py:104-122 | only records of the title, in non-decreasing episode order, `min(limit, count)` of them |
| Ledger.ListForAnimeLowest | src/anime_bot/db.py:118-119 | the listed records are the lowest episodes: together with the cut-off tail they are all the title's records, and none in the tail precedes them |
| Ledger.ListForAnimeDefault | src/anime_bot/db.py:104 | the default listing has at most 50 records |
| Ledger.DistinctTitles | src/anime_bot/db.py:125-134 | each title in the ledger exactly once, and nothing else |
| Ledger.DatabasePathMeaning | src/anime_bot/db.py:27 | the sqlite path is a `///`-free suffix of the URL directly preceded by a `///` (the one the left-to-right split ends on, see `Ledger.FourSlashes`), or the whole URL when there is none |
| Ledger.DirName | src/anime_bot/db.py:28 | `os.path.dirname`: a prefix of the path, empty iff the path has no slash, separated from the base name by slashes only, and not ending in a slash unless it is all slashes |
| Ledger.AbsoluteDirName | src/anime_bot/db.py:28 | `os.path.dirname("/a/b") == "/a"` |
| Ledger.DatabaseDir | src/anime_bot/db.py:26-30 | a directory is created iff the URL is a sqlite one and its database path holds a slash, and it is the `dirname` of that path |
| Ledger.FourSlashes | src/anime_bot/db.py:27-28 | `sqlite:////a/b` has the path `/a/b` and the directory `/a`, because the split breaks at the first `///` it meets |
| Ranking.PositiveMeaning | src/anime_bot/bot.py:92-97 | the scored list holds exactly the entries with a positive score, each with that score |
| Ranking.ScoreAll | src/anime_bot/bot.py:92-97 | the append loop builds the positive scored list |
| Ranking.RankedMeaning | src/anime_bot/bot.py:101-102 | the ranking keeps `min(limit, count)` positive entries in non-increasing score order |
| Ranking.RankedCutoff | src/anime_bot/bot.py:101-102 | the ranking is the best-scored part: no cut-off entry outscores a kept one, and kept plus cut-off are all positives |
| Ranking.RankedStable | src/anime_bot/bot.py:101-102 | among equal scores the ranking keeps cache order |
| Ranking.ItemsOf | src/anime_bot/commands/list.py:52 | the titles of the scored pairs, in order |
| Bot.TopEntriesMeaning | src/anime_bot/bot.py:92-102 | at most 8 results, each from the cache with a positive score |
| Bot.TopResults | src/anime_bot/bot.py:92-102 | the scoring loop and the sort compute the top entries |
| Bot.Label | src/anime_bot/bot.py:108 | the title when shorter than 30, otherwise its first 27 characters and `...`, 30 in all |
| Bot.SelectRoundTrip | src/anime_bot/bot.py:110-121 | `SELECT` plus the session splits back to the session iff the session holds no bar |
| Bot.ResultButtons | src/anime_bot/bot.py:104-111 | one button per result, with the label and the select payload |
| Bot.SearchButtons | src/anime_bot/bot.py:104-111 | the button loop raises iff some result has an empty title, and otherwise yields the result buttons |
| Bot.Search | src/anime_bot/bot.py:71-113 | a failed load gives its error, an empty cache the no-results reply, otherwise the buttons of the top entries for the stripped query |
| Bot.FirstWithSession | src/anime_bot/bot.py:126-131 | the first cache entry with that session, or none if none has it |
| Bot.LookupTitle | src/anime_bot/bot.py:126-131 | the lookup loop returns the title that lookup defines |
| Bot.DownloadTitle | src/anime_bot/bot.py:264-275 | `/download` uses the looked-up title, and the slug when there is none |
| Bot.MenuButtons | src/anime_bot/bot.py:153-157 | buttons for the first 20 episodes only, in order |
| Bot.EpisodeButtons | src/anime_bot/bot.py:153-157 | the append loop builds those buttons |
| Bot.Chunks | src/anime_bot/bot.py:160 | the number of rows is the button count divided by 5, rounded up |
| Bot.ChunksMeaning | src/anime_bot/bot.py:160 | every row holds 1 to 5 buttons and the rows concatenate to the button list |
| Bot.ChunksPrefix | src/anime_bot/bot.py:160 | the first `k` rows hold the first `5k` buttons |
| Bot.Keyboard | src/anime_bot/bot.py:160-163 | the chunked rows followed by exactly the two helper rows |
| Bot.PickRoundTrip | src/anime_bot/bot.py:155-177 | an episode button's payload splits back to its episode number |
| Bot.Picks | src/anime_bot/bot.py:259 | the ascending positions of exactly the wanted episode numbers |
| Bot.Chosen | src/anime_bot/bot.py:259 | the comprehension raises iff some episode number does not parse as `int` |
| Bot.FilteredMeaning | src/anime_bot/bot.py:259 | the comprehension keeps exactly the episodes whose number is wanted, at ascending positions, so in provider order |
| Bot.EpisodeLines | src/anime_bot/bot.py:212 | one `Ep N` line per stored episode, in order |
| Bot.FirstNumbered | src/anime_bot/bot.py:185-188 | the first stored episode whose number text equals the picked one |
| Bot.Sessions.constructor | src/anime_bot/bot.py:146-150 | the session store starts empty |
| Bot.Sessions.Select | src/anime_bot/bot.py:115-170 | a bad payload, a failed load, a failed fetch and an empty list each give their reply and leave the store alone; otherwise the menu of the fetched episodes, with the chat's entry overwritten |
| Bot.Sessions.Pick | src/anime_bot/bot.py:172-202 | a bad payload, an expired chat and an unknown number each give their reply; otherwise one queued task of that episode with the defaults "360" and "jpn" |
| Bot.Sessions.ListAll | src/anime_bot/bot.py:204-216 | no text iff the chat has no session, otherwise the truncated episode list |
| Bot.Sessions.SpecMessage | src/anime_bot/bot.py:291-325 | outside the flow nothing happens; an invalid spec is refused before anything else; a raising comprehension, an empty choice and a queued task of the chosen episodes are told apart |
| Bot.ChooseEpisodes | src/anime_bot/bot.py:258-262 | the expansion and the comprehension compute the chosen episodes in provider order |
| Bot.Download | src/anime_bot/bot.py:232-289 | an invalid spec is refused before any provider call; a failed or empty fetch, a raising choice, an empty choice and a failed title load get their replies; otherwise a task with the title or the slug |
| ListCommand.QuoteRoundTrip | src/anime_bot/commands/list.py:74-94 | `unquote_plus(quote_plus(t)) == t`, and the quoted title holds no bar |
| ListCommand.UploadLines | src/anime_bot/commands/list.py:100 | one `Ep N — file (date)` line per record, in order |
| ListCommand.DetailText | src/anime_bot/commands/list.py:101-103 | the detailed text never exceeds 4000 characters |
| ListCommand.UnfilledSummary | src/anime_bot/commands/list.py:60-72 | with no languages counted, a summary line reads `<title> — 0 uploaded — langs: unknown` |
| ListCommand.ViewButtons | src/anime_bot/commands/list.py:74-75 | one "View uploads" button per title, with its quoted payload |
| ListCommand.SummaryLines | src/anime_bot/commands/list.py:55-72 | one unfilled summary line per title |
| ListCommand.SummaryText | src/anime_bot/commands/list.py:76-78 | the summary message never exceeds 4000 characters |
| ListCommand.TopTitlesMeaning | src/anime_bot/commands/list.py:41-52 | at most 10 ledger titles, each with a positive score, in non-increasing score order |
| ListCommand.BestTitles | src/anime_bot/commands/list.py:51-52 | the sort and slice yield the titles of the 10 best-scored pairs |
| ListCommand.Summary | src/anime_bot/commands/list.py:55-79 | the summary loop builds the summary text and the buttons |
| ListCommand.List | src/anime_bot/commands/list.py:19-79 | a non-empty exact listing (limit 200) is shown and the fuzzy path skipped; no candidates gives the no-candidates reply; otherwise the summary and the buttons of the top titles |
| ListCommand.ByTitle | src/anime_bot/commands/list.py:88-93 | the payload is invalid iff it holds no bar |
| ListCommand.ViewRoundTrip | src/anime_bot/commands/list.py:82-107 | the button of a title lists that title's uploads (limit 500), or says there are none |
| FilesApi.NonEmpty | src/api/routes/files.py:89 | only non-empty pieces are kept, and all pieces when none is empty |
| FilesApi.NonEmptyMembers | src/api/routes/files.py:89 | a text is kept iff it is a non-empty piece, exactly as often as it occurs among the pieces |
| FilesApi.NonEmptyConcat | src/api/routes/files.py:89 | the filter keeps the pieces' order: filtering a concatenation concatenates the filtered parts |
| FilesApi.AltTitles | src/api/routes/files.py:129-132 | `None` or `""` gives `[]`; otherwise a title is listed iff it is a non-empty piece of the bar split; every title is non-empty and holds no bar |
| FilesApi.AltTitlesRoundTrip | src/api/routes/files.py:89 | joining non-empty, bar-free titles with bars and splitting gives them back |
| FilesApi.AltTitlesJoin | src/api/routes/files.py:89 | a text with no empty piece is rebuilt by joining its alternative titles |
| FilesApi.Item | src/api/routes/files.py:89-90 | the anime item carries the id, the title and the split alternative titles |
| FilesApi.Window | src/api/routes/files.py:75-80 | `OFFSET`/`LIMIT`: at most `size` rows from the offset on, none past the end |
| FilesApi.HasNextMeaning | src/api/routes/files.py:96 | `has_next` holds iff the next page is non-empty |
| FilesApi.PageExact | src/api/routes/files.py:75-79 | a page is the rows from the offset on: `page_size` of them, the rest when fewer are left, and none past the end |
| FilesApi.RowOnPage | src/api/routes/files.py:75 | every row lies on exactly the page its index gives, at the right place |
| FilesApi.PagesDisjoint | src/api/routes/files.py:75 | earlier pages end before later ones start |
| FilesApi.SortedPage | src/api/routes/files.py:76-80 | a page of the sorted rows is sorted and holds only listed rows |
| FilesApi.Joined | src/api/routes/files.py:59-68 | the join keeps exactly the files with a known anime matching the title filter (case-blind substring) and the episode filter (exact) |
| FilesApi.Entries | src/api/routes/files.py:87-93 | one response entry per row, with the anime item |
| FilesApi.ListFiles | src/api/routes/files.py:35-43 | a request is refused iff the page or page size is out of range or the episode filter is below 1 |
| FilesApi.ListFilesMeaning | src/api/routes/files.py:35-104 | a valid request gives at most `page_size` items that pass the filters, newest first, with the filtered total and `has_next` |
| FilesApi.ListFilesExact | src/api/routes/files.py:70-104 | the page holds exactly `min(page_size, total - offset)` entries (none past the end), entry `k` being match `offset + k` of the newest-first ordering |
| FilesApi.OfAnime | src/api/routes/files.py:278-283 | exactly the files of that anime |
| FilesApi.ListEpisodes | src/api/routes/files.py:247-275 | a request is refused iff the page is out of range, and not found iff the anime is unknown |
| FilesApi.ListEpisodesMeaning | src/api/routes/files.py:247-297 | a known anime gives at most `page_size` of its files in episode order, with its item, the total and `has_next` |
| FilesApi.ListEpisodesExact | src/api/routes/files.py:282-297 | the page holds exactly `min(page_size, total - offset)` files (none past the end), file `k` being file `offset + k` of the anime's files by ascending episode |
| FilesApi.FirstFile | src/api/routes/files.py:196-209 | the first file with that id and a known anime, or none |
| FilesApi.GetFile | src/api/routes/files.py:176-244 | not found iff no file with that id has a known anime; otherwise that file with its anime item |
| Sorting.SortByIsSortedPermutation | src/anime_bot/downloader.py:125 | the stable sort is ordered by key and is a permutation of its input |
| Sorting.SortByIsStable | src/anime_bot/bot.py:101-102 | among equal keys the sort keeps input order |
| Sorting.InsertAt | src/anime_bot/downloader.py:125 | one insertion step places `a[i]` into the sorted prefix in place and leaves the rest |
| Sorting.SortInPlace | src/anime_bot/downloader.py:125 | the in-place sort leaves exactly the stable sort of the old array |
| Sorting.Take | src/anime_bot/bot.py:102 | a slice `[:n]`: the first `min(n, len)` elements |
| Text.Lower | src/anime_bot/utils.py:166-167 | `lower()` maps each ASCII capital to its small letter and keeps every other character |
| Text.Upper | src/anime_bot/commands/list.py:68 | `upper()` maps each ASCII small letter to its capital and keeps every other character |
| Text.LStrip | src/anime_bot/utils.py:34 | the suffix after the leading white space |
| Text.RStrip | src/anime_bot/utils.py:34 | the prefix before the trailing white space |
| Text.StripTwice | src/anime_bot/bot.py:304 | stripping is idempotent |
| Text.FindSub | src/anime_bot/utils.py:170-171 | `find` gives the first occurrence, or none when there is none |
| Text.Split | src/api/routes/files.py:89 | `split(c)` yields at least one piece, none holding `c` |
| Text.JoinSplit | src/api/routes/files.py:89 | joining the pieces of `split(c)` with `c` gives back the text |
| Text.SplitJoin | src/anime_bot/bot.py:110-121 | splitting a join of `c`-free pieces gives back the pieces |
| Text.SplitMax | src/anime_bot/utils.py:50 | `split(c, n)` yields at most `n+1` pieces, only the last may hold `c` |
| Text.SplitOnce | src/anime_bot/commands/list.py:90 | `split(sep, 1)` has one piece iff the separator is absent, else the text before its first occurrence and the rest |
| Text.Truncate | src/anime_bot/bot.py:213-215 | within the limit the text is kept; beyond it, its first `keep` characters and the marker |
| Text.ReplaceChar | src/anime_bot/downloader.py:251 | `replace(a, b)` on one character |
| Text.PathJoin | src/anime_bot/cleanup.py:46 | `os.path.join`: an absolute second part wins, otherwise one slash between the parts |
| Text.BaseNameMeaning | src/anime_bot/cleanup.py:46 | the basename is the slash-free suffix after the last slash |
| Text.PyIntDigits | src/anime_bot/utils.py:54 | `int()` of a digit string is its decimal value |
| Text.PyIntDecimal | src/anime_bot/utils.py:54 | `int(str(n)) == n` |
| Text.GroupsValue | src/anime_bot/utils.py:54 | `int()` accepts a body iff it is digit groups joined by single underscores |

## Left out

- Text: white space, `lower`, `upper` and `\d` follow ASCII only; Unicode case folding and Unicode digits are not modelled.
- ListCommand.QuoteRoundTrip: quoting passes non-ASCII characters through unchanged instead of percent-encoding their UTF-8 bytes, and unquoting maps a byte above 0x7F to U+FFFD; the round trip is proved for this ASCII model only.
- FilesApi.Joined: the `ilike` pattern is modelled as a case-blind substring test, so `%` and `_` inside the filter are not wildcards.
- Ledger.ListForAnimeMeaning: the order among records with the same episode is insertion order; SQL leaves such ties unspecified.
- Ledger.DistinctTitles: titles come in first-appearance order; `SELECT DISTINCT` has no fixed order.
- Ledger.Latest: among matching rows with the same `created_at`, the model returns the one inserted last; the query leaves that order to the database. Ledger.InsertedIsLatest relies on this tie rule when the new row's `created_at` equals an older one's.
- FilesApi.ListFilesExact / FilesApi.ListEpisodesExact: rows with equal `created_at` (for the file listing) or equal `episode` (for the episode listing) keep their input order in the model, because `SortBy` is stable; the SQL `ORDER BY` leaves the order of such ties to the database, so OFFSET/LIMIT pages over a tie may repeat or skip rows there. The two Exact lemmas, FilesApi.RowOnPage and FilesApi.PagesDisjoint as applied to these listings, and the order clauses of FilesApi.ListFilesMeaning / FilesApi.ListEpisodesMeaning rely on this tie rule.
- Episode numbers: the provider's `episode` field is taken as its decimal text and read with `int()` semantics on strings; a float episode number such as 12.5, which `int()` would truncate to 12, is outside the model (its text does not parse, so the model raises).
- FilesApi: `api/routes/files.py` fails at import as written. Line 28 imports `Anime` from `anime_bot/models.py`, which defines only `UploadedFile` and has no `anime_id` column. Lines 14-20 import `AnimeTitleItem`, which `api/schemas.py` does not define. `api/main.py` mounts this router, so the API process does not start and none of its routes run. The model follows the routes' evident intent over an assumed `Anime` table and a per-file anime id (`FilesApi.FileRow.animeId`), which `Ledger.Record` does not have. The response schemas, which also disagree with their call sites, are not modelled.
- Downloader: `get_playlist_url` is called with the selected stream's `url`, and `download_playlist` with the playlist URL. The provider's answers are inputs, and the model does not relate them to those arguments.
- `list_anime_titles` (files.py:107-139): only its alt-title split is modelled, not the ORDER BY title listing; `get_stats`' SQL aggregation is not modelled.
- ListCommand.UploadLines: the `%Y-%m-%d %H:%M` date formatting is an input function.
- The `/list` loop's per-title query with limit 1000 (list.py:58) is not modelled, because its result is never used.
- `send_spec_callback` (bot.py:219-230) and `get_command` (bot.py:327-359) are Telegram I/O only: prompts, forwarding and the re-upload fallback.
- Telegram message edits, replies and alerts are modelled as reply values. The 64-byte callback-data limit and the handlers' regex routing are not modelled.
- Tasks.Percent uses integer floor division where Python divides floats.
- Tasks.ScreenshotAtHalfDuration: the duration is a `real`, not a float.
- The clock is an input. The sleeps (`rate_limit_seconds`, the cleanup `wait_for` interval) are left out, or modelled only as a pause event.
- Concurrency is not modelled: `asyncio.create_task`, the upload semaphore in `uploader.py` and scheduling. Neither are Redis, the start-token commands, the API's authentication and plumbing.
- Downloader: the dead `download_episode_async` branch is left out, because it is always `None`.
- Downloader: the HTML scraping of the stream buttons is left out; the button list is an input.
- Downloader: ffmpeg, `take_screen_shot` and the `makedirs` of the download directory are left out; their outcomes are inputs.
- Tasks: the status callback is always present, and each status call may raise, which is swallowed.
- Tasks: the starting message lists the episode numbers as text and leaves out the Python list `repr`.
- Tasks.Run: the hachoir metadata call at tasks.py:100 sits outside any `try`. The model keeps that: a raising metadata call aborts the whole run. The metadata library itself is not modelled.
- Cleanup: the `makedirs` calls are left out. A failing walk is modelled as a cycle whose walk is the files reached before the error; those are handled as usual, and the error then ends that cycle only.
- Ledger.DatabaseDir: only the directory path of `init_db` is modelled, not the existence check, `makedirs` or the table creation.
- CatalogCache: the refresh download itself is not modelled, because the code never calls it.
- CatalogCache.ColonSlugDoesNotRoundTrip: a session ending in `:` does not read back. This quirk of the line format is kept as written.
- Bot.Download: `fetch_episodes` is called with the slug as both name and slug. The provider's answer is an input, and the model does not relate it to the call's arguments.
- Bot.SearchButtons: a search result with an empty title and no name makes the label code call `len(None)`. The resulting `TypeError` is modelled as the `LabelCrash` reply, as written.
- Ledger.Store.Insert: a missing episode quality comes from the fallback stream, and the NOT NULL column rejects it. The model refuses the insert and leaves the ledger unchanged; the reply the task then sends is in the `Tasks` trace.
- Bot.Chosen: its contract states only when the comprehension raises; which episodes it keeps is stated by `Bot.FilteredMeaning` and `Bot.Picks`.
