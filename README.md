# tele-strem: filename parser, cache eviction and download slots in Dafny

This project models the logic at the centre of the Telegram-to-Stremio streaming add-on in `main.py`:

- `MediaParser.parse_filename` turns a media file name into a title, a year, a quality and a movie/series type.
  - Each of its regular expressions is written as a matcher that follows Python's `re` backtracking order.
  - `re.search` becomes the leftmost hit.
  - `re.sub(p, '', s)` removes non-overlapping hits left to right.
- `CacheManager.cleanup_cache` sums the cache, and when the total is over the maximum it unlinks the oldest files until the running size is at most 80% of the maximum.
- `CacheManager.get_cache_path` builds `<dir>/<key>.cache`.
- `RateLimiter` counts downloads in flight.
  - `acquire_download_slot` waits for a free slot.
  - `release_download_slot` gives one back, never going below zero.
- `TelegramStreamer`:
  - `_process_message` builds the catalog entry, whose id is `tg:<type>:<chat>:<message>`.
  - `stream_file` picks the cache, a download that is also cached, or a plain download, around its download slot.

The code in `main.py` is followed throughout. The one limiter the code has is the single-client `RateLimiter` above.

The modules are as follows:
- `text.dfy` (`Text`) holds:
  - the character classes as Python's `re` and `str` see them;
  - decimal text, as `str(int)` writes it, and its parser.
- `patterns.dfy` (`Patterns`) holds the seven fixed patterns, `re.search` and `re.sub`.
- `media_parser.dfy` (`MediaParser`) holds `parse_filename` and its parts.
- `parser_cases.dfy` (`ParserCases`) gives concrete names and what the parser makes of them.
- `cache_manager.dfy` (`CacheManager`) holds the cache path, the oldest-first sort and the eviction loop.
- `rate_limiter.dfy` (`RateLimiting`) holds the `RateLimiter` class.
- `streamer.dfy` (`Streamer`) holds the catalog id, message processing and the source choice of `stream_file`.

## Model

| member | source | states |
|---|---|---|
| Text.NatToStringRoundTrip | main.py:367 | the decimal digits `str` writes for a natural number read back as that number |
| Text.IntToStringRoundTrip | main.py:367 | `str(n)` of any integer, negative chat ids included, parses back to `n` |
| Text.IntToStringInjective | main.py:367 | distinct integers have distinct decimal text |
| Patterns.MatchLen | main.py:260-290 | a hit found at a position lies inside the text |
| Patterns.HitIsWholeWord | main.py:260-290 | for each of the seven patterns, what the matcher consumes after the opening `\b` runs from a word character to a word character and is followed by a `\b` |
| Patterns.MatchIsWholeWord | main.py:285-290 | every hit of every pattern starts and ends on a word character, with no word character on either side (`\b` on both ends) |
| Patterns.Search | main.py:260-281 | `re.search`: no result exactly when no position has a hit; otherwise the result is the leftmost hit with its length, and any leftmost hit is the result |
| Patterns.SearchFrom | main.py:260 | a search from a position finds a hit there or later, with no hit skipped in between, and finds none only when there is none |
| Patterns.RemoveFromNoHit | main.py:292-293 | with no hit from a position on, `re.sub` keeps the rest of the text as it is |
| Patterns.RemoveFromFirstHit | main.py:292-293 | `re.sub` keeps the text before the first hit, drops the hit and continues after it |
| Patterns.RemoveFromSplicesSearch | main.py:292-293 | the removal scan is `re.sub`: keep the text before the leftmost hit, drop the hit, continue after it; with no hit the rest is kept |
| Patterns.RemoveAll | main.py:293 | `re.sub(p, '', s)` never lengthens the text |
| Patterns.RemoveAllWithoutMatch | main.py:292-293 | a pattern with no hit leaves the title unchanged |
| Patterns.RemoveAllSplicesFirstHit | main.py:292-293 | `re.sub` on a title keeps the text before the leftmost hit, drops that hit and goes on removing after it |
| Patterns.RemoveScanSplices | main.py:292-293 | from the start of the text the scan keeps all of it when there is no hit, and otherwise keeps the text before the first hit, drops the hit and continues after it |
| MediaParser.MediaType.Name | main.py:302 | the type is always `movie` or `series` |
| MediaParser.StripExtension | main.py:257 | `rsplit('.', 1)[0]`: a prefix of the filename; all of it when there is no dot, otherwise ending right before the last dot |
| MediaParser.ExtractYear | main.py:259-261 | the year is the text of the leftmost whole-word `19xx`/`20xx`, or the current year exactly when there is none |
| MediaParser.QualityTextIsNotUnknown | main.py:264-268 | no resolution or source hit spells `Unknown`, so `Unknown` is reported only when nothing matched |
| MediaParser.QualityFromHit | main.py:269-273 | the text of the hit `re.search` returns is the leftmost hit's text and is never `Unknown` |
| MediaParser.ExtractQuality | main.py:263-273 | the quality is `Unknown` if and only if neither a resolution nor a source tag occurs; otherwise it is the text of the leftmost resolution tag, and a source tag is used only when no resolution tag occurs anywhere |
| MediaParser.DetectMediaType | main.py:275-281 | the type is series if and only if an `SxxEyy` tag, `Season n` or `Episode n` occurs as a whole word, ignoring case |
| MediaParser.RemoveTags | main.py:284-293 | removing the five tag patterns never lengthens the title |
| MediaParser.RemoveTagsWithoutTags | main.py:284-293 | a name with no year, resolution, source, codec or `SxxEyy` tag is left as it is |
| MediaParser.ReplaceSeparators | main.py:295 | same length, no `.`, `_` or `-` left, and every other character unchanged |
| MediaParser.DropLeadingSpace | main.py:296 | the result is a suffix that starts on a non-blank character, and only whitespace was cut |
| MediaParser.DropTrailingSpace | main.py:296 | the result is a prefix that ends on a non-blank character, and only whitespace was cut |
| MediaParser.DropLeadingSpaceKeeps | main.py:296 | dropping leading whitespace keeps every non-blank character in order and keeps a text single-spaced and separator-free |
| MediaParser.DropTrailingSpaceKeeps | main.py:296 | dropping trailing whitespace keeps every non-blank character in order and keeps a text single-spaced and separator-free |
| MediaParser.Strip | main.py:296 | `str.strip()` leaves a text that neither starts nor ends on whitespace |
| MediaParser.StripIsSlice | main.py:296 | `str.strip()` gives a contiguous slice of the text, with only whitespace before and after it |
| MediaParser.StripKeepsWords | main.py:296 | stripping keeps the words of a text: its maximal runs of non-whitespace characters |
| MediaParser.StripKeeps | main.py:296 | stripping keeps every non-blank character in order and keeps a text single-spaced and separator-free |
| MediaParser.CollapseSpace | main.py:296 | a whitespace run at the front becomes one space, and any other first character is kept |
| MediaParser.CollapseSpaceLast | main.py:296 | a whitespace run at the end becomes one space, and any other last character is kept |
| MediaParser.CollapseSpaceKeepsWords | main.py:296 | `re.sub(r'\s+', ' ', s)` keeps the words of `s`, in order, each one whole |
| MediaParser.WordsAppend | main.py:296 | the words of two texts joined at whitespace are the words of the first followed by those of the second |
| MediaParser.SpacedTextIsJoin | main.py:296 | a single-spaced text with no whitespace at either end is its words joined by single spaces |
| MediaParser.CollapseSpaceKeepsText | main.py:296 | collapsing whitespace keeps every non-blank character in order |
| MediaParser.CollapseSpaceKeepsNoSeparators | main.py:296 | collapsing whitespace adds no separator |
| MediaParser.CollapseSpaceIsSingleSpaced | main.py:296 | after `re.sub(r'\s+', ' ', ...)` every whitespace character is a single space with no other whitespace next to it |
| MediaParser.CollapseAndStripIsClean | main.py:296 | collapsing and stripping a separator-free text gives a clean title with the same non-blank characters |
| MediaParser.CollapseAndStripIsJoin | main.py:296 | collapsing and then stripping a text gives exactly its words joined by single spaces |
| MediaParser.TidyTitle | main.py:295-296 | after the separators are blanked and the whitespace collapsed and stripped, the title is a clean title, and it is exactly the words of the input with separators blanked, joined by single spaces |
| MediaParser.CleanTitle | main.py:283-296 | the title is a clean title, and it is exactly the words of the name with its tags removed and its separators blanked, joined by single spaces |
| MediaParser.ParseFilename | main.py:255-304 | the record keeps the original filename; year, quality and type are as above on the extension-stripped name; the title is empty only for an empty filename, is the cleaned title whenever that is not empty, and is the filename whenever the cleaned title is empty |
| ParserCases.UnderscoreHidesYear | main.py:260-261 | `Movie_2020` has no year, because `_` is a word character, so the current year is reported |
| ParserCases.FirstYearWins | main.py:260-261 | `Up 2021 1984` reports 2021: of two years, the first is taken |
| ParserCases.LowerCaseSeriesTag | main.py:277-281 | `s01e02` makes a series, because case is ignored |
| ParserCases.EmptyTitleFallsBack | main.py:299 | a name that is only a year gets the filename as its title |
| ParserCases.SeparatorsSplitWords | main.py:295-296 | `The.Matrix` tidies to `The Matrix`: a separator becomes the space between two words |
| CacheManager.CachePath | main.py:199-201 | the key can be read back from the cache path built from it |
| CacheManager.CachePathInjective | main.py:199-201 | distinct keys never share a cache file |
| CacheManager.InsertKeepsSorted | main.py:241 | inserting an entry before the first entry that is not older keeps a list oldest first |
| CacheManager.SortByMtime | main.py:241 | after the sort the listing is oldest first, and it holds exactly the listed entries |
| CacheManager.SortIsStable | main.py:241 | entries with equal modification times keep their listing order |
| CacheManager.TotalSizeSort | main.py:241 | sorting changes no size |
| CacheManager.UnlinkedMembers | main.py:246-251 | a tried entry is removed if and only if its unlink does not fail |
| CacheManager.FreedStep | main.py:246-251 | trying one more entry frees its size when the unlink succeeds and nothing when it fails |
| CacheManager.FreedAtMostTotal | main.py:248 | the bytes freed never exceed the size of the entries tried |
| CacheManager.EvictCount | main.py:243-245 | the loop never tries more entries than the listing has |
| CacheManager.EvictCountZero | main.py:243-245 | nothing is tried if and only if the listing is empty or the running size is already within 80% of the maximum |
| CacheManager.EvictCountStops | main.py:243-245 | before each tried entry the running size was above 80% of the maximum; after the last, every entry was tried or the size is within 80% |
| CacheManager.FailedUnlinkContinues | main.py:246-251 | a failed unlink leaves the running size as it was, and the next oldest entry is tried as well |
| CacheManager.SizeAfterInRange | main.py:246-251 | however many entries are tried, the running size stays between 0 and the total |
| CacheManager.EvictionStartsOverMax | main.py:239-245 | with a total above a non-negative maximum at least the oldest entry is tried |
| CacheManager.ScanListing | main.py:231-237 | the listing loop collects every entry in order and sums their sizes |
| CacheManager.EvictOldest | main.py:243-251 | the eviction loop tries exactly the oldest-first prefix that the stopping rule gives, removes the tried entries that do not fail, and ends with the total minus what they free |
| CacheManager.CleanupCache | main.py:229-251 | nothing is tried when the total is at most the maximum; otherwise the tried entries are the stopping-rule prefix of the sorted listing, those removed are the ones whose unlink succeeds, and the final size is the total minus their sizes, between 0 and the total |
| RateLimiting.RateLimiter.constructor | main.py:78-80 | a new limiter has no downloads in flight and an all-zero `RateLimitInfo` |
| RateLimiting.RateLimiter.AcquireDownloadSlot | main.py:82-93 | a slot is granted if and only if fewer than the maximum are in flight; granting adds exactly one and records the time; otherwise nothing changes; the count never passes the maximum |
| RateLimiting.RateLimiter.ReleaseDownloadSlot | main.py:95-97 | one slot fewer, never below zero, and the last request time is kept |
| RateLimiting.RateLimiter.FinishAcquireAsWritten | main.py:92-93 | the second half of the acquire as written: the count goes up by one and the time is recorded, with no test of the slot |
| RateLimiting.InterleavedAcquiresAsWritten | main.py:84-93 | two acquires that both sleep for the rate limit while one slot is free leave four downloads in flight with a maximum of three |
| RateLimiting.InterleavedAcquires | main.py:84-93 | with test and increment in one step, the same two requests get one slot and one wait |
| Streamer.CatalogId | main.py:367 | a catalog id reads back as its type, chat id and message id |
| Streamer.CatalogIdInjective | main.py:367 | two messages share a catalog id only when type, chat and message all agree |
| Streamer.FileNameOf | main.py:358-360 | the file name is the attribute, `file_<id>` when it is missing, and nothing when it is empty or `None`; a name that is used is never empty |
| Streamer.ProcessMessage | main.py:351-379 | there is no entry exactly when the message has no media or no usable file name; otherwise the entry's name, year and quality are the title, year and quality `parse_filename` gives for the file name, the name is not empty, and the entry has the original filename, the description, the chat and message ids, the file id and size, the detected type, and an id that reads back as that type, chat and message |
| Streamer.AdmitsToCache | main.py:414 | a download is kept for the cache if and only if caching is on and two copies of the file, each one byte longer, fit in the cache |
| Streamer.AdmittedPairFits | main.py:414 | two files admitted to the cache fit in it together, so they never trigger eviction |
| Streamer.StreamSource | main.py:396-414 | the cache is read if and only if caching is on and the file is there; a download is cached if and only if caching is on, the file is not cached and it is under half the maximum |
| Streamer.StreamFile | main.py:387-427 | with the `finally` giving back only a slot it took: a stream gets no source exactly when all slots are busy (it is cancelled while waiting); one that gets a slot takes the source above and records the time as the last request, with the other rate-limit fields kept; one that gets none leaves the rate-limit record as it was; either way the slot count is left as it was found |
| Streamer.FinishStream | main.py:426-427 | the `finally` as intended: one slot fewer (never below zero) if the stream holds one, otherwise no change |
| Streamer.StreamFileAsWritten | main.py:387-427 | as written, a stream cancelled while waiting for a slot still gives one back: the count drops by one (never below zero) though no slot was taken, and the rate-limit record is kept; a stream that gets a slot leaves the count as it was and records the time as the last request |
| Streamer.CancelledWaitAsWritten | main.py:389-427 | one slot, held by stream A; stream B is cancelled while waiting and frees A's slot; stream C starts, so two downloads run with a count of 1 |
| Streamer.CancelledWait | main.py:389-427 | the same streams with the intended `finally`: C finds no slot, one download runs and the count is 1 |

## Left out

- Unicode classes: `\w`, `\d` and `\b` are taken over ASCII word characters and digits. Python also counts non-ASCII letters and digits. `\s` and `str.strip()` do use Python's full whitespace list.
- Case folding: `re.IGNORECASE` is ASCII case folding. The few non-ASCII characters Python folds onto ASCII letters (the Kelvin sign, the long s, the dotless i, and the capital I with a dot above, U+0130, which Python lowercases to `i`, so that `EPİSODE 1` matches the episode pattern) are not modelled.
- ParserCases: quality examples over the alternation tags are not included, because the matcher's unfolding is too costly for the verifier. The resolution-over-source precedence is proved in general by `MediaParser.ExtractQuality`.
- `datetime.now().year` is a parameter of `ParseFilename`, and `time.time()` is a parameter of the limiter. `date_added` is not part of the catalog entry.
- `CacheManager.get_cache_key` (MD5 hashing) is not modelled; the key is an opaque string.
- `pathlib` path normalisation in `get_cache_path` is not modelled; the path is the text `<dir>/<key>.cache`.
- The directory `glob`, `stat` and `unlink` calls are inputs to `CleanupCache`: the listing, and the set of paths whose unlink raises `OSError`. A failing `stat` is not modelled.
- CleanupCache: the listing is taken to hold each path once, as `glob` returns it. A repeated path would be unlinked twice in the model, both times successfully, where the second real `unlink` raises `OSError`.
- `is_cached`, `cache_file_stream`, `read_cached_file` and `_save_to_cache` are not modelled; they are file I/O with no logic beyond writing and reading bytes.
- CleanupCache: `MAX_CACHE_SIZE * 0.8` is a float product, modelled as the integer test `5 * size <= 4 * max`. This is exact whenever the maximum is a multiple of 5, as the 5 GiB default is. Modification times are integers.
- CleanupCache: `cache_files.sort` sorts a local list in place; the model reassigns the list to its sorted value, `SortByMtime`, a stable insertion sort.
- Patterns.HitLen and Patterns.RemoveAll: what they compute is stated by the lemmas `Patterns.HitIsWholeWord`, `Patterns.MatchIsWholeWord`, `Patterns.RemoveAllWithoutMatch` and `Patterns.RemoveAllSplicesFirstHit`, not in their own contracts, to keep each use of them cheap for the verifier.
- MediaParser.Strip and MediaParser.CollapseSpace: their own contracts give the end characters; where the words and spaces go is stated by `StripIsSlice`, `StripKeepsWords`, `CollapseSpaceLast` and `CollapseSpaceKeepsWords`.
- RateLimiting.RateLimiter.AcquireDownloadSlot: one call is one poll of the waiting loop. `false` means the caller is still waiting. The `asyncio.sleep` calls and the `RATE_LIMIT_DELAY` spacing are not modelled, except in the interleaving examples.
- `RateLimitInfo.request_count` and `reset_time` are carried but never written, as in the source.
- Streamer.StreamFile: it models the slot, a cancellation while waiting for it, and the choice of source. Fetching the message, the bytes streamed, the background cache write and a cancellation after the slot was taken are not modelled.
- `_scan_channels`, the Pyrogram client, the FastAPI routes and the manifest are not modelled; they are network and HTTP plumbing.
- `MediaDatabase` (SQLite) is not modelled.
- `persistence.py` (snapshots, heartbeat and auto-save loops) is not part of this model.

## Findings

| source | as written | input that shows it | evidently intended | confidence | as-written member | corrected member |
|---|---|---|---|---|---|---|
| main.py:84-92 | the slot test and the increment are separated by an `await asyncio.sleep` whenever the previous request was less than `RATE_LIMIT_DELAY` ago, and the slot is not tested again after it | two downloads start 0.5 s and 0.6 s after the last grant while 2 of 3 slots are busy: both see a free slot, both sleep, and both take it, leaving 4 in flight | at most `MAX_CONCURRENT_DOWNLOADS` downloads in flight, which needs the slot tested again after the sleep | high, by reading the code; not executed | RateLimiting.InterleavedAcquiresAsWritten | RateLimiting.RateLimiter.AcquireDownloadSlot |
| main.py:387-427 | the wait for a slot is inside the `try`, so a stream cancelled while it waits (the client goes away) runs the `finally` and gives back a slot it never took | one slot; stream A holds it; stream B waits and is cancelled; stream C then starts beside A: two downloads run with a count of 1 | give back only a slot that was taken, by acquiring before the `try` | high, by reading the code and asyncio's cancellation rules; not executed | Streamer.CancelledWaitAsWritten | Streamer.CancelledWait |
