# Pinterest Downloader Pro — verified model of the core

This project models in Dafny the sequential logic behind the Pinterest
downloader's GUI, and proves properties of it:

- **the pin store** (`pinterest_db.py`).
  - The `pins` table is modelled as a value: `Table` holds the rows in insertion order and the next AUTOINCREMENT id.
  - `Upsert`, `SetFilePath` and `Fetch` give the meaning of the three SQL statements.
  - Class `Store` holds the table and updates it in place; its methods are proved against those functions.
  - The schema's guarantees are an invariant, `WellFormed`: ids positive and strictly increasing, `pin_id` unique. Upsert and update_file_path are proved to keep it. Their effect is stated through `Lookup`, and the query's result through membership, order and the limit.
- **the scraper** (`pinterest_gui.py`):
  - `parse_pins` is a method with two loops, the list build and the `seen`-set dedup. It is proved against a reference reading, "the first occurrence of each id".
  - `_extract_pin_id` is a function, including the leftmost-match search for `/pin/<digits>/`.
  - The collector `while` loop of `_scrape_worker_selenium` is a method. It is proved against a state-machine function `After(feed, n, k)`, with its cap, dedup and termination.
  - The batch `for` loop is a method that mutates the store. It is proved against a function `Batch`.
  - `_download_worker` upserts only on success.
- **the downloader** (`code_download.py`):
  - `download_pinterest` is modelled as pure functions: URL normalisation, extension, default file name, target path and result shape.
  - The fallback extractor `download_pinterest_media` is an if-chain over four candidate matches. It is proved equal to "the first present candidate in a fixed priority list".

The world outside the logic enters as parameters:
- the resolver of a page URL, `string -> MediaResult`;
- the file fetcher, `(string, string) -> bool`;
- the browser's rounds, `nat -> Round`, each holding the parsed pins and the scroll height;
- the regex searches inside a snippet, `string -> Option<string>`;
- the list of `data-test-pin-id` matches, with their spans;
- the clock, `now: int`, the value `created_at` receives.

Modelling choices taken from the code:
- SQLite reads a negative `LIMIT` as "no limit", and the model does the same.
- A NULL column never matches `LIKE`.
- An empty search string adds no WHERE clause (`if search:`).
- The extractor's `if not vid` treats `""` as absent (`Present`).
- The batch's `res.get("filepath")` test also rejects an empty path (`SavedPath`).

One consequence of `pin_id.split('/')[-2]` is proved as stated. A URL without the trailing `/`, such as `https://www.pinterest.com/pin/<id>`, is saved under the name `pin_pin`, whatever the id (`Download.DefaultFilenameWithoutSlash`). The canonical URL with the trailing `/` gives `pin_<id>`.

Files: `options.dfy` (Option), `text.dfy` (digits, substring, `split('/')`),
`pin_store.dfy`, `download.dfy`, `scraper.dfy`.

## Model

| member | source | states |
|---|---|---|
| Text.Digits | pinterest_gui.py:307 | the result is all digits, no longer than the input, and holds exactly the input's digit characters |
| Text.DigitsOfChar | pinterest_gui.py:307 | a single character is kept exactly when it is a digit |
| Text.DigitsAppend | pinterest_gui.py:307 | removing non-digits distributes over concatenation, so the digits keep their order and repeats (with DigitsOfChar this determines the result) |
| Text.DigitsOfDigits | pinterest_gui.py:307 | removing non-digits from an all-digit string leaves it unchanged |
| Text.Split | code_download.py:113 | defines `str.split('/')` one character at a time; characterised by SplitPieces and JoinSplit |
| Text.SplitPieces | code_download.py:113 | `split('/')` gives at least two pieces exactly when the input has a '/', and no piece contains '/' |
| Text.JoinSplit | code_download.py:113 | joining the pieces of `split('/')` with '/' gives back the input |
| Text.SplitAround | code_download.py:113 | splitting `a + "/" + b` gives the pieces of `a` followed by the pieces of `b` |
| Text.SplitSnoc | code_download.py:113 | appending '/' and a '/'-free piece appends exactly that piece to the split |
| PinStore.IndexOf | pinterest_db.py:11 | finds a row with the key if and only if one exists |
| PinStore.IndexOfUnique | pinterest_db.py:11 | under the UNIQUE constraint, the row carrying a key is the one found |
| PinStore.Lookup | pinterest_db.py:11 | a returned row is in the table with that key; none is returned exactly when no row has the key |
| PinStore.Merge | pinterest_db.py:52-59 | defines the DO UPDATE SET clause on the conflicting row; characterised by MergePolicy |
| PinStore.Upsert | pinterest_db.py:46-64 | defines upsert_pin on the table value; characterised by UpsertInserts, UpsertMerges, UpsertLookup and UpsertWellFormed |
| PinStore.SetFilePath | pinterest_db.py:81-84 | defines update_file_path on the table value; characterised by SetFilePathLookup and SetFilePathWellFormed |
| PinStore.UpsertInserts | pinterest_db.py:46-51 | a new key appends exactly one row built from the record, with an id above every existing id, and leaves all earlier rows intact |
| PinStore.UpsertMerges | pinterest_db.py:52-59 | an existing key adds no row and keeps the counter; the conflicting row is merged and every other row is unchanged |
| PinStore.MergePolicy | pinterest_db.py:52-59 | a merge keeps `id`, `pin_id` and `created_at`; `file_path` is replaced only by a non-null value; the six other columns take the incoming value, null included |
| PinStore.AppendWellFormed | pinterest_db.py:10-11 | appending a row with a fresh key and the next id keeps ids increasing and keys unique |
| PinStore.ReplaceWellFormed | pinterest_db.py:10-11 | replacing a row by one with the same id and key keeps the invariant |
| PinStore.UpsertWellFormed | pinterest_db.py:46-64 | upsert preserves positive, increasing ids and `pin_id` uniqueness |
| PinStore.UpsertLookup | pinterest_db.py:46-64 | afterwards the record's key finds the new row or the merged old row, and every other key finds what it found before |
| PinStore.UpsertIdempotent | pinterest_db.py:52-59 | applying the same record twice gives the same table as applying it once, one row for the key |
| PinStore.UpsertKeepsPath | pinterest_db.py:58 | a record with a null `file_path` never erases the path a row already has |
| PinStore.SameKeysIndexOf | pinterest_db.py:83 | tables that agree on ids and keys locate every key at the same position |
| PinStore.SetFilePathWellFormed | pinterest_db.py:81-84 | update_file_path keeps every row's id and key, keeps the invariant, and is the identity when no row has the key |
| PinStore.SetFilePathLookup | pinterest_db.py:81-84 | only the `file_path` of the row with that key changes (to the new path); every other key and field is unchanged; a missing key changes nothing |
| PinStore.NewestFirst | pinterest_db.py:68-74 | defines the selected rows in `ORDER BY id DESC` order; characterised by NewestFirstMembers and NewestFirstDescending |
| PinStore.Fetch | pinterest_db.py:67-78 | defines fetch_pins as NewestFirst cut at the limit; characterised by FetchSpec and FetchFilter |
| PinStore.NewestFirstMembers | pinterest_db.py:70-74 | the query's rows are exactly the table rows that pass the WHERE clause |
| PinStore.NewestFirstDescending | pinterest_db.py:74 | with ids ascending in the table, `ORDER BY id DESC` yields strictly decreasing ids |
| PinStore.TakeNewest | pinterest_db.py:74-75 | taking the first `limit` rows keeps the order, and every row left out is older than every row kept |
| PinStore.FetchSpec | pinterest_db.py:67-78 | fetch_pins returns at most `limit` rows (all for a negative limit), each a selected row, in strictly decreasing id order; a selected row left out is older than all returned; below the limit no selected row is missing |
| PinStore.FetchFilter | pinterest_db.py:70-73 | with a non-empty search every row contains the term in pin_id, title, description or query; an absent and an empty search give the same result |
| PinStore.NoFilterIsSame | pinterest_db.py:70 | an absent and an empty search term select the same rows |
| PinStore.Store.constructor | pinterest_db.py:36-43 | a new store is the empty table with the counter at 1 and satisfies the invariant |
| PinStore.Store.UpsertPin | pinterest_db.py:46-64 | the new state is `Upsert` of the old one; the invariant is kept; the key is present afterwards; at most one row is added |
| PinStore.Store.UpdateFilePath | pinterest_db.py:81-84 | the new state is `SetFilePath` of the old one, and the invariant is kept |
| Download.PinUrl | code_download.py:92-96 | an input not starting with "http" becomes "https://www.pinterest.com/pin/<id>/"; an input starting with "http" is used unchanged; either way the URL starts with "http" |
| Download.PinUrlIdempotent | code_download.py:92-96 | normalising an already normalised URL changes nothing |
| Download.CanonicalUrl | code_download.py:94 | defines "https://www.pinterest.com/pin/<id>/"; characterised by PinUrl, DefaultFilenameOfCanonical and Scraper.ExtractFromCanonical |
| Download.Extension | code_download.py:107-109 | the extension is ".mp4" exactly when the media type is "video", and ".jpg" otherwise |
| Download.DefaultFilename | code_download.py:111-113 | the default name starts with "pin_" and contains no '/' |
| Download.DefaultFilenameOfOneSlash | code_download.py:111-113 | for '/'-free `a` and `b`, the default name of "a/b" is "pin_" + a |
| Download.DefaultFilenameOfPath | code_download.py:111-113 | for '/'-free `a` and `b`, the default name of "p/a/b" is "pin_" + a, the second-to-last piece; with DefaultFilenameOfOneSlash this covers every input holding a '/' |
| Download.SplitLastTwo | code_download.py:113 | the last two '/'-pieces of `p/a/b` are `a` and `b` |
| Download.DefaultFilenameOfCanonical | code_download.py:92-113 | a bare id and its canonical URL both get the default name "pin_<id>" |
| Download.DefaultFilenameWithoutSlash | code_download.py:113 | the canonical URL without its trailing '/' gets the name "pin_pin" for every id |
| Download.JoinPath | code_download.py:115 | defines `os.path.join` as "dir/name"; characterised by TargetPath |
| Download.TargetPath | code_download.py:111-115 | the path is the directory, '/', the explicit name verbatim or else the default name, then the extension |
| Download.DownloadPinterest | code_download.py:77-124 | `filepath` is present exactly on success; a resolver failure gives (false, None, None); the type is the resolved one even when the fetch fails; after a resolver success the result succeeds exactly when the resolver gave a URL and fetching it to the target path succeeds, and that path is the one returned |
| Download.NoFetchAfterResolverFailure | code_download.py:101-105 | after a resolver failure the result does not depend on the fetcher |
| Download.DownloadByIdOrUrl | code_download.py:92-115 | for every resolver, a bare id and its canonical URL give the same result; a success is saved at "<dir>/pin_<id><ext>" |
| Download.ExtractMedia | code_download.py:19-57 | success exactly for a status-200 page with a non-empty candidate; every failure is (false, None, None); a success has a non-empty URL and type "video" or "image" |
| Download.FirstPresent | code_download.py:29-57 | succeeds exactly when some candidate is present; a success is the first present candidate, with its URL and kind, and no earlier one is present; a failure is (false, None, None) |
| Download.ExtractMediaIsFirstPresent | code_download.py:29-57 | the if-chain equals "the first present of og:video, contentUrl .mp4, og:image, images.orig.url", with the kind of that candidate |
| Download.VideoBeatsImage | code_download.py:31-42 | any video candidate beats every image candidate; og:video wins over contentUrl |
| Download.DownloadWithExtractor | code_download.py:77-124 | through the extractor, a failing page means a (false, None, None) result; a page with a video candidate is typed "video" and saved at the ".mp4" target path; a page with only image candidates is typed "image" and saved at the ".jpg" target path |
| Download.ScenarioPath | code_download.py:107-115 | the target path of pin "12345" with no name, type "video" and directory "/tmp/out" is "/tmp/out/pin_12345.mp4" |
| Download.DownloadScenario | code_download.py:77-124 | a video pin "12345" downloaded to "/tmp/out" yields success with path "/tmp/out/pin_12345.mp4" |
| Scraper.WindowAroundMatch | pinterest_gui.py:46-48 | 0 <= start <= match start <= match end <= end <= len(html), and the snippet holds the match |
| Scraper.Snippet | pinterest_gui.py:46-48 | defines `html[start:end]` with the ±2000-character window; characterised by WindowAroundMatch |
| Scraper.CandidatePin | pinterest_gui.py:49-55 | defines the dict built for one match; characterised by DefaultHref and MatchedPinIds |
| Scraper.MatchedPins | pinterest_gui.py:43-55 | the first list has one entry per match, entry i being the dict built for match i |
| Scraper.Dedup | pinterest_gui.py:56-63 | defines the seen-set loop over the first list; characterised by DedupSpec |
| Scraper.DedupSpec | pinterest_gui.py:56-63 | the dedup keeps distinct ids, the same set of ids, and is exactly the subsequence of first occurrences |
| Scraper.MatchedPinIds | pinterest_gui.py:44-55 | the first list carries exactly the matched ids |
| Scraper.ParsePins | pinterest_gui.py:42-63 | the result is the first occurrence of each matched id in page order, its ids are distinct, and its id set is exactly the set of matched ids |
| Scraper.DefaultHref | pinterest_gui.py:53 | with no href near a match the href is "https://www.pinterest.com/pin/<id>/", and _extract_pin_id gets the id back from it |
| Scraper.DigitRun | pinterest_gui.py:304 | the greedy run of digits: all digits, in range, and followed by a non-digit or the end |
| Scraper.SearchPinPath | pinterest_gui.py:304 | `re.search` finds the leftmost position where `/pin/(\d+)/` matches, or reports that none matches |
| Scraper.ExtractPinId | pinterest_gui.py:303-307 | the result is all digits; with a match it is the non-empty group framed by "/pin/" and "/" at the leftmost match; without one it is the input with all non-digits removed |
| Scraper.PinPathGroup | pinterest_gui.py:304-306 | the group of a match is a non-empty digit string framed by "/pin/" and "/" |
| Scraper.ExtractFromCanonical | pinterest_gui.py:303-306 | the id is recovered from its canonical URL |
| Scraper.ExtractFromDigits | pinterest_gui.py:307 | a bare numeric id is returned unchanged |
| Scraper.Absorb | pinterest_gui.py:432-440 | defines the inner `for p in pins` loop on values; characterised by AbsorbSpec and computed by AbsorbRound |
| Scraper.Unseen | pinterest_gui.py:434-436 | defines the pins of a round whose id is not yet in `seen_ids`; characterised by IdSetUnseen and FirstUnseenFrom |
| Scraper.IdSetUnseen | pinterest_gui.py:434-436 | the ids of the unseen pins are the round's ids minus `seen_ids` |
| Scraper.FirstUnseenCons | pinterest_gui.py:432-438 | read from the front, the first occurrences of the unseen pins skip a seen pin and take an unseen one, whose id then joins `seen_ids` |
| Scraper.FirstUnseenFrom | pinterest_gui.py:432-438 | every first occurrence of an unseen pin is a pin of the round whose id was not in `seen_ids` |
| Scraper.AbsorbFirstUnseen | pinterest_gui.py:432-440 | the inner loop appends exactly the first occurrence of each unseen id, in page order, as many as fit below `n` |
| Scraper.AbsorbSpec | pinterest_gui.py:432-440 | the inner loop only appends, and what it appends is the first occurrence of each id not in `seen_ids`, in page order, cut at `n`; every appended pin is one of the round's own pins; `seen_ids` stays equal to the collected ids, ids stay distinct, `n` is never passed; nothing is added exactly when every pin was seen; it stops early only at `n` |
| Scraper.Step | pinterest_gui.py:427-451 | defines one round of the `while` loop: the inner loop, then the two `idle_rounds` updates and `last_height`; characterised by StepSpec and StepSlack |
| Scraper.After | pinterest_gui.py:421-451 | defines the collector state after k rounds of the feed; characterised by AfterInv and Collect |
| Scraper.StepSpec | pinterest_gui.py:427-451 | a round keeps the invariant and only appends the first occurrences of the round's unseen ids, in page order; `idle_rounds` becomes 0 after a productive round and +1 after an idle one, +1 more when the height is unchanged; every round collects a pin or raises `idle_rounds` |
| Scraper.StepSlack | pinterest_gui.py:427-451 | every round uses up at least one unit of the bound 61(n - collected) + (60 - idle) |
| Scraper.AfterInv | pinterest_gui.py:421-451 | every state the loop reaches satisfies cap, distinct ids and `seen_ids` = collected ids |
| Scraper.AbsorbRound | pinterest_gui.py:432-440 | the inner `for` loop computes `Absorb` and reports the number of pins added |
| Scraper.Collect | pinterest_gui.py:421-451 | the loop stops at the first round after which `n` pins are collected or `idle_rounds` reached 60; the result has at most max(n, 0) pins with distinct ids; no round runs when n <= 0; at most 61 n + 60 rounds run |
| Scraper.StubRecord | pinterest_gui.py:461-470 | defines the stub record of a collected pin, with `query = q`; characterised by AttemptSpec through BatchRow |
| Scraper.SavedPath | pinterest_gui.py:474 | defines `res.get("success") and res.get("filepath")`, an empty path counting as absent; characterised by AttemptSpec |
| Scraper.Attempt | pinterest_gui.py:460-481 | defines one batch iteration on the table value; characterised by AttemptSpec |
| Scraper.AttemptPin | pinterest_gui.py:460-481 | the loop body updates the store in place to Attempt of its old state, keeping the invariant |
| Scraper.Batch | pinterest_gui.py:456-482 | defines the batch over a list of pins on the table value; characterised by BatchSpec |
| Scraper.AttemptSpec | pinterest_gui.py:460-481 | one iteration keeps the invariant and leaves other keys alone; the pin's row holds the stub columns with `query = q` and, as path, the downloaded one or the path the row had before |
| Scraper.BatchSpec | pinterest_gui.py:456-482 | over distinct pins, the batch keeps the invariant, leaves rows of other ids alone, and leaves each pin's row as its attempt describes |
| Scraper.DownloadBatch | pinterest_gui.py:456-482 | the new state is `Batch` over the first `count` pins, and `count` is min(n, len(collected)), or 0 for n <= 0, failures included |
| Scraper.ScrapeWorker | pinterest_gui.py:421-482 | the collected pins are the state after `rounds` rounds of the feed, the first state at which the loop condition fails; `count` = len(collected) <= max(n, 0); the ids are distinct; the store is Batch over the collected pins, and every collected pin has its stub-and-path row |
| Scraper.DownloadWorker | pinterest_gui.py:278-299 | the store changes only on success; then it is the upsert of the worker's record, and the pin's row holds exactly the returned path |
| Scraper.WorkerRecord | pinterest_gui.py:284-293 | defines the record upserted after a successful download; characterised by DownloadWorker |

## Left out

- The tkinter GUI: layout, styles, dialogs, `log1`/`log2`, and `refresh_db`'s tree rendering. This is user interface only.
- Threads and `asyncio.run`: the workers are modelled as sequential calls.
- The network:
  - `download_file` is the `fetch` parameter;
  - the extractor's GET is the `Page` input;
  - the external `pinterest_downloader` package, when installed, is the `resolve` parameter.
- The browser:
  - the Selenium driver bootstrap and its fallbacks;
  - `driver.get`, `page_source`, `execute_script` and `time.sleep`;
  - the search URL construction;
  - the "No pins found" log line.

  The rounds are the `feed` parameter.
- Regex semantics of the `data-test-pin-id`, href, aria-label, og:* and JSON patterns: their results are abstract inputs.
- `/pin/(\d+)/` inside `_extract_pin_id` is modelled concretely. It uses ASCII digits; Python's `\d` also accepts other Unicode digits, and `re.sub(r"\D", "")` likewise.
- SQL engine details:
  - connections, the WAL pragma, the indexes and `init_db` creating the file;
  - `DB_PATH`;
  - the real timestamp in `created_at`, which is the `now` parameter.
- PinStore.FieldHas: `LIKE '%s%'` is modelled as a plain substring test. SQLite's ASCII case folding and the `%`/`_` wildcards inside the search term are not modelled.
- Filesystem: `os.makedirs` and file writes are not modelled. `os.path.join` is modelled as `dir + "/" + name`; an absolute `name` or a `dir` ending in '/' is not treated specially.
- Exceptions inside a download, which the batch and the worker catch, are covered by the fetcher returning false. The resolver and fetcher are deterministic functions of their arguments.
- Scraper.DownloadBatch, Scraper.ScrapeWorker: one `now` value serves every insert of a batch.
- PinStore.Upsert: only the order of ids is modelled, not their exact values. On the ON CONFLICT path SQLite may draw an AUTOINCREMENT value it never uses, so real ids can skip after a merge. In the model a merge keeps the counter, so the `id` values returned by fetch_pins can differ from the real ones. Their decreasing order and the newest-first selection are unaffected.
- `main()` and the example calls in code_download.py are not modelled.
