# Subreddit flair sync, modelled in Dafny

`flairsync.py` keeps a subreddit's user flair in step with a local csv
file. It reads the file into a map from user to `(text, css)`. It reads the
flair currently on the site, page by page, through `redditclient.py`, and
decodes the HTML entities the site leaves in it. It diffs the two maps into
modifications and deletions, builds one change list, and posts that list
100 rows at a time. After each post it reports the entries the server
skipped and the warnings on those it committed.

This project models the parts of that pipeline that are not I/O:

- `wrappers.dfy`: `Option` and `Result`.
- `entities.dfy` (module `Entities`): the entity decoder `u` / `decode_entity`. It is a left-to-right scanner for `&#?\w+;`, with the entity name table as a parameter.
- `reddit_client.dfy` (module `RedditClient`): the `RedditClient` class. It covers host normalisation in the constructor, `_url`, the form-data and URL shaping of `_request`, `logged_in`, and the cursor loop of `flair_list`. The loop runs against an abstract page source `fetch`.
- `flair_sync.dfy` (module `FlairSync`): `flair_from_csv` over already-split rows, `flair_from_reddit` (decode every listed entry, then `dict`), and `diff_flair`. The diff is generic over users and flair, together with the `ApplyDiff` it is the inverse of.
- `batch_apply.dfy` (module `BatchApply`): the change list of `main`, the chunked posting loop, and `summarize_batch_result`. The loops are methods proved equal to specification functions. Each report is a value that collects what the source prints.

Python 2 behaviour the model spells out:

- `\w` is `[A-Za-z0-9_]`, because no UNICODE flag is given.
- `unichr` takes a C `int`. A decimal value above `0x7FFFFFFF` raises `OverflowError`. Nothing catches it, so the decode fails with `CodePointOverflow`.
- A decimal value from `0x110000` up to `0x7FFFFFFF` raises `ValueError`. That is caught, so the text stays verbatim.
- The hex branch calls `unichr(int(text[3:-1]), 16)`. When the part after `&#x` is all decimal digits, it passes `unichr` two arguments and raises an uncaught `TypeError`; the model returns `HexReference`. Otherwise `int()` raises `ValueError` and the text stays verbatim. The model never decodes hex.
- `dict(...)` keeps the last pair for each key.
- `if sr:` and `if after:` test truthiness: neither `None` nor empty. This is `IsSet`.
- `f.next()` on an empty file raises `StopIteration`; the model returns `MissingHeader`.
- `r[1]` or `r[2]` on a row with fewer than three fields raises `IndexError`; the model returns `ShortRow(index)`.
- `summarize_batch_result` pairs lines with results by `zip`, which stops at the shorter list.
- `main` passes the whole `new_flair`, not the current chunk, as the lines (flairsync.py:208). `PostInBatches` keeps that. Position `j` of every chunk's result is therefore paired with row `j` of the whole change list. That is the row it belongs to only in the first chunk.

## Model

| member | source | states |
|---|---|---|
| Entities.MatchEnd | flairsync.py:123 | a match of `&#?\w+;` at the start of the text is a reference, and it is the only one: any prefix that is a reference ends where the match ends |
| Entities.DecodeEntity | flairsync.py:106-122 | a matched reference becomes one character or is returned as it is; only a `&#` reference can raise, and the error names that reference; a named reference never raises |
| Entities.Unescape | flairsync.py:106-123 | a successful decode is never longer than its input (what each kind of text decodes to is stated by the lemmas that follow) |
| Entities.Decode | flairsync.py:103-105 | `None` decodes to `None`; a string with no `&` decodes to itself |
| Entities.PlainPrefix | flairsync.py:123 | text without `&` is copied as it is, and decoding carries on after it unchanged |
| Entities.PlainUnchanged | flairsync.py:123 | a string without `&` is returned unchanged |
| Entities.NoReferenceCopied | flairsync.py:123 | where no prefix of the text matches `&#?\w+;`, its first character (an `&` included) is copied and the scan goes on after it |
| Entities.ReferenceFirst | flairsync.py:106-123 | a reference at the front is replaced by what `decode_entity` returns and decoding carries on after it; if `decode_entity` raises, the whole decode raises the same error |
| Entities.DecimalReference | flairsync.py:113 | `&#NNN;` with decimal digits whose value is a character becomes the character with code NNN |
| Entities.NonNumericReference | flairsync.py:108-122 | `&#` followed by a word that is not all digits (and not `x`-prefixed) is left verbatim |
| Entities.OverflowingReference | flairsync.py:113-115 | a decimal value above the C `int` range makes the whole decode fail with that reference |
| Entities.OutOfRangeReference | flairsync.py:113-115 | a decimal value that fits a C `int` but is a surrogate or at least 0x110000 is left verbatim |
| Entities.HexReferenceOutcome | flairsync.py:110-115 | `&#x` with an all-digit rest makes the decode fail; any other `&#x...;` is left verbatim |
| Entities.NamedReference | flairsync.py:116-122 | `&name;` with a known name becomes the table's character; an unknown name is left verbatim |
| Entities.AmpExample | flairsync.py:117-118 | `&amp;` decodes to `&` |
| Entities.DecimalExample | flairsync.py:113 | `&#65;` decodes to `A` |
| Entities.BogusExample | flairsync.py:119-122 | `&bogus;` stays `&bogus;` when the name is unknown |
| Entities.HexExample | flairsync.py:110-111 | `&#x41;` does not decode to `A`: the decode fails |
| Entities.AtAndTExample | flairsync.py:123 | `AT&T` decodes to `AT&T` |
| Entities.EmptyNumericExample | flairsync.py:123 | `&#;` decodes to `&#;` |
| Entities.UnterminatedExample | flairsync.py:123 | `&amp` without its `;` decodes to `&amp`, whatever the entity table holds |
| RedditClient.WithModhash | redditclient.py:88-90 | every key of the data keeps its value, so an existing `uh` is never overwritten; `uh` is added exactly when a modhash is set; when it was absent it carries the modhash |
| RedditClient.WithLeadingSlash | redditclient.py:69-70 | the path starts with `/`; it is the input or `/` plus the input; a path that already starts with `/` is unchanged |
| RedditClient.SessionSearch | redditclient.py:127-130 | the search over the cookies from index `i` is true exactly when some cookie from there on is named `reddit_session` |
| RedditClient.ListingRequests | redditclient.py:161-172 | at most one request per unit of fuel, and at least one when there is fuel; every request has the listing URL and `limit` equal to the batch size; the first has no `after`; each later one carries the previous page's `next`, which was set |
| RedditClient.ListingEntries | redditclient.py:167-170 | the entries are the users of every fetched page, in the order fetched |
| RedditClient.ListingComplete | redditclient.py:166-172 | the listing is complete exactly when the last fetched page had no cursor; otherwise every unit of fuel was spent |
| RedditClient.ScriptedListing | redditclient.py:161-172 | a source that serves a chain of pages, the last without a cursor, is read in one request per page, yielding all their users and stopping after the last |
| RedditClient.Client.constructor | redditclient.py:35-47 | the host is the input with trailing `/` characters removed and no others, so it does not end in `/`; the user agent is kept; there is no modhash; the cookies are the given jar |
| RedditClient.Client.SetModhash | redditclient.py:144-145 | the modhash becomes the one `/api/me` returned; nothing else changes |
| RedditClient.Client.Url | redditclient.py:67-75 | the URL ends in `.json`; with a subreddit it is host + `/r/` + sr + `/` + the slashed path (giving `//`); without one it is host + the slashed path |
| RedditClient.UrlLeadingSlash | redditclient.py:69-70 | adding the leading `/` before calling `_url` changes nothing; the URL starts with the host |
| RedditClient.Client.PrepareRequest | redditclient.py:77-99 | the method is kept; for GET the encoded data, with the modhash added, is appended after `&` when the URL holds `?` and after `?` otherwise, and the body is `None`; for POST the URL is unchanged and the encoded data is the body |
| RedditClient.Client.LoggedIn | redditclient.py:125-130 | true exactly when some cookie of the jar is named `reddit_session` |
| RedditClient.Client.FlairList | redditclient.py:148-172 | the loop's requests and entries, and whether the cursor ran out, are those of the listing specification for the subreddit's `/api/flairlist` URL, starting without a cursor |
| FlairSync.FlairFromCsv | flairsync.py:96-100 | an empty file fails for want of a header; the map is built exactly when every data row has at least three fields; otherwise the failure names the first short row |
| FlairSync.CsvMapKeys | flairsync.py:100 | the users of the map are exactly the first fields of the data rows that have a text or a css |
| FlairSync.CsvMapNoBlank | flairsync.py:100 | no entry of the map has both text and css empty |
| FlairSync.CsvMapLast | flairsync.py:100 | a kept row with no later kept row for its user gives that user's text and css |
| FlairSync.CsvContents | flairsync.py:96-100 | over a whole file: the users are those of the kept rows after the header, no entry is blank, and the last kept row for a user wins |
| FlairSync.CsvIgnoresHeader | flairsync.py:98-99 | the first row of the file never changes the result |
| FlairSync.DecodeEntry | flairsync.py:125 | the entry decodes exactly when its user, text and css all decode, to the three decoded values; a failure carries the error of the user, else of the text, else of the css |
| FlairSync.DecodeEntries | flairsync.py:125-126 | decoding succeeds exactly when every entry decodes; then each entry decodes to the decoded user and its decoded text and css, in order |
| FlairSync.DecodeEntriesFirstFailure | flairsync.py:125-126 | when entry `i` is the first to raise, the whole decode raises that entry's error |
| FlairSync.Dict | flairsync.py:125-126 | the keys are exactly the keys of the pairs; a key takes the value of its last pair |
| FlairSync.FlairFromReddit | flairsync.py:125-126 | the map is built exactly when every listed entry decodes, and it is then `dict` of the decoded pairs; otherwise the decoding error propagates |
| FlairSync.PlainEntry | flairsync.py:103-126 | an entry whose user, text and css hold no `&` decodes to itself |
| FlairSync.PlainDecodes | flairsync.py:125-126 | entries without `&` all decode, each to itself, in the order listed |
| FlairSync.RemotePlain | flairsync.py:103-126 | with nothing to decode, the remote map is `dict` of the entries as listed, so (by `Dict`) each listed user has the text and css of its last entry |
| FlairSync.DiffFlair | flairsync.py:128-138 | every modification is a user of `right` with `right`'s value; a user of `right` is modified exactly when it is new or its flair differs; deletions are `left`'s users not in `right`; no user is both modified and deleted |
| FlairSync.DiffThenApply | flairsync.py:128-138 | removing the deletions from `left` and setting the modifications gives `right` |
| FlairSync.DiffEmptyIff | flairsync.py:128-138 | the diff is empty exactly when the two maps are equal |
| FlairSync.DiffDisjoint | flairsync.py:133-137 | with no user in common, every user of `right` is a modification and every user of `left` a deletion |
| FlairSync.FirstFlairScenario | flairsync.py:9-27 | a file holding `user,text,css` and `alice,zzr600,kawasaki`, against a site with no flair, gives one modification, `alice` to `zzr600`/`kawasaki`, and no deletions |
| FlairSync.HeaderOnlyScenario | flairsync.py:29-44 | a file with only its header parses to the empty map, and against a site where one user has flair that user is the one deletion |
| BatchApply.CountFailed | flairsync.py:157 | the loop counts what `FailedCount` counts, which `FailedCountIsSkipped` shows is the number of skipped entries |
| BatchApply.CollectErrors | flairsync.py:163-167 | the loop over the first `n` pairs produces the reports of the specification, whose soundness, completeness and order are the lemmas below |
| BatchApply.NoteWarnings | flairsync.py:172-173 | one note per warning of the entry, in order, each with the entry's index and line |
| BatchApply.CollectNotes | flairsync.py:170-173 | the loop over the first `n` pairs produces the notes of the specification, whose soundness and completeness are the lemmas below |
| BatchApply.SummarizeBatchResult | flairsync.py:156-173 | the three loops compute the failed count, the error reports and the notes of the summary specification |
| BatchApply.FailedCountIsSkipped | flairsync.py:157-161 | the skipped count is the number of result entries whose `ok` is false |
| BatchApply.ErrorReportsSound | flairsync.py:163-167 | every error report is for a skipped entry among the zipped pairs, with the line zipped with it and its error messages |
| BatchApply.ErrorReportsComplete | flairsync.py:163-167 | every skipped entry among the zipped pairs is reported |
| BatchApply.ErrorReportsOrdered | flairsync.py:163-164 | reports come out in the order of the entries |
| BatchApply.ErrorReportsCount | flairsync.py:157-164 | there are as many reports as skipped entries among the zipped results |
| BatchApply.NotesSound | flairsync.py:170-173 | every note is for a committed entry with warnings among the zipped pairs, carries the line zipped with it, and one of its warning messages |
| BatchApply.NotesComplete | flairsync.py:170-173 | every warning of every committed entry among the zipped pairs is noted |
| BatchApply.NotesCount | flairsync.py:170-173 | there are as many notes as warnings on the committed entries among the zipped pairs, repeated messages included |
| BatchApply.NotesOrdered | flairsync.py:170-173 | notes come out in the order of the entries: their positions never decrease |
| BatchApply.SkippedAllReported | flairsync.py:157-167 | when there are as many lines as results, the number of reports equals the skipped count |
| BatchApply.ModificationRows | flairsync.py:135-137 | one row per modified user, each carrying that user's new flair, each user once |
| BatchApply.DeletionRows | flairsync.py:201 | one blank row per deleted user, each user once |
| BatchApply.NewFlair | flairsync.py:201 | the change list has length modifications plus deletions; the modifications come first, each with its flair and each user once; then each deletion, once, with blank text and css; when no user is both, no user is listed twice |
| BatchApply.PostInBatches | flairsync.py:203-208 | ceil(n/100) posts; post `k` announces `100k+1` to `min(n, 100k+100)` of `n`; it sends rows `100k` to `min(n, 100k+100)`, a non-empty chunk of at most 100; its summary pairs that post's results with the whole change list; the chunks concatenate back to the change list |
| BatchApply.PostChunk | flairsync.py:203-208 | post `k` sends rows `100k` to `min(n, 100k+100)`, announces them as `100k+1` to that end of `n`, and summarises the answer against the whole change list |
| BatchApply.PostedPrefix | flairsync.py:203-206 | the first `p` posts together send the change list up to row `min(n, 100p)`, in order |
| BatchApply.WarningNotesExact | flairsync.py:172-173 | there are as many notes as warnings, and note `m` carries the entry's index, its line and warning `m`'s message |
| BatchApply.ChunkSizes250 | flairsync.py:203-206 | 250 changes go out in posts of 100, 100 and 50 rows |

## Left out

- HTTP transport: the urllib2 opener, the digest authentication handler, header building (including `User-Agent`), and JSON and content-type parsing of responses (redditclient.py:49-55, 101-123). `fetch` stands for a GET of one listing page. `urlencode` is a parameter of `PrepareRequest`.
- The cookie jar's file: loading, saving, and extracting cookies from responses (redditclient.py:57-65, 107-116). The jar is a sequence of cookies, of which only the names matter.
- `log_in`, `flair`, `unflair` and the top-level `log_in` helper. They are terminal prompts and thin POST wrappers. Only the modhash assignment of `log_in` is modelled, as `SetModhash`.
- `flaircsv`'s csv serialisation and post. The server's answer to a post is the function parameter of `PostInBatches`.
- Reading the csv file. `FlairFromCsv` takes the records already split into fields.
- `parse_args`, `configure_logging`, `ynprompt`, the `(modifications or deletions)` guard with its confirmation prompt, and all printing. The summary records what would be printed; the text formatting is not modelled.
- Iteration order of sets and dicts. The modifications of `diff_flair` are a map here: the order of the list (changed users before added users) is not modelled. `NewFlair` takes users in an arbitrary order.
- The generator laziness of `flair_list`. The model reads the whole listing before decoding.
- `FlairList`: the `while True` loop is bounded by a `fuel` page budget. A listing that does not end within the budget is returned with `complete` false.
- `DecodeEntity` (and so `Unescape`): a decimal reference to a surrogate code point (0xD800-0xDFFF) is left verbatim. Python 2 would return a lone surrogate, which a Dafny `char` cannot hold. A wide (UCS-4) Python build is assumed. On a narrow build, `unichr` rejects values above 0xFFFF.
- The entity table `htmlentitydefs.name2codepoint` followed by `unichr` is a parameter: a map from name to character.
- `FlairFromReddit` keeps the text and css as `Option<string>`, as listed, while the csv map holds strings. `main` diffs the two; Python 2 compares `str` and `unicode` values, and `None` against `''`, which the model does not.
