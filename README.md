# cross-notifier, modelled in Dafny

cross-notifier watches users' stock lists and sends an e-mail when a
moving-average crossover appears. This project models its two parts:

* **The alert engine** (`run_bot.py`). A run is one call of `main_loop`:
  1. The schedule gate decides whether a run happens at all: Tokyo or New York trading hours, on a :00 or :30 minute.
  2. The watch lists of the users with notifications on are read. Each list is cut into symbols.
  3. The symbols are turned into tickers by the exchange-suffix rule.
  4. Each ticker of the union is downloaded once. Downloads go in batches of ten, with a pause after every hundred successes.
  5. For each user, the crossover detector runs on the cached frame of each of their symbols. A user with at least one signal gets one e-mail. The body groups Tokyo and US entries under their headings.
* **The dashboard's POST handler** (`app.py`). The submitted list is cleaned: each line is stripped, blank lines are dropped, and duplicates are removed keeping the first occurrence. The cleaned list is checked against the per-role cap. It is then saved with the e-mail address and the notification flag.

Layout, one module per file:

| module | models |
|---|---|
| `Wrappers` | the `Option` type |
| `Text` | Python's `str.strip`, `splitlines`, `"\n".join`, `isspace`, `isdigit`, `isalpha` and `in`, as the source uses them |
| `Signal` | `detect_cross`; `DetectCross` fills a signal column and a cross column in arrays, as the source does with data-frame columns |
| `Batching` | the `batch` generator |
| `Schedule` | `is_within_schedule` |
| `Symbols` | list parsing, the ".T" suffix rule, and the fetch set |
| `Fetch` | the nested download loop |
| `Email` | `format_email_body` |
| `Models` | the `User` record |
| `Dashboard` | the POST branch of `dashboard` |
| `Cycle` | `main_loop` and `send_email` |

Inputs that the source gets from outside become parameters:
* the current Tokyo and New York local times and the two holiday flags;
* the rows of the `User` table, in database order (`Enabled` models the query's `notify_enabled` filter);
* the download of each ticker, as a function from ticker to `Frame(bars)` or `Raised`;
* the company-name lookup;
* the timestamp text.

Sending is an append to the log of an `Outbox` object.

The code does none of the following, and neither does the model:
* Symbols are not uppercased. Duplicates are found by exact text (`CaseSensitiveDedup`).
* The engine does not deduplicate a user's list again (`ParseKeepsRepeats`).
* There is no administrator broadcast list.
* There is no retry or back-off on a failed download. A failure is final for the run.
* There is no notification history. The same signal is mailed again on the next run.
* Only the EMA-crossover strategy exists.
* A run that fails does not skip to the next user: an exception not caught by the download loop, the name lookup or `send_email` ends the run.

## Model

| member | source | states |
|---|---|---|
| Text.Strip | run_bot.py:140 | `strip` leaves no whitespace at either end and never lengthens the text |
| Text.StripBlank | run_bot.py:140 | a line strips to the empty string exactly when it is all whitespace (the `if s.strip()` filter) |
| Text.StripNoBreaks | app.py:9-10 | stripping a line from `splitlines` cannot put a line break into it |
| Text.StripOfStripped | app.py:10 | `strip` returns an already stripped string unchanged |
| Text.StripIdempotent | app.py:10 | stripping twice is stripping once |
| Text.StripKeepsPrefix | run_bot.py:102 | a prefix that starts with non-whitespace and is followed by non-whitespace survives the final `strip` of the body |
| Text.SplitLines | app.py:9 | no line `splitlines` produces contains a line break |
| Text.SplitJoin | app.py:24 | joining non-empty, break-free lines with "\n" and splitting again gives the same lines |
| Text.JoinLines | app.py:24 | a length bound; `SplitJoin` proves `splitlines` inverts it |
| Text.ContainsAt | run_bot.py:83 | `p in s` holds exactly when `p` occurs at some index of `s` |
| Text.StripIsPrefix | run_bot.py:102 | a text starting with a non-space loses nothing at the front when stripped |
| Text.StripDropsTrailingSpace | run_bot.py:102 | a trailing whitespace character is always cut |
| Text.NotContainsWithoutHead | run_bot.py:83 | a text that lacks the first character of a pattern does not contain the pattern |
| Text.DigitIsNotAlpha | run_bot.py:144-145 | no character is both a digit and a letter, so the Tokyo and US symbol sets are disjoint |
| Text.LineBreakIsSpace | run_bot.py:140 | every line-break character is whitespace |
| Signal.LastCross | run_bot.py:39-55 | golden exactly when the last two bars go from fast-below-slow to fast-above-slow; dead exactly when they go from above to below; strong exactly when the last gap exceeds 1.0 |
| Signal.BarState | run_bot.py:42-44 | the signal value is 1 exactly when fast is above slow, -1 exactly when below, 0 exactly when equal |
| Signal.CrossText | run_bot.py:49-54 | the text begins with "ゴ" for a golden and "デ" for a dead cross, and ends with "強）" for a strong and "弱）" for a weak one |
| Signal.CrossTextInjective | run_bot.py:49-54 | two crosses with the same text are the same cross |
| Signal.DetectCross | run_bot.py:39-55 | the signal and cross columns, filled bar by bar, report exactly `LastCross` |
| Signal.OneBarNoSignal | run_bot.py:45-49 | a single bar never signals: its cross value has no predecessor |
| Signal.TieNoSignal | run_bot.py:42-49 | when fast and slow are equal on either of the last two bars, there is no signal: a step to or from state 0 is at most 1, never 2 |
| Signal.OnlyLastTwoBarsMatter | run_bot.py:45-49 | changing any bar before the last two does not change the result |
| Signal.GapOfOneIsWeak | run_bot.py:50 | a gap of exactly 1.0 is weak, because the threshold is strict |
| Batching.Kept | run_bot.py:61 | the kept items are non-empty items of the round, no more of them than were pulled |
| Batching.Chunks | run_bot.py:57-64 | every chunk yielded has between 1 and `size` items |
| Batching.Batch | run_bot.py:57-64 | the `while True` loop yields exactly `Chunks(xs, size)` |
| Batching.Round | run_bot.py:60-61 | one round pulls `size` items, or what remains, and keeps the non-empty ones |
| Batching.ChunksStep | run_bot.py:59-64 | one round is one unfolding of the chunk sequence: an empty round ends it |
| Batching.KeptAll | run_bot.py:61 | with no falsy item, filtering keeps everything |
| Batching.ChunksConcat | run_bot.py:57-64 | with no falsy item and positive size, the chunks concatenate back to the input |
| Batching.ChunksFull | run_bot.py:60 | with no falsy item, every chunk except the last has exactly `size` items |
| Batching.ChunksCount | run_bot.py:57-64 | with no falsy item, there are ceil(n / size) chunks |
| Batching.CeilStep | run_bot.py:60 | removing one round of `size` from n items removes one chunk from ceil(n / size) |
| Batching.BlankRoundStops | run_bot.py:62-63 | a round of blank items stops the generator even when items remain after it |
| Batching.NonPositiveSizeYieldsNothing | run_bot.py:60-63 | a size of zero or less yields no chunk |
| Schedule.IsWithinSchedule | run_bot.py:104-122 | a run happens exactly when the minute is 0 or 30 and either Tokyo is on a non-holiday weekday between 8:30 and 15:00 inclusive, or New York is on a non-holiday weekday between 9:00 and 15:30 inclusive |
| Schedule.JpCloseInclusive | run_bot.py:117 | 15:00:00 in Tokyo is inside the window, but any later instant in that second is not |
| Schedule.ClosedMarketsNeverRun | run_bot.py:114-122 | when both markets are on a weekend or holiday, nothing runs |
| Symbols.StrippedNonBlank | run_bot.py:140 | the symbols kept from the lines are non-empty and stripped, and there are no more of them than lines |
| Symbols.StrippedLinesSnoc | run_bot.py:140 | the stripped forms of the lines grow by the stripped last line |
| Symbols.StrippedNonBlankMember | run_bot.py:140 | a symbol is kept exactly when it is some line stripped and is not empty |
| Symbols.StrippedNonBlankNoBreaks | run_bot.py:140 | symbols cut from break-free lines are break-free |
| Symbols.ParseSymbols | run_bot.py:140 | every parsed symbol is non-empty, stripped and break-free |
| Symbols.ParseSymbolsMember | run_bot.py:140 | a text yields a symbol exactly when one of its lines strips to that symbol |
| Symbols.StrippedNonBlankOfStripped | run_bot.py:140 | lines that are already stripped and non-empty pass through unchanged |
| Symbols.ParseOfJoined | run_bot.py:140 | a list the dashboard stores parses back in the engine to the same list |
| Symbols.FetchName | run_bot.py:144-148 | a digit-leading symbol is looked up as the symbol followed by ".T"; any other symbol is used as it is |
| Symbols.FetchSet | run_bot.py:144-149 | a symbol's ticker is fetched exactly when the symbol is digit- or letter-leading, and every fetched ticker comes from such a symbol |
| Symbols.AllSymbols | run_bot.py:136-142 | the union holds exactly the symbols that appear in some list |
| Fetch.Succeeds | run_bot.py:159-161 | a download is cached only when it raised nothing and its frame has at least one bar |
| Fetch.CacheOf | run_bot.py:151-167 | the cache holds only requested tickers, and each frame has at least one bar |
| Fetch.Enumerate | run_bot.py:155 | walking the set (through `iter`, run_bot.py:58) visits each element exactly once |
| Fetch.FetchAll | run_bot.py:151-169 | the cache holds exactly the targets whose download gave a non-empty frame, with that frame; the failures are exactly the other targets; there is one pause per hundred successes |
| Fetch.FetchBatch | run_bot.py:154-167 | one batch extends the cache by its successful tickers, keeping the success count and the pause count in step |
| Fetch.WalkCovers | run_bot.py:155 | the walk of the fetch set holds no blank ticker and covers the whole set |
| Fetch.CacheStep | run_bot.py:157-160 | one more ticker changes the cache at that ticker only, and only when its download succeeded |
| Email.CompanyName | run_bot.py:77-81 | the "longName" value when present; "名称不明" when the key is missing; "名称取得失敗" when the lookup raised |
| Email.SignalWord | run_bot.py:83 | the reading is "買い気配" exactly when the cross text contains "ゴールデンクロス", and "売り気配" otherwise |
| Email.Url | run_bot.py:84 | the quote page is addressed by the suffixed ticker: ".T" added for digit-leading symbols |
| Email.Header | run_bot.py:71 | the header line starts with a non-space and ends with a line break |
| Email.Assemble | run_bot.py:96-102 | the body is stripped at both ends |
| Email.SignalWordOfCross | run_bot.py:83 | the reading is "buy" for every golden cross and "sell" for every dead cross |
| Email.Entry | run_bot.py:86-90 | an entry starts with its symbol |
| Email.Group | run_bot.py:91-94 | each section holds results of its own market only, drawn from the results |
| Email.Entries | run_bot.py:73-90 | one entry per result, each starting with its symbol |
| Email.AssembleLayout | run_bot.py:96-102 | the body opens with the header and a blank line. The Tokyo section, when its entries start with a non-space, comes next. The US section follows it, or follows the blank line when Tokyo is empty. A title follows the blank line only for a section with entries, and with no US entry the body ends inside the Tokyo section |
| Email.JpTitleOnlyForEntries | run_bot.py:97-98 | the Tokyo title follows the blank line only when there are Tokyo entries |
| Email.UsTitleOnlyForEntries | run_bot.py:96-100 | the US title follows the blank line only when there are US entries and no Tokyo entry |
| Email.EndsInJpSection | run_bot.py:98-102 | with no US entry, the stripped body is a prefix of the header, the Tokyo title and the joined Tokyo entries |
| Email.AssembleIsPrefix | run_bot.py:96-102 | the body starts with the header, so the final `strip` cuts only at the end |
| Email.GroupNonEmpty | run_bot.py:91-94 | a section is non-empty exactly when some result belongs to its market |
| Email.SectionShape | run_bot.py:91-94 | a section has entries exactly when its market has results, and then its first entry starts with a non-space |
| Email.BodyLayout | run_bot.py:66-102 | for results with stripped symbols: the Tokyo title follows the header exactly when some result is a Tokyo symbol; the US title does exactly when none is and some result is a US symbol; with both markets the US section follows the Tokyo one; with Tokyo results only, nothing follows the Tokyo section |
| Email.FormatEmailBody | run_bot.py:66-102 | the body is the assembled layout of the Tokyo and US entries, in result order |
| Email.Sections | run_bot.py:73-94 | the loop puts each entry in its market's list, in result order |
| Email.SectionsStep | run_bot.py:91-94 | one more result extends exactly the list of its own market |
| Email.GroupPartition | run_bot.py:91-94 | every result lands in exactly one of the two sections (multiset equality) |
| Email.GroupAppend | run_bot.py:73 | grouping distributes over concatenation, so section order follows result order |
| Models.User.constructor | models.py:10-13 | a new account has role "user", no e-mail, no list, and notifications on |
| Models.User.Row | models.py:6-13 | the row the engine reads carries the record's id, list, e-mail and flag |
| Dashboard.Dedup | app.py:8-13 | the result has no repetition and holds exactly the input's elements |
| Dashboard.DedupFirstOccurrenceOrder | app.py:8-13 | deduplication keeps elements in the order of their first occurrence |
| Dashboard.DedupOfDistinct | app.py:11 | a list without repetitions is unchanged |
| Dashboard.Clean | app.py:6-13 | the saved list has no repetition; its symbols are non-empty, stripped and break-free; and it holds exactly the non-empty stripped lines of the input |
| Dashboard.CleanSymbols | app.py:6-13 | the loop with the `seen` set computes exactly `Clean` |
| Dashboard.CleanStep | app.py:9-13 | one more line appends its stripped form, and adds it to `seen`, exactly when it is non-blank and not yet seen |
| Dashboard.StrippedNonBlankSnoc | app.py:9-12 | one more line adds its stripped form when that is non-empty |
| Dashboard.DedupSnoc | app.py:11-13 | one more element is appended exactly when it is not yet present |
| Dashboard.CleanIdempotent | app.py:6-24 | cleaning the stored list again gives the same list |
| Dashboard.CaseSensitiveDedup | app.py:11 | "aapl" and "AAPL" are both kept |
| Dashboard.MaxSymbols | app.py:16 | the cap is 10000 for the "admin" role and 100 for every other role |
| Dashboard.Submit | app.py:4-28 | a missing "symbols" field is a bad request and nothing changes. Over the cap (100, or 10000 for admins), the warning is returned and nothing changes. A missing "email" field is a bad request and nothing is committed. Otherwise the joined cleaned list, the e-mail and the flag ("notify" present) are saved, role and name are unchanged, and the row the engine reads for the record parses back to exactly the cleaned list |
| Dashboard.StoredListReadsBack | app.py:24 | the engine reads back exactly the cleaned list the dashboard saved |
| Cycle.Outbox.Send | run_bot.py:25-37 | one message to that address, with that subject and body, is appended to the log |
| Cycle.UserSignals | run_bot.py:175-183 | each result is drawn from a symbol of the user's list, and there are no more results than list entries; a symbol listed twice can give two results |
| Cycle.UserSignalsNonEmpty | run_bot.py:175-185 | a user has results exactly when some symbol of theirs has a cached frame that signals |
| Cycle.UserSignalsAppend | run_bot.py:177-183 | the results follow the order of the user's list |
| Cycle.CollectResults | run_bot.py:175-183 | the per-symbol loop collects exactly `UserSignals` |
| Cycle.Enabled | run_bot.py:135 | every queried user comes from the table and has notifications on |
| Cycle.EnabledMember | run_bot.py:135 | a user is queried exactly when they are in the table with notifications on |
| Cycle.EnabledAppend | run_bot.py:135 | the query keeps table order: it distributes over concatenation |
| Cycle.UserMap | run_bot.py:139-141 | entry k of `user_map` is the k-th queried user together with the parsed symbols of their stored list |
| Cycle.UnionNonBlank | run_bot.py:139-142 | the union holds no blank symbol |
| Cycle.Targets | run_bot.py:136-149 | the fetch set holds no blank ticker |
| Cycle.MainLoop | run_bot.py:124-190 | outside the schedule nothing is sent. Otherwise the fetch set is downloaded once; the report lists what was fetched, what failed and the pauses; and exactly one mail per signalling user is sent, in `user_map` order |
| Cycle.GatherLists | run_bot.py:136-142 | the first loop builds `user_map` and the union of its lists |
| Cycle.UnionSnoc | run_bot.py:142 | one more user adds exactly their symbols to the union |
| Cycle.NotifyAll | run_bot.py:175-188 | the last loop sends exactly `Mails(user_map)` |
| Cycle.MailsSnoc | run_bot.py:175-187 | one more user adds exactly their own mail, if any |
| Cycle.NotifyUser | run_bot.py:176-187 | one user's turn sends one mail to their address with the fixed subject when there are results, and nothing otherwise |
| Cycle.MailFor | run_bot.py:185-187 | a user's mail, when there is one, goes to their address with the fixed subject |
| Cycle.AddresseeOf | run_bot.py:185-187 | a user's turn sends one mail to their address exactly when one of their symbols signals, and none otherwise |
| Cycle.MailsReachRecipients | run_bot.py:135-187 | the mails of a run (`Mails`) go, in table order and once each, exactly to the users with notifications on one of whose stored symbols signals on the cached frames |
| Cycle.MailIff | run_bot.py:185-187 | a user is mailed exactly when one of their symbols signals |
| Cycle.LookupHit | run_bot.py:144-179 | a symbol of `user_map` finds a cached frame exactly when it is digit- or letter-leading and its ticker's download gave a non-empty frame |
| Cycle.ParseKeepsRepeats | run_bot.py:140 | the engine neither deduplicates nor uppercases: "7203\naapl\n7203" gives three symbols |

## Left out

- The e-mail transport (SendGrid, its key and sender address) is not modelled. A send is an append to the `Outbox` log. A delivery error is only printed by the source, so it has no modelled effect.
- Downloading with `yf.download` is not modelled: it is the `download` parameter. The period and interval arguments and network timeouts are not modelled. An exception is `Raised`, and an empty frame has zero bars.
- The exponential moving averages (`ewm(span=5)`, `ewm(span=12)`) are not computed, and neither are NaN values nor floating-point rounding. `DetectCross` takes the two smoothed columns, as reals.
- The company-name lookup `yf.Ticker(...).info` is the `lookup` parameter. A "longName" key that is present with a null value is not modelled; the source would print "None".
- Clocks, time zones and holiday calendars are not modelled: the local times and holiday flags are inputs. The timestamp text is an input; `strftime` is not modelled.
- Cycle.MailFor and Cycle.MainLoop: one `timestamp` text and one pure `lookup` serve every mail of a run. The source reads the clock in each `format_email_body` call (run_bot.py:69-70) and asks the provider for each result's company name anew (run_bot.py:78). So two mails of one run can differ in their time or in a company name, whereas the model's mails for equal results are equal.
- `time.sleep(5)` is not modelled; it is counted as `pauses`. `print` logging is left out.
- The database is not modelled: the `users` input is the `User` table in database order, and `Enabled` performs the query's filter on it. The session, the app context and `commit` are not modelled. `password_hash` is left out.
- run_bot.py:129 enters `app.app_context()`, but run_bot.py never defines `app`. The model takes that context as given.
- Dashboard.Submit: `User` stands for the committed row, not for the object in the session. The source assigns the joined list to `current_user.symbols` (app.py:24) before it reads `request.form["email"]` (app.py:25). When that key is missing, the request fails and the session discards the uncommitted assignment. The model tests for the key before assigning, so on that branch `unchanged(user)` describes the row after the discarded change.
- Flask routing, login, the GET branch and the HTML pages are left out. `OverLimit` carries the two numbers the warning page shows.
- `isdigit` and `isalpha` cover only ASCII and full-width digits, Latin letters, kana and CJK ideographs, not all of Unicode. `isspace` and the `splitlines` break set are modelled in full.
- The order of a Python `set` walk is arbitrary. `Enumerate` picks any order, and every contract holds for every order. `failed_symbols` is modelled as a set, because its order shows only in a log line.
- Cycle.MainLoop: requires every enabled user to have a stored list and distinct ids. With a NULL list the source raises `AttributeError` and the run ends; that crash is not modelled. Ids are the table's primary key.
- Signal.LastCross: requires at least one bar. The engine calls the detector only on non-empty frames; on an empty frame the source would raise `IndexError`.
