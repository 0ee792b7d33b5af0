# Salesforce door scraper and Clic+/CSR detail scraper — a Dafny model

The application has two jobs. Both run in `salesforce_scraper_gui.py`.

* **The door listing** (`SalesforceScraper`). This job pages through a Salesforce list view of
  "doors" (service addresses). It opens each door's detail page and reads the detail table's
  `<td>` cells as label/value pairs. It drops "fizz" clients. It writes the records to a JSON
  file and to a CSV file whose header has three fixed columns and then the sorted union of all
  record keys. The file names start with a prefix built from the slugs of the city, street and
  area code.
* **The detail scrape** (`ClicDetailScraper`). This job reads a doors file and takes its
  `Compte client` accounts.
  * It normalises each account to its digits.
  * It routes accounts of at most eight digits to the Clic+ back-end and the others to CSR.
  * The Clic+ scrape reads a header of label/value lines and polls the contact block for a
    phone number. The CSR scrape reads key/value entries.
  * It left-joins the phones and emails back onto the doors by account digits.
  * It reports the doors still without a phone.
  * It writes an eight-column template workbook.
  * On any exception it re-reads the file and still writes the template, with "N/A" for
    missing data.

The model has one module per concern:

| module | contents |
|---|---|
| `Wrappers` | `Option` and `Result` |
| `Text` | Python's `strip`, `splitlines`, `lower`, `\D` removal, `in` and `replace` on strings, lexicographic `<` |
| `Seqs` | list comprehensions with a filter |
| `Fields` | records built by successive `out[k] = v` and the pairing of interleaved lines |
| `Accounts` | `_clean_acc`, the routing split, `account[-7:]` |
| `Slug` | `_slug` and the export prefix |
| `Retry` | `safe_find`, `safe_click`, `_with_retries` and the header wait, as one retry loop under a policy |
| `ClicPage` | `_scrape_one`: header parse, `phone_loaded` poll, contact extraction |
| `CsrPage` | `_scrape_csr`: entry parse and contact fields |
| `Doors` | `_scrape_door`: cell pairing and the fizz filter |
| `Csv` | the CSV export |
| `Listing` | the paging loop of `SalesforceScraper.run` and its exports, with the class `DoorScraper` |
| `Reconcile` | the pandas merge, the missing-phone report and the template |
| `DetailJob` | `ClicDetailScraper.run` as a state transition, with the class `Detail` |

Notes on how the code is modelled:

* **The browser is a parameter.** Each operation is given what the browser would return.
  A `nat -> Outcome` gives, per try, a value or the exception raised.
* **Stop flag.** Setting the stop flag is modelled as the number of scrapes started before the
  flag was seen (`stopAfter`).
* **pandas.** A DataFrame row is a map from column names to the cells that are not missing.
  NaN is an absent key, and NaN keys match each other in a merge.
* **The code is modelled as written.** These behaviours are surprising but are kept:
  * In the listing loop, a door record whose `Compte client` cell is empty and whose `Client`
    cell is non-empty reaches `re.sub` with `None` (line 1402). This raises, leaves the paging
    loop, and lands in the fatal-error branch, where the `finally` export still runs.
  * A detail run that scraped no record returns silently, with no final event (lines 848-850).
  * An existing `Téléphone` or `Courriel` column in the doors file makes the merged column
    names clash. The run then takes the recovery branch.

## Model

| member | source | states |
|---|---|---|
| Accounts.CleanAcc | salesforce_scraper_gui.py:91-92 | the normal form of an account is made of digits only and is never longer than the account |
| Accounts.CleanAccIsDigits | salesforce_scraper_gui.py:91-92 | stripping first changes nothing: the normal form is exactly the digits of the raw account, in order |
| Accounts.CleanAccIdempotent | salesforce_scraper_gui.py:91-92 | normalising a normal form changes nothing |
| Accounts.CleanAccOfDigits | salesforce_scraper_gui.py:91-92 | an account of digits only is its own normal form |
| Accounts.CleanAccAppend | salesforce_scraper_gui.py:91-92 | normalisation distributes over concatenation, so separators never move or lose digits |
| Accounts.RoutePartition | salesforce_scraper_gui.py:797-798 | the Clic+ and CSR lists together are a permutation of the accounts; no account is lost or duplicated |
| Accounts.RouteExactlyOne | salesforce_scraper_gui.py:797-798 | an account is in the Clic+ list iff its normal form has at most 8 digits, and in the CSR list iff it has more |
| Accounts.RouteAppend | salesforce_scraper_gui.py:797-798 | routing keeps the input order within each list |
| Accounts.LastSeven | salesforce_scraper_gui.py:701 | the CSR customer id is the account's last seven characters, or the whole account when it is shorter |
| Text.Strip | salesforce_scraper_gui.py:1315 | a stripped string neither starts nor ends with whitespace |
| Text.Parts | salesforce_scraper_gui.py:509 | the header and contact lines kept are non-empty and stripped |
| Text.PartsTwoLines | salesforce_scraper_gui.py:548 | two stripped lines joined by a line break give exactly those two parts |
| Text.DigitsOfStrip | salesforce_scraper_gui.py:92 | stripping whitespace removes no digit |
| Text.LexLessTotal | salesforce_scraper_gui.py:1477 | Python's string order used by `sorted` is total on distinct strings |
| Text.LexLessTransitive | salesforce_scraper_gui.py:1477 | that order is transitive |
| Seqs.FilterSplit | salesforce_scraper_gui.py:797-798 | a filter by a predicate and one by its negation together are a permutation of the list |
| Seqs.FilterMember | salesforce_scraper_gui.py:903 | an element is kept iff it occurs and satisfies the predicate |
| Fields.AssignKeys | salesforce_scraper_gui.py:509-513 | after successive assignments, the keys are the seed's keys plus the assigned keys, and nothing else |
| Fields.AssignLast | salesforce_scraper_gui.py:509-513 | a key keeps the value of its last assignment |
| Fields.AssignUntouched | salesforce_scraper_gui.py:439 | a seed key that is never assigned keeps its seed value |
| Fields.Pairs | salesforce_scraper_gui.py:509 | `range(0, len(lines) - 1, 2)` visits `len // 2` pairs, pair `i` being lines `2i` and `2i+1` |
| Slug.Collapse | salesforce_scraper_gui.py:137 | after the `[^a-zA-Z0-9]+` substitution only alphanumerics and single underscores remain |
| Slug.SlugIsSafe | salesforce_scraper_gui.py:124-138 | a slug is lower-case letters, digits and single inner underscores, with no underscore at either end |
| Slug.SlugKeepsAlnum | salesforce_scraper_gui.py:124-138 | a slug keeps every ASCII letter and digit of the text, lower-cased and in order |
| Slug.SlugIdempotent | salesforce_scraper_gui.py:124-138 | the slug of a slug is itself |
| Slug.SlugEmptyIff | salesforce_scraper_gui.py:124-138 | a slug is empty iff the text has no ASCII letter or digit |
| Slug.SlugCompactionIsNoOp | salesforce_scraper_gui.py:137-138 | the final `_{2,}` compaction never changes the string |
| Slug.ExportPrefixSafeChars | salesforce_scraper_gui.py:1458-1463 | the export prefix is made only of slug characters |
| Slug.ExportPrefixKeepsAlnum | salesforce_scraper_gui.py:1458-1463 | the prefix neither loses nor adds a letter or digit: its letters and digits are those of the city, then of the street and the area code when given, lower-cased and in order |
| Retry.Attempt | salesforce_scraper_gui.py:252-260 | the retry loop of `safe_find`/`safe_click`: each failed call is followed by a sleep except the last, and a caught error before the last try retries. The loop ends with the first value, the first uncaught error, the error of the last try, or falls through when there are no tries |
| Retry.WithRetries | salesforce_scraper_gui.py:320-340 | `_with_retries` runs the same loop with three tries, catching everything, one second apart; it re-raises iff all three calls raised, and logs one "attempting" line per call, then a success, retry or failure line |
| Retry.SucceedsAfterFailures | salesforce_scraper_gui.py:252-260 | `k < retries` caught failures and then a success return the value after `k + 1` calls and `k` sleeps |
| Retry.ExhaustsRetries | salesforce_scraper_gui.py:257-259 | if every call fails with a caught error, the last try's error is re-raised after exactly `retries` calls |
| Retry.UncaughtPropagates | salesforce_scraper_gui.py:257 | an error outside the caught set escapes from the call that raised it, with no retry |
| Retry.CharacterizationUnique | salesforce_scraper_gui.py:252-260 | a run's verdict, call count and sleeps are determined by the policy and the operation |
| Retry.LinearBackoffGrows | salesforce_scraper_gui.py:260 | the k-th sleep is `k * sleep_step`, so the default `safe_find` sleeps 0.5 s and then 1 s |
| Retry.ZeroRetriesNeverCalls | salesforce_scraper_gui.py:252 | with zero retries the operation is never called and the function returns `None` |
| Retry.LinearTotalSleep | salesforce_scraper_gui.py:260 | after m sleeps with linear backoff, the total sleep is `step * m * (m + 1) / 2` |
| Retry.FirstDone | salesforce_scraper_gui.py:323-330 | the first successful call's value, or none when every call raised |
| Retry.CatchAllFindsFirstDone | salesforce_scraper_gui.py:477-503 | a catch-all loop returns iff some try succeeds, and then returns the first success |
| ClicPage.ParseHeader | salesforce_scraper_gui.py:506-513 | the header record is the account seed updated by the label/value pairs of the non-empty stripped header lines |
| ClicPage.ParseHeaderLines | salesforce_scraper_gui.py:509-513 | the pairing loop computes the seed updated by the visited pairs in order |
| ClicPage.HeaderKeys | salesforce_scraper_gui.py:506-516 | the record's keys are `Compte client` and the visited labels only; a trailing unpaired line is not a key |
| ClicPage.HeaderLastWins | salesforce_scraper_gui.py:509-513 | a label's value is the line after its last occurrence as a label |
| ClicPage.HeaderSeedSurvives | salesforce_scraper_gui.py:439-516 | the seeded account survives unless a header label overwrites it |
| ClicPage.PhoneSpan | salesforce_scraper_gui.py:563 | a phone-shaped match needs at least ten characters from where it starts |
| ClicPage.NarrowGateIsPhone | salesforce_scraper_gui.py:528-563 | a gate match with at most one space in its gap is also phone-shaped |
| ClicPage.GateCrossesLines | salesforce_scraper_gui.py:528 | the gate's `\s*` spans a line break: `418\n588-4462` passes it |
| ClicPage.ShortIsNotPhone | salesforce_scraper_gui.py:563 | a part shorter than ten characters is never phone-shaped |
| ClicPage.GatePassesExtractionFails | salesforce_scraper_gui.py:521-573 | for the block `418\n588-4462` the poll sees a phone, yet no single line is phone-shaped, so `Téléphone` is "N/A" |
| ClicPage.GateNeedsDash | salesforce_scraper_gui.py:528-563 | `418 588 4462` is phone-shaped but never passes the gate |
| ClicPage.GateDash | salesforce_scraper_gui.py:528 | a text without a dash never passes the gate |
| ClicPage.PollPhone | salesforce_scraper_gui.py:521-543 | the poll makes one to three checks. After the k-th "not yet" it sleeps `5k` seconds, including after the third. It reports missing iff its last check was "not yet" |
| ClicPage.PollShownIff | salesforce_scraper_gui.py:521-543 | the poll reports a phone iff some remaining try passes the gate and every try before it was "not yet": no contact block, or a block without the gate's shape |
| ClicPage.FirstEmail | salesforce_scraper_gui.py:552 | the email is empty iff no part holds `@`, and otherwise is a part holding `@` |
| ClicPage.LastPhone | salesforce_scraper_gui.py:559-566 | the phone is empty iff no part is phone-shaped |
| ClicPage.LastPhoneIsLast | salesforce_scraper_gui.py:559-566 | a phone found is a phone-shaped part with no phone-shaped part after it: the search runs over the parts in reverse |
| ClicPage.OrNA | salesforce_scraper_gui.py:572-573 | `s or "N/A"` is "N/A" iff `s` is empty or already "N/A", and is `s` otherwise |
| ClicPage.NANotContact | salesforce_scraper_gui.py:572-573 | "N/A" is neither an email nor phone-shaped |
| ClicPage.ContactFields | salesforce_scraper_gui.py:546-577 | `Courriel` is the first part with `@` and `Téléphone` the last phone-shaped part, "N/A" when there is none, and the rest of the record is unchanged |
| ClicPage.ScrapeOne | salesforce_scraper_gui.py:435-590 | a record iff the search worked, a header try succeeded, the header text was read, the poll saw a phone and the block could be read; the record is then the parsed header plus the contact fields. It raises iff the first input wait fails with something other than a timeout, or the poll raises an uncaught error, and it re-raises that error. Every other failure gives `None` |
| CsrPage.EntryValue | salesforce_scraper_gui.py:739 | a non-empty `title` wins, otherwise the stripped text |
| CsrPage.ParseEntries | salesforce_scraper_gui.py:730-746 | the entry loop gives the account seed updated by every entry, or `None` when an entry cannot be read |
| CsrPage.FoldEntriesIsAssign | salesforce_scraper_gui.py:735-741 | reading the entries assigns their pairs in order iff every entry is readable, and fails otherwise |
| CsrPage.CsrFieldsMeaning | salesforce_scraper_gui.py:735-741 | the CSR record's keys are `Compte client` and the stripped entry keys, each with the value of its last entry |
| CsrPage.CsrPhone | salesforce_scraper_gui.py:748-752 | the CSR phone is always stripped |
| CsrPage.CsrContactAbsent | salesforce_scraper_gui.py:748-753 | without a primary-phone entry the phone is "N/A"; without a user-name entry the email is "N/A" |
| CsrPage.CsrPhoneOfMobile | salesforce_scraper_gui.py:748-752 | a phone shown as `Mobile - <number>` gives the stripped number |
| CsrPage.CsrPhonePlain | salesforce_scraper_gui.py:748-752 | a phone without the prefix is only stripped |
| CsrPage.ScrapeCsr | salesforce_scraper_gui.py:592-758 | it raises iff loading the dashboard raises, with that error. Otherwise a record iff the modal appeared, every retried step (the customer id typed being the account's last seven characters) succeeded within three tries and every entry was readable; the record is then the entry record plus `Téléphone` and `Courriel` |
| Doors.Cell | salesforce_scraper_gui.py:1315 | a cell is `None` iff its stripped text is empty, and otherwise is the non-empty stripped text |
| Doors.Cells | salesforce_scraper_gui.py:1314-1316 | one cell per `<td>`, in order |
| Doors.PairCellsKeys | salesforce_scraper_gui.py:1318-1322 | a record's keys are exactly the truthy even cells that have a following cell |
| Doors.PairCellsTrailing | salesforce_scraper_gui.py:1318-1322 | a trailing unpaired cell changes nothing |
| Doors.PairCellsLastWins | salesforce_scraper_gui.py:1318-1322 | a repeated label keeps the value of its last pair |
| Doors.ScrapeDoorKeeps | salesforce_scraper_gui.py:1300-1336 | `_scrape_door` returns a record iff the stop flag is clear, the table was read, and the client value (`Client`, else `Compte client`) is a string in which no four letters spell "fizz" in any letter case. The record is then the paired cells |
| Doors.EmptyAccountCellDrops | salesforce_scraper_gui.py:1325-1335 | a record with no `Client` value and an empty `Compte client` cell is dropped by the exception `None.lower()` raises |
| Doors.FizzAnyCase | salesforce_scraper_gui.py:1326 | "fizz" is found in any letter case |
| Doors.FizzFound | salesforce_scraper_gui.py:1326 | "fizz" is found in the lower-cased value only where four letters spell it in some letter case |
| Csv.AllKeysMeaning | salesforce_scraper_gui.py:1476 | a header key is a key of some record, and every key of every record is a header key |
| Csv.Insert | salesforce_scraper_gui.py:1477 | inserting into a sorted key list keeps it strictly sorted and adds exactly that key |
| Csv.SortedKeys | salesforce_scraper_gui.py:1477 | `sorted(all_keys)` is strictly increasing and holds exactly the set's elements |
| Csv.SortedUnique | salesforce_scraper_gui.py:1477 | two sorted lists of the same set are equal |
| Csv.WriteCsv | salesforce_scraper_gui.py:1475-1492 | the CSV has the header of fixed columns and sorted keys, then one row per door. With no doors it is the three fixed columns alone. All rows have the header's width |
| Csv.CsvForUnique | salesforce_scraper_gui.py:1475-1492 | the CSV of a door list is unique, so the main export and the `finally` export of the same doors write the same table |
| Csv.CsvColumn | salesforce_scraper_gui.py:1487 | a header column holds each door's value under that key, or "" when the key is absent or the cell was empty |
| Listing.ScrapeDoorIsReply | salesforce_scraper_gui.py:1300-1336 | every detail-page result is `None` or a record with a fizz-free client string |
| Listing.VisitDoor | salesforce_scraper_gui.py:1394-1404 | a stopped run skips the link. Otherwise the visit raises iff the list table does not come back or the record's `Compte client` is `None`; when it does not raise, a `None` or empty reply is skipped and any other reply is kept as it is. A kept record is exportable |
| Listing.ScrapeLinks | salesforce_scraper_gui.py:1394-1404 | the inner loop only appends records, and without an exception it starts one scrape per link |
| Listing.ScrapeLinksRecords | salesforce_scraper_gui.py:1394-1404 | the inner loop visits the links started before the stop was seen. It raises iff one of them raises, and otherwise appends exactly their non-empty replies in order (`KeptReplies`), so a failed or empty record never ends the loop |
| Listing.ScrapeLinksExportable | salesforce_scraper_gui.py:1394-1404 | every record the inner loop appends is exportable |
| Listing.ScrapeLinksBudget | salesforce_scraper_gui.py:1394-1404 | no more records are appended than scrapes started before the stop was seen |
| Listing.Turn | salesforce_scraper_gui.py:1362-1454 | each pass counts one more page and leaves by `break` iff the page has no links. On a page whose scrapes do not raise, a disabled arrow or a non-stale exception stops the loop with the total set to this page, while a click or a stale reference leaves `more` and the total as they were. An empty page or a crash leaves them too |
| Listing.TurnKeeps | salesforce_scraper_gui.py:1362-1454 | a pass keeps the loop invariant: numbered progress events, exportable records, a known total only at the end, and records bounded by the live scrapes. Records only grow |
| Listing.PagingKeeps | salesforce_scraper_gui.py:1358-1454 | the whole loop keeps the invariant, only grows the records, and stops only when its condition fails |
| Listing.TurnRecords | salesforce_scraper_gui.py:1379-1404 | without a stop, a pass raises iff a link of its page raises, and otherwise appends the page's kept replies |
| Listing.PagingRecords | salesforce_scraper_gui.py:1358-1454 | a run without a stop raises iff a link on a page it reached raises, and otherwise keeps exactly those pages' non-empty replies, page after page (`KeptPages`) |
| Listing.PagingEndsOnLastPage | salesforce_scraper_gui.py:1431-1453 | the loop stops advancing only at a page whose arrow was disabled or whose advance raised something other than a stale reference |
| Listing.ListingFacts | salesforce_scraper_gui.py:1358-1454 | progress events are numbered 1, 2, 3, ... and carry no fraction. The total is known iff the loop stopped advancing, and then equals the last page, whose arrow was disabled or whose advance raised a non-stale exception. The loop ends only at that page, by the stop flag, by an empty page or by an exception. Kept records are exportable and at most `stopAfter`. A listing of N pages takes at most N + 1 passes. Without a stop, the run raises iff a link on a page it reached raises, and otherwise its records are exactly those pages' non-empty replies |
| Listing.EmptyFirstPage | salesforce_scraper_gui.py:1388-1390 | a first page without links ends the listing with no record and no progress event |
| Listing.StopBeforeStart | salesforce_scraper_gui.py:1362 | a stop seen before the loop leaves everything unchanged |
| Listing.DoorScraper.constructor | salesforce_scraper_gui.py:1060-1086 | a new scraper keeps the city, street and area code and starts with no doors, no events and no exports |
| Listing.DoorScraper.Paginate | salesforce_scraper_gui.py:1358-1454 | the paging loop leaves `doors` and `events` as the loop function computes them, and reports whether it left by an exception |
| Listing.DoorScraper.VisitLinks | salesforce_scraper_gui.py:1394-1404 | the door loop appends to `doors` what the inner-loop function computes |
| Listing.DoorScraper.ExportDoors | salesforce_scraper_gui.py:1457-1496 | one export that holds the current doors' prefix, JSON and CSV, then the `done` event with the door count |
| Listing.DoorScraper.TryBlock | salesforce_scraper_gui.py:1351-1532 | the `try` block leaves the doors and events of the listing function, and holds one export of the current doors exactly when the main export ran |
| Listing.DoorScraper.FinallyBlock | salesforce_scraper_gui.py:1533-1574 | the `finally` block adds an export and a `done` event iff there are doors, and the export it writes equals the main one |
| Listing.DoorScraper.Run | salesforce_scraper_gui.py:1351-1579 | the run leaves the doors and events of the listing function. The main export runs iff the loop ended normally. The `finally` export runs iff there are doors, and when both run they write the same export. A failed login returns before the search |
| Reconcile.MatchesMeaning | salesforce_scraper_gui.py:883-889 | a scraped row matches a door iff their account digits are equal, a missing account matching a missing one |
| Reconcile.MatchesUnique | salesforce_scraper_gui.py:883-889 | with unique keys a door has at most one match, and that match is the scraped row with its key |
| Reconcile.UnkeyedDoorUnmatched | salesforce_scraper_gui.py:883-889 | scraped rows always carry an account, so a door without one matches nothing |
| Reconcile.Joined | salesforce_scraper_gui.py:862-899 | a merged row keeps the door's cells, has `acct_digits` iff the door has an account, and then its digits, and takes the match's phone and email ("N/A" for a missing column or cell) or "N/A" without a match |
| Reconcile.LeftJoinUnique | salesforce_scraper_gui.py:883-889 | with unique keys the left join has one row per door, in order: the door joined with its match |
| Reconcile.MergeMeaning | salesforce_scraper_gui.py:861-899 | the checked merge succeeds iff the scraped keys are unique and the doors carry no `Téléphone` or `Courriel` column. It then keeps one row per door with its cells, and takes phone and email from the matching record or "N/A" |
| Reconcile.MissingIff | salesforce_scraper_gui.py:903 | a door's merged row is in the missing report iff no scraped row has its digits or the scraped phone is "N/A" |
| Reconcile.TemplateShape | salesforce_scraper_gui.py:921-933 | the template has one row per merged row and eight columns, with the merged phone and email in columns 3 and 4. On recovery no cell is left empty |
| Reconcile.TemplateMainBlanks | salesforce_scraper_gui.py:921 | on the main path an absent door column is written as "", and a blank cell of a present column stays blank |
| Reconcile.Overwritten | salesforce_scraper_gui.py:1000-1004 | without scraped rows, the recovery keeps one row per door: its keys are the door's plus `Téléphone` and `Courriel`, both "N/A", and every other cell keeps its value |
| DetailJob.ClicRecordHasAccount | salesforce_scraper_gui.py:439 | a Clic+ record always carries `Compte client` |
| DetailJob.CsrRecordHasAccount | salesforce_scraper_gui.py:595 | a CSR record always carries `Compte client` |
| DetailJob.AccountsOf | salesforce_scraper_gui.py:785 | no more accounts than door rows |
| DetailJob.AccountsOfMeaning | salesforce_scraper_gui.py:785 | an account is listed iff some door row has it |
| DetailJob.SweepFacts | salesforce_scraper_gui.py:814-845 | one loop's progress events are numbered from its start index, one per finished account. Its records are the records of those accounts, in order. It leaves early only by the stop flag or by the exception of the account after the last finished one |
| DetailJob.TwoSweepsNumbered | salesforce_scraper_gui.py:814-832 | the two loops' events together are numbered 1, 2, 3, ... of `len(accts)`; without a stop or an exception there is one per account |
| DetailJob.SweepRowsKeyed | salesforce_scraper_gui.py:814-845 | when every record a back-end answers carries `Compte client`, as `ScrapeOne` and `ScrapeCsr` promise, every record a loop keeps carries it, so every scraped row has a join key |
| DetailJob.ScrapeAccounts | salesforce_scraper_gui.py:814-845 | the loop computes what the one-loop function describes: records, events, scrapes started and whether one raised |
| DetailJob.SweepCompletes | salesforce_scraper_gui.py:814-845 | a loop that is never stopped and meets no exception finishes every account and keeps all their records |
| DetailJob.Recovered | salesforce_scraper_gui.py:955-1047 | the `except` branch keeps the scraped rows and reports and always ends with the error event. It writes one workbook iff the file is read again with its account column and either nothing was scraped or no phone or email column clashes. The workbook then has at least one row per door and no empty cell, and `detail_done` with its row count precedes the error. Otherwise the error event is all it adds |
| DetailJob.JobUnreadable | salesforce_scraper_gui.py:955-968 | an unreadable file, or one without a `Compte client` column, ends with the error event alone |
| DetailJob.JobLoginFails | salesforce_scraper_gui.py:955-1047 | a fresh job whose Clic+ login fails writes one template row per door with phone and email "N/A" and no empty cell, then `detail_done` with the door count and the error |
| DetailJob.JobCompletes | salesforce_scraper_gui.py:762-951 | a job whose file is read, whose browser starts and login succeeds, where no scrape raises, the stop flag is never set, the scraped accounts are unique, the doors have no phone or email column and something was scraped: it keeps the records of both loops, reports progress 1, 2, ..., n of n and then `detail_done` with the door count, with no error event, and writes one template workbook of the left join, with one row per door, plus the missing report iff some door lacks a phone |
| DetailJob.ExportedMerges | salesforce_scraper_gui.py:860-951 | with unique accounts and no clash, the export writes one template row per door with the merged phone and email, writes the missing report iff some door lacks a phone, and ends with `detail_done` and the door count |
| DetailJob.JobDuplicate | salesforce_scraper_gui.py:883-889 | a repeated scraped account makes the checked merge raise; the recovery joins unchecked and ends with `detail_done` of that row count and the error |
| DetailJob.Detail.constructor | salesforce_scraper_gui.py:291-311 | a new scraper has no rows, events, workbooks or reports |
| DetailJob.Detail.SweepAccounts | salesforce_scraper_gui.py:814-845 | one loop appends the records to `rows` and the progress events to `events` as the one-loop function computes |
| DetailJob.Detail.ScrapeAll | salesforce_scraper_gui.py:814-1047 | the two loops, then the export, or the `except` branch as soon as a scrape in either loop raises, leave the state the scraping function computes from the old state |
| DetailJob.Detail.Run | salesforce_scraper_gui.py:762-1054 | `run` leaves the state the job function computes from the old state |

## Left out

- Selenium, Chrome, the GUI (Tk widgets, the queue consumer) and threads: every page read is a parameter. The pause loops (lines 817-818 and 835-836) only wait and are not modelled.
- The stop flag is another thread's event. It is modelled as the number of scrapes started before it was seen.
- File I/O is not modelled: reading and writing JSON, CSV and XLSX files, timestamps, file paths, `open_folder`, logging to file, and the `_dbg` log lines (except the log of `_with_retries`). A write that fails is not modelled: a failure to save the missing report (lines 912-916) only logs. The recovery's re-reading of the doors file is modelled as returning the same table.
- Slug.Slug: the NFKD normalisation and ASCII encoding are modelled as dropping the non-ASCII characters. Accented letters therefore lose their base letter instead of keeping it.
- `\d` and `str.lower()` are modelled on ASCII only. `isspace` covers the ASCII and common Unicode spaces.
- Delays are whole milliseconds; floating point is not modelled.
- pandas is modelled only as it acts here, row by row. The JSON input variant's `astype(str)` (turning a missing account into the string "nan") is not modelled: both inputs are treated as the CSV read with `dtype={"Compte client": str}` (lines 770 and 965). That read keeps the account column as text, turns an empty cell or one of pandas' default NA strings into NaN (a cell of `None` here), and infers the types of the other columns. The model keeps every other non-NaN cell as its text and does not model that type inference.
- Listing.DoorScraper.Run: the `pct` field is kept as an optional pair and is always absent during the loop. The events carry no file paths and no messages.
- DetailJob.Job: what each back-end answers for an account is a function parameter, not the result of `ScrapeOne` or `ScrapeCsr` run on that account's page inputs. The two are linked only through the `Compte client` key every answered record carries (`SweepRowsKeyed`).
- DetailJob.Detail.Run: the `detail_done` and `error` events carry counts only, not paths or messages.
- The unreachable code after `return` in the listing run (lines 1499-1528) is not modelled.
- Listing.ListingFacts: ties the records to the pages' replies only for a run the stop flag never interrupts. A stop within a page is covered page by page by `ScrapeLinksRecords`.
- Listing.Page: a page has no crash of its own. In the source a non-timeout error in the `.itemsRange` wait (lines 1366-1376), or a stale link while the links are collected (lines 1381-1386), leaves the loop. The model can only show such a crash through a first link whose list table does not come back, which counts one more scrape started.
- `build_driver`, `_login`, `_search_and_filter` and `_login_and_ready` are modelled as success flags; their page steps are not modelled.
- `_accounts_from_file`, the Overpass street lookup and the city cache are not part of this model, being outside the two jobs.

