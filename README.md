# Google Maps business scraper — verified model of the collection core

The scraper (`main.py`) runs a Google Maps search, walks the rendered result
listings, opens each one and extracts a `Business` record. It collects new,
unique businesses until it has `total` of them or the result panel stops
loading more. It then merges them into a per-date, per-keyword CSV file and
into one master CSV file.

This project models the parts of that pipeline that decide *which* records
are kept and *what* gets written. Records are compared by an identity key.
Keys already in the master table are never accepted again. The pagination
loop stops for exactly two reasons. Saving removes raw duplicates and keeps
the first occurrence.

Modules, one per file, in dependency order:

- `Wrappers` (`wrappers.dfy`): `Option`.
- `Strings` (`strings.dfy`): the Python `str` operations the code relies on.
  - `isspace`, `lower` (ASCII and Latin-1 capitals), `strip`.
  - `in`, `find`, the left-to-right non-overlapping `split`, `join`.
  - single-character `replace`.
  - The lemmas prove split/join round trips and where the first and last
    pieces come from.
- `Records` (`records.dfy`): the `Business` record and the identity key that
  `__hash__` hashes. The key is kept as the normalised string triple itself.
- `Persistence` (`persistence.dfy`): the merge in `save_to_csv`.
  - Stored tables are absent, unreadable or a sequence of rows.
  - `drop_duplicates` compares the raw `(name, phone_number, address)`
    columns and keeps the first occurrence.
- `Collection` (`collection.dfy`): the `BusinessList` class. Its list of
  accepted records and its seen-key set are fields updated in place. It also
  holds the keyword sanitising and the master-table seeding loop.
- `Extraction` (`extraction.dfy`): the category and location taken from the
  search text, and the coordinate fields cut out of the page URL.
- `Driver` (`driver.dfy`): the `while`/`for` pagination loop of `main`.
  - It is an imperative method, `Collect`, proved against the function `Run`.
  - The properties of the loop are proved about `Run`.
  - The browser is an abstract listing source, `nat -> Pass`. Pass `i`
    shows a sequence of entries, each an extracted record or a failed
    listing, and the page count observed after it.
- `Scrape` (`scrape.dfy`): `scrape_business_data` over the texts its
  locators return. It connects the extracted record to the keys and fields
  above.

## Model

| member | source | states |
|---|---|---|
| Records.KeyNormal | main.py:26-30 | every identity key has no surrounding whitespace in any part, and name and address are in lower case |
| Records.FoldedIsLowerStrip | main.py:27 | the name/address component is `lower().strip()` of the value, with a missing value read as `""` |
| Records.StrippedIsStrip | main.py:28 | the phone component is `strip()` of the value, with a missing value read as `""` |
| Records.AbsentIsEmpty | main.py:27-29 | `None` and `""` give the same key in each of the three fields |
| Records.KeyIgnoresCase | main.py:27-29 | name and address values that agree after lower-casing give the same key |
| Records.KeyIgnoresPadding | main.py:27-29 | whitespace added on either side of name, phone or address leaves the key unchanged |
| Records.PhoneKeepsCase | main.py:28 | two different trimmed phone strings give different keys, even if they differ only in case |
| Records.KeyIgnoresOtherFields | main.py:26-30 | records that agree on name, phone and address have the same key, whatever their other fields |
| Records.KeyIdempotent | main.py:26-30 | normalising a record built from a key gives that key back |
| Records.DistinctKeysAppend | main.py:67-69 | appending a record whose key is not yet known keeps the keys of a list pairwise distinct |
| Strings.StripIgnoresPadding | main.py:27-29 | `strip` drops any whitespace added around a string |
| Strings.StripIdempotent | main.py:27-29 | stripping twice is stripping once |
| Strings.LowerStripCommute | main.py:27 | lower-casing and stripping commute, since lower-casing maps whitespace to whitespace |
| Strings.ContainsIff | main.py:134-135 | `sep in s` holds exactly when some position of `s` starts an occurrence of `sep` |
| Strings.FindFrom | main.py:134-135 | the position found is an occurrence at or after the start, and no position before it is one; `None` means there is none from the start on |
| Strings.SplitJoin | main.py:134-135 | joining the pieces of `split(sep)` with `sep` gives the original string |
| Strings.SplitPiecesFree | main.py:134-135 | no piece of `split(sep)` contains `sep` |
| Strings.SplitFirst | main.py:134 | without an occurrence `split` gives `[s]`; with one, the first piece is the text before the first occurrence and there are at least two pieces |
| Strings.LastPieceAfterCut | main.py:135 | the last piece of `split(sep)` starts just after an occurrence of `sep`, and no occurrence starts inside it |
| Strings.SplitFromShift | main.py:109 | splitting is unaffected by a prefix ahead of the scan position |
| Collection.SanitizeKeyword | main.py:45 | the result has the input's length and contains no `' '` or `'/'`; each of those becomes `'_'` and every other character is kept |
| Collection.SanitizeIdempotent | main.py:45 | sanitising a sanitised keyword changes nothing |
| Collection.SanitizeMerges | main.py:45-46 | two different searches can share one per-keyword file name |
| Collection.RowKeyIsIdentityKey | main.py:55-60 | the key a master row seeds is the row's own identity key |
| Collection.RowKeysAreKeys | main.py:54-60 | the seeding loop adds exactly the keys of all master rows |
| Collection.SeedKeysOfRows | main.py:50-60 | seeding from a readable master table knows exactly the keys of its rows |
| Collection.BusinessList.constructor | main.py:41-48 | a new list is empty, keeps its keyword and its sanitised form, and knows exactly the seeded keys |
| Collection.BusinessList.LoadExistingData | main.py:50-63 | seeding adds the master rows' keys to the seen set and leaves the list alone; an absent or unreadable table adds nothing |
| Collection.BusinessList.AddBusiness | main.py:65-71 | returns true iff the key is new; on true the record is appended and its key remembered; on false nothing changes; the keys stay distinct |
| Collection.AddTwice | main.py:65-71 | offering one record twice: the first offer succeeds iff the master table does not know it, the second always fails |
| Collection.AddSeededDuplicate | main.py:55-69 | a record matching a master row's name, phone and address is refused, whatever its other fields |
| Persistence.DedupFromSpec | main.py:87 | the deduplicated rows have no raw duplicates, hold every triple not seen before, and are a subsequence of the input |
| Persistence.DropDuplicates | main.py:87 | no two rows share a raw triple, every input triple survives, the rows keep their order |
| Persistence.DedupKeepsFirst | main.py:87 | the first row carrying each triple is the one kept |
| Persistence.DedupAppend | main.py:86-87 | deduplicating a concatenation deduplicates the first part, then the second against the triples of the first |
| Persistence.DedupDistinct | main.py:87 | rows already free of duplicates, and new to the seen set, pass through unchanged |
| Persistence.DistinctCount | main.py:87 | a duplicate-free table has one row per triple |
| Persistence.MergeOldRows | main.py:86-87 | a merged row whose triple the old table holds is an old row: old rows win over re-scraped ones |
| Persistence.MergeKeepsPrior | main.py:84-88 | over a duplicate-free old table, the merge is the old rows followed by the new rows whose triples are new |
| Persistence.MergeDisjoint | main.py:84-88 | new rows with fresh triples are appended after the old rows, and nothing is dropped |
| Persistence.MergeProperties | main.py:84-88 | the merge has no raw duplicates, holds the union of the triples, one row per triple, old rows winning and kept in order |
| Persistence.DistinctKeysRaw | main.py:87 | rows with distinct identity keys have distinct raw triples |
| Persistence.DisjointKeysRaw | main.py:84-88 | tables with disjoint key sets have disjoint raw triples |
| Persistence.MergeIntoDistinct | main.py:84-99 | a table written by the merge has no raw duplicates and holds the old and the new triples |
| Persistence.SaveToCsv | main.py:76-101 | no new data writes nothing; an unreadable master aborts before writing; an unreadable keyword table aborts after the master; otherwise each table is written with the merge of its own old rows and the new rows, holding the old and new triples without duplicates |
| Persistence.MergeIntoKeepsOld | main.py:84-99 | a table that does not exist gets the new rows unchanged; an existing duplicate-free table keeps its rows first and in order, followed by the new rows whose triples are new |
| Persistence.SaveKeepsOldRows | main.py:84-99 | with new rows and a readable master, the master is written and so is the keyword table unless it is unreadable; each table that did not exist gets the new rows unchanged, and each existing duplicate-free table keeps its rows in front, in order, winning over re-scraped rows |
| Persistence.KeysOfSameTriples | main.py:26-30 | tables with the same raw triples know the same identity keys |
| Persistence.SaveWritesMaster | main.py:84-88 | with new rows and a readable master, the master written is the deduplicated concatenation |
| Persistence.SaveToAbsent | main.py:84-99 | when neither table exists, both are written with the new rows exactly |
| Extraction.CategoryBeforeFirst | main.py:134-135 | with `' in '` present, the category is the stripped text before its first occurrence, and neither part contains `' in '`; without it, the category is the whole search and the location is empty |
| Extraction.LocationAfterLast | main.py:135 | with `' in '` present, the location is the stripped text after the last occurrence the left-to-right split cuts at, and no occurrence starts inside that text |
| Extraction.LocationOverlap | main.py:134-135 | for `"a in in b"` the category is `"a"` and the location is `"in b"`, although an occurrence starts inside that text |
| Extraction.CoordinateFields | main.py:109-110 | the two fields exist exactly when the coordinate text contains a comma (indexing the second one raises otherwise), and neither contains a comma |
| Extraction.ExtractCoordinates | main.py:107-112 | a coordinate pair is returned exactly when both fields exist and both parse |
| Extraction.CoordinateFieldsRoundTrip | main.py:109-110 | for a URL `…/@lat,lng` followed by a new segment or field, the two fields cut out are `lat` and `lng` |
| Extraction.ExtractCoordinatesRoundTrip | main.py:107-112 | for such a URL the result is the parsed `lat` and `lng`, or nothing when either fails to parse |
| Scrape.ScrapeBusiness | main.py:114-137 | extraction fails exactly when a present review element's text fails to convert |
| Scrape.Observe | main.py:184-195 | a listing fails exactly when a present review text fails to convert; otherwise its record has the key of the page's name, phone and address texts and the category and location of the search |
| Scrape.ObserveKnownRefused | main.py:184-193 | a listing whose page shows a business the driver already knows leaves the driver's state unchanged |
| Scrape.ScrapedFields | main.py:123-136 | the name is present and trimmed; a domain exists iff the website element does, the website is `https://www.` plus the domain or else empty; latitude and longitude are present together |
| Scrape.ScrapedKey | main.py:123-131 | the key of an extracted record is the key of the name, phone and address texts on the page |
| Scrape.ScrapeKeyIgnoresSearch | main.py:122-136 | the key of an extracted record depends neither on the search text nor on the page URL |
| Scrape.ScrapedCoordinates | main.py:136 | for a well-formed URL the record's latitude and longitude are the parsed coordinates |
| Driver.Collect | main.py:174-203 | the loop builds the list seeded from the master table and returns the state, `new_count`, the scroll count and how it stopped, all equal to `Run` |
| Driver.RunTracks | main.py:175-195 | `new_count` equals the number of accepted records; their keys are pairwise distinct, disjoint from the master's, and with the master's make up the seen set |
| Driver.RunBounded | main.py:178-183 | `new_count` never exceeds `max(total, 0)` |
| Driver.RunReachesTarget | main.py:178-183 | a run that did not report the end stops with exactly `total` new businesses |
| Driver.FailedSkipped | main.py:184-195 | a failed listing is skipped without ending the pass |
| Driver.ShownPassesIff | main.py:179-181 | a record was shown in the passes `i..n` iff some pass in that range listed it |
| Driver.RunAcceptsShown | main.py:179-193 | every accepted record was listed by one of the passes made |
| Driver.RunKnows | main.py:179-193 | below the target, every record any pass listed has a known key when the loop ends |
| Driver.RunStops | main.py:176-201 | the loop ends either on an unchanged listing count, the pass count then being one more than the scrolls, or at the target; every pass that scrolled saw a listing count other than the one after the pass before it (the first compares with the initial -1) |
| Driver.RunFromShape | main.py:178-203 | from any pass, the scrolls are bounded by the listings still to load, and the run ends in one of the two ways |
| Driver.RunTerminates | main.py:197-202 | with the listing count bounded by `bound`, at most `bound + 1` scrolls and `bound + 2` passes are made |
| Driver.NoTargetNoPass | main.py:178 | a non-positive target makes no pass and accepts nothing |
| Driver.FirstPassScrolls | main.py:176-201 | since `previous_loaded` starts at -1, a positive target makes at least one scroll |
| Driver.ConstantSourceScrollsOnce | main.py:196-201 | a page whose listing count never changes is scrolled exactly once, in at most two passes |
| Driver.FirstBatch | main.py:181-193 | two listings with different keys are both accepted, in order |
| Driver.SecondBatch | main.py:181-193 | known listings are refused, the first new one is accepted, and reaching the target ends the pass |
| Driver.TwoBatchesExample | main.py:174-203 | for two passes showing two and then four listings and target 3, the run accepts three businesses in discovery order after two scrolls and does not report the end |
| Driver.SaveAfterRun | main.py:174-205 | after a run seeded from a duplicate-free master table, the master written is its rows followed by every accepted record |
| Driver.NextSeedKnowsAccepted | main.py:166-205 | when a run accepted something, the master table the save writes seeds the next search with the old keys and every key accepted now |

## Left out

- Browser control is not modelled, because it is I/O: launching, navigation, locators, hover and click, timeouts and the mouse wheel. Two things replace it: the abstract listing source of `Driver`, and the locator texts of `Scrape.PageText`.
- pandas CSV reading and writing, and `json_normalize`, are left out as I/O. Stored tables are sequences of records. The merge returns the rows to write. `new_data.empty` is taken as "no accepted records".
- Dates, paths, `os.makedirs`, argparse, reading `input.txt`, printing and the top-level exception handler are left out. They do not decide which records are kept.
- The outer loop over several searches (main.py:166) is not modelled as a loop. `Driver.NextSeedKnowsAccepted` states what one search passes on to the next through the master table.
- Python `hash` integers are not modelled. The key is the normalised triple itself, so hash collisions between different triples are not modelled.
- Strings.LowerChar: only ASCII and Latin-1 capitals are lower-cased. The rest of Unicode case mapping is not modelled.
- Collection.RowKey: master cells that pandas reads as NaN are not modelled. The row's three values are taken as given, with a missing one read as `""`.
- Scrape.ScrapeBusiness: the `int` and `float` conversions of the review texts and coordinates are parameters, not Python's parsers. Where a review element is missing, the source stores `""` in a numeric field; the model stores `None` there.
- Scrape.ScrapeBusiness: which exceptions a locator or `inner_text` call can raise is not modelled. Only a failing conversion makes a listing fail. `Driver` takes any failure as an entry of its own.
- Driver.Run: the loop is modelled only for listing sources whose count never shrinks and never goes above a bound; `Run`, `Collect` and every lemma about a run require this. Nothing at all is claimed for other sources, neither for a page that keeps loading new listings forever nor for a count that shrinks (such as 5, 3, 3), although the code handles the latter.
- Persistence.SaveToCsv: writing is not atomic. A failed read of the keyword table after the master was written leaves the master updated; this is the `CustomReadError` outcome.
- Extraction.Location: when `' in '` occurrences overlap, the code's left-to-right split cuts at the first one only. The location is then the text after the last *cut*, not after the last *occurrence*. The model follows the code; `Extraction.LocationOverlap` shows the case.
