# A verified model of the cineman.ch showtimes scraper

This project models the data logic of `src/data/cineman_scraping.py` in Dafny, and proves
what that logic does to the page contents. The script reads the cineman.ch showtimes page
and turns it into a table with one row per screening. It then looks up the coordinates
of every theatre and joins them onto the rows.

The model covers five parts of that logic:

- **`is_time_format`** (module `TimeFormat`). It is modelled as the regular expression
  that `time.strptime` builds for `%H:%M`, including its backtracking. It is proved equal
  to a plain reference definition: hour 0-23 and minute 0-59, one or two ASCII digits
  each, with nothing left over.
- **The token loop** (module `Tokens`). Each token is cleaned in three steps: the
  characters `< > / – )` are stripped from both ends, tabs are removed, and whitespace is
  stripped. The time test comes first; the language test is tried second. The
  per-segment loop and the per-movie loop over segments are methods. Each method is
  proved against a function that describes its lists.
- **The age-limit rule** (module `Extraction`). Take the last `link` anchor, or the
  second-to-last when the last is "Reservation". Keep that text when it contains `Y.`,
  and give "unknown" otherwise. A missing anchor is the `IndexError` of the source.
- **The per-movie accumulation, the two explodes and the derived columns** (modules
  `Extraction` and `Table`). The movie loop fills seven columns. pandas then builds the
  frame and runs the two explodes: first across cinemas, then across showtime/language
  pairs. The model follows the rules of current pandas releases (the 2.x series):
  - building the frame fails when the columns differ in length;
  - an empty list explodes to one missing cell, and counts as one element when the
    element counts of the exploded columns are compared (pandas 1.3, where multi-column
    `explode` first appeared, counted it as zero);
  - one row with lists of different element counts fails the explode;
  - a missing value prints as `nan`;
  - `to_datetime` fails on a text it cannot parse.

  Each of these failures is a `ScrapeError`.
- **The geocoding loop and the left merge** (module `Enrichment`). There is one lookup
  per distinct `cinema_place`, in first-appearance order. An empty result is fatal.
  `pd.merge(..., how="left")` keeps every row in order.

The HTML document, the browser and the geocoding service are replaced by inputs:
- a movie block is its title, its genre, its (cinema, place) headings, its `link`
  anchor texts and its showtime segments, already split into tokens;
- the geocoder is a function parameter `geocode` from query text to a list of results;
- the scrape date is a parameter `today`.

`FormatCinemanContent` is the whole of `format_cineman_content` from the movie blocks
on. `GetTheatreCoordinates` is `get_theatre_coordinates` without the HTTP, credential
and CSV steps. The source writes the merged table to a CSV file and has no `return`
statement, although its doc comment says it returns the table; the model returns the
merged table.

## Model

| member | source | states |
|---|---|---|
| TimeFormat.IsTimeFormat | src/data/cineman_scraping.py:13-18 | an accepted string has three to five characters and holds a colon |
| TimeFormat.TimeFormatIsClockTime | src/data/cineman_scraping.py:13-18 | `%H:%M` accepts a string exactly when it is one or two digits, a colon and one or two digits, with hour below 24 and minute below 60 |
| TimeFormat.TimeFormatCharacters | src/data/cineman_scraping.py:13-18 | an accepted string has at least three characters, each a digit or a colon, so it holds no `/` and no `Y.` |
| TimeFormat.ClockHour | src/data/cineman_scraping.py:13-18 | the hour of an accepted time is below 24 and is the number its hour digits spell, at their own width |
| TimeFormat.ClockMinute | src/data/cineman_scraping.py:13-18 | the minute of an accepted time is below 60 and is the number its minute digits spell, at their own width |
| TimeFormat.ClockSpelling | src/data/cineman_scraping.py:13-18 | every accepted time is its hour and its minute, each written at its own width, around the colon |
| TimeFormat.ClockRoundTrip | src/data/cineman_scraping.py:13-18 | every time of day is accepted in each of the widths `HH:MM`, `H:MM`, `HH:M` and `H:M` its fields fit, and reads back as that hour and minute |
| TimeFormat.PaddedTimeRoundTrip | src/data/cineman_scraping.py:13-18 | every zero-padded `HH:MM` with hour < 24 and minute < 60 is accepted and reads back as that hour and minute |
| TimeFormat.ShortHourRoundTrip | src/data/cineman_scraping.py:13-18 | every `H:MM` with a one-digit hour is accepted and reads back as that hour and minute |
| TimeFormat.TimeFormatAcceptsExamples | src/data/cineman_scraping.py:13-18 | "20:30" and "9:05" are accepted |
| TimeFormat.TimeFormatAcceptsShortMinute | src/data/cineman_scraping.py:13-18 | "09:5" is accepted (strptime allows a one-digit minute) |
| TimeFormat.TimeFormatRejectsRange | src/data/cineman_scraping.py:13-18 | "24:00" and "12:60" are rejected |
| TimeFormat.TimeFormatRejectsShape | src/data/cineman_scraping.py:13-18 | "18-45", "", "009:05" and "20:30 " are rejected |
| Text.Find | src/data/cineman_scraping.py:117 | `str.find`: -1 exactly when the substring does not occur, otherwise its first position |
| Text.Strip | src/data/cineman_scraping.py:134-136 | `str.strip(chars)`: the result has no stripped character at either end, holds only characters of the input, and is the input itself when its ends are already clean |
| Text.StripAround | src/data/cineman_scraping.py:134-136 | stripping a run of stripped characters from both sides of a clean text gives back that text |
| Text.RemoveChar | src/data/cineman_scraping.py:135 | `re.sub("\t", "", s)`: the result keeps every other character and loses every tab |
| Tokens.Normalize | src/data/cineman_scraping.py:134-136 | the cleaned token holds no tab and neither starts nor ends with whitespace |
| Tokens.IsLanguageToken | src/data/cineman_scraping.py:141 | a cleaned token passes the language test exactly when it holds a `/` and no `Y.`, or is one of "G", "F", "O", "I" and "E" |
| Tokens.ClassifyToken | src/data/cineman_scraping.py:133-142 | a token is a showtime exactly when its cleaned form is a time; a language exactly when it is not a time and passes the language test; a filed token keeps its cleaned form |
| Tokens.TimeTokenIsNoLanguage | src/data/cineman_scraping.py:138-142 | no string passes both tests, so no token can land in both buckets |
| Tokens.ClassifyCleanToken | src/data/cineman_scraping.py:133-142 | a token that the cleaning leaves unchanged is filed by the two tests applied directly |
| Tokens.NormalizeStripsMarkup | src/data/cineman_scraping.py:134 | markup characters around a clean token are all stripped, and nothing else is |
| Tokens.NormalizeStripsWhitespace | src/data/cineman_scraping.py:135-136 | tabs and whitespace around a clean token are all removed, and nothing else is |
| Tokens.ClassifyTimeExample | src/data/cineman_scraping.py:138-139 | "20:30" is a showtime |
| Tokens.ClassifyPairExample | src/data/cineman_scraping.py:141-142 | "D/F" is a language |
| Tokens.ClassifyCodeExample | src/data/cineman_scraping.py:141-142 | "G" is a language |
| Tokens.ClassifyAgeExample | src/data/cineman_scraping.py:141 | "Y.12" is discarded |
| Tokens.ClassifySlashedAgeExample | src/data/cineman_scraping.py:141 | "Y.12/16" is discarded although it holds a slash |
| Tokens.ClassifySegment | src/data/cineman_scraping.py:130-142 | the token loop yields exactly the segment's time tokens and language tokens, cleaned, in token order |
| Tokens.SegmentBuckets | src/data/cineman_scraping.py:130-142 | a segment's showtimes are all times; its languages all pass the language test and not the time test; together they number at most the tokens |
| Tokens.SegmentSplit | src/data/cineman_scraping.py:133-142 | the lists of two token runs in a row are the lists of each run, in order |
| Tokens.SegmentOfOneToken | src/data/cineman_scraping.py:133-142 | a single token adds its cleaned form to the bucket its tests pick, or to neither |
| Tokens.ClassifySegments | src/data/cineman_scraping.py:128-147 | the segment loop yields exactly the non-empty showtime lists and non-empty language lists of the segments, in segment order |
| Tokens.MovieListCounts | src/data/cineman_scraping.py:144-147 | a movie has at most one showtime list and at most one language list per segment; it has one showtime list per segment exactly when every segment has a showtime |
| Tokens.MovieListContents | src/data/cineman_scraping.py:144-147 | every showtime list of a movie is non-empty and holds only times; every language list is non-empty |
| Extraction.AgeLinkText | src/data/cineman_scraping.py:113-116 | the anchor text is missing exactly when there is no anchor, or the only one is "Reservation"; otherwise it is the last anchor, or the second-to-last when the last is "Reservation" |
| Extraction.AgeLimit | src/data/cineman_scraping.py:113-120 | a missing anchor gives `MissingAgeLink`; otherwise the result is the anchor text when it contains `Y.`, and "unknown" otherwise |
| Extraction.AgeLimitValues | src/data/cineman_scraping.py:113-120 | an age limit is "unknown" or contains `Y.`; it is never "Reservation"; when it is not "unknown" it is one of the last two anchors |
| Extraction.AgeLimitExamples | src/data/cineman_scraping.py:113-120 | ["Trailer", "Y.12"] gives "Y.12"; ["Y.16", "Reservation"] gives "Y.16"; ["Trailer"] gives "unknown"; ["Reservation"] and [] fail |
| Extraction.CinemaColumns | src/data/cineman_scraping.py:99-110 | the heading loop yields the cinema names and the places, one per heading, in heading order |
| Extraction.ExtractedColumns | src/data/cineman_scraping.py:89-152 | the columns exist exactly when every movie has a usable age anchor, and a failure is `MissingAgeLink` |
| Extraction.AccumulateColumns | src/data/cineman_scraping.py:89-152 | the movie loop yields the columns `ExtractedColumns` describes, or the first movie's missing-anchor failure |
| Extraction.ExtractionFailsIffAgeLinkMissing | src/data/cineman_scraping.py:113-116 | the loop fails exactly when some movie has no usable anchor, and then with `MissingAgeLink` |
| Extraction.ColumnCounts | src/data/cineman_scraping.py:89-120 | the title, genre, cinema, place and age-limit columns gain exactly one entry per movie; entry i holds movie i's title, genre, age limit, and its cinema names and places in heading order; the showtime and language columns have at most one entry per movie |
| Extraction.ShowtimeColumnContents | src/data/cineman_scraping.py:149-150 | every entry of the showtime column is a non-empty list of non-empty lists of times |
| Extraction.LanguageColumnContents | src/data/cineman_scraping.py:151-152 | every entry of the language column is a non-empty list of non-empty lists |
| Extraction.ShowtimeColumnAligned | src/data/cineman_scraping.py:149-150 | the showtime column has one entry per movie exactly when every movie has a showtime, and entry i is then movie i's lists |
| Extraction.LanguageColumnAligned | src/data/cineman_scraping.py:151-152 | the language column has one entry per movie exactly when every movie has a language, and entry i is then movie i's lists |
| Table.BuildFrame | src/data/cineman_scraping.py:154-166 | `pd.DataFrame` of the dictionary succeeds exactly when the columns have one length (failing with `ColumnLengthMismatch` otherwise); row i holds entry i of every column and the scrape date |
| Table.ExplodeCount | src/data/cineman_scraping.py:166-167 | a list explodes to one row per element when it is not empty, and to exactly one row when it is empty |
| Table.ExplodeCinemas | src/data/cineman_scraping.py:166 | the first explode of one row succeeds exactly when its showtime, place and language lists explode to as many rows as its cinema list, and fails with `ElementCountMismatch` otherwise; row j holds element j of each list, or a missing cell past a list's end, with the movie's title, genre, age limit and date |
| Table.ExplodeShowings | src/data/cineman_scraping.py:166-167 | the second explode of one row succeeds exactly when its showtime and language cells explode to as many rows, and fails with `ElementCountMismatch` otherwise; row j holds showtime j and language j, or missing cells, with the row's other columns |
| Table.ExpandFrame | src/data/cineman_scraping.py:166-167 | a successful expansion had every first explode succeed; a failure is `ElementCountMismatch` |
| Table.CellText | src/data/cineman_scraping.py:170-171 | the f-string writes a missing cell as "nan" and a present cell as its text |
| Table.ShowtimeStamp | src/data/cineman_scraping.py:168-169 | a missing showtime gives no timestamp; a present one succeeds exactly when the `date + " " + showtime` text parses, and then gives that parsed timestamp; a failure is `UnparsableTimestamp` |
| Table.DeriveColumns | src/data/cineman_scraping.py:168-171 | deriving succeeds exactly when the timestamp parses; `dt_showtime` is that timestamp; `cinema_place` is the cinema text, a space and the place text; every other column is copied |
| Table.ProgramTable | src/data/cineman_scraping.py:154-171 | building the table from the columns fails with `ColumnLengthMismatch` when they differ in length; it succeeds only on columns of one length; it fails only with a frame, explode or timestamp error |
| Table.CinemanProgram | src/data/cineman_scraping.py:77-171 | the run fails with `MissingAgeLink` exactly when some movie has no usable age anchor; otherwise it fails only with a frame, explode or timestamp error |
| Table.AlignedBlocksProgram | src/data/cineman_scraping.py:89-171 | movie blocks with a usable age anchor, one showtime list and one language list per cinema heading, and as many languages as showtimes in each pair give the table, with one row per showtime of every cinema of every movie |
| Table.ExpandAligned | src/data/cineman_scraping.py:166-167 | on aligned columns both explodes succeed and give the rows of `AlignedShowings`, in movie, cinema and showtime order |
| Table.AlignedShowingsCount | src/data/cineman_scraping.py:166-167 | on aligned columns the expansion has one row per showtime of every cinema of every movie |
| Table.AlignedShowingAt | src/data/cineman_scraping.py:166-167 | row `offset(i, j) + l` pairs cinema j and place j of movie i with its showtime l and language l, with the movie's title, genre, age limit and the date |
| Table.DeriveShowtime | src/data/cineman_scraping.py:168-169 | on the scrape date, deriving succeeds exactly when the showtime is missing or passes `is_time_format`, and the timestamp is that date at the showtime's hour and minute |
| Table.CinemaPlaceExample | src/data/cineman_scraping.py:170-171 | "Arena" and "Zürich" give "Arena Zürich"; a row with no cinema and no place gives "nan nan" |
| Table.AlignedProgram | src/data/cineman_scraping.py:166-171 | on aligned columns of times the table is built, has one row per showtime, and row k is the derived form of expanded row k, with its timestamp and `cinema_place` |
| Table.DeriveCompleteShowing | src/data/cineman_scraping.py:168-171 | a fully filled expanded row derives to the same row with its timestamp and `cinema_place` |
| Table.MovieWithoutShowtimesAborts | src/data/cineman_scraping.py:149-166 | a movie with no showtime at all shortens the showtime column, and building the frame fails with `ColumnLengthMismatch` |
| Table.CinemaCountMismatchAborts | src/data/cineman_scraping.py:166 | a movie whose cinema count differs from its count of showtime lists stops the first explode with `ElementCountMismatch` |
| Table.FirstExplodeFails | src/data/cineman_scraping.py:166 | one frame row whose lists differ in element count stops the first explode |
| Table.SecondExplodeFails | src/data/cineman_scraping.py:166-167 | one cinema row whose showtimes and languages differ in number stops the second explode |
| Table.PairCountMismatchAborts | src/data/cineman_scraping.py:166-167 | a cinema whose showtimes and languages differ in number stops the second explode with `ElementCountMismatch` |
| Table.ExpandKeepsTimes | src/data/cineman_scraping.py:166-167 | the explodes only move showtimes: every showtime cell of the expanded rows is a time or missing |
| Table.DeriveOfTimes | src/data/cineman_scraping.py:168-169 | rows whose showtimes are times or missing all derive |
| Table.TableOfTimes | src/data/cineman_scraping.py:166-171 | columns of times never fail on a timestamp |
| Table.NoUnparsableTimestamp | src/data/cineman_scraping.py:138-169 | since only tokens that pass `is_time_format` become showtimes, the whole run never fails in `to_datetime` |
| Table.FormatCinemanContent | src/data/cineman_scraping.py:77-173 | the loop and the pandas steps yield the program table `CinemanProgram` describes, and the result is never `UnparsableTimestamp` |
| Timestamps.IsoDate | src/data/cineman_scraping.py:162 | `f'{date.today()}'` is a ten-character text (`IsoDateRoundTrip` states that it spells the date) |
| Timestamps.IsoDateRoundTrip | src/data/cineman_scraping.py:162 | the ISO text of a valid date reads back as that date |
| Timestamps.ParseIsoDate | src/data/cineman_scraping.py:169 | the `%Y-%m-%d` part accepts only the text of a valid date, spelt exactly as `IsoDate` prints it |
| Timestamps.ParseDtShowtime | src/data/cineman_scraping.py:169 | a parsed timestamp has a valid date, an hour below 24 and a minute below 60 |
| Timestamps.DtShowtimeRoundTrip | src/data/cineman_scraping.py:168-169 | for the scrape date, the `dt_showtime` text parses exactly when the showtime passes `is_time_format`, to that date at that hour and minute |
| Timestamps.DtShowtimeExample | src/data/cineman_scraping.py:168-169 | "2024-03-01 18:45" parses to 1 March 2024, 18:45 |
| Timestamps.DtShowtimeRejectExample | src/data/cineman_scraping.py:168-169 | "2024-03-01 18-45" does not parse |
| Seqs.Unique | src/data/cineman_scraping.py:199 | `Series.unique()`: every value of the input occurs once, and nothing else |
| Seqs.UniqueFirstOccurrenceOrder | src/data/cineman_scraping.py:199 | the distinct values come in the order of their first appearance |
| Enrichment.Locations | src/data/cineman_scraping.py:199-224 | the location table succeeds exactly when every theatre has a result; entry k is theatre k with the first result's latitude and longitude; a failure names the first theatre without a result |
| Enrichment.QueriesIssued | src/data/cineman_scraping.py:199-213 | the queries sent are a prefix of the theatres; all of them when every theatre has a result |
| Enrichment.LookupStopsAt | src/data/cineman_scraping.py:199-213 | the first theatre without a result ends the run with `NoGeocodingResult` for it, after exactly the queries up to and including it |
| Enrichment.LookUpTheatres | src/data/cineman_scraping.py:199-224 | the lookup loop yields `Locations` and sends the queries `QueriesIssued` describes |
| Enrichment.Matches | src/data/cineman_scraping.py:225 | the matches are locations of the table with the row's key, and every location with that key is among them; there are some exactly when the key occurs in the table |
| Enrichment.MatchesAppend | src/data/cineman_scraping.py:225 | the matches keep table order: those of two tables in a row are the matches of each, in order |
| Enrichment.LeftJoin | src/data/cineman_scraping.py:225 | the left merge has at least one row per row of the left table |
| Enrichment.LeftJoinRows | src/data/cineman_scraping.py:225 | every merged row carries a row of the left table |
| Enrichment.LeftJoinAppend | src/data/cineman_scraping.py:225 | the merge keeps the left table's order: merging two runs of rows gives the merge of each, in order |
| Enrichment.JoinedRow | src/data/cineman_scraping.py:225 | against a table with one location per key, a row gets the coordinates of its key, or none when its key is absent |
| Enrichment.LeftJoinOfUniqueKeys | src/data/cineman_scraping.py:225 | against a table with one location per key, the left merge keeps every row in order, each joined with its key's coordinates |
| Enrichment.Enrich | src/data/cineman_scraping.py:199-225 | a failure is `NoGeocodingResult` for a distinct theatre the service finds nothing for; on success every distinct theatre had a result, and the merged table has at least one row per input row |
| Enrichment.GetTheatreCoordinates | src/data/cineman_scraping.py:196-225 | the lookups and the merge yield `Enrich` of the rows, after the queries `QueriesIssued` describes |
| Enrichment.EnrichFailsIffTheatreUnknown | src/data/cineman_scraping.py:199-213 | the run fails exactly when some row's theatre has no result, and the failure names such a theatre |
| Enrichment.OneQueryPerTheatre | src/data/cineman_scraping.py:199-217 | on success exactly one query is sent per distinct theatre, every row's theatre among them, with no query sent twice |
| Enrichment.EnrichedRows | src/data/cineman_scraping.py:199-225 | on success every row is kept in order and gets the first result's coordinates for its own theatre |
| Enrichment.SameTheatreSameCoordinates | src/data/cineman_scraping.py:199-225 | rows with the same `cinema_place` get the same coordinates |

## Left out

- `scrape_cineman` (lines 21-64): the Selenium browser, the sleeps and the clicks are
  external I/O. The model starts from the page's movie blocks.
- The BeautifulSoup traversal, `prettify` and the regular expression that removes tags
  (lines 77, 91-106, 113, 123-129). The markup cannot be seen, so a movie block is given
  as already-extracted texts and pre-split token segments. The segment split on `"h5"`
  and the split on spaces are part of that input. The traversal's own failures are not
  modelled either: the `AttributeError` when a movie has no `h4`, `p` or `showtimes-list`
  div, or a cinema heading no `em` (lines 91, 95, 104, 123-124), and the `IndexError` when
  a cinema heading has fewer than two anchors (line 106).
- The HTTP request, the credential file and the JSON decoding (lines 190-210). The
  geocoder is the function parameter `geocode`. A missing `geometry` or `location` key in
  a result is not modelled.
- Latitude and longitude are copied as opaque `real` values; no floating-point
  arithmetic is done on them.
- `date.today()` (line 162) is the parameter `today`.
- The CSV write (line 227). The model returns the merged table instead.
- `reset_index(drop=True)` (line 167) only renumbers the rows. The model has no index
  column, and only row order is kept.
- TimeFormat.IsTimeFormat: `\d` is ASCII digits only. Python's `\d` in strptime's pattern
  also matches other Unicode decimal digits.
- Timestamps.ParseDtShowtime: the date part is read in the strict zero-padded
  `YYYY-MM-DD` layout that `date.today()` prints. The other date spellings that
  `to_datetime` tolerates are not modelled.
- Text.IsPythonSpace: whitespace is the set of characters `str.isspace` accepts, listed
  by code point. It is used for `str.strip()` and for the whitespace that strptime's
  pattern widens the format's space to.
- Tokens.ClassifySegment: the model files a token by its cleaned form, exactly as the
  source does. It does not model the HTML entities `prettify` may leave inside a token.
- Table.ExplodeCount: follows the element-count rule of current pandas. The pandas 1.3
  rule, which counted an empty list as zero and a missing cell as -1, is not modelled.
