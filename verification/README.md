# NYU course scraper: catalog store, detail cache and builders

This project models the core of the NYU course scraper in Dafny. The scraper
fetches class-search results per camp list from the university's course
search service. It stores the courses and sections in SQLite and serves a
search endpoint and a course-detail endpoint. A detail endpoint answer is
cached per (group, key, srcdb).

The modules are:

- `Wrappers`: `Option` and `Result`.
- `Text`: ASCII whitespace and `str.strip`, decimal printing and `int()`
  parsing, substring scans and character counts.
- `JsonValue`: decoded JSON values, Python truthiness and `dict.get`.
- `Normalize`: `split_code`, `to_int_or_none`, and the filtering loop of
  `prepare_json_data`, as duplicated in `backend/sql.py` and `sql.py`.
- `Catalog`: the database as a class. It holds
  - `courses`, a map keyed by the UNIQUE code;
  - `sections`, an append-only sequence;
  - `detailsCache`, a map keyed by the UNIQUE (group, key, srcdb) triple;
  - `metadata`, a key/value map.

  Its methods are the table operations. INSERT OR IGNORE is specified by
  `InsertOrIgnore` and `InsertOrIgnoreAll`. The NOT NULL constraint on
  `title` makes a null-title row be skipped as well.
- `Loader`: `process_json_file` and both `main`s. It proves that the
  record-by-record loader of `sql.py` and the batch loader of
  `backend/sql.py` leave the same tables.
- `Meeting`: `parse_meeting_html`, written as explicit scans for the two
  regular expressions.
- `Details`: `get_course_details`, with the upstream service as a class
  holding an arbitrary response function and a log of the requests sent.
- `Campus`: the campus-group tag.
- `Search`: the condition and parameter builder of `search_sections`.
- `Scraper`: `slugify_camp`, the raw-file name and `build_payload`.

The wall clock (`datetime('now')`) is a `now: string` parameter. The
upstream HTTP service is the function `Upstream.respond` of the request and
of the number of earlier calls.

## Model

| member | source | states |
|---|---|---|
| Normalize.SplitCode | backend/sql.py:137-149 | None exactly when the code is empty or has no space; otherwise the catalog part has no space, and both parts are stripped |
| Normalize.SplitAtLastSpace | backend/sql.py:145-148 | a code with several spaces still splits, at the last space, into the stripped front and back |
| Normalize.SplitCodeRoundTrip | sql.py:67-79 | for a stripped subject and a stripped, space-free catalog, splitting `subject + " " + catalog` gives both back |
| Normalize.SplitCodeExample | backend/sql.py:138-139 | `'MATH-UA 325'` splits into `('MATH-UA', '325')` |
| Normalize.ToIntOrNoneOfText | backend/sql.py:163-172 | a string gives `Some(n)` if and only if its stripped text is an optional sign followed by decimal digits whose value is n |
| Normalize.ToIntOrNoneOfBlank | sql.py:94-103 | an empty or all-whitespace string gives None |
| Normalize.ToIntOrNoneIgnoresPadding | backend/sql.py:166 | surrounding whitespace does not change the result |
| Normalize.ToIntOrNoneIdempotent | backend/sql.py:166-170 | an integer, and the decimal text of an integer, both give that integer back |
| Normalize.ToIntOrNoneOfBool | backend/sql.py:166-170 | a JSON bool gives None, because its `str()` is not an integer literal |
| Normalize.Kept | backend/sql.py:254-257 | every kept record has a non-empty code and title, and filtering keeps well-typedness |
| Normalize.KeptIsFilter | backend/sql.py:248-257 | the kept records are exactly the input records with a non-empty code and title, and there are no more of them than inputs |
| Normalize.PreparedShape | backend/sql.py:248-283 | one course tuple and one section row per kept record, in input order; each row's code equals its tuple's code, its total is the coerced `total`, and its last column is the partition tag |
| Normalize.PrepareJsonData | backend/sql.py:230-286 | the loop's two lists are exactly the course tuples and section rows of the records |
| Catalog.InsertOrIgnore | backend/sql.py:302-306 | a row is added only when its code is new and its title is not null; existing rows never change |
| Catalog.InsertOrIgnoreAllAppend | backend/sql.py:302-306 | inserting `a + b` equals inserting `a` and then `b` |
| Catalog.InsertOrIgnoreAllKeeps | backend/sql.py:302-306 | existing rows are unchanged, every new key comes from an inserted row with a title, and every row stays stored under its own code |
| Catalog.InsertOrIgnoreAllCovers | backend/sql.py:302-306 | every inserted row with a title has its code in the result |
| Catalog.FirstWriterWins | backend/sql.py:302-306 | for a code new to the table, the first tuple with that code and a title is the one stored |
| Catalog.MeetingOf | backend/app.py:212-217 | a falsy `meeting_html` parses as three empty strings; a truthy non-string value is a processing error |
| Catalog.Database.constructor | backend/sql.py:19-98 | all four tables start empty |
| Catalog.Database.UpsertCourse | sql.py:82-91 | the courses table becomes `InsertOrIgnore` of the new row, so an existing code and its title are left unchanged; nothing else changes |
| Catalog.Database.InsertSection | sql.py:106-160 | exactly one section row is appended, and no other table changes |
| Catalog.Database.InsertPreparedData | backend/sql.py:289-319 | courses go in with INSERT OR IGNORE in order; the sections grow by exactly the given rows; the cache and metadata are untouched |
| Catalog.Database.ClearAllData | backend/sql.py:129-134 | courses, sections and the cache are empty; metadata, and so the last update time, is unchanged |
| Catalog.Database.GetLastUpdateTime | backend/sql.py:112-117 | the stored `last_update` value, or None when there is no such row |
| Catalog.Database.SetLastUpdateTime | backend/sql.py:120-126 | exactly the `last_update` row is replaced, and reading it back gives the new time |
| Catalog.Database.CachedEntry | backend/app.py:145-155 | the entry stored under the triple, or None when there is none |
| Catalog.Database.ReplaceDetails | backend/app.py:220-232 | the entry under the triple is replaced, and every other triple's entry is unchanged |
| Loader.ProcessJsonFile | sql.py:163-191 | after the per-record loop, the tables equal those that `prepare_json_data` followed by `insert_prepared_data` leaves for the same records |
| Loader.FirstOccurrenceStored | sql.py:185-188 | every kept code new to the table is stored with the row and title of its first kept record |
| Loader.RootMain | sql.py:194-214 | WSQ is processed before BROOKLYN, each file only when it exists |
| Loader.BackendMain | backend/sql.py:322-353 | preparing both files and inserting the batch leaves the same tables as `Loader.RootMain` |
| Loader.WsqTitleWins | sql.py:203-211 | a code new to the table and kept in the WSQ file keeps its first WSQ title, whatever BROOKLYN holds |
| Meeting.PatternAtIsMatch | backend/app.py:29-30 | the scan at a position succeeds exactly when the pattern regex matches there, and it returns the regex group |
| Meeting.FindPattern | backend/app.py:29-30 | the search returns the leftmost match, or None when no position matches |
| Meeting.DatesAtIsMatch | backend/app.py:33 | the date scan at a position succeeds exactly when the dates regex `\((\d+/\d+)\s+to\s+(\d+/\d+)\)` matches there, and it returns the regex's two groups |
| Meeting.DateEndAt | backend/app.py:33 | a `digits/digits` token followed by a non-digit is the token the scan reads |
| Meeting.DateEnds | backend/app.py:33 | wherever the date scan succeeds, the positions it reports delimit a match of the dates regex |
| Meeting.FindDatesIsLeftmost | backend/app.py:33 | what the date search returns is the scan's result at the leftmost position where the scan succeeds |
| Meeting.FindDatesNone | backend/app.py:33 | the date search returns None only when the scan succeeds at no position |
| Meeting.DateTokenIsStripped | backend/app.py:33-39 | a date token is non-empty and has no surrounding whitespace |
| Meeting.ParseMeetingHtml | backend/app.py:14-41 | empty input gives three empty strings; the pattern has no `<` and no surrounding whitespace, and is empty when no meet div matches; the two dates are both empty or both `digits/digits` |
| Meeting.MeetPatternOfLeftmostMatch | backend/app.py:29-31 | the pattern is the stripped group of the leftmost match |
| Meeting.FirstFound | backend/app.py:29-30 | a match with no match before it is the one found |
| Meeting.FirstDatesFound | backend/app.py:33 | a scan success with no success before it is the one found |
| Meeting.DatesOfLeftmostMatch | backend/app.py:33-39 | the start and end dates are the two groups of the leftmost match of the dates regex |
| Meeting.NoDatesIffNoMatch | backend/app.py:33-39 | the dates are empty exactly when the dates regex matches nowhere |
| Details.Fetched | backend/app.py:198-217 | transport failures, 4xx/5xx statuses and undecodable bodies, and only these, are fetch failures; a row that is produced has its meeting fields parsed from its own `meeting_html`, the given time, and the answer as `raw` |
| Details.ReadBack | backend/app.py:156-174 | a value read back from a TEXT column is never an integer or a bool: an integer comes back as its decimal text, a bool as "1" or "0", and any value that is neither comes back unchanged |
| Details.HitMatchesMiss | backend/app.py:156-174 | a hit returns what the storing miss returned if and only if no stored field was an integer or a bool |
| Details.Upstream.Post | backend/app.py:198 | one request is logged, and the answer is the response function's for that request and call count |
| Details.GetCourseDetails | backend/app.py:127-265 | a hit returns the stored entry, makes no call and writes nothing; a miss makes exactly one call, writes the entry on success (replacing the triple's entry), and leaves the cache unchanged on failure |
| Details.LookupTwice | backend/app.py:145-251 | a triple already cached costs no call; for a new triple, a successful first lookup makes exactly one call and the second makes none and returns the stored entry |
| Campus.CampusGroup | backend/app.py:301-304 | "BROOKLYN" exactly when the camp list contains BRKLN or INDUS, and "WSQ" otherwise |
| Campus.NoMarkerLettersIsWsq | backend/app.py:301-304 | a camp list without the letters K and I is tagged WSQ |
| Campus.BrooklynIsStable | backend/app.py:301-304 | adding camps around a Brooklyn list keeps the Brooklyn tag |
| Campus.BrooklynDefault | backend/app.py:91 | the default Brooklyn camp list is tagged BROOKLYN |
| Campus.WashingtonSquareDefault | backend/app.py:91 | the default Washington Square camp list is tagged WSQ |
| Search.Like | backend.py:98-103 | the parameter is the value wrapped in `%` on both sides |
| Search.BuildSearch | backend.py:46-114 | rejected with 400 exactly when every filter is None or empty; otherwise the query is the base query, the newline-joined conditions and the ORDER BY clause, with the parameters in order |
| Search.ConditionsPresent | backend.py:97-112 | each condition is present exactly when its filter is given, so an empty string adds none |
| Search.ConditionsInOrder | backend.py:97-112 | conditions appear in the fixed order code, title, crn, schd, campus_group |
| Search.ParamsShape | backend.py:97-112 | the parameters follow the conditions in order: the code wrapped as `%v%`, the title twice as `%v%`, then the CRN, the schedule type and the campus group values, each at its own index |
| Search.PlaceholdersPerCondition | backend.py:97-112 | the title condition has two `?` placeholders and every other condition has one |
| Search.PlaceholdersMatchParams | backend.py:97-114 | the number of `?` placeholders in the joined conditions equals the number of parameters |
| Scraper.SlugifyIsCharMap | scraper.py:83-93 | the four chained replaces equal the per-character map `@`→`-`, `,`→`_`, `*`→`STAR`, space→nothing, with every other character kept in order |
| Scraper.SlugIsSafe | scraper.py:88-93 | a slug contains no `@`, `,`, `*` or space |
| Scraper.SlugifyIdempotent | scraper.py:88-93 | slugifying a slug changes nothing |
| Scraper.SlugifyExample | scraper.py:85-86 | `'WS@BRKLN,WS@INDUS'` becomes `'WS-BRKLN_WS-INDUS'` |
| Scraper.SlugMapTwoPairs | scraper.py:85-86 | two `campus@location` pairs of safe names joined by a comma become `campus-location_campus-location` |
| Scraper.SlugCollision | scraper.py:88-93 | `*` and the text STAR, and a space and nothing, give the same slug between the same safe texts |
| Scraper.RawFileName | scraper.py:104-106 | the name has the fixed 33 characters of the format around srcdb, career and the slug |
| Scraper.RawFileNameFields | scraper.py:104-106 | given the srcdb and career lengths, the name determines srcdb, career and the slug |
| Scraper.RawFileNameCollision | scraper.py:104-106 | camp lists differing only in `*` versus STAR are saved under the same file name |
| Scraper.BuildPayload | scraper.py:30-51 | the body has exactly the keys `other` and `criteria`, and `criteria` has two entries |
| Scraper.PayloadRoundTrip | scraper.py:43-51 | srcdb is read back from `other`, career from the first criterion and camp from the second |
| Text.ParseIntIsLiteral | backend/sql.py:169-170 | whatever `int()` accepts is an optional sign followed by digits whose value is the result |
| Text.LiteralParses | backend/sql.py:169-170 | every optional sign followed by digits is accepted, with its value |
| Text.ParseIntRoundTrip | backend/sql.py:169-170 | parsing the decimal text of an integer gives the integer |
| Text.StripIgnoresPadding | backend/sql.py:166 | stripping ignores added whitespace on either side |

## Left out

- HTTP traffic (`requests.post`, the session in `fetch_raw_data`, `scrape_and_save`): the upstream service is the function `Upstream.respond`, and the scraper's own fetch and its file write are I/O that is not modelled.
- File and JSON I/O: records are given already decoded, and a missing partition file is `None`. The JSON text of `all_sections` and `raw` is stored and read back as the same value; a round trip through `json.dumps` and `json.loads` is taken to be the identity.
- SQLite mechanics: `get_conn`, the schema DDL, the PRAGMAs, commits and `commit=False` transactions, and the SQL engine. Only the table effects are kept: UNIQUE and NOT NULL with INSERT OR IGNORE, and INSERT OR REPLACE.
- Type affinity and binding errors are modelled only for the detail cache. For course and section rows, values are stored as given.
- Details.ReadBack: a float stored in a TEXT column is returned as it was. SQLite would turn it into its text, which depends on float printing.
- Running the search SQL and mapping its rows to `SectionResult`, and `database_status`: these are SQL execution and framework code.
- FastAPI, CORS, uvicorn, the pydantic models and logging lines.
- `update_database`. It has no staleness gate, although its docstring describes a one-day gate, and no atomic full replace, because it deletes and commits per camp. It calls `sql.process_json_file`, which `backend/sql.py` does not define, and it overwrites `records_processed` instead of summing it. Only its campus-group mapping and its default camp lists are modelled, in `Campus`.
- Normalize.ToIntOrNoneOfText: Python's `int()` also accepts `_` separators and Unicode digits. The model accepts an optional sign followed by ASCII digits.
- Normalize.SplitCode: a truthy non-string `code` makes the Python code raise. The loaders require well-typed records, where a code is text or falsy (absent, None, 0, false, an empty list or an empty object); `split_code` turns every falsy code into `(None, None)`.
- Meeting.ParseMeetingHtml: the function is annotated to take `str` and is modelled on text. Its one call site passes `result.get('meeting_html', '')`, which can be any decoded JSON value; `Catalog.MeetingOf` models that call for every JSON value: a falsy one gives three empty strings and a truthy non-string one is a processing error. Its docstring example is not proved as a literal; `Meeting.MeetPatternOfLeftmostMatch`, `Meeting.DatesOfLeftmostMatch` and `Meeting.NoDatesIffNoMatch` state the general behaviour.
- The regexes use `\s` and `\d`. The scans use ASCII whitespace and ASCII digits.
- Text.Strip: `str.strip` also removes Unicode whitespace. `Text.Strip` removes ASCII whitespace only, and it models every `.strip()` of the core: in `to_int_or_none` (backend/sql.py:166), in `split_code` (backend/sql.py:148) and in `parse_meeting_html` (backend/app.py:30, 35-36).
