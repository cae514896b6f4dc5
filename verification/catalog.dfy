/** The catalog store of backend/sql.py and sql.py: the `courses`,
    `sections`, `course_details_cache` and `metadata` tables as abstract
    state, with the statements the loaders and the detail endpoint run on
    them. */
module Catalog {
  import opened Wrappers
  import opened Text
  import opened JsonValue
  import opened Normalize
  import opened Meeting

  // ---------------------------------------------------------------------------
  // courses: INSERT OR IGNORE on a UNIQUE, NOT NULL code and a NOT NULL title
  // ---------------------------------------------------------------------------

  /** One `INSERT OR IGNORE INTO courses`: a row whose code is already
      present violates UNIQUE(code), one whose title is NULL violates
      NOT NULL(title); either way the row is skipped. Otherwise it is added
      under its code. */
  function InsertOrIgnore(m: map<string, CourseRow>, row: CourseRow): (r: map<string, CourseRow>)
    ensures r.Keys == if row.title == JNull then m.Keys else m.Keys + {row.code}
    ensures forall c :: c in m ==> r[c] == m[c]
    ensures row.code !in m && row.title != JNull ==> r[row.code] == row
  {
    if row.code in m || row.title == JNull then m else m[row.code := row]
  }

  /** `executemany` of that statement over `rows`, in order. */
  function InsertOrIgnoreAll(m: map<string, CourseRow>, rows: seq<CourseRow>): map<string, CourseRow> {
    if rows == [] then m
    else InsertOrIgnore(InsertOrIgnoreAll(m, rows[..|rows| - 1]), rows[|rows| - 1])
  }

  /** Every row of the table is stored under its own code. */
  predicate KeyedByCode(m: map<string, CourseRow>) {
    forall c :: c in m ==> m[c].code == c && m[c].title != JNull
  }

  /** Inserting `a` and then `b` is inserting `a + b`: the two loaders, one
      statement per record or one batch per file, agree. */
  lemma {:induction false} InsertOrIgnoreAllAppend(m: map<string, CourseRow>, a: seq<CourseRow>, b: seq<CourseRow>)
    ensures InsertOrIgnoreAll(m, a + b) == InsertOrIgnoreAll(InsertOrIgnoreAll(m, a), b)
    decreases |b|
  {
    if b == [] {
      assert a + b == a;
    } else {
      var init := b[..|b| - 1];
      InsertOrIgnoreAllAppend(m, a, init);
      assert (a + b)[..|a + b| - 1] == a + init;
    }
  }

  /** Existing codes keep their rows, titles included; the only new codes
      are those of inserted rows with a title; the table stays keyed by
      code. */
  lemma {:induction false} InsertOrIgnoreAllKeeps(m: map<string, CourseRow>, rows: seq<CourseRow>)
    ensures var r := InsertOrIgnoreAll(m, rows);
      && (forall c :: c in m ==> c in r && r[c] == m[c])
      && (forall c :: c in r ==> c in m || exists i :: 0 <= i < |rows| && rows[i].code == c && rows[i].title != JNull)
      && (KeyedByCode(m) ==> KeyedByCode(r))
    decreases |rows|
  {
    if rows != [] {
      var init := rows[..|rows| - 1];
      InsertOrIgnoreAllKeeps(m, init);
      var r0 := InsertOrIgnoreAll(m, init);
      forall c | c in InsertOrIgnoreAll(m, rows)
        ensures c in m || exists i :: 0 <= i < |rows| && rows[i].code == c && rows[i].title != JNull
      {
        if c !in r0 {
          assert rows[|rows| - 1].code == c;
        } else if c !in m {
          var i :| 0 <= i < |init| && init[i].code == c && init[i].title != JNull;
          assert rows[i] == init[i];
        }
      }
    }
  }

  /** Every inserted row with a title leaves its code in the table. */
  lemma {:induction false} InsertOrIgnoreAllCovers(m: map<string, CourseRow>, rows: seq<CourseRow>)
    ensures forall i :: 0 <= i < |rows| && rows[i].title != JNull ==> rows[i].code in InsertOrIgnoreAll(m, rows)
    decreases |rows|
  {
    if rows != [] {
      var init := rows[..|rows| - 1];
      InsertOrIgnoreAllCovers(m, init);
      forall i | 0 <= i < |rows| && rows[i].title != JNull
        ensures rows[i].code in InsertOrIgnoreAll(m, rows)
      {
        if i < |init| {
          assert rows[i] == init[i];
        }
      }
    }
  }

  /** For a code new to the table, the first inserted row carrying it (and a
      title) is the one kept: the first writer wins. */
  lemma {:induction false} FirstWriterWins(m: map<string, CourseRow>, rows: seq<CourseRow>, i: nat)
    requires i < |rows| && rows[i].code !in m && rows[i].title != JNull
    requires forall j :: 0 <= j < i ==> rows[j].code != rows[i].code || rows[j].title == JNull
    ensures rows[i].code in InsertOrIgnoreAll(m, rows)
    ensures InsertOrIgnoreAll(m, rows)[rows[i].code] == rows[i]
    decreases |rows|
  {
    var init := rows[..|rows| - 1];
    if i == |rows| - 1 {
      InsertOrIgnoreAllKeeps(m, init);
    } else {
      assert init[i] == rows[i];
      FirstWriterWins(m, init, i);
      InsertOrIgnoreAllKeeps(InsertOrIgnoreAll(m, init), [rows[|rows| - 1]]);
      assert InsertOrIgnoreAll(m, rows) == InsertOrIgnoreAll(InsertOrIgnoreAll(m, init), [rows[|rows| - 1]]) by {
        assert [rows[|rows| - 1]][..0] == [];
      }
    }
  }

  // ---------------------------------------------------------------------------
  // course_details_cache and metadata
  // ---------------------------------------------------------------------------

  /** The UNIQUE(group_key, crn_key, srcdb) triple of the cache table. */
  datatype CacheKey = CacheKey(group: string, key: string, srcdb: string)

  /** One `course_details_cache` row as written: the upstream fields as
      bound, the three parsed meeting fields, the `allInGroup` list and the
      whole response (both stored as JSON text, which reads back to the
      same value), and the time of the write. */
  datatype CacheEntry = CacheEntry(
    description: Json, clssnotes: Json, hoursHtml: Json, status: Json, component: Json,
    instructionalMethod: Json, campusLocation: Json, registrationRestrictions: Json,
    meetingHtml: Json, meetPattern: string, meetStartDate: string, meetEndDate: string,
    datesHtml: Json, allSections: Json, raw: Json, cachedAt: string)

  /** `parse_meeting_html` applied to a `meeting_html` value: a falsy value
      gives three empty strings before any matching; a truthy non-string
      makes `re.search` raise (`None`). */
  function MeetingOf(v: Json): (r: Option<(string, string, string)>)
    ensures !Truthy(v) ==> r == Some(("", "", ""))
    ensures r.None? <==> Truthy(v) && !v.JStr?
  {
    if !Truthy(v) then Some(("", "", ""))
    else if v.JStr? then Some(ParseMeetingHtml(v.s))
    else None
  }

  /** The parsed meeting fields of an entry are those of its `meeting_html`. */
  predicate MeetingConsistent(e: CacheEntry) {
    MeetingOf(e.meetingHtml) == Some((e.meetPattern, e.meetStartDate, e.meetEndDate))
  }

  /** A `metadata` row: value and updated_at. */
  datatype MetaRow = MetaRow(value: string, updatedAt: string)

  const LAST_UPDATE := "last_update"

  // ---------------------------------------------------------------------------
  // The database
  // ---------------------------------------------------------------------------

  /** The four tables of the local SQLite file. `courses` is keyed by its
      UNIQUE code, `sections` only grows between clears, the cache is keyed
      by its UNIQUE triple and `metadata` by its primary key. Clocks are
      parameters (`now`). */
  class Database {
    var courses: map<string, CourseRow>
    var sections: seq<SectionRow>
    var detailsCache: map<CacheKey, CacheEntry>
    var metadata: map<string, MetaRow>

    /** The table constraints, and the cache invariant that every entry's
        parsed meeting fields match its `meeting_html`. */
    ghost predicate Valid()
      reads this
    {
      && KeyedByCode(courses)
      && forall k :: k in detailsCache ==> MeetingConsistent(detailsCache[k])
    }

    /** A freshly created schema: every table empty. */
    constructor ()
      ensures Valid()
      ensures courses == map[] && sections == [] && detailsCache == map[] && metadata == map[]
    {
      courses, sections, detailsCache, metadata := map[], [], map[], map[];
    }

    /** `upsert_course`: insert the course only when its code is absent; an
        existing row, title included, stays as it was. */
    method UpsertCourse(code: string, title: Json)
      requires Valid()
      modifies this
      ensures Valid()
      ensures courses == InsertOrIgnore(old(courses), NewCourse(code, title))
      ensures code in old(courses) ==> courses == old(courses)
      ensures sections == old(sections) && detailsCache == old(detailsCache) && metadata == old(metadata)
    {
      courses := InsertOrIgnore(courses, NewCourse(code, title));
    }

    /** `insert_section`: append the record's row. */
    method InsertSection(record: Record, campusGroup: string)
      requires HasTextCode(record)
      requires Valid()
      modifies this
      ensures Valid()
      ensures sections == old(sections) + [SectionOf(record, campusGroup)]
      ensures courses == old(courses) && detailsCache == old(detailsCache) && metadata == old(metadata)
    {
      sections := sections + [SectionOf(record, campusGroup)];
    }

    /** `insert_prepared_data`: the course tuples with INSERT OR IGNORE, in
        order, then the section rows appended, in order. */
    method InsertPreparedData(coursesData: seq<CourseRow>, sectionsData: seq<SectionRow>)
      requires Valid()
      modifies this
      ensures Valid()
      ensures courses == InsertOrIgnoreAll(old(courses), coursesData)
      ensures sections == old(sections) + sectionsData
      ensures |sections| == |old(sections)| + |sectionsData|
      ensures detailsCache == old(detailsCache) && metadata == old(metadata)
    {
      for i := 0 to |coursesData|
        invariant courses == InsertOrIgnoreAll(old(courses), coursesData[..i])
        invariant KeyedByCode(courses)
        invariant sections == old(sections) && detailsCache == old(detailsCache) && metadata == old(metadata)
      {
        assert coursesData[..i + 1][..i] == coursesData[..i];
        courses := InsertOrIgnore(courses, coursesData[i]);
      }
      assert coursesData[..|coursesData|] == coursesData;
      for i := 0 to |sectionsData|
        invariant sections == old(sections) + sectionsData[..i]
        invariant courses == InsertOrIgnoreAll(old(courses), coursesData) && KeyedByCode(courses)
        invariant detailsCache == old(detailsCache) && metadata == old(metadata)
      {
        assert sectionsData[..i + 1] == sectionsData[..i] + [sectionsData[i]];
        sections := sections + [sectionsData[i]];
      }
      assert sectionsData[..|sectionsData|] == sectionsData;
    }

    /** `clear_all_data`: sections, courses and the detail cache emptied;
        metadata, and with it the last update time, kept. */
    method ClearAllData()
      requires Valid()
      modifies this
      ensures Valid()
      ensures courses == map[] && sections == [] && detailsCache == map[]
      ensures metadata == old(metadata)
      ensures GetLastUpdateTime() == old(GetLastUpdateTime())
    {
      sections := [];
      courses := map[];
      detailsCache := map[];
    }

    /** `get_last_update_time`: the value of the `last_update` row, if any. */
    function GetLastUpdateTime(): (r: Option<string>)
      reads this
      ensures r.Some? <==> LAST_UPDATE in metadata
      ensures r.Some? ==> r.value == metadata[LAST_UPDATE].value
    {
      if LAST_UPDATE in metadata then Some(metadata[LAST_UPDATE].value) else None
    }

    /** `set_last_update_time`: INSERT OR REPLACE of the single `last_update`
        row, value and updated_at both `now`; other keys untouched. */
    method SetLastUpdateTime(now: string)
      requires Valid()
      modifies this
      ensures Valid()
      ensures metadata == old(metadata)[LAST_UPDATE := MetaRow(now, now)]
      ensures GetLastUpdateTime() == Some(now)
      ensures courses == old(courses) && sections == old(sections) && detailsCache == old(detailsCache)
    {
      metadata := metadata[LAST_UPDATE := MetaRow(now, now)];
    }

    /** The cache SELECT by (group_key, crn_key, srcdb). */
    function CachedEntry(k: CacheKey): (r: Option<CacheEntry>)
      reads this
      ensures r.Some? <==> k in detailsCache
      ensures r.Some? ==> r.value == detailsCache[k]
    {
      if k in detailsCache then Some(detailsCache[k]) else None
    }

    /** The cache's INSERT OR REPLACE: the row for the triple, if any, is
        deleted and the new one written; no other entry changes. */
    method ReplaceDetails(k: CacheKey, e: CacheEntry)
      requires Valid() && MeetingConsistent(e)
      modifies this
      ensures Valid()
      ensures detailsCache == old(detailsCache)[k := e]
      ensures CachedEntry(k) == Some(e)
      ensures forall k' :: k' != k ==> CachedEntry(k') == old(CachedEntry(k'))
      ensures courses == old(courses) && sections == old(sections) && metadata == old(metadata)
    {
      detailsCache := detailsCache[k := e];
    }
  }
}
