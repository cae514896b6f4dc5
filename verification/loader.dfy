/** The two loaders: the root sql.py, which inserts record by record
    (`process_json_file` through `upsert_course` and `insert_section`), and
    backend/sql.py, which prepares both partitions first and inserts them in
    one batch (`prepare_json_data` then `insert_prepared_data`). A partition
    file that does not exist is `None`. */
module Loader {
  import opened Wrappers
  import opened JsonValue
  import opened Normalize
  import opened Catalog

  /** The course tuples of a partition file, none when it is missing. */
  function FileCourses(file: Option<seq<Record>>): seq<CourseRow>
    requires file.Some? ==> AllWellTyped(file.value)
  {
    if file.None? then [] else CourseTuples(file.value)
  }

  /** The section rows of a partition file, none when it is missing. */
  function FileSections(file: Option<seq<Record>>, campusGroup: string): seq<SectionRow>
    requires file.Some? ==> AllWellTyped(file.value)
  {
    if file.None? then [] else SectionRows(file.value, campusGroup)
  }

  predicate FileWellTyped(file: Option<seq<Record>>) {
    file.Some? ==> AllWellTyped(file.value)
  }

  /** Every kept record's code ends up in `courses`; for a code new to the
      table, the row is that of its first kept record, title included. */
  lemma FirstOccurrenceStored(m: map<string, CourseRow>, rs: seq<Record>, i: nat)
    requires AllWellTyped(rs) && i < |Kept(rs)|
    requires CodeText(Kept(rs)[i]) !in m
    requires forall j :: 0 <= j < i ==> CodeText(Kept(rs)[j]) != CodeText(Kept(rs)[i])
    ensures var r, c := InsertOrIgnoreAll(m, CourseTuples(rs)), CodeText(Kept(rs)[i]);
      c in r && r[c] == CourseOf(Kept(rs)[i]) && r[c].title == TitleField(Kept(rs)[i])
  {
    PreparedShape(rs, "");
    var k, cs := Kept(rs), CourseTuples(rs);
    assert cs[i] == CourseOf(k[i]);
    forall j | 0 <= j < i ensures cs[j].code != cs[i].code {
      assert cs[j] == CourseOf(k[j]);
    }
    FirstWriterWins(m, cs, i);
  }

  /** `process_json_file` on a decoded `results` list: one `upsert_course`
      and one `insert_section` per kept record, in order. The tables end up
      exactly as `insert_prepared_data` leaves them after
      `prepare_json_data` of the same records. */
  method ProcessJsonFile(db: Database, records: seq<Record>, campusGroup: string)
    requires db.Valid() && AllWellTyped(records)
    modifies db
    ensures db.Valid()
    ensures db.courses == InsertOrIgnoreAll(old(db.courses), CourseTuples(records))
    ensures db.sections == old(db.sections) + SectionRows(records, campusGroup)
    ensures db.detailsCache == old(db.detailsCache) && db.metadata == old(db.metadata)
  {
    for i := 0 to |records|
      invariant db.Valid()
      invariant AllWellTyped(records[..i])
      invariant db.courses == InsertOrIgnoreAll(old(db.courses), CourseTuples(records[..i]))
      invariant db.sections == old(db.sections) + SectionRows(records[..i], campusGroup)
      invariant db.detailsCache == old(db.detailsCache) && db.metadata == old(db.metadata)
    {
      assert records[..i + 1][..i] == records[..i];
      var record := records[i];
      if !IsKept(record) {
        assert CourseTuples(records[..i + 1]) == CourseTuples(records[..i]);
        continue;
      }
      var done := CourseTuples(records[..i]);
      assert (done + [CourseOf(record)])[..|done|] == done;
      db.UpsertCourse(CodeText(record), TitleField(record));
      db.InsertSection(record, campusGroup);
      assert CourseTuples(records[..i + 1]) == done + [CourseOf(record)];
      assert InsertOrIgnoreAll(old(db.courses), done + [CourseOf(record)])
        == InsertOrIgnore(InsertOrIgnoreAll(old(db.courses), done), CourseOf(record));
      assert CourseOf(record) == NewCourse(CodeText(record), TitleField(record));
    }
    assert records[..|records|] == records;
  }

  /** The tables after loading WSQ and then BROOKLYN, by either loader. */
  function LoadedCourses(m: map<string, CourseRow>, wsq: Option<seq<Record>>, brooklyn: Option<seq<Record>>): map<string, CourseRow>
    requires FileWellTyped(wsq) && FileWellTyped(brooklyn)
  {
    InsertOrIgnoreAll(m, FileCourses(wsq) + FileCourses(brooklyn))
  }

  function LoadedSections(s: seq<SectionRow>, wsq: Option<seq<Record>>, brooklyn: Option<seq<Record>>): seq<SectionRow>
    requires FileWellTyped(wsq) && FileWellTyped(brooklyn)
  {
    s + FileSections(wsq, "WSQ") + FileSections(brooklyn, "BROOKLYN")
  }

  /** The root `main`: `process_json_file` on the WSQ file, then on the
      BROOKLYN file, each only when it exists. */
  method RootMain(db: Database, wsq: Option<seq<Record>>, brooklyn: Option<seq<Record>>)
    requires db.Valid() && FileWellTyped(wsq) && FileWellTyped(brooklyn)
    modifies db
    ensures db.Valid()
    ensures db.courses == LoadedCourses(old(db.courses), wsq, brooklyn)
    ensures db.sections == LoadedSections(old(db.sections), wsq, brooklyn)
    ensures db.detailsCache == old(db.detailsCache) && db.metadata == old(db.metadata)
  {
    if wsq.Some? {
      ProcessJsonFile(db, wsq.value, "WSQ");
    }
    if brooklyn.Some? {
      ProcessJsonFile(db, brooklyn.value, "BROOKLYN");
    }
    InsertOrIgnoreAllAppend(old(db.courses), FileCourses(wsq), FileCourses(brooklyn));
  }

  /** backend/sql.py `main`: prepare WSQ then BROOKLYN, concatenate, and
      insert the batch when it is non-empty. */
  method BackendMain(db: Database, wsq: Option<seq<Record>>, brooklyn: Option<seq<Record>>)
    requires db.Valid() && FileWellTyped(wsq) && FileWellTyped(brooklyn)
    modifies db
    ensures db.Valid()
    ensures db.courses == LoadedCourses(old(db.courses), wsq, brooklyn)
    ensures db.sections == LoadedSections(old(db.sections), wsq, brooklyn)
    ensures db.detailsCache == old(db.detailsCache) && db.metadata == old(db.metadata)
  {
    var allCourses: seq<CourseRow> := [];
    var allSections: seq<SectionRow> := [];
    if wsq.Some? {
      var courses, sections := PrepareJsonData(wsq.value, "WSQ");
      allCourses, allSections := courses, sections;
    }
    assert allCourses == FileCourses(wsq) && allSections == FileSections(wsq, "WSQ");
    if brooklyn.Some? {
      var courses, sections := PrepareJsonData(brooklyn.value, "BROOKLYN");
      allCourses, allSections := allCourses + courses, allSections + sections;
    }
    assert allCourses == FileCourses(wsq) + FileCourses(brooklyn);
    assert allSections == FileSections(wsq, "WSQ") + FileSections(brooklyn, "BROOKLYN");
    ghost var c0, s0 := db.courses, db.sections;
    assert InsertOrIgnoreAll(c0, allCourses) == LoadedCourses(c0, wsq, brooklyn);
    assert s0 + allSections == LoadedSections(s0, wsq, brooklyn);
    if allCourses != [] || allSections != [] {
      db.InsertPreparedData(allCourses, allSections);
    } else {
      assert InsertOrIgnoreAll(c0, []) == c0;
      assert s0 + [] == s0;
    }
  }

  /** WSQ is loaded first, so a code kept in the WSQ file and new to the
      table keeps its first WSQ row and title, whatever BROOKLYN holds. */
  lemma WsqTitleWins(m: map<string, CourseRow>, wsq: seq<Record>, brooklyn: Option<seq<Record>>, i: nat)
    requires AllWellTyped(wsq) && FileWellTyped(brooklyn) && i < |Kept(wsq)|
    requires CodeText(Kept(wsq)[i]) !in m
    requires forall j :: 0 <= j < i ==> CodeText(Kept(wsq)[j]) != CodeText(Kept(wsq)[i])
    ensures var r, c := LoadedCourses(m, Some(wsq), brooklyn), CodeText(Kept(wsq)[i]);
      c in r && r[c].title == TitleField(Kept(wsq)[i])
  {
    var b := FileCourses(brooklyn);
    InsertOrIgnoreAllAppend(m, CourseTuples(wsq), b);
    FirstOccurrenceStored(m, wsq, i);
    InsertOrIgnoreAllKeeps(InsertOrIgnoreAll(m, CourseTuples(wsq)), b);
  }
}
