/** The record normaliser of backend/sql.py (the same helpers appear again in
    the root sql.py): splitting a course code, coercing the enrollment total,
    and turning one partition's raw records into course tuples and section
    rows. */
module Normalize {
  import opened Wrappers
  import opened Text
  import opened JsonValue

  /** One raw upstream record (one element of the document's `results`). */
  type Record = Object

  /** A `courses` row: (code, subject, catalog_number, title). */
  datatype CourseRow = CourseRow(code: string, subject: Option<string>, catalogNumber: Option<string>, title: Json)

  /** A `sections` row, column for column in insertion order. */
  datatype SectionRow = SectionRow(
    courseCode: string,
    key: Json, code: Json, title: Json, hide: Json, crn: Json, no: Json,
    total: Option<int>,
    schd: Json, stat: Json, isCancelled: Json, meets: Json, mpkey: Json,
    meetingTimes: Json, instr: Json, startDate: Json, endDate: Json, srcdb: Json,
    campusGroup: string)

  // ---------------------------------------------------------------------------
  // split_code
  // ---------------------------------------------------------------------------

  /** `split_code`: `None` stands for the pair `(None, None)`; otherwise the
      code is cut at its last space and both halves are stripped. */
  function SplitCode(code: string): (r: Option<(string, string)>)
    ensures r.None? <==> (code == [] || ' ' !in code)
    ensures r.Some? ==> ' ' !in r.value.1
    ensures r.Some? ==> IsStripped(r.value.0) && IsStripped(r.value.1)
  {
    if code == [] then None
    else match LastIndexOf(code, ' ')
      case None => None
      case Some(k) =>
        var catalog := code[k + 1..];
        assert forall c :: c in catalog ==> c != ' ';
        Some((Strip(code[..k]), Strip(catalog)))
  }

  /** Whatever precedes the last space, spaces included, is the subject:
      codes with several spaces still split, at the last one. */
  lemma SplitAtLastSpace(front: string, back: string)
    requires ' ' !in back
    ensures SplitCode(front + " " + back) == Some((Strip(front), Strip(back)))
  {
    var code := front + " " + back;
    assert code[|front|] == ' ';
    var k := LastIndexOf(code, ' ').value;
    assert k == |front|;
    assert code[..k] == front;
    assert code[k + 1..] == back;
  }

  /** Splitting a subject and a catalog number joined by one space gives them
      back: `subject + " " + catalog` reconstructs the code. */
  lemma SplitCodeRoundTrip(subject: string, catalog: string)
    requires IsStripped(subject) && IsStripped(catalog) && ' ' !in catalog
    ensures SplitCode(subject + " " + catalog) == Some((subject, catalog))
  {
    SplitAtLastSpace(subject, catalog);
    StripStripped(subject);
    StripStripped(catalog);
  }

  /** The docstring example `'MATH-UA 325' -> ('MATH-UA', '325')`. */
  lemma SplitCodeExample()
    ensures SplitCode("MATH-UA 325") == Some(("MATH-UA", "325"))
  {
    assert "MATH-UA 325" == "MATH-UA" + " " + "325";
    assert ' ' !in "325";
    SplitCodeRoundTrip("MATH-UA", "325");
  }

  /** The row `upsert_course` (and `prepare_json_data`) builds for a code. */
  function NewCourse(code: string, title: Json): (row: CourseRow)
    ensures row.code == code && row.title == title
  {
    match SplitCode(code)
    case None => CourseRow(code, None, None, title)
    case Some((subject, catalog)) => CourseRow(code, Some(subject), Some(catalog), title)
  }

  // ---------------------------------------------------------------------------
  // to_int_or_none
  // ---------------------------------------------------------------------------

  /** `int(str(value).strip())` on the text of a value, `None` on blank text
      or a ValueError. */
  function CoerceText(s: string): Option<int> {
    var t := Strip(s);
    if t == [] then None else ParseInt(t)
  }

  /** `to_int_or_none`: total, never raises. `str()` of a float, list or dict
      never reads as an integer (it always holds '.', 'e', "inf", "nan", '['
      or '{'), so those give `None` directly. */
  function ToIntOrNone(v: Json): Option<int> {
    match v
    case JNull => None
    case JStr(s) => CoerceText(s)
    case JInt(n) => CoerceText(IntToDecimal(n))
    case JBool(b) => CoerceText(if b then "True" else "False")
    case _ => None
  }

  /** Text coerces to `n` exactly when, stripped, it is an integer literal for
      `n`: blank text and non-integer text give `None`. */
  lemma ToIntOrNoneOfText(s: string, n: int)
    ensures ToIntOrNone(JStr(s)) == Some(n) <==> IsIntLiteral(Strip(s), n)
  {
    var t := Strip(s);
    assert ToIntOrNone(JStr(s)) == ParseInt(t);
    if ParseInt(t) == Some(n) {
      ParseIntIsLiteral(t, n);
    }
    if IsIntLiteral(t, n) {
      LiteralParses(t, n);
    }
  }

  /** Blank or whitespace-only text gives `None`. */
  lemma ToIntOrNoneOfBlank(s: string)
    requires AllSpace(s)
    ensures ToIntOrNone(JStr(s)) == None
  {
    StripAllSpace(s);
  }

  /** Whitespace around the text is ignored. */
  lemma ToIntOrNoneIgnoresPadding(w1: string, s: string, w2: string)
    requires AllSpace(w1) && AllSpace(w2)
    ensures ToIntOrNone(JStr(w1 + s + w2)) == ToIntOrNone(JStr(s))
  {
    StripIgnoresPadding(w1, s, w2);
  }

  /** Idempotence: coercing an integer (or its printed form) gives it back. */
  lemma ToIntOrNoneIdempotent(n: int)
    ensures ToIntOrNone(JInt(n)) == Some(n)
    ensures ToIntOrNone(JStr(IntToDecimal(n))) == Some(n)
  {
    DecimalIsStripped(n);
    StripStripped(IntToDecimal(n));
    ParseIntRoundTrip(n);
  }

  /** A boolean is not an integer here: `int("True")` raises. */
  lemma ToIntOrNoneOfBool(b: bool)
    ensures ToIntOrNone(JBool(b)) == None
  {
    var t := if b then "True" else "False";
    StripStripped(t);
  }

  // ---------------------------------------------------------------------------
  // prepare_json_data
  // ---------------------------------------------------------------------------

  /** `record.get("code", "")`. */
  function CodeField(r: Record): Json {
    GetOr(r, "code", JStr(""))
  }

  /** `record.get("title", "")`. */
  function TitleField(r: Record): Json {
    GetOr(r, "title", JStr(""))
  }

  /** The record's code is text (or absent, read as ""). */
  predicate HasTextCode(r: Record) {
    CodeField(r).JStr?
  }

  /** What the source's `code: str` annotation demands: a code the loop does
      not skip is text (`split_code` would raise on anything else). */
  predicate WellTyped(r: Record) {
    !Truthy(CodeField(r)) || HasTextCode(r)
  }

  predicate AllWellTyped(rs: seq<Record>) {
    forall i :: 0 <= i < |rs| ==> WellTyped(rs[i])
  }

  /** The filter of the loop: `if not code or not title: continue`. */
  predicate IsKept(r: Record) {
    Truthy(CodeField(r)) && Truthy(TitleField(r))
  }

  function CodeText(r: Record): string
    requires HasTextCode(r)
  {
    CodeField(r).s
  }

  /** The course tuple of a kept record. */
  function CourseOf(r: Record): CourseRow
    requires IsKept(r) && WellTyped(r)
  {
    NewCourse(CodeText(r), TitleField(r))
  }

  /** The section row of a record (`insert_section` / the list built in
      `prepare_json_data`). */
  function SectionOf(r: Record, campusGroup: string): SectionRow
    requires HasTextCode(r)
  {
    SectionRow(
      CodeText(r),
      Get(r, "key"), Get(r, "code"), Get(r, "title"), Get(r, "hide"), Get(r, "crn"), Get(r, "no"),
      ToIntOrNone(Get(r, "total")),
      Get(r, "schd"), Get(r, "stat"), Get(r, "isCancelled"), Get(r, "meets"), Get(r, "mpkey"),
      Get(r, "meetingTimes"), Get(r, "instr"), Get(r, "start_date"), Get(r, "end_date"), Get(r, "srcdb"),
      campusGroup)
  }

  /** The records that survive the filter, in input order. */
  function Kept(rs: seq<Record>): (k: seq<Record>)
    ensures forall i :: 0 <= i < |k| ==> IsKept(k[i])
    ensures AllWellTyped(rs) ==> AllWellTyped(k)
  {
    if rs == [] then []
    else Kept(rs[..|rs| - 1]) + (if IsKept(rs[|rs| - 1]) then [rs[|rs| - 1]] else [])
  }

  /** `courses_data` after the loop has seen `rs`. */
  function CourseTuples(rs: seq<Record>): seq<CourseRow>
    requires AllWellTyped(rs)
  {
    if rs == [] then []
    else
      var last := rs[|rs| - 1];
      CourseTuples(rs[..|rs| - 1]) + (if IsKept(last) then [CourseOf(last)] else [])
  }

  /** `sections_data` after the loop has seen `rs`. */
  function SectionRows(rs: seq<Record>, campusGroup: string): seq<SectionRow>
    requires AllWellTyped(rs)
  {
    if rs == [] then []
    else
      var last := rs[|rs| - 1];
      SectionRows(rs[..|rs| - 1], campusGroup) + (if IsKept(last) then [SectionOf(last, campusGroup)] else [])
  }

  /** Exactly the records with a non-empty code and a non-empty title are kept. */
  lemma {:induction false} KeptIsFilter(rs: seq<Record>)
    ensures |Kept(rs)| <= |rs|
    ensures forall r :: r in Kept(rs) <==> r in rs && IsKept(r)
    decreases |rs|
  {
    if rs != [] {
      var init := rs[..|rs| - 1];
      KeptIsFilter(init);
      assert rs == init + [rs[|rs| - 1]];
    }
  }

  /** One course tuple and one section row per kept record, in input order;
      the two lists line up: row i's `course_code` is tuple i's code, its
      total is the coerced `total` field and its last column the partition
      tag. Courses are not deduplicated here. */
  lemma {:induction false} PreparedShape(rs: seq<Record>, campusGroup: string)
    requires AllWellTyped(rs)
    ensures var k, cs, ss := Kept(rs), CourseTuples(rs), SectionRows(rs, campusGroup);
      |cs| == |k| && |ss| == |k| &&
      forall i :: 0 <= i < |k| ==>
        && IsKept(k[i]) && WellTyped(k[i])
        && cs[i] == CourseOf(k[i])
        && ss[i] == SectionOf(k[i], campusGroup)
        && ss[i].courseCode == cs[i].code
        && ss[i].total == ToIntOrNone(Get(k[i], "total"))
        && ss[i].campusGroup == campusGroup
    decreases |rs|
  {
    if rs != [] {
      var init := rs[..|rs| - 1];
      assert AllWellTyped(init);
      PreparedShape(init, campusGroup);
      KeptIsFilter(init);
    }
  }

  /** `prepare_json_data` on an already decoded `results` list: the loop that
      fills `courses_data` and `sections_data`. */
  method PrepareJsonData(records: seq<Record>, campusGroup: string)
    returns (coursesData: seq<CourseRow>, sectionsData: seq<SectionRow>)
    requires AllWellTyped(records)
    ensures coursesData == CourseTuples(records)
    ensures sectionsData == SectionRows(records, campusGroup)
  {
    coursesData, sectionsData := [], [];
    for i := 0 to |records|
      invariant coursesData == CourseTuples(records[..i])
      invariant sectionsData == SectionRows(records[..i], campusGroup)
    {
      assert records[..i + 1][..i] == records[..i];
      var record := records[i];
      if !IsKept(record) {
        continue;
      }
      coursesData := coursesData + [CourseOf(record)];
      sectionsData := sectionsData + [SectionOf(record, campusGroup)];
    }
    assert records[..|records|] == records;
  }
}
