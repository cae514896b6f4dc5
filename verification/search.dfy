/** The query builder of the section search (`search_sections` in backend.py,
    repeated in backend/app.py): the 400 rejection when no filter is given,
    then one condition and its parameters per given filter, in a fixed
    order. Running the query is not part of this model. */
module Search {
  import opened Wrappers
  import opened Text

  /** The five optional query parameters. */
  datatype Filters = Filters(
    code: Option<string>, title: Option<string>, crn: Option<string>,
    schd: Option<string>, campusGroup: Option<string>)

  /** Python truthiness of an optional parameter: present and non-empty. */
  predicate Given(v: Option<string>) {
    v.Some? && v.value != []
  }

  /** `any([code, title, crn, schd, campus_group])`. */
  predicate AnyGiven(f: Filters) {
    Given(f.code) || Given(f.title) || Given(f.crn) || Given(f.schd) || Given(f.campusGroup)
  }

  /** The SELECT ... WHERE 1=1 text the conditions are appended to. */
  const BASE_QUERY :=
    "\n" +
    "        SELECT\n" +
    "          s.id AS section_id,\n" +
    "          s.course_code AS course_code,\n" +
    "          c.title AS course_title,\n" +
    "\n" +
    "          s.key,\n" +
    "          s.code,\n" +
    "          s.title,\n" +
    "          s.hide,\n" +
    "          s.crn,\n" +
    "          s.no,\n" +
    "          s.total,\n" +
    "          s.schd,\n" +
    "          s.stat,\n" +
    "          s.isCancelled,\n" +
    "          s.meets,\n" +
    "          s.mpkey,\n" +
    "          s.meetingTimes,\n" +
    "          s.instr,\n" +
    "          s.start_date,\n" +
    "          s.end_date,\n" +
    "          s.srcdb,\n" +
    "          s.campus_group\n" +
    "        FROM sections s\n" +
    "        LEFT JOIN courses c ON s.course_code = c.code\n" +
    "        WHERE 1=1\n" +
    "    "

  const COND_CODE := "AND s.code LIKE ?"
  const COND_TITLE := "AND (s.title LIKE ? OR c.title LIKE ?)"
  const COND_CRN := "AND s.crn = ?"
  const COND_SCHD := "AND s.schd = ?"
  const COND_CAMPUS := "AND s.campus_group = ?"
  const ORDER_BY := "\nORDER BY s.course_code, s.no"

  /** The five conditions in the order the builder tries them. */
  const ALL_CONDITIONS := [COND_CODE, COND_TITLE, COND_CRN, COND_SCHD, COND_CAMPUS]

  /** A LIKE pattern matching `v` anywhere: `f"%{v}%"`. */
  function Like(v: string): (p: string)
    ensures |p| == |v| + 2 && p[0] == '%' && p[|p| - 1] == '%' && p[1..|p| - 1] == v
  {
    "%" + v + "%"
  }

  /** `"\n".join(xs)`. */
  function Join(xs: seq<string>): string {
    if |xs| == 0 then ""
    else if |xs| == 1 then xs[0]
    else Join(xs[..|xs| - 1]) + "\n" + xs[|xs| - 1]
  }

  /** The built statement and its parameter list. */
  datatype Query = Query(sql: string, params: seq<string>)

  /** The conditions for `f`: each given filter's, in the fixed order. */
  function Conditions(f: Filters): seq<string> {
    (if Given(f.code) then [COND_CODE] else [])
    + (if Given(f.title) then [COND_TITLE] else [])
    + (if Given(f.crn) then [COND_CRN] else [])
    + (if Given(f.schd) then [COND_SCHD] else [])
    + (if Given(f.campusGroup) then [COND_CAMPUS] else [])
  }

  /** The parameters for `f`, in placeholder order. */
  function Params(f: Filters): seq<string> {
    (if Given(f.code) then [Like(f.code.value)] else [])
    + (if Given(f.title) then [Like(f.title.value), Like(f.title.value)] else [])
    + (if Given(f.crn) then [f.crn.value] else [])
    + (if Given(f.schd) then [f.schd.value] else [])
    + (if Given(f.campusGroup) then [f.campusGroup.value] else [])
  }

  /** The filter part of `search_sections`: rejected with 400 when no
      filter is given; otherwise the base query, the given conditions joined
      by newlines, and the ORDER BY clause, with their parameters. */
  method BuildSearch(f: Filters) returns (r: Result<Query, int>)
    ensures r.Failure? <==> !AnyGiven(f)
    ensures r.Failure? ==> r.error == 400
    ensures r.Success? ==> r.value == Query(BASE_QUERY + Join(Conditions(f)) + ORDER_BY, Params(f))
  {
    if !(Given(f.code) || Given(f.title) || Given(f.crn) || Given(f.schd) || Given(f.campusGroup)) {
      return Failure(400);
    }
    // The contribution of each filter, as `Conditions` and `Params` list them.
    ghost var c1, p1 := if Given(f.code) then [COND_CODE] else [], if Given(f.code) then [Like(f.code.value)] else [];
    ghost var c2, p2 := if Given(f.title) then [COND_TITLE] else [], if Given(f.title) then [Like(f.title.value), Like(f.title.value)] else [];
    ghost var c3, p3 := if Given(f.crn) then [COND_CRN] else [], if Given(f.crn) then [f.crn.value] else [];
    ghost var c4, p4 := if Given(f.schd) then [COND_SCHD] else [], if Given(f.schd) then [f.schd.value] else [];
    ghost var c5, p5 := if Given(f.campusGroup) then [COND_CAMPUS] else [], if Given(f.campusGroup) then [f.campusGroup.value] else [];
    var conditions: seq<string> := [];
    var params: seq<string> := [];
    if Given(f.code) {
      conditions := conditions + [COND_CODE];
      params := params + [Like(f.code.value)];
    }
    assert conditions == c1 && params == p1;
    if Given(f.title) {
      conditions := conditions + [COND_TITLE];
      params := params + [Like(f.title.value), Like(f.title.value)];
    }
    assert conditions == c1 + c2 && params == p1 + p2;
    if Given(f.crn) {
      conditions := conditions + [COND_CRN];
      params := params + [f.crn.value];
    }
    assert conditions == c1 + c2 + c3 && params == p1 + p2 + p3;
    if Given(f.schd) {
      conditions := conditions + [COND_SCHD];
      params := params + [f.schd.value];
    }
    assert conditions == c1 + c2 + c3 + c4 && params == p1 + p2 + p3 + p4;
    if Given(f.campusGroup) {
      conditions := conditions + [COND_CAMPUS];
      params := params + [f.campusGroup.value];
    }
    assert conditions == c1 + c2 + c3 + c4 + c5 && params == p1 + p2 + p3 + p4 + p5;
    r := Success(Query(BASE_QUERY + Join(conditions) + ORDER_BY, params));
  }

  // ---------------------------------------------------------------------------
  // What the builder guarantees
  // ---------------------------------------------------------------------------

  /** The position of a condition in the fixed order. */
  function Rank(c: string): nat {
    if c == COND_CODE then 0
    else if c == COND_TITLE then 1
    else if c == COND_CRN then 2
    else if c == COND_SCHD then 3
    else 4
  }

  /** Conditions strictly ascending in the fixed order. */
  predicate Ascending(cs: seq<string>) {
    forall i, j :: 0 <= i < j < |cs| ==> Rank(cs[i]) < Rank(cs[j])
  }

  /** Appending a condition ranked above all present ones keeps the order. */
  lemma AscendingAppend(cs: seq<string>, b: bool, c: string)
    requires Ascending(cs) && forall i :: 0 <= i < |cs| ==> Rank(cs[i]) < Rank(c)
    ensures var cs' := cs + (if b then [c] else []);
      Ascending(cs') && forall i :: 0 <= i < |cs'| ==> Rank(cs'[i]) <= Rank(c)
  {
  }

  /** The five conditions are told apart by their lengths. */
  lemma ConditionLengths()
    ensures |COND_CODE| == 17 && |COND_TITLE| == 38 && |COND_CRN| == 13
    ensures |COND_SCHD| == 14 && |COND_CAMPUS| == 22
  {
  }

  /** Each condition is present exactly when its filter is given (so an
      empty string adds none). */
  lemma ConditionsPresent(f: Filters)
    ensures var cs := Conditions(f);
      && (COND_CODE in cs <==> Given(f.code))
      && (COND_TITLE in cs <==> Given(f.title))
      && (COND_CRN in cs <==> Given(f.crn))
      && (COND_SCHD in cs <==> Given(f.schd))
      && (COND_CAMPUS in cs <==> Given(f.campusGroup))
      && |cs| <= |ALL_CONDITIONS|
  {
    ConditionLengths();
    var c1 := if Given(f.code) then [COND_CODE] else [];
    var c2 := if Given(f.title) then [COND_TITLE] else [];
    var c3 := if Given(f.crn) then [COND_CRN] else [];
    var c4 := if Given(f.schd) then [COND_SCHD] else [];
    var c5 := if Given(f.campusGroup) then [COND_CAMPUS] else [];
    assert Conditions(f) == c1 + c2 + c3 + c4 + c5;
    forall x | x in ALL_CONDITIONS
      ensures x in Conditions(f) <==> x in c1 || x in c2 || x in c3 || x in c4 || x in c5
    {
    }
  }

  /** The conditions keep the order code, title, crn, schd, campus_group. */
  lemma ConditionsInOrder(f: Filters)
    ensures Ascending(Conditions(f))
    ensures forall i :: 0 <= i < |Conditions(f)| ==> Conditions(f)[i] in ALL_CONDITIONS
  {
    ConditionsAscending(f);
    ConditionsKnown(f);
  }

  /** Every condition is one of the five. */
  lemma ConditionsKnown(f: Filters)
    ensures forall i :: 0 <= i < |Conditions(f)| ==> Conditions(f)[i] in ALL_CONDITIONS
  {
    var cs := Conditions(f);
    forall i | 0 <= i < |cs| ensures cs[i] in ALL_CONDITIONS {
      assert cs[i] in cs;
    }
  }

  lemma ConditionsAscending(f: Filters)
    ensures Ascending(Conditions(f))
  {
    assert Rank(COND_CODE) == 0 && Rank(COND_TITLE) == 1 && Rank(COND_CRN) == 2;
    assert Rank(COND_SCHD) == 3 && Rank(COND_CAMPUS) == 4;
    var c1 := if Given(f.code) then [COND_CODE] else [];
    AscendingAppend(c1, Given(f.title), COND_TITLE);
    var c2 := c1 + if Given(f.title) then [COND_TITLE] else [];
    AscendingAppend(c2, Given(f.crn), COND_CRN);
    var c3 := c2 + if Given(f.crn) then [COND_CRN] else [];
    AscendingAppend(c3, Given(f.schd), COND_SCHD);
    var c4 := c3 + if Given(f.schd) then [COND_SCHD] else [];
    AscendingAppend(c4, Given(f.campusGroup), COND_CAMPUS);
    assert Conditions(f) == c4 + if Given(f.campusGroup) then [COND_CAMPUS] else [];
  }

  /** Code and title values are wrapped as LIKE patterns, the title's
      twice; crn, schd and campus_group are passed as given; one parameter
      per condition, plus one for the title's second placeholder. */
  lemma ParamsShape(f: Filters)
    ensures var ps, k := Params(f), if Given(f.code) then 1 else 0;
      var kc := k + (if Given(f.title) then 2 else 0);
      var ks := kc + (if Given(f.crn) then 1 else 0);
      && |ps| == |Conditions(f)| + (if Given(f.title) then 1 else 0)
      && (Given(f.code) ==> ps[0] == Like(f.code.value))
      && (Given(f.title) ==> ps[k] == Like(f.title.value) && ps[k + 1] == Like(f.title.value))
      && (Given(f.crn) ==> ps[kc] == f.crn.value)
      && (Given(f.schd) ==> ps[ks] == f.schd.value)
      && (Given(f.campusGroup) ==> ps[|ps| - 1] == f.campusGroup.value)
  {
  }

  /** The occurrences of `c` over all of `xs`. */
  function SumCount(xs: seq<string>, c: char): nat {
    if xs == [] then 0 else SumCount(xs[..|xs| - 1], c) + Count(xs[|xs| - 1], c)
  }

  lemma {:induction false} SumCountAppend(a: seq<string>, b: seq<string>, c: char)
    ensures SumCount(a + b, c) == SumCount(a, c) + SumCount(b, c)
    decreases |b|
  {
    if b == [] {
      assert a + b == a;
    } else {
      SumCountAppend(a, b[..|b| - 1], c);
      assert (a + b)[..|a + b| - 1] == a + b[..|b| - 1];
    }
  }

  /** Joining with newlines adds no other character. */
  lemma {:induction false} CountJoin(xs: seq<string>, c: char)
    requires c != '\n'
    ensures Count(Join(xs), c) == SumCount(xs, c)
    decreases |xs|
  {
    if |xs| == 1 {
      assert xs[..0] == [];
    } else if |xs| > 1 {
      var init := xs[..|xs| - 1];
      CountJoin(init, c);
      CountAppend(Join(init) + "\n", xs[|xs| - 1], c);
      CountAppend(Join(init), "\n", c);
      assert Count("\n", c) == 0 by {
        assert "\n"[..0] == [];
      }
    }
  }

  /** `Count(pre + "?" + post)` for a `pre` and `post` without `?`. */
  lemma OnePlaceholder(pre: string, post: string)
    requires '?' !in post
    ensures Count(pre + "?" + post, '?') == 1 + Count(pre, '?')
  {
    CountAppend(pre + "?", post, '?');
    CountAppend(pre, "?", '?');
    CountAbsent(post, '?');
    assert "?"[..0] == [];
  }

  /** The placeholders in each condition: one, and two in the title's. */
  lemma PlaceholdersPerCondition()
    ensures Count(COND_CODE, '?') == 1 && Count(COND_TITLE, '?') == 2 && Count(COND_CRN, '?') == 1
    ensures Count(COND_SCHD, '?') == 1 && Count(COND_CAMPUS, '?') == 1
  {
    SinglePlaceholder("AND s.code LIKE ", COND_CODE);
    SinglePlaceholder("AND s.crn = ", COND_CRN);
    SinglePlaceholder("AND s.schd = ", COND_SCHD);
    SinglePlaceholder("AND s.campus_group = ", COND_CAMPUS);
    TitlePlaceholders();
  }

  /** A condition made of a `?`-free text and a final `?`. */
  lemma SinglePlaceholder(pre: string, cond: string)
    requires '?' !in pre && cond == pre + "?"
    ensures Count(cond, '?') == 1
  {
    CountAbsent(pre, '?');
    OnePlaceholder(pre, "");
    assert pre + "?" + "" == cond;
  }

  lemma TitlePlaceholders()
    ensures Count(COND_TITLE, '?') == 2
  {
    var a, b := "AND (s.title LIKE ", " OR c.title LIKE ";
    TitleSplit(COND_TITLE, a, b);
    TwoPlaceholders(a, b);
  }

  lemma TitleSplit(t: string, a: string, b: string)
    requires t == COND_TITLE && a == "AND (s.title LIKE " && b == " OR c.title LIKE "
    ensures t == (a + "?" + b) + "?" + ")" && '?' !in a && '?' !in b
  {
  }

  /** Two `?`-free texts, each followed by a `?`, and a closing parenthesis. */
  lemma TwoPlaceholders(a: string, b: string)
    requires '?' !in a && '?' !in b
    ensures Count((a + "?" + b) + "?" + ")", '?') == 2
  {
    CountAbsent(a, '?');
    OnePlaceholder(a, b);
    OnePlaceholder(a + "?" + b, ")");
  }

  /** The placeholders of a condition that may be absent. */
  lemma SumCountPick(b: bool, c: string)
    ensures SumCount(if b then [c] else [], '?') == if b then Count(c, '?') else 0
  {
    if b {
      assert [c][..0] == [];
    }
  }

  /** The number of parameters: one per given filter, two for the title. */
  lemma ParamsLength(f: Filters)
    ensures |Params(f)| == (if Given(f.code) then 1 else 0) + (if Given(f.title) then 2 else 0)
      + (if Given(f.crn) then 1 else 0) + (if Given(f.schd) then 1 else 0) + (if Given(f.campusGroup) then 1 else 0)
  {
  }

  lemma SumCountFive(p1: seq<string>, p2: seq<string>, p3: seq<string>, p4: seq<string>, p5: seq<string>, c: char)
    ensures SumCount(p1 + p2 + p3 + p4 + p5, c)
      == SumCount(p1, c) + SumCount(p2, c) + SumCount(p3, c) + SumCount(p4, c) + SumCount(p5, c)
  {
    SumCountAppend(p1, p2, c);
    SumCountAppend(p1 + p2, p3, c);
    SumCountAppend(p1 + p2 + p3, p4, c);
    SumCountAppend(p1 + p2 + p3 + p4, p5, c);
  }

  /** A condition with as many placeholders as its filter has parameters
      keeps them in step whether or not the filter is given. */
  lemma PieceMatches(b: bool, cond: string, q: seq<string>)
    requires b ==> Count(cond, '?') == |q|
    requires !b ==> q == []
    ensures SumCount(if b then [cond] else [], '?') == |q|
  {
    SumCountPick(b, cond);
  }

  /** Five condition lists, each with as many placeholders as its parameter
      list has entries, joined have as many as the parameters joined. */
  lemma PiecesMatch(c1: seq<string>, c2: seq<string>, c3: seq<string>, c4: seq<string>, c5: seq<string>,
                    q1: seq<string>, q2: seq<string>, q3: seq<string>, q4: seq<string>, q5: seq<string>)
    requires SumCount(c1, '?') == |q1| && SumCount(c2, '?') == |q2| && SumCount(c3, '?') == |q3|
    requires SumCount(c4, '?') == |q4| && SumCount(c5, '?') == |q5|
    ensures SumCount(c1 + c2 + c3 + c4 + c5, '?') == |q1 + q2 + q3 + q4 + q5|
  {
    SumCountFive(c1, c2, c3, c4, c5, '?');
  }

  /** The `?` placeholders of the appended conditions are exactly as many
      as the parameters. */
  lemma PlaceholdersMatchParams(f: Filters)
    ensures Count(Join(Conditions(f)), '?') == |Params(f)|
  {
    var c1, q1 := if Given(f.code) then [COND_CODE] else [], if Given(f.code) then [Like(f.code.value)] else [];
    var c2, q2 := if Given(f.title) then [COND_TITLE] else [], if Given(f.title) then [Like(f.title.value), Like(f.title.value)] else [];
    var c3, q3 := if Given(f.crn) then [COND_CRN] else [], if Given(f.crn) then [f.crn.value] else [];
    var c4, q4 := if Given(f.schd) then [COND_SCHD] else [], if Given(f.schd) then [f.schd.value] else [];
    var c5, q5 := if Given(f.campusGroup) then [COND_CAMPUS] else [], if Given(f.campusGroup) then [f.campusGroup.value] else [];
    assert Conditions(f) == c1 + c2 + c3 + c4 + c5;
    assert Params(f) == q1 + q2 + q3 + q4 + q5;
    CountJoin(Conditions(f), '?');
    PlaceholdersPerCondition();
    PieceMatches(Given(f.code), COND_CODE, q1);
    PieceMatches(Given(f.title), COND_TITLE, q2);
    PieceMatches(Given(f.crn), COND_CRN, q3);
    PieceMatches(Given(f.schd), COND_SCHD, q4);
    PieceMatches(Given(f.campusGroup), COND_CAMPUS, q5);
    PiecesMatch(c1, c2, c3, c4, c5, q1, q2, q3, q4, q5);
  }
}
