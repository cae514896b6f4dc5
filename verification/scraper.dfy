/** The pure helpers of scraper.py: the request body of the search route,
    the camp-list slug and the name of the raw file a scrape is saved
    under. */
module Scraper {
  import opened Wrappers
  import opened JsonValue

  // ---------------------------------------------------------------------------
  // slugify_camp
  // ---------------------------------------------------------------------------

  /** `s.replace(c, by)` for a one-character pattern: every `c` becomes
      `by`, everything else stays in order. */
  function ReplaceChar(s: string, c: char, repl: string): (r: string)
    ensures c !in repl ==> c !in r
  {
    if s == [] then []
    else ReplaceChar(s[..|s| - 1], c, repl) + (if s[|s| - 1] == c then repl else [s[|s| - 1]])
  }

  lemma {:induction false} ReplaceCharAppend(a: string, b: string, c: char, repl: string)
    ensures ReplaceChar(a + b, c, repl) == ReplaceChar(a, c, repl) + ReplaceChar(b, c, repl)
    decreases |b|
  {
    if b == [] {
      assert a + b == a;
    } else {
      ReplaceCharAppend(a, b[..|b| - 1], c, repl);
      assert (a + b)[..|a + b| - 1] == a + b[..|b| - 1];
    }
  }

  /** Replacing a character that does not occur changes nothing. */
  lemma {:induction false} ReplaceCharAbsent(s: string, c: char, repl: string)
    requires c !in s
    ensures ReplaceChar(s, c, repl) == s
    decreases |s|
  {
    if s != [] {
      ReplaceCharAbsent(s[..|s| - 1], c, repl);
    }
  }

  /** `slugify_camp`: the four chained replaces `@`->`-`, `,`->`_`,
      `*`->`STAR`, space->nothing. */
  function SlugifyCamp(camp: string): string {
    ReplaceChar(ReplaceChar(ReplaceChar(ReplaceChar(camp, '@', "-"), ',', "_"), '*', "STAR"), ' ', "")
  }

  /** No character the slug removes is left in a string. */
  predicate SlugSafe(s: string) {
    forall i :: 0 <= i < |s| ==> s[i] != '@' && s[i] != ',' && s[i] != '*' && s[i] != ' '
  }

  /** What one character of the camp list becomes. */
  function SlugChar(c: char): string {
    if c in SLUG_TABLE then SLUG_TABLE[c] else [c]
  }

  /** The characters the slug rewrites, and what each becomes. */
  const SLUG_TABLE: map<char, string> := map['@' := "-", ',' := "_", '*' := "STAR", ' ' := ""]

  /** The per-character reference: each character mapped by `SlugChar`,
      the results concatenated in order. */
  function SlugMap(s: string): string {
    if s == [] then [] else SlugMap(s[..|s| - 1]) + SlugChar(s[|s| - 1])
  }

  lemma {:induction false} SlugMapAppend(a: string, b: string)
    ensures SlugMap(a + b) == SlugMap(a) + SlugMap(b)
    decreases |b|
  {
    if b == [] {
      assert a + b == a;
    } else {
      var init, last := b[..|b| - 1], b[|b| - 1];
      SlugMapAppend(a, init);
      assert b == init + [last];
      assert a + b == (a + init) + [last];
      SlugMapSnoc(a + init, last);
      SlugMapSnoc(init, last);
      AppendAssoc(SlugMap(a), SlugMap(init), SlugChar(last));
    }
  }

  /** `SlugMap` of a string with one more character at the end. */
  lemma SlugMapSnoc(s: string, c: char)
    ensures SlugMap(s + [c]) == SlugMap(s) + SlugChar(c)
  {
    assert (s + [c])[..|s|] == s;
  }

  lemma AppendAssoc(x: string, y: string, z: string)
    ensures (x + y) + z == x + (y + z)
  {
  }

  lemma ReplaceCharSingle(x: char, c: char, repl: string)
    ensures ReplaceChar([x], c, repl) == if x == c then repl else [x]
  {
    assert [x][..0] == [];
  }

  /** The table, entry by entry. */
  lemma SlugCharValue(c: char)
    ensures SlugChar(c) == if c == '@' then "-" else if c == ',' then "_" else if c == '*' then "STAR" else if c == ' ' then "" else [c]
  {
  }

  /** The chained replaces on a single character. */
  lemma SlugifyChar(x: char)
    ensures SlugifyCamp([x]) == SlugChar(x)
  {
    SlugCharValue(x);
    if x == '@' {
      SlugifyAt(x);
    } else if x == ',' {
      SlugifyComma(x);
    } else if x == '*' {
      SlugifyStar(x);
    } else if x == ' ' {
      SlugifySpace(x);
    } else {
      SlugifyUnchanged([x]);
    }
  }

  /** A string without any of the four characters is its own slug. */
  lemma SlugifyUnchanged(t: string)
    requires '@' !in t && ',' !in t && '*' !in t && ' ' !in t
    ensures SlugifyCamp(t) == t
  {
    ReplaceCharAbsent(t, '@', "-");
    ReplaceCharAbsent(t, ',', "_");
    ReplaceCharAbsent(t, '*', "STAR");
    ReplaceCharAbsent(t, ' ', "");
  }

  lemma SlugifyAt(x: char)
    requires x == '@'
    ensures SlugifyCamp([x]) == "-"
  {
    ReplaceCharSingle(x, '@', "-");
    ReplaceCharAbsent("-", ',', "_");
    ReplaceCharAbsent("-", '*', "STAR");
    ReplaceCharAbsent("-", ' ', "");
  }

  lemma SlugifyComma(x: char)
    requires x == ','
    ensures SlugifyCamp([x]) == "_"
  {
    ReplaceCharAbsent([x], '@', "-");
    ReplaceCharSingle(x, ',', "_");
    ReplaceCharAbsent("_", '*', "STAR");
    ReplaceCharAbsent("_", ' ', "");
  }

  lemma SlugifyStar(x: char)
    requires x == '*'
    ensures SlugifyCamp([x]) == "STAR"
  {
    ReplaceCharAbsent([x], '@', "-");
    ReplaceCharAbsent([x], ',', "_");
    ReplaceCharSingle(x, '*', "STAR");
    ReplaceCharAbsent("STAR", ' ', "");
  }

  lemma SlugifySpace(x: char)
    requires x == ' '
    ensures SlugifyCamp([x]) == ""
  {
    ReplaceCharAbsent([x], '@', "-");
    ReplaceCharAbsent([x], ',', "_");
    ReplaceCharAbsent([x], '*', "STAR");
    ReplaceCharSingle(x, ' ', "");
  }

  /** `SlugMap` of a one-character string. */
  lemma SlugMapChar(x: char)
    ensures SlugMap([x]) == SlugChar(x)
  {
    assert [x][..0] == [];
  }

  /** The chained replaces are the per-character map. */
  lemma {:induction false} SlugifyIsCharMap(s: string)
    ensures SlugifyCamp(s) == SlugMap(s)
    decreases |s|
  {
    if s == [] {
    } else {
      var init, x := s[..|s| - 1], s[|s| - 1];
      assert s == init + [x];
      SlugifyIsCharMap(init);
      SlugifyChar(x);
      var r1a, r1b := ReplaceChar(init, '@', "-"), ReplaceChar([x], '@', "-");
      ReplaceCharAppend(init, [x], '@', "-");
      var r2a, r2b := ReplaceChar(r1a, ',', "_"), ReplaceChar(r1b, ',', "_");
      ReplaceCharAppend(r1a, r1b, ',', "_");
      var r3a, r3b := ReplaceChar(r2a, '*', "STAR"), ReplaceChar(r2b, '*', "STAR");
      ReplaceCharAppend(r2a, r2b, '*', "STAR");
      ReplaceCharAppend(r3a, r3b, ' ', "");
    }
  }

  /** On a string with nothing to replace the map is the identity. */
  lemma {:induction false} SlugMapOfSafe(s: string)
    requires SlugSafe(s)
    ensures SlugMap(s) == s
    decreases |s|
  {
    if s != [] {
      var init, last := s[..|s| - 1], s[|s| - 1];
      assert SlugSafe(init) by {
        forall i | 0 <= i < |init| ensures init[i] == s[i] {
        }
      }
      SlugMapOfSafe(init);
      assert last !in SLUG_TABLE;
      assert s == init + [last];
    }
  }

  /** The per-character map leaves none of the replaced characters. */
  lemma {:induction false} SlugMapIsSafe(s: string)
    ensures SlugSafe(SlugMap(s))
    decreases |s|
  {
    if s != [] {
      SlugMapIsSafe(s[..|s| - 1]);
      var a, b := SlugMap(s[..|s| - 1]), SlugChar(s[|s| - 1]);
      assert SlugSafe(b);
      assert forall i :: 0 <= i < |a + b| ==> (a + b)[i] == if i < |a| then a[i] else b[i - |a|];
    }
  }

  /** The slug holds no `@`, `,`, `*` or space. */
  lemma SlugIsSafe(camp: string)
    ensures SlugSafe(SlugifyCamp(camp))
    ensures '@' !in SlugifyCamp(camp) && ',' !in SlugifyCamp(camp)
    ensures '*' !in SlugifyCamp(camp) && ' ' !in SlugifyCamp(camp)
  {
    SlugifyIsCharMap(camp);
    SlugMapIsSafe(camp);
  }

  /** Slugifying a slug changes nothing. */
  lemma SlugifyIdempotent(camp: string)
    ensures SlugifyCamp(SlugifyCamp(camp)) == SlugifyCamp(camp)
  {
    SlugIsSafe(camp);
    SlugifyIsCharMap(SlugifyCamp(camp));
    SlugMapOfSafe(SlugifyCamp(camp));
  }

  /** The docstring example. */
  lemma SlugifyExample(s: string)
    requires s == "WS@BRKLN,WS@INDUS"
    ensures SlugifyCamp(s) == "WS-BRKLN_WS-INDUS"
  {
    var ws, brkln, indus := "WS", "BRKLN", "INDUS";
    ExampleCampParts(s, ws, brkln, indus);
    SlugifyIsCharMap(s);
    SlugMapTwoPairs(ws, brkln, ws, indus);
    ExampleSlugText(ws, brkln, indus);
  }

  lemma ExampleCampParts(s: string, ws: string, brkln: string, indus: string)
    requires s == "WS@BRKLN,WS@INDUS" && ws == "WS" && brkln == "BRKLN" && indus == "INDUS"
    ensures s == (ws + ['@'] + brkln) + ([','] + (ws + ['@'] + indus))
    ensures SlugSafe(ws) && SlugSafe(brkln) && SlugSafe(indus)
  {
  }

  lemma ExampleSlugText(ws: string, brkln: string, indus: string)
    requires ws == "WS" && brkln == "BRKLN" && indus == "INDUS"
    ensures (ws + "-" + brkln) + ("_" + (ws + "-" + indus)) == "WS-BRKLN_WS-INDUS"
  {
  }

  /** Two `campus@location` pairs of safe names joined by a comma. */
  lemma SlugMapTwoPairs(a: string, b: string, c: string, d: string)
    requires SlugSafe(a) && SlugSafe(b) && SlugSafe(c) && SlugSafe(d)
    ensures SlugMap((a + ['@'] + b) + ([','] + (c + ['@'] + d))) == (a + "-" + b) + ("_" + (c + "-" + d))
  {
    SlugMapAppend(a + ['@'] + b, [','] + (c + ['@'] + d));
    SlugMapPair(a, b);
    SlugMapComma(c + ['@'] + d);
    SlugMapPair(c, d);
  }

  /** One `campus@location` pair of safe names. */
  lemma SlugMapPair(a: string, b: string)
    requires SlugSafe(a) && SlugSafe(b)
    ensures SlugMap(a + ['@'] + b) == a + "-" + b
  {
    SlugMapAppend(a + ['@'], b);
    SlugMapAppend(a, ['@']);
    SlugMapOfSafe(a);
    SlugMapOfSafe(b);
    SlugMapChar('@');
    SlugCharValue('@');
  }

  /** A comma in front of a list. */
  lemma SlugMapComma(b: string)
    ensures SlugMap([','] + b) == "_" + SlugMap(b)
  {
    SlugMapAppend([','], b);
    SlugMapChar(',');
    SlugCharValue(',');
  }

  /** Different camp lists share a slug: a `*` and the text STAR, or a
      space and nothing, between the same safe texts. */
  lemma SlugCollision(a: string, b: string)
    requires SlugSafe(a) && SlugSafe(b)
    ensures SlugifyCamp(a + ['*'] + b) == SlugifyCamp(a + "STAR" + b) == a + "STAR" + b
    ensures SlugifyCamp(a + [' '] + b) == SlugifyCamp(a + b) == a + b
  {
    StarCollision(a, b);
    SpaceCollision(a, b);
  }

  lemma StarCollision(a: string, b: string)
    requires SlugSafe(a) && SlugSafe(b)
    ensures SlugifyCamp(a + ['*'] + b) == SlugifyCamp(a + "STAR" + b) == a + "STAR" + b
  {
    SlugMapOfSafe(a);
    SlugMapOfSafe(b);
    SlugMapChar('*');
    SlugCharValue('*');
    SafeAppend(a, "STAR");
    SafeAppend(a + "STAR", b);
    SlugMapOfSafe(a + "STAR" + b);
    SlugMapAppend(a, ['*']);
    SlugMapAppend(a + ['*'], b);
    SlugifyIsCharMap(a + ['*'] + b);
    SlugifyIsCharMap(a + "STAR" + b);
  }

  lemma SpaceCollision(a: string, b: string)
    requires SlugSafe(a) && SlugSafe(b)
    ensures SlugifyCamp(a + [' '] + b) == SlugifyCamp(a + b) == a + b
  {
    SlugMapOfSafe(a);
    SlugMapOfSafe(b);
    SlugMapChar(' ');
    SlugCharValue(' ');
    SafeAppend(a, b);
    SlugMapOfSafe(a + b);
    SlugMapAppend(a, [' ']);
    SlugMapAppend(a + [' '], b);
    assert SlugMap(a + [' ']) == a;
    SlugifyIsCharMap(a + [' '] + b);
    SlugifyIsCharMap(a + b);
  }

  lemma SafeAppend(a: string, b: string)
    requires SlugSafe(a) && SlugSafe(b)
    ensures SlugSafe(a + b)
  {
    assert forall i :: 0 <= i < |a + b| ==> (a + b)[i] == if i < |a| then a[i] else b[i - |a|];
  }

  // ---------------------------------------------------------------------------
  // The raw file name
  // ---------------------------------------------------------------------------

  const NAME_PREFIX := "classes_srcdb-"
  const CAREER_TAG := "_career-"
  const CAMP_TAG := "_camp-"
  const NAME_SUFFIX := ".json"

  /** The file name `save_json` writes the raw answer under. */
  function RawFileName(srcdb: string, career: string, camp: string): (name: string)
    ensures |name| == 33 + |srcdb| + |career| + |SlugifyCamp(camp)|
  {
    NAME_PREFIX + (srcdb + (CAREER_TAG + (career + (CAMP_TAG + (SlugifyCamp(camp) + NAME_SUFFIX)))))
  }

  /** Equal concatenations with equally long heads have equal heads and
      equal tails. */
  lemma SplitEqual(a: string, b: string, a': string, b': string)
    requires |a| == |a'| && a + b == a' + b'
    ensures a == a' && b == b'
  {
    assert a == (a + b)[..|a|] && a' == (a' + b')[..|a|];
    assert b == (a + b)[|a|..] && b' == (a' + b')[|a|..];
  }

  /** The name gives back its parts: with the lengths of the term and the
      career fixed, equal names mean equal terms, careers and slugs. */
  lemma RawFileNameFields(srcdb: string, career: string, camp: string, srcdb': string, career': string, camp': string)
    requires |srcdb| == |srcdb'| && |career| == |career'|
    requires RawFileName(srcdb, career, camp) == RawFileName(srcdb', career', camp')
    ensures srcdb == srcdb' && career == career' && SlugifyCamp(camp) == SlugifyCamp(camp')
  {
    var slug, slug' := SlugifyCamp(camp), SlugifyCamp(camp');
    var r5, r5' := slug + NAME_SUFFIX, slug' + NAME_SUFFIX;
    var r4, r4' := CAMP_TAG + r5, CAMP_TAG + r5';
    var r3, r3' := career + r4, career' + r4';
    var r2, r2' := CAREER_TAG + r3, CAREER_TAG + r3';
    var r1, r1' := srcdb + r2, srcdb' + r2';
    SplitEqual(NAME_PREFIX, r1, NAME_PREFIX, r1');
    SplitEqual(srcdb, r2, srcdb', r2');
    SplitEqual(CAREER_TAG, r3, CAREER_TAG, r3');
    SplitEqual(career, r4, career', r4');
    SplitEqual(CAMP_TAG, r5, CAMP_TAG, r5');
    SplitEqual(slug, NAME_SUFFIX, slug', NAME_SUFFIX);
  }

  /** Two camp lists with the same slug write the same file: a list with
      `*` and one spelling it STAR overwrite each other's raw data. */
  lemma RawFileNameCollision(srcdb: string, career: string, a: string, b: string)
    requires SlugSafe(a) && SlugSafe(b)
    ensures RawFileName(srcdb, career, a + ['*'] + b) == RawFileName(srcdb, career, a + "STAR" + b)
  {
    SlugCollision(a, b);
  }

  // ---------------------------------------------------------------------------
  // build_payload
  // ---------------------------------------------------------------------------

  /** One `{"field": ..., "value": ...}` criterion. */
  function Criterion(field: string, value: string): Json {
    JObject(map["field" := JStr(field), "value" := JStr(value)])
  }

  /** `build_payload`: the term under `other`, and the career and camp
      criteria, in that order. */
  function BuildPayload(srcdb: string, career: string, camp: string): (j: Json)
    ensures j.JObject? && j.fields.Keys == {"other", "criteria"}
    ensures j.fields["criteria"].JArray? && |j.fields["criteria"].items| == 2
  {
    JObject(map[
      "other" := JObject(map["srcdb" := JStr(srcdb)]),
      "criteria" := JArray([Criterion("career", career), Criterion("camp", camp)])])
  }

  /** The text value of a criterion named `field`. */
  function CriterionValue(c: Json, field: string): Option<string> {
    if c.JObject? && "field" in c.fields && c.fields["field"] == JStr(field)
       && "value" in c.fields && c.fields["value"].JStr?
    then Some(c.fields["value"].s)
    else None
  }

  /** The reading of a search body the upstream route expects: the term
      from `other`, then a career criterion and a camp criterion, in that
      order. */
  function ReadPayload(j: Json): Option<(string, string, string)> {
    if !j.JObject? || "other" !in j.fields || "criteria" !in j.fields then None
    else
      var other, criteria := j.fields["other"], j.fields["criteria"];
      if !other.JObject? || "srcdb" !in other.fields || !other.fields["srcdb"].JStr? then None
      else if !criteria.JArray? || |criteria.items| != 2 then None
      else match (CriterionValue(criteria.items[0], "career"), CriterionValue(criteria.items[1], "camp"))
        case (Some(career), Some(camp)) => Some((other.fields["srcdb"].s, career, camp))
        case _ => None
  }

  /** The body carries the three parameters where the route reads them. */
  lemma PayloadRoundTrip(srcdb: string, career: string, camp: string)
    ensures ReadPayload(BuildPayload(srcdb, career, camp)) == Some((srcdb, career, camp))
  {
  }
}
