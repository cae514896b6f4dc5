/** `parse_meeting_html` of backend/app.py: the meeting pattern and the
    start/end dates pulled out of the upstream `meeting_html` fragment. The two
    regular expressions of the source are written here as explicit scans, each
    next to a declarative statement of what the expression matches. */
module Meeting {
  import opened Wrappers
  import opened Text

  const DIV_OPEN := "<div"
  const CLASS_MEET := "class=\"meet\""

  // ---------------------------------------------------------------------------
  // The meeting pattern: <div[^>]*class="meet"[^>]*>([^<]+)
  // ---------------------------------------------------------------------------

  /** The first regular expression matches at `i`: `<div` at `i`,
      `class="meet"` at `j`, no `>` in between or after it up to the `>` at
      `k`, which closes the tag and is followed by at least one non-`<`. */
  ghost predicate PatternMatch(s: string, i: int, j: int, k: int) {
    && StartsAt(s, i, DIV_OPEN)
    && i + |DIV_OPEN| <= j && StartsAt(s, j, CLASS_MEET) && j + |CLASS_MEET| <= k < |s|
    && (forall t :: i + |DIV_OPEN| <= t < j ==> s[t] != '>')
    && (forall t :: j + |CLASS_MEET| <= t < k ==> s[t] != '>')
    && s[k] == '>'
    && k + 1 < |s| && s[k + 1] != '<'
  }

  /** The captured group once the tag closes at `k`: the longest run of
      non-`<` characters after it. */
  function GroupAfter(s: string, k: nat): (g: string)
    requires k + 1 <= |s|
    ensures '<' !in g
  {
    var e := IndexFrom(s, '<', k + 1);
    var g := s[k + 1..e];
    assert forall t :: 0 <= t < |g| ==> g[t] == s[k + 1 + t];
    g
  }

  /** The scan that tries the expression at `i`. Whatever `class="meet"`
      occurrence the search settles on, the tag closes at the first `>` after
      `<div`, so that `>` alone decides the group. */
  function PatternAt(s: string, i: nat): Option<string>
    requires i <= |s|
  {
    if StartsAt(s, i, DIV_OPEN) then
      var k := IndexFrom(s, '>', i + |DIV_OPEN|);
      if k < |s| && OccursBetween(s, CLASS_MEET, i + |DIV_OPEN|, k) && k + 1 < |s| && s[k + 1] != '<' then
        Some(GroupAfter(s, k))
      else None
    else None
  }

  /** The scan agrees with the expression at every start position, in both
      directions, and captures the same group. */
  lemma PatternAtIsMatch(s: string, i: nat)
    requires i <= |s|
    ensures PatternAt(s, i).Some? <==> exists j, k :: PatternMatch(s, i, j, k)
    ensures forall j, k :: PatternMatch(s, i, j, k) ==> PatternAt(s, i) == Some(GroupAfter(s, k))
  {
    assert forall t :: 0 <= t < |CLASS_MEET| ==> CLASS_MEET[t] != '>';
    forall j, k | PatternMatch(s, i, j, k)
      ensures IndexFrom(s, '>', i + |DIV_OPEN|) == k
      ensures PatternAt(s, i) == Some(GroupAfter(s, k))
    {
      assert forall t :: j <= t < j + |CLASS_MEET| ==> s[t] == CLASS_MEET[t - j];
      assert StartsAt(s, j, CLASS_MEET);
    }
    if PatternAt(s, i).Some? {
      var k := IndexFrom(s, '>', i + |DIV_OPEN|);
      var j :| i + |DIV_OPEN| <= j && j + |CLASS_MEET| <= k && StartsAt(s, j, CLASS_MEET);
      assert PatternMatch(s, i, j, k);
    }
  }

  /** The leftmost match from `i` on, as `re.search` finds it. */
  function FindPattern(s: string, i: nat): (g: Option<string>)
    requires i <= |s|
    ensures g.Some? ==> exists m :: i <= m < |s| && PatternAt(s, m) == g && forall t :: i <= t < m ==> PatternAt(s, t).None?
    ensures g.None? ==> forall t :: i <= t <= |s| ==> PatternAt(s, t).None?
    decreases |s| - i
  {
    if i == |s| then None
    else match PatternAt(s, i)
      case Some(g) => Some(g)
      case None => FindPattern(s, i + 1)
  }

  /** `meet_pattern`: the stripped group of the leftmost match, or "". */
  function MeetPattern(s: string): string {
    match FindPattern(s, 0)
    case Some(g) => Strip(g)
    case None => ""
  }

  // ---------------------------------------------------------------------------
  // The dates: \((\d+/\d+)\s+to\s+(\d+/\d+)\)
  // ---------------------------------------------------------------------------

  /** `t` is digits, the `/` at `p`, and digits. */
  ghost predicate DateTokenAt(t: string, p: int) {
    0 < p && p + 1 < |t| && t[p] == '/' && AllDigits(t[..p]) && AllDigits(t[p + 1..])
  }

  /** `t` has the shape `\d+/\d+`. */
  ghost predicate DateToken(t: string) {
    exists p :: DateTokenAt(t, p)
  }

  /** Scans `\d+/\d+` from `p`; the end of the token when it is there. Each
      `\d+` of the expression is followed by a non-digit, so only the longest
      run can be part of a match and no backtracking is needed. */
  function DateEnd(s: string, p: nat): (r: Option<nat>)
    requires p <= |s|
    ensures r.Some? ==> p < r.value <= |s| && DateToken(s[p..r.value])
  {
    var a := DigitsEnd(s, p);
    if a > p && a < |s| && s[a] == '/' then
      var b := DigitsEnd(s, a + 1);
      if b > a + 1 then
        ghost var t := s[p..b];
        assert DateTokenAt(t, a - p) by {
          assert forall x :: 0 <= x < |t| ==> t[x] == s[p + x];
        }
        Some(b)
      else None
    else None
  }

  /** The word `to` at `c`. */
  predicate ToAt(s: string, c: int) {
    0 <= c && c + 2 <= |s| && s[c] == 't' && s[c + 1] == 'o'
  }

  /** The scan that tries the date expression at `i`: where the first
      token, the whitespace before `to`, the whitespace after it and the
      second token end. */
  function DateEnds(s: string, i: nat): (r: Option<(nat, nat, nat, nat)>)
    requires i <= |s|
    ensures r.Some? ==> DatesMatch(s, i, r.value.0, r.value.1, r.value.2, r.value.3)
  {
    if i < |s| && s[i] == '(' then
      match DateEnd(s, i + 1)
      case None => None
      case Some(b) =>
        var c := SpacesEnd(s, b);
        if c > b && ToAt(s, c) then
          var d := SpacesEnd(s, c + 2);
          if d > c + 2 then
            match DateEnd(s, d)
            case None => None
            case Some(f) => if f < |s| && s[f] == ')' then Some((b, c, d, f)) else None
          else None
        else None
    else None
  }

  /** The two groups of the date expression at `i`, when it matches there. */
  function DatesAt(s: string, i: nat): (r: Option<(string, string)>)
    requires i <= |s|
    ensures r.Some? ==> DateToken(r.value.0) && DateToken(r.value.1)
  {
    match DateEnds(s, i)
    case None => None
    case Some((b, c, d, f)) => Some((s[i + 1..b], s[d..f]))
  }

  /** The date expression matches at `i`: `(` at `i`, a `\d+/\d+` token up
      to `b`, whitespace up to `c`, `to`, whitespace up to `d`, a second
      token up to `f`, and `)` at `f`. */
  ghost predicate DatesMatch(s: string, i: int, b: int, c: int, d: int, f: int) {
    && 0 <= i < b < c && c + 2 < d < f < |s|
    && s[i] == '('
    && DateToken(s[i + 1..b])
    && (forall t :: b <= t < c ==> IsSpace(s[t]))
    && ToAt(s, c)
    && (forall t :: c + 2 <= t < d ==> IsSpace(s[t]))
    && DateToken(s[d..f])
    && s[f] == ')'
  }

  /** A run of digits followed by a non-digit is the run `DigitsEnd` finds. */
  lemma DigitsEndAt(s: string, p: nat, q: nat)
    requires p <= q <= |s| && forall t :: p <= t < q ==> IsDigit(s[t])
    requires q < |s| ==> !IsDigit(s[q])
    ensures DigitsEnd(s, p) == q
  {
  }

  /** A run of whitespace followed by a non-space is the run `SpacesEnd` finds. */
  lemma SpacesEndAt(s: string, p: nat, q: nat)
    requires p <= q <= |s| && forall t :: p <= t < q ==> IsSpace(s[t])
    requires q < |s| ==> !IsSpace(s[q])
    ensures SpacesEnd(s, p) == q
  {
  }

  /** A date token followed by a non-digit is the token `DateEnd` finds. */
  lemma DateEndAt(s: string, p: nat, f: nat)
    requires p <= f <= |s| && DateToken(s[p..f])
    requires f < |s| ==> !IsDigit(s[f])
    ensures DateEnd(s, p) == Some(f)
  {
    var x :| DateTokenAt(s[p..f], x);
    TokenRuns(s, p, f, x);
    DigitsEndAt(s, p, p + x);
    DigitsEndAt(s, p + x + 1, f);
    DateEndOfRuns(s, p, p + x, f);
  }

  /** A token of `s` read back as positions of `s`. */
  lemma TokenRuns(s: string, p: nat, f: nat, x: int)
    requires p <= f <= |s| && DateTokenAt(s[p..f], x)
    ensures s[p + x] == '/'
    ensures forall u :: p <= u < p + x ==> IsDigit(s[u])
    ensures forall u :: p + x + 1 <= u < f ==> IsDigit(s[u])
  {
    var t := s[p..f];
    forall u | p <= u < p + x ensures IsDigit(s[u]) {
      assert s[u] == t[..x][u - p];
    }
    forall u | p + x + 1 <= u < f ensures IsDigit(s[u]) {
      assert s[u] == t[x + 1..][u - p - x - 1];
    }
    assert s[p + x] == t[x];
  }

  /** `DateEnd` from the two digit runs around the slash. */
  lemma DateEndOfRuns(s: string, p: nat, a: nat, f: nat)
    requires p < a < |s| && s[a] == '/' && a + 1 < f <= |s|
    requires DigitsEnd(s, p) == a && DigitsEnd(s, a + 1) == f
    ensures DateEnd(s, p) == Some(f)
  {
  }

  /** A date token starts with a digit. */
  lemma DateTokenStartsWithDigit(t: string)
    requires DateToken(t)
    ensures t != [] && IsDigit(t[0])
  {
    var x :| DateTokenAt(t, x);
    assert t[0] == t[..x][0];
  }

  /** Where the expression matches, the scan finds the same two groups. */
  lemma DatesMatchScans(s: string, i: nat, b: int, c: int, d: int, f: int)
    requires DatesMatch(s, i, b, c, d, f)
    ensures DatesAt(s, i) == Some((s[i + 1..b], s[d..f]))
  {
    assert IsSpace(s[b]);
    DateEndAt(s, i + 1, b);
    SpacesEndAt(s, b, c);
    DateTokenStartsWithDigit(s[d..f]);
    assert s[d] == s[d..f][0];
    SpacesEndAt(s, c + 2, d);
    DateEndAt(s, d, f);
    DatesAtOfParts(s, i, b, c, d, f);
  }

  /** `DateEnds` from the ends its four scans reach. */
  lemma DatesAtOfParts(s: string, i: nat, b: nat, c: nat, d: nat, f: nat)
    requires i < |s| && s[i] == '(' && DateEnd(s, i + 1) == Some(b)
    requires b < c <= |s| && SpacesEnd(s, b) == c && ToAt(s, c)
    requires c + 2 < d <= |s| && SpacesEnd(s, c + 2) == d
    requires DateEnd(s, d) == Some(f) && f < |s| && s[f] == ')'
    ensures DateEnds(s, i) == Some((b, c, d, f))
  {
  }

  /** The scan agrees with the date expression at every start position, in
      both directions, and captures the same two groups. */
  lemma DatesAtIsMatch(s: string, i: nat)
    requires i <= |s|
    ensures DatesAt(s, i).Some? <==> exists b, c, d, f :: DatesMatch(s, i, b, c, d, f)
    ensures forall b, c, d, f :: DatesMatch(s, i, b, c, d, f) ==> DatesAt(s, i) == Some((s[i + 1..b], s[d..f]))
  {
    forall b, c, d, f | DatesMatch(s, i, b, c, d, f)
      ensures DatesAt(s, i) == Some((s[i + 1..b], s[d..f]))
    {
      DatesMatchScans(s, i, b, c, d, f);
    }
    if DatesAt(s, i).Some? {
      var e := DateEnds(s, i).value;
      assert DatesMatch(s, i, e.0, e.1, e.2, e.3);
    }
  }

  /** `m` is the leftmost position from `i` on where the date scan
      succeeds, and `r` is what it finds there. */
  ghost predicate LeftmostDates(s: string, i: int, m: int, r: Option<(string, string)>) {
    0 <= i <= m < |s| && DatesAt(s, m) == r && forall t :: i <= t < m ==> DatesAt(s, t).None?
  }

  /** A leftmost success from `i + 1` on is the leftmost from `i` on when
      the scan fails at `i`. */
  lemma LeftmostDatesStep(s: string, i: nat, m: int, r: Option<(string, string)>)
    requires i < |s| && DatesAt(s, i).None? && LeftmostDates(s, i + 1, m, r)
    ensures LeftmostDates(s, i, m, r)
  {
  }

  /** The leftmost date match from `i` on. */
  function FindDates(s: string, i: nat): (r: Option<(string, string)>)
    requires i <= |s|
    ensures r.Some? ==> DateToken(r.value.0) && DateToken(r.value.1)
    decreases |s| - i
  {
    if i == |s| then None
    else
      var here := DatesAt(s, i);
      if here.Some? then here else FindDates(s, i + 1)
  }

  /** What `FindDates` finds is the scan's result at the leftmost position
      where it succeeds. */
  lemma {:induction false} FindDatesIsLeftmost(s: string, i: nat)
    requires i <= |s|
    ensures FindDates(s, i).Some? ==> exists m :: LeftmostDates(s, i, m, FindDates(s, i))
    decreases |s| - i
  {
    if i < |s| && DatesAt(s, i).None? {
      FindDatesIsLeftmost(s, i + 1);
      if FindDates(s, i).Some? {
        var j := i + 1;
        var m :| LeftmostDates(s, j, m, FindDates(s, j));
        LeftmostDatesStep(s, i, m, FindDates(s, i));
      }
    } else if i < |s| {
      assert LeftmostDates(s, i, i, FindDates(s, i));
    }
  }

  /** `FindDates` finds nothing only when the scan succeeds nowhere. */
  lemma {:induction false} FindDatesNone(s: string, i: nat)
    requires i <= |s| && FindDates(s, i).None?
    ensures forall t :: i <= t <= |s| ==> DatesAt(s, t).None?
    decreases |s| - i
  {
    if i < |s| {
      FindDatesNone(s, i + 1);
    }
  }

  /** A date token has no surrounding whitespace, so `.strip()` keeps it. */
  lemma DateTokenIsStripped(t: string)
    requires DateToken(t)
    ensures IsStripped(t) && t != []
  {
    var p :| DateTokenAt(t, p);
    assert t[0] == t[..p][0];
    assert t[|t| - 1] == t[p + 1..][|t| - p - 2];
  }

  // ---------------------------------------------------------------------------
  // parse_meeting_html
  // ---------------------------------------------------------------------------

  /** `parse_meeting_html`: (meet_pattern, start_date, end_date). The pattern
      holds no `<` and no surrounding whitespace and is empty when the `meet`
      block is missing; the dates are both present or both empty, each of
      the shape digits `/` digits. */
  function ParseMeetingHtml(html: string): (r: (string, string, string))
    ensures html == [] ==> r == ("", "", "")
    ensures '<' !in r.0 && IsStripped(r.0)
    ensures r.0 != [] ==> exists i, j, k :: PatternMatch(html, i, j, k)
    ensures (r.1 == []) <==> (r.2 == [])
    ensures r.1 != [] ==> DateToken(r.1) && DateToken(r.2)
  {
    if html == [] then ("", "", "")
    else
      var pattern := MeetPattern(html);
      assert pattern != [] ==> exists i, j, k :: PatternMatch(html, i, j, k) by {
        if pattern != [] {
          var m :| 0 <= m < |html| && PatternAt(html, m) == FindPattern(html, 0);
          PatternAtIsMatch(html, m);
        }
      }
      match FindDates(html, 0)
      case Some((start, end)) =>
        DateTokenIsStripped(start);
        DateTokenIsStripped(end);
        StripStripped(start);
        StripStripped(end);
        (pattern, Strip(start), Strip(end))
      case None => (pattern, "", "")
  }

  /** The pattern is the group of the leftmost `meet` match, stripped. */
  lemma MeetPatternOfLeftmostMatch(html: string, i: nat, j: int, k: int)
    requires PatternMatch(html, i, j, k)
    requires forall i', j', k' :: 0 <= i' < i ==> !PatternMatch(html, i', j', k')
    ensures ParseMeetingHtml(html).0 == Strip(GroupAfter(html, k))
  {
    PatternAtIsMatch(html, i);
    forall t | 0 <= t < i ensures PatternAt(html, t).None? {
      PatternAtIsMatch(html, t);
    }
    FirstFound(html, i);
    assert MeetPattern(html) == Strip(GroupAfter(html, k));
  }

  /** The leftmost start position where the scan succeeds is what
      `FindPattern` reports. */
  lemma FirstFound(s: string, i: nat)
    requires i < |s| && PatternAt(s, i).Some?
    requires forall t :: 0 <= t < i ==> PatternAt(s, t).None?
    ensures FindPattern(s, 0) == PatternAt(s, i)
  {
    var g := FindPattern(s, 0);
    var m :| 0 <= m < |s| && PatternAt(s, m) == g && forall t :: 0 <= t < m ==> PatternAt(s, t).None?;
    assert m == i;
  }

  /** The first position where the date scan succeeds is what `FindDates`
      reports. */
  lemma FirstDatesFound(s: string, i: nat)
    requires i < |s| && DatesAt(s, i).Some?
    requires forall t :: 0 <= t < i ==> DatesAt(s, t).None?
    ensures FindDates(s, 0) == DatesAt(s, i)
  {
    FindDatesIsLeftmost(s, 0);
    if FindDates(s, 0).None? {
      FindDatesNone(s, 0);
    }
    var r := FindDates(s, 0);
    var m :| LeftmostDates(s, 0, m, r);
    assert m == i;
  }

  /** The dates are the two groups of the leftmost match of the date
      expression. */
  lemma DatesOfLeftmostMatch(html: string, i: nat, b: int, c: int, d: int, f: int)
    requires DatesMatch(html, i, b, c, d, f)
    requires forall i', b', c', d', f' :: 0 <= i' < i ==> !DatesMatch(html, i', b', c', d', f')
    ensures ParseMeetingHtml(html).1 == html[i + 1..b] && ParseMeetingHtml(html).2 == html[d..f]
  {
    DatesAtIsMatch(html, i);
    forall t | 0 <= t < i ensures DatesAt(html, t).None? {
      DatesAtIsMatch(html, t);
    }
    FirstDatesFound(html, i);
    DateTokenIsStripped(html[i + 1..b]);
    DateTokenIsStripped(html[d..f]);
    StripStripped(html[i + 1..b]);
    StripStripped(html[d..f]);
  }

  /** The dates are empty exactly when the date expression matches nowhere. */
  lemma NoDatesIffNoMatch(html: string)
    ensures ParseMeetingHtml(html).1 == [] <==> forall i, b, c, d, f :: !DatesMatch(html, i, b, c, d, f)
  {
    if exists i, b, c, d, f :: DatesMatch(html, i, b, c, d, f) {
      var i, b, c, d, f :| DatesMatch(html, i, b, c, d, f);
      DatesAtIsMatch(html, i);
      var r := FindDates(html, 0);
      if r.None? {
        FindDatesNone(html, 0);
      }
      DateTokenIsStripped(r.value.0);
      StripStripped(r.value.0);
    } else if html != [] {
      forall t | 0 <= t <= |html| ensures DatesAt(html, t).None? {
        DatesAtIsMatch(html, t);
      }
      FindDatesIsLeftmost(html, 0);
    }
  }
}
