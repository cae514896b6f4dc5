/** String helpers shared by the record normaliser, the markup scanner, the
    campus mapping and the query builder: Python's whitespace stripping,
    decimal printing and parsing of integers, and substring scanning. */
module Text {
  import opened Wrappers

  /** Python's `str.isspace` on ASCII: tab, line feed, vertical tab, form feed,
      carriage return, the four information separators (0x1C-0x1F) and space.
      The same set is what `\s` matches in a Python regular expression. */
  predicate IsSpace(c: char) {
    c == ' ' || (9 <= c as int <= 13) || (28 <= c as int <= 31)
  }

  /** An ASCII decimal digit (what `\d` and `int()` accept in this model). */
  predicate IsDigit(c: char) {
    '0' <= c <= '9'
  }

  predicate AllSpace(s: string) {
    forall i :: 0 <= i < |s| ==> IsSpace(s[i])
  }

  predicate AllDigits(s: string) {
    forall i :: 0 <= i < |s| ==> IsDigit(s[i])
  }

  /** Neither end of `s` is whitespace: what `str.strip()` returns. */
  predicate IsStripped(s: string) {
    s == [] || (!IsSpace(s[0]) && !IsSpace(s[|s| - 1]))
  }

  // ---------------------------------------------------------------------------
  // str.strip()
  // ---------------------------------------------------------------------------

  /** Length of the whitespace run that starts `s`. */
  function LeadingSpaces(s: string): (n: nat)
    ensures n <= |s|
    ensures forall i :: 0 <= i < n ==> IsSpace(s[i])
    ensures n < |s| ==> !IsSpace(s[n])
  {
    if |s| > 0 && IsSpace(s[0]) then 1 + LeadingSpaces(s[1..]) else 0
  }

  /** Length of the whitespace run that ends `s`. */
  function TrailingSpaces(s: string): (n: nat)
    ensures n <= |s|
    ensures forall i :: |s| - n <= i < |s| ==> IsSpace(s[i])
    ensures n < |s| ==> !IsSpace(s[|s| - 1 - n])
  {
    if |s| > 0 && IsSpace(s[|s| - 1]) then 1 + TrailingSpaces(s[..|s| - 1]) else 0
  }

  /** Python's `s.strip()`: `s` without its leading and trailing whitespace. */
  function Strip(s: string): (r: string)
    ensures IsStripped(r)
    ensures |r| <= |s|
    ensures forall c :: c in r ==> c in s
  {
    var t := s[LeadingSpaces(s)..];
    var r := t[..|t| - TrailingSpaces(t)];
    assert forall c :: c in r ==> c in t;
    r
  }

  lemma AllSpaceAppend(a: string, b: string)
    ensures AllSpace(a + b) <==> AllSpace(a) && AllSpace(b)
  {
    assert forall i :: 0 <= i < |a| ==> (a + b)[i] == a[i];
    assert forall i :: 0 <= i < |b| ==> (a + b)[|a| + i] == b[i];
  }

  /** `Strip(s)` is the middle piece of `s` between two whitespace-only pieces. */
  lemma StripSplits(s: string)
    ensures var a := LeadingSpaces(s);
      a + |Strip(s)| <= |s| &&
      s == s[..a] + Strip(s) + s[a + |Strip(s)|..] &&
      AllSpace(s[..a]) && AllSpace(s[a + |Strip(s)|..])
  {
    StripPieces(s);
    LeadingRunIsSpace(s);
    TrailingRunIsSpace(s);
  }

  lemma StripPieces(s: string)
    ensures var a := LeadingSpaces(s);
      a + |Strip(s)| <= |s| && s == s[..a] + Strip(s) + s[a + |Strip(s)|..]
  {
    var a := LeadingSpaces(s);
    var t := s[a..];
    var b := |t| - TrailingSpaces(t);
    assert Strip(s) == t[..b];
    assert t[..b] == s[a..a + b];
    ThreeWay(s, a, a + b);
  }

  /** Cutting a string at two points and joining the pieces gives it back. */
  lemma ThreeWay(s: string, i: nat, j: nat)
    requires i <= j <= |s|
    ensures s == s[..i] + s[i..j] + s[j..]
  {
    assert s == s[..j] + s[j..];
    assert s[..j] == s[..i] + s[i..j];
  }

  lemma LeadingRunIsSpace(s: string)
    ensures AllSpace(s[..LeadingSpaces(s)])
  {
    var a := LeadingSpaces(s);
    forall i | 0 <= i < a ensures IsSpace(s[..a][i]) {
      assert s[..a][i] == s[i];
    }
  }

  lemma TrailingRunIsSpace(s: string)
    ensures LeadingSpaces(s) + |Strip(s)| <= |s|
    ensures AllSpace(s[LeadingSpaces(s) + |Strip(s)|..])
  {
    var a := LeadingSpaces(s);
    var t := s[a..];
    var b := |t| - TrailingSpaces(t);
    assert Strip(s) == t[..b];
    assert s[a + b..] == t[b..];
    forall i | 0 <= i < |t| - b ensures IsSpace(t[b..][i]) {
      assert t[b..][i] == t[b + i];
    }
  }

  /** In `p + r + q` with whitespace-only `p`, `q` and a stripped `r`, the
      middle is empty exactly when the whole is whitespace, and otherwise `p`
      and `q` are the leading and trailing whitespace runs. */
  lemma MiddleBetweenRuns(p: string, r: string, q: string)
    requires AllSpace(p) && AllSpace(q) && IsStripped(r)
    ensures r == [] <==> AllSpace(p + r + q)
    ensures r != [] ==> |p| == LeadingSpaces(p + r + q) && |q| == TrailingSpaces(p + r + q)
  {
    var s := p + r + q;
    assert forall i :: 0 <= i < |p| ==> s[i] == p[i];
    assert forall i :: 0 <= i < |r| ==> s[|p| + i] == r[i];
    assert forall i :: 0 <= i < |q| ==> s[|p| + |r| + i] == q[i];
    if r != [] {
      assert s[|p|] == r[0];
      assert s[|p| + |r| - 1] == r[|r| - 1];
    } else {
      assert s == p + q;
      AllSpaceAppend(p, q);
    }
  }

  /** A string splits in at most one way into whitespace, a stripped middle
      and whitespace. */
  lemma StrippedMiddleUnique(p: string, r: string, q: string, p': string, r': string, q': string)
    requires p + r + q == p' + r' + q'
    requires AllSpace(p) && AllSpace(q) && AllSpace(p') && AllSpace(q')
    requires IsStripped(r) && IsStripped(r')
    ensures r == r'
  {
    var s := p + r + q;
    MiddleBetweenRuns(p, r, q);
    MiddleBetweenRuns(p', r', q');
    if r != [] {
      assert r == s[|p|..|p| + |r|];
      assert r' == s[|p'|..|p'| + |r'|];
    }
  }

  /** Stripping whitespace-only pieces off a stripped middle gives the middle. */
  lemma StripOfPadded(p: string, r: string, q: string)
    requires AllSpace(p) && AllSpace(q) && IsStripped(r)
    ensures Strip(p + r + q) == r
  {
    var u := p + r + q;
    var r' := Strip(u);
    StripSplits(u);
    var a := LeadingSpaces(u);
    StrippedMiddleUnique(u[..a], r', u[a + |r'|..], p, r, q);
  }

  /** Stripping a string that has no surrounding whitespace changes nothing. */
  lemma StripStripped(s: string)
    requires IsStripped(s)
    ensures Strip(s) == s
  {
    assert s == [] + s + [];
    StripOfPadded([], s, []);
  }

  /** Whitespace around a string does not change what `strip()` returns. */
  lemma StripIgnoresPadding(w1: string, s: string, w2: string)
    requires AllSpace(w1) && AllSpace(w2)
    ensures Strip(w1 + s + w2) == Strip(s)
  {
    var r := Strip(s);
    StripSplits(s);
    var a := LeadingSpaces(s);
    var p, q := s[..a], s[a + |r|..];
    AllSpaceAppend(w1, p);
    AllSpaceAppend(q, w2);
    assert s == p + r + q;
    Regroup(w1, p, r, q, w2);
    StripOfPadded(w1 + p, r, q + w2);
  }

  lemma Regroup(w1: string, p: string, r: string, q: string, w2: string)
    ensures w1 + (p + r + q) + w2 == (w1 + p) + r + (q + w2)
  {
  }

  /** A whitespace-only string strips to the empty string. */
  lemma StripAllSpace(s: string)
    requires AllSpace(s)
    ensures Strip(s) == []
  {
    assert s == s + [] + [];
    StripIgnoresPadding(s, [], []);
    StripStripped([]);
  }

  // ---------------------------------------------------------------------------
  // Decimal integers: Python's str(n) and int(s)
  // ---------------------------------------------------------------------------

  function DigitChar(d: nat): (c: char)
    requires d < 10
    ensures IsDigit(c)
  {
    (48 + d) as char
  }

  function DigitValue(c: char): (d: nat)
    requires IsDigit(c)
    ensures d < 10
  {
    c as int - 48
  }

  /** Python's `str(n)` for a non-negative integer. */
  function NatToDecimal(n: nat): (s: string)
    ensures |s| > 0 && AllDigits(s)
    decreases n
  {
    if n < 10 then [DigitChar(n)] else NatToDecimal(n / 10) + [DigitChar(n % 10)]
  }

  /** Python's `str(n)` for any integer. */
  function IntToDecimal(n: int): string {
    if n < 0 then "-" + NatToDecimal(-n) else NatToDecimal(n)
  }

  /** The value of a string of decimal digits, most significant first. */
  function DigitsValue(s: string): nat
    requires AllDigits(s)
  {
    if s == [] then 0 else DigitsValue(s[..|s| - 1]) * 10 + DigitValue(s[|s| - 1])
  }

  /** Python's `int(s)` on an already stripped string: an optional sign and
      at least one ASCII digit; anything else is the ValueError case. */
  function ParseInt(s: string): Option<int> {
    if |s| > 0 && (s[0] == '+' || s[0] == '-') then
      var d := s[1..];
      if |d| > 0 && AllDigits(d) then
        var v: int := DigitsValue(d);
        Some(if s[0] == '-' then -v else v)
      else None
    else if |s| > 0 && AllDigits(s) then Some(DigitsValue(s))
    else None
  }

  /** `t` reads as the integer `n`: an optional sign and at least one digit. */
  ghost predicate IsIntLiteral(t: string, n: int) {
    exists sign: string, digits: string ::
      && t == sign + digits
      && (sign == "" || sign == "+" || sign == "-")
      && digits != [] && AllDigits(digits)
      && n == (if sign == "-" then -(DigitsValue(digits) as int) else DigitsValue(digits))
  }

  /** What `ParseInt` accepts is an integer literal for its result. */
  lemma ParseIntIsLiteral(t: string, n: int)
    requires ParseInt(t) == Some(n)
    ensures IsIntLiteral(t, n)
  {
    if t[0] == '+' || t[0] == '-' {
      assert t == t[..1] + t[1..];
      assert t[..1] == "+" || t[..1] == "-";
    } else {
      assert t == "" + t;
    }
  }

  /** Every integer literal is accepted, with its value. */
  lemma LiteralParses(t: string, n: int)
    requires IsIntLiteral(t, n)
    ensures ParseInt(t) == Some(n)
  {
    var sign: string, digits: string :| && t == sign + digits
      && (sign == "" || sign == "+" || sign == "-")
      && digits != [] && AllDigits(digits)
      && n == (if sign == "-" then -(DigitsValue(digits) as int) else DigitsValue(digits));
    if sign == "" {
      assert t == digits;
      assert IsDigit(t[0]);
    } else {
      assert t[0] == sign[0];
      assert t[1..] == digits;
    }
  }

  lemma {:induction false} NatToDecimalValue(n: nat)
    ensures DigitsValue(NatToDecimal(n)) == n
    decreases n
  {
    var s := NatToDecimal(n);
    if n >= 10 {
      NatToDecimalValue(n / 10);
      assert s[..|s| - 1] == NatToDecimal(n / 10);
      assert DigitValue(DigitChar(n % 10)) == n % 10;
    } else {
      assert DigitValue(DigitChar(n)) == n;
    }
  }

  /** Printing an integer and reading it back gives the integer. */
  lemma ParseIntRoundTrip(n: int)
    ensures ParseInt(IntToDecimal(n)) == Some(n)
  {
    if n < 0 {
      NatToDecimalValue(-n);
      assert IntToDecimal(n)[1..] == NatToDecimal(-n);
    } else {
      NatToDecimalValue(n);
      assert IsDigit(NatToDecimal(n)[0]);
    }
  }

  /** A printed integer has no surrounding whitespace. */
  lemma DecimalIsStripped(n: int)
    ensures IsStripped(IntToDecimal(n))
  {
    var s := IntToDecimal(n);
    var d := NatToDecimal(if n < 0 then -n else n);
    assert IsDigit(d[|d| - 1]);
    assert s[|s| - 1] == d[|d| - 1];
    if n >= 0 {
      assert IsDigit(s[0]);
    }
  }

  // ---------------------------------------------------------------------------
  // Scanning
  // ---------------------------------------------------------------------------

  /** `pat` occurs in `s` starting at index `i`. */
  predicate StartsAt(s: string, i: int, pat: string) {
    0 <= i && i + |pat| <= |s| && s[i..i + |pat|] == pat
  }

  /** The first index at or after `i` holding `c`, or `|s|` when there is none. */
  function IndexFrom(s: string, c: char, i: nat): (k: nat)
    requires i <= |s|
    ensures i <= k <= |s|
    ensures k < |s| ==> s[k] == c
    ensures forall t :: i <= t < k ==> s[t] != c
    decreases |s| - i
  {
    if i == |s| || s[i] == c then i else IndexFrom(s, c, i + 1)
  }

  /** The end of the maximal run of digits that starts at `i`. */
  function DigitsEnd(s: string, i: nat): (k: nat)
    requires i <= |s|
    ensures i <= k <= |s|
    ensures forall t :: i <= t < k ==> IsDigit(s[t])
    ensures k < |s| ==> !IsDigit(s[k])
    decreases |s| - i
  {
    if i < |s| && IsDigit(s[i]) then DigitsEnd(s, i + 1) else i
  }

  /** The end of the maximal run of whitespace that starts at `i`. */
  function SpacesEnd(s: string, i: nat): (k: nat)
    requires i <= |s|
    ensures i <= k <= |s|
    ensures forall t :: i <= t < k ==> IsSpace(s[t])
    ensures k < |s| ==> !IsSpace(s[k])
    decreases |s| - i
  {
    if i < |s| && IsSpace(s[i]) then SpacesEnd(s, i + 1) else i
  }

  /** The index of the last `c` in `s`, if any. */
  function LastIndexOf(s: string, c: char): (r: Option<nat>)
    ensures r.None? <==> c !in s
    ensures r.Some? ==> r.value < |s| && s[r.value] == c
    ensures r.Some? ==> forall t :: r.value < t < |s| ==> s[t] != c
  {
    if s == [] then None
    else if s[|s| - 1] == c then Some(|s| - 1)
    else
      assert s == s[..|s| - 1] + [s[|s| - 1]];
      LastIndexOf(s[..|s| - 1], c)
  }

  /** Whether `pat` occurs entirely inside `s[lo..hi]`, by a left-to-right scan. */
  function OccursBetween(s: string, pat: string, lo: nat, hi: nat): (b: bool)
    requires lo <= hi <= |s|
    ensures b <==> exists j :: lo <= j && j + |pat| <= hi && StartsAt(s, j, pat)
    decreases hi - lo
  {
    if lo + |pat| > hi then false
    else if s[lo..lo + |pat|] == pat then assert StartsAt(s, lo, pat); true
    else OccursBetween(s, pat, lo + 1, hi)
  }

  /** Python's `sub in s`. */
  function Contains(s: string, sub: string): (b: bool)
    ensures b <==> exists j :: StartsAt(s, j, sub)
  {
    OccursBetween(s, sub, 0, |s|)
  }

  // ---------------------------------------------------------------------------
  // Counting characters
  // ---------------------------------------------------------------------------

  /** How many times `c` occurs in `s`. */
  function Count(s: string, c: char): nat {
    if s == [] then 0 else Count(s[..|s| - 1], c) + (if s[|s| - 1] == c then 1 else 0)
  }

  lemma {:induction false} CountAppend(a: string, b: string, c: char)
    ensures Count(a + b, c) == Count(a, c) + Count(b, c)
    decreases |b|
  {
    if b == [] {
      assert a + b == a;
    } else {
      assert (a + b)[..|a + b| - 1] == a + b[..|b| - 1];
      CountAppend(a, b[..|b| - 1], c);
    }
  }

  lemma {:induction false} CountAbsent(s: string, c: char)
    requires c !in s
    ensures Count(s, c) == 0
    decreases |s|
  {
    if s != [] {
      assert s[..|s| - 1] + [s[|s| - 1]] == s;
      CountAbsent(s[..|s| - 1], c);
    }
  }
}
