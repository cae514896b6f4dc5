/** The campus-group tag that `update_database` in backend/app.py gives the
    sections of one scraped camp list. */
module Campus {
  import opened Text

  const BROOKLYN := "BROOKLYN"
  const WSQ := "WSQ"

  /** "BROOKLYN" exactly when the camp list mentions BRKLN or INDUS,
      "WSQ" otherwise. */
  function CampusGroup(camp: string): (g: string)
    ensures g == BROOKLYN || g == WSQ
    ensures g == BROOKLYN <==> (exists j :: StartsAt(camp, j, "BRKLN")) || (exists j :: StartsAt(camp, j, "INDUS"))
  {
    if Contains(camp, "BRKLN") || Contains(camp, "INDUS") then BROOKLYN else WSQ
  }

  /** A camp list without the letters K and I mentions neither marker, so
      it is tagged "WSQ". */
  lemma NoMarkerLettersIsWsq(camp: string)
    requires 'K' !in camp && 'I' !in camp
    ensures CampusGroup(camp) == WSQ
  {
    forall j ensures !StartsAt(camp, j, "BRKLN") {
      if 0 <= j && j + 5 <= |camp| {
        assert camp[j + 2] == camp[j..j + 5][2];
        assert camp[j + 2] in camp;
      }
    }
    forall j ensures !StartsAt(camp, j, "INDUS") {
      if 0 <= j && j + 5 <= |camp| {
        assert camp[j] == camp[j..j + 5][0];
        assert camp[j] in camp;
      }
    }
  }

  /** Adding camps to a list that is tagged "BROOKLYN" keeps the tag. */
  lemma BrooklynIsStable(camp: string, before: string, after: string)
    requires CampusGroup(camp) == BROOKLYN
    ensures CampusGroup(before + camp + after) == BROOKLYN
  {
    var s := before + camp + after;
    var pat := if exists j :: StartsAt(camp, j, "BRKLN") then "BRKLN" else "INDUS";
    var j :| StartsAt(camp, j, pat);
    assert s[|before| + j..|before| + j + |pat|] == camp[j..j + |pat|];
    assert StartsAt(s, |before| + j, pat);
  }

  /** The two default camp lists of the update request. */
  const BROOKLYN_CAMPS := "WS@BRKLN,WS@INDUS"
  const WSQ_CAMPS := "AD@GLOBAL-WS,AD@WS," + "SH@GLOBAL-WS,WS*," + "WS@2BRD,WS@JD,WS@MT," + "WS@OC,WS@PU,WS@WS,WS@WW"

  /** The default Brooklyn camp list is tagged "BROOKLYN". */
  lemma BrooklynDefault()
    ensures CampusGroup(BROOKLYN_CAMPS) == BROOKLYN
  {
    assert StartsAt(BROOKLYN_CAMPS, 3, "BRKLN");
  }

  /** The default Washington Square camp list is tagged "WSQ". */
  lemma WashingtonSquareDefault()
    ensures CampusGroup(WSQ_CAMPS) == WSQ
  {
    var a, b, c, d := "AD@GLOBAL-WS,AD@WS,", "SH@GLOBAL-WS,WS*,", "WS@2BRD,WS@JD,WS@MT,", "WS@OC,WS@PU,WS@WS,WS@WW";
    assert 'K' !in a && 'I' !in a;
    assert 'K' !in b && 'I' !in b;
    assert 'K' !in c && 'I' !in c;
    assert 'K' !in d && 'I' !in d;
    NoMarkerLettersIsWsq(a + b + c + d);
  }
}
