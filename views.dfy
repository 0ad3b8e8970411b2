/**
 * What the dashboard derives from its collections on every render: the
 * overview figures, the vessels-per-flag histogram, the subject line of the
 * authorisation letter, and the class performance report's lookups and
 * list-status colours.
 */
module DashboardViews {
  import opened Wrappers
  import opened Strings
  import opened Collections
  import opened Records
  import Dashboard

  // ---------------------------------------------------------------------
  // Overview figures
  // ---------------------------------------------------------------------

  /** `ships.reduce((sum, ship) => sum + (ship.grossTonnage || 0), 0)`. */
  function TotalGrossTonnage(ships: seq<Ship>): (r: int)
    ensures ships == [] ==> r == 0
    ensures |ships| == 1 ==> r == ships[0].grossTonnage
  {
    if ships == [] then 0
    else TotalGrossTonnage(ships[..|ships| - 1]) + ships[|ships| - 1].grossTonnage
  }

  /** With no negative tonnage the total is not negative and no vessel's tonnage exceeds it. */
  lemma {:induction false} TotalBoundsEachVessel(ships: seq<Ship>)
    requires forall i :: 0 <= i < |ships| ==> ships[i].grossTonnage >= 0
    ensures TotalGrossTonnage(ships) >= 0
    ensures forall i :: 0 <= i < |ships| ==> ships[i].grossTonnage <= TotalGrossTonnage(ships)
  {
    if ships != [] {
      var init := ships[..|ships| - 1];
      TotalBoundsEachVessel(init);
      assert forall i :: 0 <= i < |init| ==> init[i] == ships[i];
    }
  }

  /** The total of two lists of vessels together is the sum of their totals. */
  lemma {:induction false} TotalGrossTonnageAppend(a: seq<Ship>, b: seq<Ship>)
    ensures TotalGrossTonnage(a + b) == TotalGrossTonnage(a) + TotalGrossTonnage(b)
    decreases |b|
  {
    if b == [] {
      assert a + b == a;
    } else {
      var init := b[..|b| - 1];
      assert (a + b)[..|a + b| - 1] == a + init;
      TotalGrossTonnageAppend(a, init);
    }
  }

  /** Registering a vessel raises the total by the looked-up tonnage. */
  lemma RegisterAddsTonnage(ships: seq<Ship>, sr: SearchResult, now: string)
    ensures TotalGrossTonnage(ships + [Dashboard.NewShip(sr, now)]) == TotalGrossTonnage(ships) + sr.grossTonnage
  {
    assert (ships + [Dashboard.NewShip(sr, now)])[..|ships|] == ships;
  }

  /** The total splits around any one vessel. */
  lemma TotalAround(ships: seq<Ship>, i: int)
    requires 0 <= i < |ships|
    ensures TotalGrossTonnage(ships) ==
      TotalGrossTonnage(ships[..i]) + ships[i].grossTonnage + TotalGrossTonnage(ships[i + 1..])
  {
    var front, back := ships[..i + 1], ships[i + 1..];
    assert ships == front + back;
    TotalGrossTonnageAppend(front, back);
    assert front[..i] == ships[..i] && front[i] == ships[i];
    assert TotalGrossTonnage(front) == TotalGrossTonnage(ships[..i]) + ships[i].grossTonnage;
  }

  /** Deleting a vessel by its (distinct) id lowers the total by exactly its tonnage. */
  lemma DeleteLowersTonnage(ships: seq<Ship>, i: int)
    requires DistinctKeys(ships, ShipId) && 0 <= i < |ships|
    ensures TotalGrossTonnage(RemoveWhere(ships, ShipId, ships[i].id)) ==
      TotalGrossTonnage(ships) - ships[i].grossTonnage
  {
    RemoveWhereUnique(ships, ShipId, i);
    TotalAround(ships, i);
    TotalGrossTonnageAppend(ships[..i], ships[i + 1..]);
  }

  predicate IsSanctioned(s: Ship) {
    s.sanctionStatus == Some("Sanctioned")
  }

  /** `ships.filter(s => s.sanctionStatus === 'Sanctioned').length`. */
  function SanctionedCount(ships: seq<Ship>): (r: nat)
    ensures r <= |ships|
    ensures r == 0 <==> forall i :: 0 <= i < |ships| ==> !IsSanctioned(ships[i])
    ensures |ships| == 1 ==> r == (if IsSanctioned(ships[0]) then 1 else 0)
  {
    Count(ships, IsSanctioned)
  }

  /** The sanctioned count is additive over concatenation, so it is the number of sanctioned entries. */
  lemma SanctionedCountAppend(a: seq<Ship>, b: seq<Ship>)
    ensures SanctionedCount(a + b) == SanctionedCount(a) + SanctionedCount(b)
  {
    Collections.CountAppend(a, b, IsSanctioned);
  }

  /** The sanctioned count is the number of positions holding a sanctioned vessel. */
  lemma SanctionedCountIsNumberSanctioned(ships: seq<Ship>)
    ensures SanctionedCount(ships) == |set i | 0 <= i < |ships| && IsSanctioned(ships[i])|
  {
    Collections.CountIsMatchingIndices(ships, IsSanctioned);
    assert MatchingIndices(ships, IsSanctioned) == set i | 0 <= i < |ships| && IsSanctioned(ships[i]);
  }

  /** Registering a vessel adds one to the sanctioned count exactly when the lookup flagged it. */
  lemma RegisterCountsSanction(ships: seq<Ship>, sr: SearchResult, now: string)
    ensures SanctionedCount(ships + [Dashboard.NewShip(sr, now)]) ==
      SanctionedCount(ships) + (if sr.isSanctioned then 1 else 0)
  {
    assert (ships + [Dashboard.NewShip(sr, now)])[..|ships|] == ships;
  }

  // ---------------------------------------------------------------------
  // Vessels per flag
  // ---------------------------------------------------------------------

  /** `ship.flag || 'Unknown'`. */
  function FlagLabel(s: Ship): (r: string)
    ensures r != ""
    ensures IsBlank(s.flag) ==> r == Dashboard.UnknownValue
    ensures !IsBlank(s.flag) ==> r == s.flag.value
  {
    StringOr(s.flag, Dashboard.UnknownValue)
  }

  /** `flagData`: a count per flag label, built by one pass over the vessels. */
  function FlagHistogram(ships: seq<Ship>): (h: map<string, int>)
    ensures forall f :: f in h ==> 1 <= h[f] <= |ships|
    ensures forall i :: 0 <= i < |ships| ==> FlagLabel(ships[i]) in h
  {
    if ships == [] then map[]
    else
      var acc := FlagHistogram(ships[..|ships| - 1]);
      var f := FlagLabel(ships[|ships| - 1]);
      acc[f := (if f in acc then acc[f] else 0) + 1]
  }

  /** The number of vessels shown under flag label `f`. */
  function ShipsUnderFlag(ships: seq<Ship>, f: string): nat {
    Count(ships, s => FlagLabel(s) == f)
  }

  /**
   * The histogram has an entry for exactly the labels some vessel shows,
   * and each entry is the number of vessels showing that label.
   */
  lemma {:induction false} FlagHistogramCounts(ships: seq<Ship>)
    ensures forall f :: f in FlagHistogram(ships) <==> ShipsUnderFlag(ships, f) > 0
    ensures forall f :: f in FlagHistogram(ships) ==> FlagHistogram(ships)[f] == ShipsUnderFlag(ships, f)
  {
    if ships != [] {
      FlagHistogramCounts(ships[..|ships| - 1]);
    }
  }

  /** A registered vessel is counted under its looked-up flag, or under "Unknown" when that is empty. */
  lemma RegisterCountsFlag(ships: seq<Ship>, sr: SearchResult, now: string, f: string)
    ensures ShipsUnderFlag(ships + [Dashboard.NewShip(sr, now)], f) ==
      ShipsUnderFlag(ships, f) + (if (if sr.flag == "" then Dashboard.UnknownValue else sr.flag) == f then 1 else 0)
  {
    assert (ships + [Dashboard.NewShip(sr, now)])[..|ships|] == ships;
  }

  // ---------------------------------------------------------------------
  // The authorisation letter
  // ---------------------------------------------------------------------

  const LetterSubjectBase := "AUTHORIZATION TO CONDUCT FLAG STATE INSPECTION"

  /** `getLetterSubject(prefix)`: the base subject, naming the chosen vessel when it is found. */
  function LetterSubject(prefix: string, ships: seq<Ship>, letterShipId: string): (r: string)
    ensures IsPrefix(prefix + LetterSubjectBase, r)
    ensures letterShipId == "" || !HasKey(ships, ShipId, letterShipId) ==> r == prefix + LetterSubjectBase
  {
    var suffix :=
      if letterShipId == "" then ""
      else match FindByKey(ships, ShipId, letterShipId)
        case Some(s) => " - MV " + s.name + " (IMO: " + s.imo + ")"
        case None => "";
    assert (prefix + LetterSubjectBase + suffix)[..|prefix + LetterSubjectBase|] == prefix + LetterSubjectBase;
    prefix + (LetterSubjectBase + suffix)
  }

  /** With distinct ids, choosing a vessel puts its name and IMO number in the subject. */
  lemma LetterSubjectNamesShip(prefix: string, ships: seq<Ship>, i: int)
    requires DistinctKeys(ships, ShipId) && 0 <= i < |ships| && ships[i].id != ""
    ensures LetterSubject(prefix, ships, ships[i].id) ==
      prefix + (LetterSubjectBase + (" - MV " + ships[i].name + " (IMO: " + ships[i].imo + ")"))
  {
    FindByKeyUnique(ships, ShipId, i);
  }

  // ---------------------------------------------------------------------
  // The class performance report
  // ---------------------------------------------------------------------

  const NotAvailable := "N/A"

  /**
   * `cls.pscData.find(d => d.mou.includes(regime))?.listStatus || 'N/A'`,
   * used with the regimes "Paris", "Tokyo" and "USCG".
   */
  function RegimeStatus(pscData: seq<PscPerformance>, regime: string): (r: string)
    ensures (forall i :: 0 <= i < |pscData| ==> !ContainsSub(pscData[i].mou, regime)) ==> r == NotAvailable
    ensures r != NotAvailable ==>
      exists i :: 0 <= i < |pscData| && ContainsSub(pscData[i].mou, regime) && pscData[i].listStatus == r
    ensures forall i ::
      (0 <= i < |pscData| && ContainsSub(pscData[i].mou, regime)
        && forall j :: 0 <= j < i ==> !ContainsSub(pscData[j].mou, regime)) ==>
      r == (if pscData[i].listStatus == "" then NotAvailable else pscData[i].listStatus)
  {
    var entry := FindFirst(pscData, (d: PscPerformance) => Includes(d.mou, regime));
    StringOr(if entry.Some? then Some(entry.value.listStatus) else None, NotAvailable)
  }

  /** Only the first entry for a regime counts: entries after it are never consulted. */
  lemma RegimeStatusUsesFirstEntry(first: seq<PscPerformance>, later: seq<PscPerformance>, regime: string, i: int)
    requires 0 <= i < |first| && ContainsSub(first[i].mou, regime)
    ensures RegimeStatus(first + later, regime) == RegimeStatus(first, regime)
  {
    FindFirstAppend(first, later, (d: PscPerformance) => Includes(d.mou, regime));
  }

  /** The colour of a list-status badge. */
  datatype Badge = Green | Orange | Red | Gray

  /**
   * The badge colour as written: the lower-cased status is tested for
   * "white" or "qualship", then "grey", then "black" or "targeted".
   */
  function ListStatusBadge(listStatus: string): (b: Badge)
    ensures var s := ToLower(listStatus);
      && (b == Green <==> ContainsSub(s, "white") || ContainsSub(s, "qualship"))
      && (b == Orange <==> !b.Green? && ContainsSub(s, "grey"))
      && (b == Red <==> !b.Green? && !ContainsSub(s, "grey") && (ContainsSub(s, "black") || ContainsSub(s, "targeted")))
  {
    var s := ToLower(listStatus);
    if Includes(s, "white") || Includes(s, "qualship") then Green
    else if Includes(s, "grey") then Orange
    else if Includes(s, "black") || Includes(s, "targeted") then Red
    else Gray
  }

  /**
   * "Non-Targeted", the USCG status the analysis is asked to report in the
   * form its own example gives, contains "targeted" and is painted red like
   * a targeted society.
   */
  lemma NonTargetedShownRed()
    ensures ListStatusBadge("Non-Targeted") == Red
  {
    var s := ToLower("Non-Targeted");
    assert s == "non-targeted";
    MissingCharExcludes(s, "white", 'w');
    MissingCharExcludes(s, "qualship", 'q');
    MissingCharExcludes(s, "grey", 'y');
    assert OccursAt(s, "targeted", 4);
  }

  /** The badge colour with "non-targeted" read as the good standing it is. */
  function ListStatusBadgeCorrected(listStatus: string): (b: Badge)
    ensures ContainsSub(ToLower(listStatus), "non-targeted") ==> b == Green
    ensures !ContainsSub(ToLower(listStatus), "non-targeted") ==> b == ListStatusBadge(listStatus)
    ensures b == Red ==> !ContainsSub(ToLower(listStatus), "non-targeted")
  {
    var s := ToLower(listStatus);
    if Includes(s, "non-targeted") then Green else ListStatusBadge(listStatus)
  }
}
