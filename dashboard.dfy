/**
 * The registry dashboard: three collections (vessels, surveyors,
 * classification societies), the current selections, the lookup, and the
 * forms, driven by the dashboard's event handlers. The lookup and analysis
 * services, the confirmation dialog and the clock are inputs to the
 * handlers; alerts are returned to the caller.
 */
module Dashboard {
  import opened Wrappers
  import opened Strings
  import opened Collections
  import opened Records
  import opened Gateway
  import Storage
  import Login

  datatype Tab = Overview | Lookup | List | Surveyors | ClassPerformance | Settings

  /** The inspection form's state; a field may be missing, and an unparsable number is missing. */
  datatype InspectionDraft = InspectionDraft(
    inspectorName: Option<string>,
    location: Option<string>,
    deficienciesFound: Option<int>,
    detained: Option<bool>,
    comments: Option<string>)

  const EmptyInspectionDraft := InspectionDraft(Some(""), Some(""), Some(0), Some(false), Some(""))

  /** The new-surveyor form's state. */
  datatype SurveyorDraft = SurveyorDraft(
    name: Option<string>,
    location: Option<string>,
    email: Option<string>,
    phone: Option<string>,
    company: Option<string>)

  const EmptySurveyorDraft := SurveyorDraft(Some(""), Some(""), Some(""), Some(""), Some(""))

  /** The change-password form. */
  datatype PasswordForm = PasswordForm(current: string, newPassword: string, confirm: string)

  const EmptyPasswordForm := PasswordForm("", "", "")

  /** The message under the password form; its kind picks the colour. */
  datatype MessageKind = Plain | ErrorKind | SuccessKind
  datatype Message = Message(text: string, kind: MessageKind)

  const DefaultPassword := "admin123"
  const MinPasswordLength := 6
  const NoDataError := "No data found for this vessel. Please check the credentials."
  const ConnectionError := "Failed to connect to vessel database services. Please try again."
  const DuplicateNotice := "This ship is already registered in the database."
  const RefreshFailurePrefix := "Failed to update data for "
  const SeededTrendReason := "Pending Analysis"
  const NewClassTrendReason := "Analysis Pending"
  const UnknownValue := "Unknown"

  // ---------------------------------------------------------------------
  // Loading the collections when the dashboard mounts
  // ---------------------------------------------------------------------

  /** What the mount effect makes of one stored collection. */
  datatype Restored<T> = NothingStored | Loaded(items: seq<T>) | Unparsable

  /** `if (saved) set(JSON.parse(saved))`: an empty entry counts as nothing stored. */
  function Restore<T>(saved: Option<string>, parse: string -> Parsed<seq<T>>): (r: Restored<T>)
    ensures r.NothingStored? <==> IsBlank(saved)
    ensures r.Loaded? ==> parse(saved.value) == Value(r.items)
    ensures r.Unparsable? ==> !IsBlank(saved) && parse(saved.value).SyntaxError?
  {
    if IsBlank(saved) then NothingStored
    else match parse(saved.value)
      case Value(v) => Loaded(v)
      case SyntaxError => Unparsable
  }

  function SeededClass(id: string, name: string, now: string): ClassSociety {
    ClassSociety(id, name, [], Steady, SeededTrendReason, now)
  }

  /** The five societies seeded when nothing is stored, awaiting their first analysis. */
  function SeededClasses(now: string): (r: seq<ClassSociety>)
    ensures |r| == 5 && DistinctKeys(r, ClassId)
    ensures forall i :: 0 <= i < |r| ==>
      r[i].pscData == [] && r[i].trend == Steady && r[i].trendReason == SeededTrendReason && r[i].lastUpdated == now
  {
    [SeededClass("1", "DNV", now), SeededClass("2", "ABS", now), SeededClass("3", "Lloyds Register", now),
     SeededClass("4", "Bureau Veritas", now), SeededClass("5", "ClassNK", now)]
  }

  // ---------------------------------------------------------------------
  // Records built by the handlers
  // ---------------------------------------------------------------------

  /** The vessel `registerShip` builds from a lookup result. */
  function NewShip(sr: SearchResult, now: string): (s: Ship)
    ensures s.id == sr.imo && s.imo == sr.imo && s.name == sr.name
    ensures s.inspections == [] && s.registrationDate == now
    ensures s.sanctionStatus == Some("Sanctioned") <==> sr.isSanctioned
    ensures !sr.isSanctioned ==> s.sanctionStatus == Some("Clean")
    ensures s.sanctionDetails == Some(sr.sanctionInfo) && s.grossTonnage == sr.grossTonnage
    ensures s.flag == Some(sr.flag)
  {
    Ship(sr.imo, sr.name, sr.imo, None, Some(sr.flag), Some(sr.yearBuilt), Some(sr.vesselType),
      sr.grossTonnage, None, Some(sr.lengthOverall), Some(sr.beam), Some(sr.draft), Some(sr.builder),
      Some(sr.location), None, Some(sr.classSociety), Some(sr.classSocietyUrl),
      Some(if sr.isSanctioned then "Sanctioned" else "Clean"), Some(sr.sanctionInfo),
      Some(sr.lastSurveyDate), Some(sr.certificateStatus), now, [])
  }

  /** The inspection `handleAddInspection` builds: every missing field takes its default. */
  function NewInspection(d: InspectionDraft, id: string, now: string): (i: Inspection)
    ensures i.id == id && i.date == now
    ensures i.inspectorName != "" && i.location != ""
    ensures IsBlank(d.inspectorName) ==> i.inspectorName == UnknownValue
    ensures !IsBlank(d.inspectorName) ==> i.inspectorName == d.inspectorName.value
    ensures IsBlank(d.location) ==> i.location == UnknownValue
    ensures !IsBlank(d.location) ==> i.location == d.location.value
    ensures i.deficienciesFound == (if d.deficienciesFound.Some? then d.deficienciesFound.value else 0)
    ensures i.detained <==> d.detained == Some(true)
    ensures IsBlank(d.comments) ==> i.comments == ""
    ensures !IsBlank(d.comments) ==> i.comments == d.comments.value
  {
    Inspection(id, now,
      StringOr(d.inspectorName, UnknownValue),
      StringOr(d.location, UnknownValue),
      match d.deficienciesFound case Some(n) => n case None => 0,
      match d.detained case Some(b) => b case None => false,
      StringOr(d.comments, ""))
  }

  /** `{ ...s, inspections: [...s.inspections, inspection] }`. */
  function WithInspection(s: Ship, insp: Inspection): Ship {
    s.(inspections := s.inspections + [insp])
  }

  /** The vessels after an inspection is added to the one with id `shipId`. */
  function AddInspectionTo(ships: seq<Ship>, shipId: string, insp: Inspection): (r: seq<Ship>)
    ensures |r| == |ships|
    ensures forall i :: 0 <= i < |r| ==> r[i].id == ships[i].id && r[i].imo == ships[i].imo
    ensures forall i :: 0 <= i < |r| ==>
      r[i].inspections == ships[i].inspections + (if ships[i].id == shipId then [insp] else [])
  {
    UpdateWhere(ships, ShipId, shipId, s => WithInspection(s, insp))
  }

  /**
   * Adding an inspection appends it to the vessels with the id and to no
   * other: the count, every other vessel and the earlier inspections stay,
   * and ids and IMO numbers stay where they were.
   */
  lemma AddInspectionTouchesOnlyTarget(ships: seq<Ship>, shipId: string, insp: Inspection)
    ensures var r := AddInspectionTo(ships, shipId, insp);
      && |r| == |ships|
      && (forall i :: 0 <= i < |r| && ships[i].id == shipId ==>
            r[i] == ships[i].(inspections := ships[i].inspections + [insp]))
      && (forall i :: 0 <= i < |r| && ships[i].id != shipId ==> r[i] == ships[i])
      && (DistinctKeys(ships, ShipImo) ==> DistinctKeys(r, ShipImo))
      && (DistinctKeys(ships, ShipId) ==> DistinctKeys(r, ShipId))
  {
    var f := (s: Ship) => WithInspection(s, insp);
    UpdateWhereKeepsKeys(ships, ShipId, shipId, f, ShipImo);
    UpdateWhereKeepsKeys(ships, ShipId, shipId, f, ShipId);
  }

  /** The re-synchronised selection is the updated vessel, or none if the vessel is gone. */
  lemma SelectionFollowsInspection(ships: seq<Ship>, shipId: string, insp: Inspection)
    ensures FindByKey(AddInspectionTo(ships, shipId, insp), ShipId, shipId) ==
      if HasKey(ships, ShipId, shipId) then Some(WithInspection(FindByKey(ships, ShipId, shipId).value, insp))
      else None
  {
    FindByKeyAfterUpdate(ships, ShipId, shipId, s => WithInspection(s, insp));
  }

  /** The surveyor `handleAddSurveyor` builds, or none when the name or location is blank. */
  function NewSurveyor(d: SurveyorDraft, id: string): (r: Option<Surveyor>)
    ensures r.None? <==> IsBlank(d.name) || IsBlank(d.location)
    ensures r.Some? ==> r.value.id == id && r.value.name == d.name.value && r.value.location == d.location.value
    ensures r.Some? ==> r.value.email == StringOr(d.email, "") && r.value.phone == StringOr(d.phone, "")
    ensures r.Some? ==> r.value.company == Some(StringOr(d.company, ""))
  {
    if IsBlank(d.name) || IsBlank(d.location) then None
    else Some(Surveyor(id, d.name.value, d.location.value, StringOr(d.email, ""), StringOr(d.phone, ""),
      Some(StringOr(d.company, ""))))
  }

  /** The society `handleAddClass` appends, awaiting its first analysis. */
  function NewClass(id: string, name: string, now: string): (c: ClassSociety)
    ensures c.id == id && c.name == name && c.lastUpdated == now
    ensures c.pscData == [] && c.trend == Steady && c.trendReason == NewClassTrendReason
  {
    ClassSociety(id, name, [], Steady, NewClassTrendReason, now)
  }

  /** `prev.map(p => p.id === clsId ? { ...result, id: p.id } : p)`. */
  function Refreshed(classes: seq<ClassSociety>, clsId: string, result: ClassSociety): (r: seq<ClassSociety>)
    ensures |r| == |classes|
    ensures forall i :: 0 <= i < |r| ==> r[i].id == classes[i].id
    ensures forall i :: 0 <= i < |r| && classes[i].id == clsId ==> r[i].name == result.name && r[i].pscData == result.pscData
  {
    UpdateWhere(classes, ClassId, clsId, (p: ClassSociety) => result.(id := p.id))
  }

  /**
   * A refresh replaces the fields of the societies with the id by the
   * analysis result but keeps their id; the length and the other societies
   * are unchanged, so ids stay distinct.
   */
  lemma RefreshKeepsIdentity(classes: seq<ClassSociety>, clsId: string, result: ClassSociety)
    ensures var r := Refreshed(classes, clsId, result);
      && |r| == |classes|
      && (forall i :: 0 <= i < |r| ==> r[i].id == classes[i].id)
      && (forall i :: 0 <= i < |r| && classes[i].id == clsId ==> r[i] == result.(id := clsId))
      && (forall i :: 0 <= i < |r| && classes[i].id != clsId ==> r[i] == classes[i])
      && (DistinctKeys(classes, ClassId) ==> DistinctKeys(r, ClassId))
  {
    UpdateWhereKeepsKeys(classes, ClassId, clsId, (p: ClassSociety) => result.(id := p.id), ClassId);
  }

  /** With distinct keys, deleting by the key of the element at `i` removes exactly that element. */
  lemma DeleteShipRemovesExactly(ships: seq<Ship>, i: int)
    requires DistinctKeys(ships, ShipId) && 0 <= i < |ships|
    ensures RemoveWhere(ships, ShipId, ships[i].id) == ships[..i] + ships[i + 1..]
  {
    RemoveWhereUnique(ships, ShipId, i);
  }

  // ---------------------------------------------------------------------
  // Password change
  // ---------------------------------------------------------------------

  /** The outcome of `handleChangePassword`'s checks, the first failing one deciding. */
  datatype PasswordCheck = WrongCurrent | TooShort | Mismatch | Changed

  /** The password the form is checked against: the stored one, or the default when none is stored. */
  function EffectivePassword(stored: Option<string>): (r: string)
    ensures IsBlank(stored) ==> r == DefaultPassword
    ensures !IsBlank(stored) ==> r == stored.value
  {
    StringOr(stored, DefaultPassword)
  }

  /** The checks in their order: current password, then length, then confirmation. */
  function CheckPasswordChange(stored: Option<string>, form: PasswordForm): (r: PasswordCheck)
    ensures r == Changed <==>
      form.current == EffectivePassword(stored) && |form.newPassword| >= MinPasswordLength
      && form.newPassword == form.confirm
    ensures r == WrongCurrent <==> form.current != EffectivePassword(stored)
    ensures r == TooShort <==> form.current == EffectivePassword(stored) && |form.newPassword| < MinPasswordLength
  {
    if form.current != EffectivePassword(stored) then WrongCurrent
    else if |form.newPassword| < MinPasswordLength then TooShort
    else if form.newPassword != form.confirm then Mismatch
    else Changed
  }

  /** The message each outcome shows: only a change is reported as a success. */
  function MessageFor(check: PasswordCheck): (m: Message)
    ensures m.text != ""
    ensures m.kind == SuccessKind <==> check == Changed
    ensures m.kind != SuccessKind ==> m.kind == ErrorKind
  {
    match check
    case WrongCurrent => Message("Current password is incorrect.", ErrorKind)
    case TooShort => Message("New password must be at least 6 characters.", ErrorKind)
    case Mismatch => Message("New passwords do not match.", ErrorKind)
    case Changed => Message("Password updated successfully.", SuccessKind)
  }

  /** After a change, the login gate accepts the new password and nothing else. */
  lemma ChangedPasswordOpensGate(stored: Option<string>, form: PasswordForm, password: string)
    requires CheckPasswordChange(stored, form) == Changed
    ensures Login.Accepts(Some(form.newPassword), password) <==> password == form.newPassword
  {
  }

  /**
   * Whoever just logged in can change the password by typing, as the
   * current one, the password they logged in with.
   */
  lemma LoginPasswordIsCurrent(stored: Option<string>, password: string)
    requires Login.Accepts(stored, password)
    ensures EffectivePassword(if !IsBlank(stored) then stored else Some(password)) == password
  {
  }

  // ---------------------------------------------------------------------
  // The dashboard's state and handlers
  // ---------------------------------------------------------------------

  class DashboardState {
    var ships: seq<Ship>
    var surveyors: seq<Surveyor>
    var classSocieties: seq<ClassSociety>
    var activeTab: Tab
    var selectedShip: Option<Ship>
    var lookupName: string
    var lookupImo: string
    var isSearching: bool
    var searchResult: Option<SearchResult>
    var searchError: string
    var newClassName: string
    var isClassAnalyzing: bool
    var showInspectionForm: bool
    var newInspection: InspectionDraft
    var newSurveyor: SurveyorDraft
    var selectedSurveyorForLetter: Option<Surveyor>
    var letterShipId: string
    var passwordForm: PasswordForm
    var passwordMessage: Message

    /** The state before the mount effect runs. */
    constructor ()
      ensures ships == [] && surveyors == [] && classSocieties == []
      ensures activeTab == Overview && selectedShip == None
      ensures lookupName == "" && lookupImo == "" && !isSearching && searchResult == None && searchError == ""
      ensures newClassName == "" && !isClassAnalyzing
      ensures !showInspectionForm && newInspection == EmptyInspectionDraft
      ensures newSurveyor == EmptySurveyorDraft && selectedSurveyorForLetter == None && letterShipId == ""
      ensures passwordForm == EmptyPasswordForm && passwordMessage == Message("", Plain)
    {
      ships, surveyors, classSocieties := [], [], [];
      activeTab, selectedShip := Overview, None;
      lookupName, lookupImo, isSearching, searchResult, searchError := "", "", false, None, "";
      newClassName, isClassAnalyzing := "", false;
      showInspectionForm, newInspection := false, EmptyInspectionDraft;
      newSurveyor, selectedSurveyorForLetter, letterShipId := EmptySurveyorDraft, None, "";
      passwordForm, passwordMessage := EmptyPasswordForm, Message("", Plain);
    }

    /**
     * The mount effect: each stored collection is loaded in turn; the
     * societies are seeded when none are stored. A stored entry the parser
     * rejects throws (`crashed`) and stops the loading there.
     */
    method Mount(store: Storage.Store, parseShips: string -> Parsed<seq<Ship>>,
                 parseSurveyors: string -> Parsed<seq<Surveyor>>,
                 parseClasses: string -> Parsed<seq<ClassSociety>>, now: string) returns (crashed: bool)
      modifies this`ships, this`surveyors, this`classSocieties
      ensures var rs := Restore(store.GetItem(Storage.ShipsKey), parseShips);
        var rv := Restore(store.GetItem(Storage.SurveyorsKey), parseSurveyors);
        var rc := Restore(store.GetItem(Storage.ClassesKey), parseClasses);
        && (crashed <==> rs.Unparsable? || rv.Unparsable? || rc.Unparsable?)
        && ships == (if rs.Loaded? then rs.items else old(ships))
        && surveyors == (if !rs.Unparsable? && rv.Loaded? then rv.items else old(surveyors))
        && classSocieties == (
             if rs.Unparsable? || rv.Unparsable? || rc.Unparsable? then old(classSocieties)
             else if rc.Loaded? then rc.items
             else SeededClasses(now))
    {
      var rs := Restore(store.GetItem(Storage.ShipsKey), parseShips);
      if rs.Unparsable? {
        return true;
      }
      if rs.Loaded? {
        ships := rs.items;
      }
      var rv := Restore(store.GetItem(Storage.SurveyorsKey), parseSurveyors);
      if rv.Unparsable? {
        return true;
      }
      if rv.Loaded? {
        surveyors := rv.items;
      }
      var rc := Restore(store.GetItem(Storage.ClassesKey), parseClasses);
      if rc.Unparsable? {
        return true;
      }
      classSocieties := if rc.Loaded? then rc.items else SeededClasses(now);
      crashed := false;
    }

    /**
     * `handleSearch`, with the lookup's outcome as input: nothing happens
     * unless both name and IMO are filled in; then the result, or the
     * message for a null result or a failure, replaces the previous one.
     */
    method HandleSearch(outcome: Outcome<SearchResult>)
      modifies this`isSearching, this`searchError, this`searchResult
      ensures lookupName == "" || lookupImo == "" ==>
        isSearching == old(isSearching) && searchError == old(searchError) && searchResult == old(searchResult)
      ensures lookupName != "" && lookupImo != "" ==>
        && !isSearching
        && (searchResult.Some? <==> outcome.Delivered?)
        && (outcome.Delivered? ==> searchResult == Some(outcome.data) && searchError == "")
        && (outcome.NullResult? ==> searchError == NoDataError)
        && (outcome.Threw? ==> searchError == ConnectionError)
    {
      if lookupName == "" || lookupImo == "" {
        return;
      }
      isSearching := true;
      searchError := "";
      searchResult := None;
      match outcome {
        case Delivered(r) => searchResult := Some(r);
        case NullResult => searchError := NoDataError;
        case Threw => searchError := ConnectionError;
      }
      isSearching := false;
    }

    /**
     * `registerShip`: without a lookup result nothing happens; a result
     * whose IMO number is registered already is refused with an alert;
     * otherwise the new vessel is appended, selected and shown, and the
     * lookup is cleared. IMO numbers that were distinct stay distinct.
     */
    method RegisterShip(now: string) returns (alert: Option<string>)
      modifies this`ships, this`activeTab, this`selectedShip, this`lookupName, this`lookupImo, this`searchResult
      ensures DistinctKeys(old(ships), ShipImo) ==> DistinctKeys(ships, ShipImo)
      ensures old(searchResult).None? ==>
        alert == None && ships == old(ships) && selectedShip == old(selectedShip)
        && activeTab == old(activeTab) && lookupName == old(lookupName) && lookupImo == old(lookupImo)
        && searchResult == old(searchResult)
      ensures old(searchResult).Some? && HasKey(old(ships), ShipImo, old(searchResult).value.imo) ==>
        alert == Some(DuplicateNotice) && ships == old(ships) && selectedShip == old(selectedShip)
        && activeTab == old(activeTab) && lookupName == old(lookupName) && lookupImo == old(lookupImo)
        && searchResult == old(searchResult)
      ensures old(searchResult).Some? && !HasKey(old(ships), ShipImo, old(searchResult).value.imo) ==>
        var s := NewShip(old(searchResult).value, now);
        && alert == None && ships == old(ships) + [s] && selectedShip == Some(s)
        && activeTab == List && lookupName == "" && lookupImo == "" && searchResult == None
    {
      alert := None;
      if searchResult.None? {
        return;
      }
      var s := NewShip(searchResult.value, now);
      if FindByKey(ships, ShipImo, s.imo).Some? {
        alert := Some(DuplicateNotice);
        return;
      }
      assert !HasKey(ships, ShipImo, searchResult.value.imo);
      if DistinctKeys(ships, ShipImo) {
        AppendKeepsDistinct(ships, ShipImo, s);
      }
      ships := ships + [s];
      activeTab := List;
      selectedShip := Some(s);
      lookupName, lookupImo := "", "";
      searchResult := None;
    }

    /**
     * `handleAddInspection`: without a selected vessel nothing happens;
     * otherwise the new inspection is appended to the vessel with the
     * selected id, the selection is re-read from the updated collection, and
     * the form is closed and reset.
     */
    method AddInspection(id: string, now: string)
      modifies this`ships, this`selectedShip, this`showInspectionForm, this`newInspection
      ensures old(selectedShip).None? ==>
        ships == old(ships) && selectedShip == None
        && showInspectionForm == old(showInspectionForm) && newInspection == old(newInspection)
      ensures old(selectedShip).Some? ==>
        var shipId := old(selectedShip).value.id;
        && ships == AddInspectionTo(old(ships), shipId, NewInspection(old(newInspection), id, now))
        && selectedShip == FindByKey(ships, ShipId, shipId)
        && !showInspectionForm && newInspection == EmptyInspectionDraft
      ensures DistinctKeys(old(ships), ShipImo) ==> DistinctKeys(ships, ShipImo)
    {
      if selectedShip.None? {
        return;
      }
      var shipId := selectedShip.value.id;
      var insp := NewInspection(newInspection, id, now);
      var updated := AddInspectionTo(ships, shipId, insp);
      assert DistinctKeys(ships, ShipImo) ==> DistinctKeys(updated, ShipImo) by {
        UpdateWhereKeepsKeys(ships, ShipId, shipId, s => WithInspection(s, insp), ShipImo);
      }
      ships := updated;
      selectedShip := FindByKey(updated, ShipId, shipId);
      showInspectionForm := false;
      newInspection := EmptyInspectionDraft;
    }

    /** `handleAddSurveyor`: a blank name or location is ignored; otherwise append and reset the form. */
    method AddSurveyor(id: string)
      modifies this`surveyors, this`newSurveyor
      ensures NewSurveyor(old(newSurveyor), id).None? ==>
        surveyors == old(surveyors) && newSurveyor == old(newSurveyor)
      ensures NewSurveyor(old(newSurveyor), id).Some? ==>
        surveyors == old(surveyors) + [NewSurveyor(old(newSurveyor), id).value]
        && newSurveyor == EmptySurveyorDraft
    {
      var s := NewSurveyor(newSurveyor, id);
      if s.None? {
        return;
      }
      surveyors := surveyors + [s.value];
      newSurveyor := EmptySurveyorDraft;
    }

    /**
     * `handleDeleteShip`: declined, nothing changes; confirmed, the vessels
     * with the id go, in order, and a selection of that vessel is cleared.
     */
    method DeleteShip(id: string, confirmed: bool)
      modifies this`ships, this`selectedShip
      ensures !confirmed ==> ships == old(ships) && selectedShip == old(selectedShip)
      ensures confirmed ==> ships == RemoveWhere(old(ships), ShipId, id)
      ensures confirmed && old(selectedShip).Some? && old(selectedShip).value.id == id ==> selectedShip == None
      ensures confirmed && !(old(selectedShip).Some? && old(selectedShip).value.id == id) ==>
        selectedShip == old(selectedShip)
      ensures DistinctKeys(old(ships), ShipImo) ==> DistinctKeys(ships, ShipImo)
    {
      if !confirmed {
        return;
      }
      if DistinctKeys(ships, ShipImo) {
        RemoveWhereKeepsDistinct(ships, ShipId, id, ShipImo);
      }
      ships := RemoveWhere(ships, ShipId, id);
      if selectedShip.Some? && selectedShip.value.id == id {
        selectedShip := None;
      }
    }

    /**
     * `handleDeleteSurveyor`: declined, nothing changes; confirmed, the
     * surveyors with the id go, and a letter addressed to one is closed.
     */
    method DeleteSurveyor(id: string, confirmed: bool)
      modifies this`surveyors, this`selectedSurveyorForLetter
      ensures !confirmed ==> surveyors == old(surveyors) && selectedSurveyorForLetter == old(selectedSurveyorForLetter)
      ensures confirmed ==> surveyors == RemoveWhere(old(surveyors), SurveyorId, id)
      ensures confirmed && old(selectedSurveyorForLetter).Some? && old(selectedSurveyorForLetter).value.id == id ==>
        selectedSurveyorForLetter == None
      ensures confirmed && !(old(selectedSurveyorForLetter).Some? && old(selectedSurveyorForLetter).value.id == id) ==>
        selectedSurveyorForLetter == old(selectedSurveyorForLetter)
    {
      if !confirmed {
        return;
      }
      surveyors := RemoveWhere(surveyors, SurveyorId, id);
      if selectedSurveyorForLetter.Some? && selectedSurveyorForLetter.value.id == id {
        selectedSurveyorForLetter := None;
      }
    }

    /** `deleteClass`: declined, nothing changes; confirmed, the societies with the id go. */
    method DeleteClass(id: string, confirmed: bool)
      modifies this`classSocieties
      ensures !confirmed ==> classSocieties == old(classSocieties)
      ensures confirmed ==> classSocieties == RemoveWhere(old(classSocieties), ClassId, id)
      ensures DistinctKeys(old(classSocieties), ClassId) ==> DistinctKeys(classSocieties, ClassId)
    {
      if !confirmed {
        return;
      }
      if DistinctKeys(classSocieties, ClassId) {
        RemoveWhereKeepsDistinct(classSocieties, ClassId, id, ClassId);
      }
      classSocieties := RemoveWhere(classSocieties, ClassId, id);
    }

    /**
     * `refreshClassData`, with the analysis outcome as input: a result
     * replaces the fields of the society with the id but not its id; a null
     * result changes nothing; a failure changes nothing and raises an alert
     * naming the society. The analysing flag is off afterwards.
     */
    method RefreshClass(cls: ClassSociety, outcome: Outcome<ClassSociety>) returns (alert: Option<string>)
      modifies this`classSocieties, this`isClassAnalyzing
      ensures !isClassAnalyzing
      ensures outcome.Delivered? ==>
        classSocieties == Refreshed(old(classSocieties), cls.id, outcome.data) && alert == None
      ensures outcome.NullResult? ==> classSocieties == old(classSocieties) && alert == None
      ensures outcome.Threw? ==>
        classSocieties == old(classSocieties) && alert == Some(RefreshFailurePrefix + cls.name)
      ensures DistinctKeys(old(classSocieties), ClassId) ==> DistinctKeys(classSocieties, ClassId)
    {
      isClassAnalyzing := true;
      alert := None;
      match outcome {
        case Delivered(result) =>
          RefreshKeepsIdentity(classSocieties, cls.id, result);
          classSocieties := Refreshed(classSocieties, cls.id, result);
        case NullResult =>
        case Threw =>
          alert := Some(RefreshFailurePrefix + cls.name);
      }
      isClassAnalyzing := false;
    }

    /**
     * `handleAddClass`: a blank name is ignored; otherwise the society is
     * appended awaiting analysis, the name field is cleared, and the new
     * society is refreshed at once with the analysis outcome.
     */
    method AddClass(id: string, now: string, outcome: Outcome<ClassSociety>) returns (alert: Option<string>)
      modifies this`classSocieties, this`newClassName, this`isClassAnalyzing
      ensures old(newClassName) == "" ==>
        alert == None && classSocieties == old(classSocieties)
        && newClassName == old(newClassName) && isClassAnalyzing == old(isClassAnalyzing)
      ensures old(newClassName) != "" ==>
        var added := old(classSocieties) + [NewClass(id, old(newClassName), now)];
        && newClassName == "" && !isClassAnalyzing
        && classSocieties == (if outcome.Delivered? then Refreshed(added, id, outcome.data) else added)
        && alert == (if outcome.Threw? then Some(RefreshFailurePrefix + old(newClassName)) else None)
      ensures (old(newClassName) != "" && DistinctKeys(old(classSocieties), ClassId)
               && !HasKey(old(classSocieties), ClassId, id)) ==> DistinctKeys(classSocieties, ClassId)
    {
      alert := None;
      if newClassName == "" {
        return;
      }
      var c := NewClass(id, newClassName, now);
      if DistinctKeys(classSocieties, ClassId) && !HasKey(classSocieties, ClassId, id) {
        AppendKeepsDistinct(classSocieties, ClassId, c);
      }
      classSocieties := classSocieties + [c];
      newClassName := "";
      alert := RefreshClass(c, outcome);
    }

    /**
     * `handleChangePassword`: the first failing check sets its error and
     * stops; when all pass, the new password is stored, the success message
     * shown and the form cleared.
     */
    method ChangePassword(store: Storage.Store)
      modifies store, this`passwordForm, this`passwordMessage
      ensures var check := CheckPasswordChange(old(store.GetItem(Storage.PasswordKey)), old(passwordForm));
        && passwordMessage == MessageFor(check)
        && (check == Changed ==>
              store.entries == old(store.entries)[Storage.PasswordKey := old(passwordForm).newPassword]
              && passwordForm == EmptyPasswordForm)
        && (check != Changed ==> store.entries == old(store.entries) && passwordForm == old(passwordForm))
    {
      var check := CheckPasswordChange(store.GetItem(Storage.PasswordKey), passwordForm);
      passwordMessage := MessageFor(check);
      if check == Changed {
        store.SetItem(Storage.PasswordKey, passwordForm.newPassword);
        passwordForm := EmptyPasswordForm;
      }
    }

    // The input handlers that feed the forms and selections above.

    /** A sidebar button: switch tab and drop the selected vessel. */
    method Navigate(tab: Tab)
      modifies this`activeTab, this`selectedShip
      ensures activeTab == tab && selectedShip == None
    {
      activeTab, selectedShip := tab, None;
    }

    /** Open a vessel's detail view, or close it with `None`. */
    method SelectShip(ship: Option<Ship>)
      modifies this`selectedShip
      ensures selectedShip == ship
    {
      selectedShip := ship;
    }

    method EditLookup(name: string, imo: string)
      modifies this`lookupName, this`lookupImo
      ensures lookupName == name && lookupImo == imo
    {
      lookupName, lookupImo := name, imo;
    }

    method ToggleInspectionForm()
      modifies this`showInspectionForm
      ensures showInspectionForm == !old(showInspectionForm)
    {
      showInspectionForm := !showInspectionForm;
    }

    method EditInspection(draft: InspectionDraft)
      modifies this`newInspection
      ensures newInspection == draft
    {
      newInspection := draft;
    }

    method EditSurveyor(draft: SurveyorDraft)
      modifies this`newSurveyor
      ensures newSurveyor == draft
    {
      newSurveyor := draft;
    }

    method EditClassName(name: string)
      modifies this`newClassName
      ensures newClassName == name
    {
      newClassName := name;
    }

    /** Open the authorisation letter for a surveyor, with no vessel chosen yet. */
    method OpenLetter(surveyor: Surveyor)
      modifies this`selectedSurveyorForLetter, this`letterShipId
      ensures selectedSurveyorForLetter == Some(surveyor) && letterShipId == ""
    {
      selectedSurveyorForLetter, letterShipId := Some(surveyor), "";
    }

    method CloseLetter()
      modifies this`selectedSurveyorForLetter
      ensures selectedSurveyorForLetter == None
    {
      selectedSurveyorForLetter := None;
    }

    method ChooseLetterShip(id: string)
      modifies this`letterShipId
      ensures letterShipId == id
    {
      letterShipId := id;
    }

    method EditPasswordForm(form: PasswordForm)
      modifies this`passwordForm
      ensures passwordForm == form
    {
      passwordForm := form;
    }
  }
}
