/**
 * The records the application keeps: vessels with their inspections,
 * surveyors, and classification societies with their port state control
 * ratings, plus the vessel description returned by a lookup.
 */
module Records {
  import opened Wrappers

  /** One inspection of a vessel; created only through its vessel, never edited. */
  datatype Inspection = Inspection(
    id: string,
    date: string,
    inspectorName: string,
    location: string,
    deficienciesFound: int,
    detained: bool,
    comments: string)

  /** A registered vessel; its IMO number doubles as its id. */
  datatype Ship = Ship(
    id: string,
    name: string,
    imo: string,
    callSign: Option<string>,
    flag: Option<string>,
    yearBuilt: Option<string>,
    vesselType: Option<string>,
    grossTonnage: int,
    deadweightTonnage: Option<int>,
    lengthOverall: Option<string>,
    beam: Option<string>,
    draft: Option<string>,
    builder: Option<string>,
    currentLocation: Option<string>,
    aisStatus: Option<string>,
    classificationSociety: Option<string>,
    classSocietyUrl: Option<string>,
    sanctionStatus: Option<string>,
    sanctionDetails: Option<string>,
    lastSurveyDate: Option<string>,
    certificateStatus: Option<string>,
    registrationDate: string,
    inspections: seq<Inspection>)

  /** What a vessel lookup returns, before the vessel is registered. */
  datatype SearchResult = SearchResult(
    name: string,
    imo: string,
    grossTonnage: int,
    yearBuilt: string,
    vesselType: string,
    flag: string,
    lengthOverall: string,
    beam: string,
    draft: string,
    builder: string,
    location: string,
    classSociety: string,
    classSocietyUrl: string,
    sanctionInfo: string,
    isSanctioned: bool,
    lastSurveyDate: string,
    certificateStatus: string,
    description: string)

  datatype Surveyor = Surveyor(
    id: string,
    name: string,
    location: string,
    email: string,
    phone: string,
    company: Option<string>)

  /** A society's standing under one port state control regime ("Paris MoU", "USCG", ...). */
  datatype PscPerformance = PscPerformance(mou: string, listStatus: string, performanceLevel: string)

  datatype Trend = Up | Down | Steady

  datatype ClassSociety = ClassSociety(
    id: string,
    name: string,
    pscData: seq<PscPerformance>,
    trend: Trend,
    trendReason: string,
    lastUpdated: string)

  // Keys the collections are searched and filtered by.
  function ShipId(s: Ship): string { s.id }
  function ShipImo(s: Ship): string { s.imo }
  function SurveyorId(s: Surveyor): string { s.id }
  function ClassId(c: ClassSociety): string { c.id }
}
