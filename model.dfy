/** The records the service exchanges with its clients and its catalogs. */
module Model {
  import opened Wrappers
  import opened Text

  /** A double as its IEEE 754 binary64 bit pattern. */
  type Double = bv64

  /** double.IsNaN: all exponent bits set and a non-zero fraction. */
  predicate IsNaN(d: Double) {
    (d >> 52) & 0x7FF == 0x7FF && d & 0xF_FFFF_FFFF_FFFF != 0
  }

  /** A taxon list a user may download. */
  datatype TaxonList = TaxonList(
    id: int,
    displayText: NString,
    taxonomicGroup: NString,
    catalog: NString,
    isPublicList: bool,
    table: NString)

  /** An analysis made available to a taxonomic group. */
  datatype AnalysisTaxonomicGroup = AnalysisTaxonomicGroup(analysisId: int, taxonomicGroup: NString)

  /** An analysis of a project; a null parent marks a root of the hierarchy. */
  datatype Analysis = Analysis(analysisId: int, analysisParentId: Option<int>)

  /** A project a user may work in; `details` stands for its other columns. */
  datatype Project = Project(displayText: NString, details: string)

  /** An identification qualifier; `details` stands for its other columns. */
  datatype Qualification = Qualification(displayText: NString, details: string)

  /** A point of a path, as the client sends it. */
  datatype Localization = Localization(latitude: Double, longitude: Double, altitude: Option<Double>)

  /** A collection event series; `details` stands for its other columns. */
  datatype EventSeries = EventSeries(collectionEventSeriesId: int, details: string)

  /** A collection event and its coordinates; `details` stands for its other columns. */
  datatype Event = Event(
    collectionEventId: int,
    latitude: Option<Double>,
    longitude: Option<Double>,
    altitude: Option<Double>,
    details: string)

  /** A localisation row of an event. */
  datatype EventLocalisation = EventLocalisation(
    collectionEventId: int,
    localisationSystemId: int,
    location1: NString,
    location2: NString)

  /** A property of an event. */
  datatype EventProperty = EventProperty(
    collectionEventId: int,
    propertyId: int,
    displayText: NString,
    propertyUri: NString)

  /** A specimen; `details` stands for its other columns. */
  datatype Specimen = Specimen(collectionSpecimenId: int, collectionEventId: int, details: string)

  /** An identification unit of a specimen and its coordinates. */
  datatype IdentificationUnit = IdentificationUnit(
    collectionUnitId: int,
    collectionSpecimenId: int,
    latitude: Option<Double>,
    longitude: Option<Double>,
    altitude: Option<Double>,
    details: string)

  /** An analysis result attached to an identification unit; `details` stands for its other columns. */
  datatype IdentificationUnitAnalysis = IdentificationUnitAnalysis(
    collectionUnitId: int,
    collectionSpecimenId: int,
    details: string)

  /** The kind of entity a multimedia object belongs to; `Other` is any undeclared enum value. */
  datatype MultimediaOwner = EventSeriesOwner | EventOwner | SpecimenOwner | IdentificationUnitOwner | OtherOwner(code: int)

  /** A multimedia object; `details` stands for its other fields. */
  datatype MultimediaObject = MultimediaObject(ownerType: MultimediaOwner, details: string)
}
