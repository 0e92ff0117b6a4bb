/**
 * The two code tables the mapping scripts read and the mapping entries they produce.
 * A CSV cell that is empty or absent is the empty string: the scripts only ever test
 * these cells for truthiness.
 */
module Terminology {

  /** One row of the NAMASTE CSV (columns Disease, NAMC_CODE, NAMC_term,
      NAMC_term_diacritical, NAMC_term_DEVANAGARI, Name English, Short_definition). */
  datatype NamasteRow = NamasteRow(
    disease: string,
    namcCode: string,
    namcTerm: string,
    diacritical: string,
    devanagari: string,
    nameEnglish: string,
    shortDefinition: string)

  /** One row of icd.csv (columns Disease, ICD_TM2_codes, ICD11_Biomed_codes, Name English,
      Short_definition). */
  datatype IcdRow = IcdRow(
    disease: string,
    tm2Code: string,
    biomedCode: string,
    nameEnglish: string,
    shortDefinition: string)

  function NamasteDisease(r: NamasteRow): string { r.disease }

  function IcdDisease(r: IcdRow): string { r.disease }

  /** The `{ disease, code, display }` object that mapDiseasesUnique.js and
      mapDiseasesUpdated.js build from the matched ICD row. */
  datatype IcdRef = IcdRef(disease: string, code: string, display: string)

  function IcdRefOf(row: IcdRow): IcdRef
  {
    IcdRef(row.disease, row.tm2Code, row.nameEnglish)
  }

  /** A mapping entry `{ namaste, icd, similarity }`. */
  datatype Mapping = Mapping(namaste: NamasteRow, icd: IcdRef, similarity: int)

  /** A `{ code, display }` pair. */
  datatype CodeRef = CodeRef(code: string, display: string)

  /** A mapping entry `{ namaste, tm2, biomedicine, similarity }` as scripts/mapDiseases.js
      builds it; this is also the shape of diseaseMappings.json that the server and the
      mapping tool read. */
  datatype Tm2Mapping = Tm2Mapping(namaste: NamasteRow, tm2: CodeRef, biomedicine: CodeRef, similarity: int)
}
