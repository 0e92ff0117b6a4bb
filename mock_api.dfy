/**
 * The in-browser mock backend of src/services/mockApi.js: saving the rows of a mapping CSV
 * builds a FHIR CodeSystem of the source codes and a ConceptMap from each source code to its
 * ICD-10-CM target, and the mapping resources can be read back once a file was saved. The
 * promise delays are left out: each call is one step.
 */
module MockApi {
  import opened Wrappers

  /** A parsed CSV row; a column the file lacks is `None` (`undefined`). */
  datatype CsvRow = CsvRow(
    sourceCode: Option<string>,
    sourceDisplay: Option<string>,
    targetCode: Option<string>,
    targetDisplay: Option<string>)

  datatype Concept = Concept(code: Option<string>, display: Option<string>)

  datatype CodeSystem = CodeSystem(id: string, name: string, status: string, content: string, concept: seq<Concept>)

  datatype Target = Target(code: Option<string>, display: Option<string>, equivalence: string)

  datatype Element = Element(code: Option<string>, display: Option<string>, target: seq<Target>)

  datatype Group = Group(source: string, target: string, element: seq<Element>)

  datatype ConceptMap = ConceptMap(
    id: string, name: string, status: string, sourceUri: string, targetUri: string, group: seq<Group>)

  const ICD10CM := "http://hl7.org/fhir/sid/icd-10-cm"
  const NO_RESOURCES_MESSAGE := "No mapping resources found. Please ingest a CSV file first."
  const SAVED_MESSAGE := "CSV data saved successfully."

  function ConceptOf(row: CsvRow): Concept
  {
    Concept(row.sourceCode, row.sourceDisplay)
  }

  function ElementOf(row: CsvRow): Element
  {
    Element(row.sourceCode, row.sourceDisplay, [Target(row.targetCode, row.targetDisplay, "equivalent")])
  }

  /** The CodeSystem `createFhirResources` builds. */
  function CodeSystemOf(rows: seq<CsvRow>): CodeSystem
  {
    CodeSystem("namaste-cs", "NamasteCodeSystem", "active", "complete",
      seq(|rows|, i requires 0 <= i < |rows| => ConceptOf(rows[i])))
  }

  /** The ConceptMap `createFhirResources` builds, whose single group maps from that
      CodeSystem. */
  function ConceptMapOf(rows: seq<CsvRow>): ConceptMap
  {
    ConceptMap("namaste-cm", "NamasteConceptMap", "active", "#namaste-cs", ICD10CM,
      [Group(CodeSystemOf(rows).id, ICD10CM, seq(|rows|, i requires 0 <= i < |rows| => ElementOf(rows[i])))])
  }

  /** One concept per row, in order, from the source columns; one element per row, in order,
      with exactly one `equivalent` target from the target columns; the group's source is the
      CodeSystem's id. */
  lemma ResourcesOfRows(rows: seq<CsvRow>)
    ensures |CodeSystemOf(rows).concept| == |rows|
    ensures |ConceptMapOf(rows).group| == 1
    ensures ConceptMapOf(rows).group[0].source == CodeSystemOf(rows).id == "namaste-cs"
    ensures |ConceptMapOf(rows).group[0].element| == |rows|
    ensures forall i | 0 <= i < |rows| ::
      && CodeSystemOf(rows).concept[i].code == rows[i].sourceCode
      && CodeSystemOf(rows).concept[i].display == rows[i].sourceDisplay
      && ConceptMapOf(rows).group[0].element[i].target == [Target(rows[i].targetCode, rows[i].targetDisplay, "equivalent")]
  {
  }

  /** The two resources agree: element `i` of the ConceptMap maps concept `i` of the
      CodeSystem. */
  lemma ConceptMapCoversCodeSystem(rows: seq<CsvRow>, i: nat)
    requires i < |CodeSystemOf(rows).concept|
    ensures i < |ConceptMapOf(rows).group[0].element|
    ensures ConceptMapOf(rows).group[0].element[i].code == CodeSystemOf(rows).concept[i].code
    ensures ConceptMapOf(rows).group[0].element[i].display == CodeSystemOf(rows).concept[i].display
  {
  }

  /** Building the resources loses no row: different rows give different resources. */
  lemma ResourcesDetermineRows(a: seq<CsvRow>, b: seq<CsvRow>)
    requires CodeSystemOf(a) == CodeSystemOf(b) && ConceptMapOf(a) == ConceptMapOf(b)
    ensures a == b
  {
    assert |a| == |CodeSystemOf(a).concept| == |b|;
    forall i | 0 <= i < |a|
      ensures a[i] == b[i]
    {
      assert CodeSystemOf(a).concept[i] == CodeSystemOf(b).concept[i];
      assert ConceptMapOf(a).group[0].element[i] == ConceptMapOf(b).group[0].element[i];
    }
  }

  datatype SaveReply = SaveReply(success: bool, message: string)

  datatype MappingReply = MappingResources(codeSystem: CodeSystem, conceptMap: ConceptMap) | NoMappingResources(message: string)

  /** The module-level state of the mock backend. */
  class MockBackend {
    var storedCsvData: Option<seq<CsvRow>>
    var codeSystem: Option<CodeSystem>
    var conceptMap: Option<ConceptMap>

    /** The resources are those of the stored rows, and there are none before a save. */
    predicate Valid()
      reads this
    {
      && (storedCsvData.None? ==> codeSystem.None? && conceptMap.None?)
      && (storedCsvData.Some? ==>
            codeSystem == Some(CodeSystemOf(storedCsvData.value)) &&
            conceptMap == Some(ConceptMapOf(storedCsvData.value)))
    }

    constructor ()
      ensures Valid() && storedCsvData.None?
    {
      storedCsvData := None;
      codeSystem := None;
      conceptMap := None;
    }

    /** `saveNamasteCsv(rows)`: always succeeds, and replaces the rows and both resources. */
    method SaveNamasteCsv(rows: seq<CsvRow>) returns (reply: SaveReply)
      modifies this
      ensures Valid()
      ensures reply == SaveReply(true, SAVED_MESSAGE)
      ensures storedCsvData == Some(rows)
    {
      storedCsvData := Some(rows);
      codeSystem := Some(CodeSystemOf(rows));
      conceptMap := Some(ConceptMapOf(rows));
      reply := SaveReply(true, SAVED_MESSAGE);
    }

    /** `getMappingResources()` */
    method GetMappingResources() returns (reply: MappingReply)
      requires Valid()
      ensures storedCsvData.None? ==> reply == NoMappingResources(NO_RESOURCES_MESSAGE)
      ensures storedCsvData.Some? ==>
        reply == MappingResources(CodeSystemOf(storedCsvData.value), ConceptMapOf(storedCsvData.value))
    {
      if codeSystem.Some? && conceptMap.Some? {
        reply := MappingResources(codeSystem.value, conceptMap.value);
      } else {
        reply := NoMappingResources(NO_RESOURCES_MESSAGE);
      }
    }
  }

  /** A save followed by a read returns the resources of the rows just saved, whatever was
      saved before. */
  method SaveThenRead(backend: MockBackend, rows: seq<CsvRow>) returns (reply: MappingReply)
    modifies backend
    ensures reply == MappingResources(CodeSystemOf(rows), ConceptMapOf(rows))
  {
    var _ := backend.SaveNamasteCsv(rows);
    reply := backend.GetMappingResources();
  }
}
