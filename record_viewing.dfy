/**
 * The record viewing page of src/pages/RecordViewing/index.jsx: the patient search, the
 * Bundles shown for a patient, the two "Total Conditions" cards and the label shown for each
 * coding of a Condition.
 *
 * The page reads the patient list of `GET /api/patients` as plain JSON objects; a
 * `PatientRow` holds the fields it looks at, each missing or present.
 */
module RecordViewing {
  import opened Wrappers
  import opened Text
  import opened Seqs
  import opened Fhir
  import opened Backend

  datatype PatientRow = PatientRow(
    name: Option<string>,
    id: Option<string>,
    conditions: Option<seq<StoredCondition>>,
    bundleIds: Option<seq<string>>)

  /** The JSON object the server sends for a stored record: it has no `name` and no `id`
      field. */
  function RowOf(p: StoredPatient): PatientRow
  {
    PatientRow(None, None, Some(p.conditions), Some(p.bundleIds))
  }

  function Rows(patients: seq<StoredPatient>): (rows: seq<PatientRow>)
    ensures |rows| == |patients|
  {
    seq(|patients|, i requires 0 <= i < |patients| => RowOf(patients[i]))
  }

  // ---------------------------------------------------------------------------------------
  // Search

  /** `field?.toLowerCase().includes(searchLower)`: a missing field never matches, a present
      one (even empty) is searched. */
  predicate Has(field: Option<string>, term: string)
  {
    field.Some? && Contains(Lower(field.value), Lower(term))
  }

  predicate ConditionMatches(c: StoredCondition, term: string)
  {
    Has(c.codes.namaste, term) || Has(c.codes.icd, term)
  }

  predicate SomeConditionMatches(p: PatientRow, term: string)
  {
    p.conditions.Some? && exists i | 0 <= i < |p.conditions.value| :: ConditionMatches(p.conditions.value[i], term)
  }

  predicate PatientMatches(p: PatientRow, term: string)
  {
    Has(p.name, term) || Has(p.id, term) || SomeConditionMatches(p, term)
  }

  /** `filteredPatients` for the search box holding `term`. */
  function FilteredPatients(patients: seq<PatientRow>, term: string): seq<PatientRow>
  {
    Filter(patients, (p: PatientRow) => PatientMatches(p, term))
  }

  /** The list shows exactly the matching patients, each as often as it occurs, in the order of
      the patient list. */
  lemma FilteredPatientsSpec(a: seq<PatientRow>, b: seq<PatientRow>, term: string, x: PatientRow)
    ensures multiset(FilteredPatients(a, term))[x] == if PatientMatches(x, term) then multiset(a)[x] else 0
    ensures FilteredPatients(a + b, term) == FilteredPatients(a, term) + FilteredPatients(b, term)
  {
    FilterCount(a, (p: PatientRow) => PatientMatches(p, term), x);
    FilterAppend(a, b, (p: PatientRow) => PatientMatches(p, term));
  }

  lemma ContainsEmpty(s: string)
    ensures Contains(s, "")
  {
    assert OccursAt(s, "", 0);
  }

  /** With an empty search box a patient is listed exactly when it has a name, an id, or a
      Condition with a NAMASTE or ICD code. */
  lemma EmptyTermKeepsDefined(p: PatientRow)
    ensures PatientMatches(p, "") <==>
      p.name.Some? || p.id.Some? ||
      (p.conditions.Some? && exists i | 0 <= i < |p.conditions.value| ::
         p.conditions.value[i].codes.namaste.Some? || p.conditions.value[i].codes.icd.Some?)
  {
    assert Lower("") == "";
    forall s: string
      ensures Contains(Lower(s), Lower(""))
    {
      ContainsEmpty(Lower(s));
    }
  }

  /** As written, a record the server stores is found only through the codes of its
      Conditions: it has no `name` or `id` field, so its name and ABHA number are never
      searched. */
  lemma StoredRecordsMatchOnlyByCode(p: StoredPatient, term: string)
    ensures PatientMatches(RowOf(p), term) <==>
      exists i | 0 <= i < |p.conditions| :: ConditionMatches(p.conditions[i], term)
  {
  }

  /** A stored patient with no Conditions is listed for no search at all, not even one for its
      own first name. */
  lemma PatientWithoutConditionsNeverListed(p: StoredPatient)
    requires p.conditions == []
    ensures FilteredPatients([RowOf(p)], p.firstName) == []
  {
    assert [RowOf(p)][..0] == [];
  }

  /** The row the search was evidently meant to read: the patient's full name and ABHA
      number. */
  function RowOfFixed(p: StoredPatient): PatientRow
  {
    PatientRow(Some(p.firstName + " " + p.lastName), p.abhaId, Some(p.conditions), Some(p.bundleIds))
  }

  /** With the fixed row, a stored patient is found by its first name and by its ABHA number. */
  lemma FixedRowFindsByNameAndId(p: StoredPatient)
    ensures PatientMatches(RowOfFixed(p), p.firstName)
    ensures p.abhaId.Some? ==> PatientMatches(RowOfFixed(p), p.abhaId.value)
  {
    var full := p.firstName + " " + p.lastName;
    assert Lower(full)[0..|p.firstName|] == Lower(p.firstName);
    assert OccursAt(Lower(full), Lower(p.firstName), 0);
    if p.abhaId.Some? {
      var a := Lower(p.abhaId.value);
      assert a[0..|a|] == a;
      assert OccursAt(a, a, 0);
    }
  }

  // ---------------------------------------------------------------------------------------
  // A patient's Bundles

  function BundleWithId(bundles: seq<Bundle>, id: string): Option<Bundle>
  {
    Find(bundles, (b: Bundle) => b.id == Some(id))
  }

  /** `bundleIds.map(id => fhirBundles.find(b => b.id === id)).filter(Boolean)` */
  function BundlesFor(ids: seq<string>, bundles: seq<Bundle>): seq<Bundle>
  {
    if ids == [] then []
    else
      var b := BundleWithId(bundles, ids[|ids| - 1]);
      BundlesFor(ids[..|ids| - 1], bundles) + (if b.Some? then [b.value] else [])
  }

  /** `getPatientBundles(patient)`: `[]` when the record lists no `bundleIds`. */
  function PatientBundles(p: PatientRow, bundles: seq<Bundle>): seq<Bundle>
  {
    if p.bundleIds.None? then [] else BundlesFor(p.bundleIds.value, bundles)
  }

  /** Every Bundle shown is a stored Bundle whose id the record lists, and no more are shown
      than the record lists. */
  lemma {:induction false} BundlesForSound(ids: seq<string>, bundles: seq<Bundle>)
    ensures |BundlesFor(ids, bundles)| <= |ids|
    ensures forall b | b in BundlesFor(ids, bundles) :: b in bundles && b.id.Some? && b.id.value in ids
  {
    if ids != [] {
      BundlesForSound(ids[..|ids| - 1], bundles);
    }
  }

  /** An id of a stored Bundle finds a Bundle with that id. */
  lemma StoredIdFound(bundles: seq<Bundle>, id: string)
    requires Some(id) in IdsOf(bundles)
    ensures BundleWithId(bundles, id).Some? && BundleWithId(bundles, id).value.id == Some(id)
  {
    var b :| b in bundles && b.id == Some(id);
    var k :| 0 <= k < |bundles| && bundles[k] == b;
    assert ((x: Bundle) => x.id == Some(id))(bundles[k]);
  }

  /** Every listed id finds a Bundle with that id. */
  predicate AllFound(ids: seq<string>, bundles: seq<Bundle>)
  {
    forall i | 0 <= i < |ids| :: BundleWithId(bundles, ids[i]).Some? && BundleWithId(bundles, ids[i]).value.id == Some(ids[i])
  }

  /** When every listed id names a stored Bundle, one Bundle is shown per id, in the record's
      order. */
  lemma {:induction false} BundlesForComplete(ids: seq<string>, bundles: seq<Bundle>)
    requires AllFound(ids, bundles)
    ensures |BundlesFor(ids, bundles)| == |ids|
    ensures forall i | 0 <= i < |ids| :: BundlesFor(ids, bundles)[i].id == Some(ids[i])
  {
    if ids != [] {
      var n := |ids| - 1;
      var front := ids[..n];
      assert AllFound(front, bundles) by {
        forall i | 0 <= i < n
          ensures BundleWithId(bundles, front[i]).Some? && BundleWithId(bundles, front[i]).value.id == Some(front[i])
        {
          assert front[i] == ids[i];
        }
      }
      BundlesForComplete(front, bundles);
      var last := BundleWithId(bundles, ids[n]);
      assert last.Some? && last.value.id == Some(ids[n]);
      var r := BundlesFor(ids, bundles);
      assert r == BundlesFor(front, bundles) + [last.value];
      forall i | 0 <= i < |ids|
        ensures r[i].id == Some(ids[i])
      {
        if i < n {
          assert ids[i] == front[i];
        }
      }
    }
  }

  /** On the server's own data, every record shows all the Bundles it lists, in order. */
  lemma ServerRecordsShowTheirBundles(s: Server, k: nat)
    requires s.Valid() && k < |s.patients|
    ensures |PatientBundles(Rows(s.patients)[k], s.fhirBundles)| == |s.patients[k].bundleIds|
    ensures forall i | 0 <= i < |s.patients[k].bundleIds| ::
      PatientBundles(Rows(s.patients)[k], s.fhirBundles)[i].id == Some(s.patients[k].bundleIds[i])
  {
    var ids := s.patients[k].bundleIds;
    forall i | 0 <= i < |ids|
      ensures BundleWithId(s.fhirBundles, ids[i]).Some? && BundleWithId(s.fhirBundles, ids[i]).value.id == Some(ids[i])
    {
      assert ids[i] in ids;
      StoredIdFound(s.fhirBundles, ids[i]);
    }
    BundlesForComplete(ids, s.fhirBundles);
  }

  // ---------------------------------------------------------------------------------------
  // The summary cards

  /** `patients.reduce((acc, p) => acc + (p.conditions?.length || 0), 0)` */
  function RowConditionTotal(rows: seq<PatientRow>): nat
  {
    if rows == [] then 0
    else
      var p := rows[|rows| - 1];
      RowConditionTotal(rows[..|rows| - 1]) + (if p.conditions.Some? then |p.conditions.value| else 0)
  }

  lemma {:induction false} RowConditionTotalOfRecords(patients: seq<StoredPatient>)
    ensures RowConditionTotal(Rows(patients)) == PatientConditionTotal(patients)
  {
    if patients != [] {
      var n := |patients| - 1;
      assert Rows(patients)[..n] == Rows(patients[..n]);
      RowConditionTotalOfRecords(patients[..n]);
    }
  }

  /** On the server's data the two "Total Conditions" cards show the same number: the
      Conditions counted in the Bundles and those held by the patient records. */
  lemma ConditionCardsAgree(s: Server)
    requires s.Valid()
    ensures RowConditionTotal(Rows(s.patients)) == TotalConditions(s.fhirBundles)
  {
    RowConditionTotalOfRecords(s.patients);
  }

  // ---------------------------------------------------------------------------------------
  // Coding labels

  predicate SystemHas(system: Option<string>, part: string)
  {
    system.Some? && Contains(system.value, part)
  }

  /** The label shown above a coding of a Condition. */
  function CodingLabel(system: Option<string>): string
  {
    if SystemHas(system, "namaste") then "NAMASTE"
    else if SystemHas(system, "icd") && SystemHas(system, "biomedicine") then "ICD Biomedicine"
    else if SystemHas(system, "icd") then "ICD-11"
    else "TM2"
  }

  lemma NamasteSystemLabel()
    ensures CodingLabel(Some(NAMASTE_SYSTEM)) == "NAMASTE"
  {
    assert NAMASTE_SYSTEM == "http://" + "namaste" + ".terminology.system";
    assert ("http://" + "namaste" + ".terminology.system")[7..14] == "namaste";
    assert OccursAt(NAMASTE_SYSTEM, "namaste", 7);
  }

  lemma Tm2SystemLabel()
    ensures CodingLabel(Some(TM2_SYSTEM)) == "TM2"
  {
    AbsentPair(TM2_SYSTEM, "namaste", 0);
    AbsentPair(TM2_SYSTEM, "icd", 1);
  }

  lemma BiomedicineSystemLabel()
    ensures CodingLabel(Some(BIOMEDICINE_SYSTEM)) == "TM2"
  {
    AbsentPair(BIOMEDICINE_SYSTEM, "namaste", 0);
    AbsentPair(BIOMEDICINE_SYSTEM, "icd", 1);
  }

  /** The labels of the three codings of a Condition built by the mapping tool: the
      biomedicine system names no ICD, so its coding is labelled "TM2", like the TM2 one. */
  lemma GeneratedCodingLabels()
    ensures CodingLabel(Some(NAMASTE_SYSTEM)) == "NAMASTE"
    ensures CodingLabel(Some(TM2_SYSTEM)) == "TM2"
    ensures CodingLabel(Some(BIOMEDICINE_SYSTEM)) == "TM2"
  {
    NamasteSystemLabel();
    Tm2SystemLabel();
    BiomedicineSystemLabel();
  }

  /** A missing system, or one naming none of NAMASTE and ICD, is labelled "TM2". */
  lemma LabelDefault(system: Option<string>)
    requires !SystemHas(system, "namaste") && !SystemHas(system, "icd")
    ensures CodingLabel(system) == "TM2"
  {
  }
}
