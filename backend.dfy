/**
 * The Express API of app.js: the patient lookup behind its rate limiter and ordered gate,
 * FHIR Bundle ingest with condition-code extraction and backfill, and the NAMASTE CSV
 * upload and reset. The server's in-memory lists and its rate-limit map are the fields of
 * `Server`; the JSON files they are saved to and loaded from are not part of this model.
 */
module Backend {
  import opened Wrappers
  import opened Text
  import opened Seqs
  import opened Abha
  import opened Terminology
  import opened Fhir

  // ---------------------------------------------------------------------------------------
  // Rate limiting

  /** 15 minutes, in milliseconds. */
  const RATE_LIMIT_WINDOW := 15 * 60 * 1000

  /** Requests allowed per client and window. */
  const RATE_LIMIT_MAX := 100

  /** The timestamps strictly newer than `windowStart`. */
  function InWindow(times: seq<int>, windowStart: int): seq<int>
  {
    Filter(times, (time: int) => time > windowStart)
  }

  /** The timestamps kept for a client; a client never seen has none. */
  function Recorded(requests: map<string, seq<int>>, ip: string): seq<int>
  {
    if ip in requests then requests[ip] else []
  }

  // ---------------------------------------------------------------------------------------
  // The patient endpoint

  /** The fields of a generated patient that the rest of the app reads; the other template
      fields (address, insurance, ...) are constants that no logic inspects. */
  datatype PatientTemplate = PatientTemplate(
    firstName: string,
    lastName: string,
    dateOfBirth: string,
    gender: string,
    phoneNumber: string,
    email: string,
    registrationDate: string)

  const TEMPLATES: seq<PatientTemplate> := [
    PatientTemplate("Amit", "Sharma", "1985-03-15", "male", "+919876543210", "amit.sharma@example.com", "2023-01-15"),
    PatientTemplate("Priya", "Patel", "1992-07-22", "female", "+919876543212", "priya.patel@example.com", "2023-02-20"),
    PatientTemplate("Rajesh", "Kumar", "1978-11-08", "male", "+919876543214", "rajesh.kumar@example.com", "2023-03-10"),
    PatientTemplate("Kavita", "Singh", "1988-05-30", "female", "+919876543216", "kavita.singh@example.com", "2023-04-05")]

  /** `{ abhaId, ...patients[index] }`: spreading `undefined` (an index of NaN) adds nothing. */
  datatype GeneratedPatient = GeneratedPatient(abhaId: string, details: Option<PatientTemplate>)

  /** `s.replace(/-/g, '')` */
  function WithoutDashes(s: string): (r: string)
    ensures |r| <= |s|
    ensures s != [] && s[|s| - 1] != '-' ==> r != [] && r[|r| - 1] == s[|s| - 1]
  {
    if s == [] then []
    else WithoutDashes(s[..|s| - 1]) + (if s[|s| - 1] == '-' then [] else [s[|s| - 1]])
  }

  /** `parseInt(abhaId.replace(/-/g, '').slice(-1)) % 4`; `None` is NaN, when the last
      character left is not a digit or nothing is left. */
  function TemplateIndex(abhaId: string): (k: Option<nat>)
    ensures k.Some? ==> k.value < |TEMPLATES|
  {
    var t := WithoutDashes(abhaId);
    if t != [] && IsDigit(t[|t| - 1]) then Some((t[|t| - 1] as int - '0' as int) % 4) else None
  }

  /** `generateRealisticPatient(abhaId)` */
  function GenerateRealisticPatient(abhaId: string): (p: GeneratedPatient)
    ensures p.abhaId == abhaId
  {
    var k := TemplateIndex(abhaId);
    GeneratedPatient(abhaId, if k.Some? then Some(TEMPLATES[k.value]) else None)
  }

  /** A valid ABHA number picks the template of its last digit modulo 4. */
  lemma ValidIdPicksLastDigit(abhaId: string)
    requires IsValidAbhaId(abhaId)
    ensures GenerateRealisticPatient(abhaId).details == Some(TEMPLATES[(abhaId[16] as int - '0' as int) % 4])
  {
    assert !DashPosition(16);
  }

  /** The IDs the mock directory knows. */
  const KNOWN_IDS := ["12-3456-7890-1234", "23-4567-8901-2345", "34-5678-9012-3456", "45-6789-0123-4567"]

  lemma KnownIdsValid()
    ensures forall k | 0 <= k < |KNOWN_IDS| :: IsValidAbhaId(KNOWN_IDS[k])
  {
    forall k | 0 <= k < |KNOWN_IDS|
      ensures IsValidAbhaId(KNOWN_IDS[k])
    {
      KnownIdValid(k);
    }
  }

  lemma KnownIdValid(k: nat)
    requires k < |KNOWN_IDS|
    ensures IsValidAbhaId(KNOWN_IDS[k])
  {
    if k == 0 {
      KnownIdValidAt("12", "3456", "7890", "1234", k);
    } else if k == 1 {
      KnownIdValidAt("23", "4567", "8901", "2345", k);
    } else if k == 2 {
      KnownIdValidAt("34", "5678", "9012", "3456", k);
    } else {
      KnownIdValidAt("45", "6789", "0123", "4567", k);
    }
  }

  lemma KnownIdValidAt(a: string, b: string, c: string, d: string, k: nat)
    requires k < |KNOWN_IDS| && KNOWN_IDS[k] == a + "-" + b + "-" + c + "-" + d
    requires |a| == 2 && |b| == 4 && |c| == 4 && |d| == 4
    requires AllDigits(a) && AllDigits(b) && AllDigits(c) && AllDigits(d)
    ensures IsValidAbhaId(KNOWN_IDS[k])
  {
    ValidFromGroups(a, b, c, d);
  }

  lemma ValidFromGroups(a: string, b: string, c: string, d: string)
    requires |a| == 2 && |b| == 4 && |c| == 4 && |d| == 4
    requires AllDigits(a) && AllDigits(b) && AllDigits(c) && AllDigits(d)
    ensures IsValidAbhaId(a + "-" + b + "-" + c + "-" + d)
  {
    var s := a + "-" + b + "-" + c + "-" + d;
    forall i | 0 <= i < |s|
      ensures if DashPosition(i) then s[i] == '-' else IsDigit(s[i])
    {
      if i < 2 { assert s[i] == a[i]; }
      else if i < 7 && i != 2 { assert s[i] == b[i - 3]; }
      else if i < 12 && i != 7 && i != 2 { assert s[i] == c[i - 8]; }
      else if i > 12 { assert s[i] == d[i - 13]; }
    }
  }

  /** The four known IDs end in 4, 5, 6 and 7, so each gets a template of its own. */
  lemma KnownIdsGetDistinctTemplates()
    ensures forall k | 0 <= k < |KNOWN_IDS| :: GenerateRealisticPatient(KNOWN_IDS[k]).details == Some(TEMPLATES[k])
  {
    KnownIdsValid();
    forall k | 0 <= k < |KNOWN_IDS|
      ensures GenerateRealisticPatient(KNOWN_IDS[k]).details == Some(TEMPLATES[k])
    {
      ValidIdPicksLastDigit(KNOWN_IDS[k]);
    }
  }

  /** The replies of `GET /api/patient/:abhaId`. */
  datatype PatientReply =
    | TooManyRequests
    | InvalidFormat
    | ServiceUnavailable
    | PatientNotFound
    | PatientFound(patient: GeneratedPatient)

  function StatusOf(r: PatientReply): int
  {
    match r
    case TooManyRequests => 429
    case InvalidFormat => 400
    case ServiceUnavailable => 503
    case PatientNotFound => 404
    case PatientFound(_) => 200
  }

  /** The endpoint's checks, in their order, once the rate limiter has answered `admitted`;
      `mockMode` is the environment variable MOCK_MODE. */
  function PatientGate(admitted: bool, abhaId: string, mockMode: Option<string>): PatientReply
  {
    if !admitted then TooManyRequests
    else if !IsValidAbhaId(abhaId) then InvalidFormat
    else if mockMode == Some("false") then ServiceUnavailable
    else if abhaId !in KNOWN_IDS then PatientNotFound
    else PatientFound(GenerateRealisticPatient(abhaId))
  }

  /** A patient comes back exactly for an admitted request for a known ID outside the
      switched-off mode, and it carries the requested ID and a template. */
  lemma GateFound(admitted: bool, abhaId: string, mockMode: Option<string>)
    ensures PatientGate(admitted, abhaId, mockMode).PatientFound? <==>
      admitted && mockMode != Some("false") && abhaId in KNOWN_IDS
    ensures PatientGate(admitted, abhaId, mockMode).PatientFound? ==>
      PatientGate(admitted, abhaId, mockMode).patient.abhaId == abhaId &&
      PatientGate(admitted, abhaId, mockMode).patient.details.Some?
  {
    KnownIdsGetDistinctTemplates();
    if abhaId in KNOWN_IDS {
      var k :| 0 <= k < |KNOWN_IDS| && KNOWN_IDS[k] == abhaId;
      KnownIdsValid();
      assert IsValidAbhaId(KNOWN_IDS[k]);
    }
  }

  /** A refused request is refused whatever it asks for; a malformed ID is rejected before
      the mode is looked at. */
  lemma GateOrder(abhaId: string, mockMode: Option<string>)
    ensures StatusOf(PatientGate(false, abhaId, mockMode)) == 429
    ensures !IsValidAbhaId(abhaId) ==> StatusOf(PatientGate(true, abhaId, mockMode)) == 400
    ensures IsValidAbhaId(abhaId) && mockMode == Some("false") ==> StatusOf(PatientGate(true, abhaId, mockMode)) == 503
  {
  }

  /** The cases of tests/api.test.js, with MOCK_MODE set to 'true' unless stated. */
  lemma GateExamples()
    ensures StatusOf(PatientGate(true, "12-3456-7890-1234", Some("true"))) == 200
    ensures PatientGate(true, "12-3456-7890-1234", Some("true")).patient.abhaId == "12-3456-7890-1234"
    ensures StatusOf(PatientGate(true, "invalid-id", Some("true"))) == 400
    ensures StatusOf(PatientGate(true, "99-9999-9999-9999", Some("true"))) == 404
    ensures StatusOf(PatientGate(true, "12-3456-7890-1234", Some("false"))) == 503
  {
    KnownIdsValid();
    assert !IsValidAbhaId("invalid-id") by {
      assert |"invalid-id"| != ABHA_LENGTH;
    }
    assert IsValidAbhaId("99-9999-9999-9999");
    assert "99-9999-9999-9999" !in KNOWN_IDS;
  }

  // ---------------------------------------------------------------------------------------
  // Condition codes of an uploaded Bundle

  /** The NAMASTE and ICD codes kept for a Condition; `None` is null or undefined. */
  datatype ConditionCodes = ConditionCodes(namaste: Option<string>, icd: Option<string>)

  /** A coding the extraction loop takes as ICD: it reaches the `else if` and its system is
      truthy and contains 'icd' or 'ICD'. */
  predicate IsIcdCoding(c: Coding)
  {
    c.system != NAMASTE_SYSTEM && c.system != "" && (Contains(c.system, "icd") || Contains(c.system, "ICD"))
  }

  /** The codes the loop over `cond.code.coding` leaves. */
  function CodesOf(codings: seq<Coding>): ConditionCodes
  {
    if codings == [] then ConditionCodes(None, None)
    else
      var prev := CodesOf(codings[..|codings| - 1]);
      var c := codings[|codings| - 1];
      if c.system == NAMASTE_SYSTEM then prev.(namaste := c.code)
      else if IsIcdCoding(c) then prev.(icd := c.code)
      else prev
  }

  /** No coding after position `i` has the NAMASTE system. */
  predicate NoNamasteAfter(codings: seq<Coding>, i: int)
  {
    forall j | i < j < |codings| && 0 <= j :: codings[j].system != NAMASTE_SYSTEM
  }

  /** No coding after position `i` is taken as ICD. */
  predicate NoIcdAfter(codings: seq<Coding>, i: int)
  {
    forall j | i < j < |codings| && 0 <= j :: !IsIcdCoding(codings[j])
  }

  /** The NAMASTE code is that of the last coding with the NAMASTE system, and null when
      there is none; likewise the ICD code and the last ICD coding. */
  lemma CodesOfLast(codings: seq<Coding>)
    ensures NoNamasteAfter(codings, -1) ==> CodesOf(codings).namaste == None
    ensures forall i | 0 <= i < |codings| && codings[i].system == NAMASTE_SYSTEM && NoNamasteAfter(codings, i) ::
      CodesOf(codings).namaste == codings[i].code
    ensures NoIcdAfter(codings, -1) ==> CodesOf(codings).icd == None
    ensures forall i | 0 <= i < |codings| && IsIcdCoding(codings[i]) && NoIcdAfter(codings, i) ::
      CodesOf(codings).icd == codings[i].code
  {
    if NoNamasteAfter(codings, -1) {
      NoNamasteCode(codings);
    }
    if NoIcdAfter(codings, -1) {
      NoIcdCode(codings);
    }
    forall i | 0 <= i < |codings| && codings[i].system == NAMASTE_SYSTEM && NoNamasteAfter(codings, i)
      ensures CodesOf(codings).namaste == codings[i].code
    {
      LastNamasteCode(codings, i);
    }
    forall i | 0 <= i < |codings| && IsIcdCoding(codings[i]) && NoIcdAfter(codings, i)
      ensures CodesOf(codings).icd == codings[i].code
    {
      LastIcdCode(codings, i);
    }
  }

  lemma {:induction false} NoNamasteCode(codings: seq<Coding>)
    requires NoNamasteAfter(codings, -1)
    ensures CodesOf(codings).namaste == None
  {
    if codings != [] {
      var n := |codings| - 1;
      var front := codings[..n];
      assert codings[n].system != NAMASTE_SYSTEM;
      assert NoNamasteAfter(front, -1) by {
        assert forall j | 0 <= j < n :: front[j] == codings[j];
      }
      NoNamasteCode(front);
    }
  }

  lemma {:induction false} LastNamasteCode(codings: seq<Coding>, i: nat)
    requires i < |codings| && codings[i].system == NAMASTE_SYSTEM && NoNamasteAfter(codings, i)
    ensures CodesOf(codings).namaste == codings[i].code
  {
    var n := |codings| - 1;
    if i < n {
      var front := codings[..n];
      assert codings[n].system != NAMASTE_SYSTEM;
      assert front[i] == codings[i];
      assert NoNamasteAfter(front, i) by {
        assert forall j | i < j < n :: front[j] == codings[j];
      }
      LastNamasteCode(front, i);
    }
  }

  lemma {:induction false} NoIcdCode(codings: seq<Coding>)
    requires NoIcdAfter(codings, -1)
    ensures CodesOf(codings).icd == None
  {
    if codings != [] {
      var n := |codings| - 1;
      var front := codings[..n];
      assert !IsIcdCoding(codings[n]);
      assert NoIcdAfter(front, -1) by {
        assert forall j | 0 <= j < n :: front[j] == codings[j];
      }
      NoIcdCode(front);
    }
  }

  lemma {:induction false} LastIcdCode(codings: seq<Coding>, i: nat)
    requires i < |codings| && IsIcdCoding(codings[i]) && NoIcdAfter(codings, i)
    ensures CodesOf(codings).icd == codings[i].code
  {
    var n := |codings| - 1;
    if i < n {
      var front := codings[..n];
      assert !IsIcdCoding(codings[n]);
      assert front[i] == codings[i];
      assert NoIcdAfter(front, i) by {
        assert forall j | i < j < n :: front[j] == codings[j];
      }
      LastIcdCode(front, i);
    }
  }

  /** The loop of the upload handler over one Condition's codings. */
  method ExtractCodes(codings: seq<Coding>) returns (namasteCode: Option<string>, icdCode: Option<string>)
    ensures ConditionCodes(namasteCode, icdCode) == CodesOf(codings)
  {
    namasteCode := None;
    icdCode := None;
    for i := 0 to |codings|
      invariant ConditionCodes(namasteCode, icdCode) == CodesOf(codings[..i])
    {
      assert codings[..i + 1][..i] == codings[..i];
      var coding := codings[i];
      if coding.system == NAMASTE_SYSTEM {
        namasteCode := coding.code;
      } else if coding.system != "" && (Contains(coding.system, "icd") || Contains(coding.system, "ICD")) {
        icdCode := coding.code;
      }
    }
    assert codings[..|codings|] == codings;
  }

  predicate HasNamasteCode(m: Tm2Mapping, code: string)
  {
    m.namaste.namcCode == code
  }

  predicate HasBiomedicineCode(m: Tm2Mapping, code: string)
  {
    m.biomedicine.code == code
  }

  /** "Map if needed": a side that is missing while the other is present is looked up in the
      disease mappings. */
  function Backfill(codes: ConditionCodes, mappings: seq<Tm2Mapping>): (r: ConditionCodes)
    ensures Truthy(codes.namaste) ==> r.namaste == codes.namaste
    ensures Truthy(codes.icd) ==> r.icd == codes.icd
    ensures Truthy(codes.namaste) == Truthy(codes.icd) ==> r == codes
  {
    if Truthy(codes.namaste) && !Truthy(codes.icd) then
      var code := codes.namaste.value;
      var k := FirstIndex(mappings, (m: Tm2Mapping) => HasNamasteCode(m, code));
      if k.Some? then codes.(icd := Some(mappings[k.value].biomedicine.code)) else codes
    else if Truthy(codes.icd) && !Truthy(codes.namaste) then
      var code := codes.icd.value;
      var k := FirstIndex(mappings, (m: Tm2Mapping) => HasBiomedicineCode(m, code));
      if k.Some? then codes.(namaste := Some(mappings[k.value].namaste.namcCode)) else codes
    else codes
  }

  /** A missing ICD code is taken from the first mapping with the Condition's NAMASTE code,
      and stays missing when no mapping has it. */
  lemma BackfillIcd(codes: ConditionCodes, mappings: seq<Tm2Mapping>)
    requires Truthy(codes.namaste) && !Truthy(codes.icd)
    ensures (forall j | 0 <= j < |mappings| :: !HasNamasteCode(mappings[j], codes.namaste.value)) ==>
      Backfill(codes, mappings) == codes
    ensures forall k | 0 <= k < |mappings| && HasNamasteCode(mappings[k], codes.namaste.value) &&
        (forall j | 0 <= j < k :: !HasNamasteCode(mappings[j], codes.namaste.value)) ::
      Backfill(codes, mappings) == ConditionCodes(codes.namaste, Some(mappings[k].biomedicine.code))
  {
    var code := codes.namaste.value;
    var p := (m: Tm2Mapping) => HasNamasteCode(m, code);
    var fi := FirstIndex(mappings, p);
    forall k | 0 <= k < |mappings| && HasNamasteCode(mappings[k], code) &&
        (forall j | 0 <= j < k :: !HasNamasteCode(mappings[j], code))
      ensures fi == Some(k)
    {
      assert p(mappings[k]);
    }
  }

  /** A missing NAMASTE code is taken from the first mapping with the Condition's ICD code,
      and stays missing when no mapping has it. */
  lemma BackfillNamaste(codes: ConditionCodes, mappings: seq<Tm2Mapping>)
    requires Truthy(codes.icd) && !Truthy(codes.namaste)
    ensures (forall j | 0 <= j < |mappings| :: !HasBiomedicineCode(mappings[j], codes.icd.value)) ==>
      Backfill(codes, mappings) == codes
    ensures forall k | 0 <= k < |mappings| && HasBiomedicineCode(mappings[k], codes.icd.value) &&
        (forall j | 0 <= j < k :: !HasBiomedicineCode(mappings[j], codes.icd.value)) ::
      Backfill(codes, mappings) == ConditionCodes(Some(mappings[k].namaste.namcCode), codes.icd)
  {
    var code := codes.icd.value;
    var p := (m: Tm2Mapping) => HasBiomedicineCode(m, code);
    var fi := FirstIndex(mappings, p);
    forall k | 0 <= k < |mappings| && HasBiomedicineCode(mappings[k], code) &&
        (forall j | 0 <= j < k :: !HasBiomedicineCode(mappings[j], code))
      ensures fi == Some(k)
    {
      assert p(mappings[k]);
    }
  }

  /** Backfilling twice is backfilling once: a code taken from the mappings is either truthy,
      so nothing is left to fill, or empty, and the same lookup gives it again. */
  lemma BackfillIdempotent(codes: ConditionCodes, mappings: seq<Tm2Mapping>)
    ensures Backfill(Backfill(codes, mappings), mappings) == Backfill(codes, mappings)
  {
  }

  /** One stored condition: `{ id, code: { namaste, icd }, display }`. */
  datatype StoredCondition = StoredCondition(id: Option<string>, codes: ConditionCodes, display: string)

  function ConditionRecord(cond: Resource, mappings: seq<Tm2Mapping>): StoredCondition
  {
    StoredCondition(cond.id, Backfill(CodesOf(cond.coding), mappings), if Truthy(cond.text) then cond.text.value else "")
  }

  /** The conditions of a Bundle: one record per Condition entry, in entry order. */
  function ConditionRecords(entry: seq<Resource>, mappings: seq<Tm2Mapping>): seq<StoredCondition>
  {
    if entry == [] then []
    else
      var last := entry[|entry| - 1];
      ConditionRecords(entry[..|entry| - 1], mappings) + (if IsCondition(last) then [ConditionRecord(last, mappings)] else [])
  }

  /** A Bundle yields as many condition records as it has Condition entries. */
  lemma {:induction false} ConditionRecordsCount(entry: seq<Resource>, mappings: seq<Tm2Mapping>)
    ensures |ConditionRecords(entry, mappings)| == ConditionCount(entry)
  {
    if entry != [] {
      ConditionRecordsCount(entry[..|entry| - 1], mappings);
    }
  }

  /** The callback of `.map` over one Condition entry. */
  method ExtractCondition(cond: Resource, mappings: seq<Tm2Mapping>) returns (c: StoredCondition)
    ensures c == ConditionRecord(cond, mappings)
  {
    var namasteCode, icdCode := ExtractCodes(cond.coding);
    if Truthy(namasteCode) && !Truthy(icdCode) {
      var code := namasteCode.value;
      var k := FirstIndex(mappings, (m: Tm2Mapping) => HasNamasteCode(m, code));
      if k.Some? {
        icdCode := Some(mappings[k.value].biomedicine.code);
      }
    } else if Truthy(icdCode) && !Truthy(namasteCode) {
      var code := icdCode.value;
      var k := FirstIndex(mappings, (m: Tm2Mapping) => HasBiomedicineCode(m, code));
      if k.Some? {
        namasteCode := Some(mappings[k.value].namaste.namcCode);
      }
    }
    c := StoredCondition(cond.id, ConditionCodes(namasteCode, icdCode), if Truthy(cond.text) then cond.text.value else "");
  }

  /** `bundle.entry.filter(Condition).map(...)` */
  method ExtractConditions(entry: seq<Resource>, mappings: seq<Tm2Mapping>) returns (conditions: seq<StoredCondition>)
    ensures conditions == ConditionRecords(entry, mappings)
  {
    conditions := [];
    for i := 0 to |entry|
      invariant conditions == ConditionRecords(entry[..i], mappings)
    {
      assert entry[..i + 1][..i] == entry[..i];
      if IsCondition(entry[i]) {
        var c := ExtractCondition(entry[i], mappings);
        conditions := conditions + [c];
      }
    }
    assert entry[..|entry|] == entry;
  }

  // ---------------------------------------------------------------------------------------
  // Stored patients

  /** A record of patients.json. */
  datatype StoredPatient = StoredPatient(
    abhaId: Option<string>,
    firstName: string,
    lastName: string,
    gender: string,
    birthDate: Option<string>,
    encounters: seq<Resource>,
    conditions: seq<StoredCondition>,
    bundleIds: seq<string>)

  predicate IsPatient(r: Resource)
  {
    r.resourceType == "Patient"
  }

  predicate IsEncounter(r: Resource)
  {
    r.resourceType == "Encounter"
  }

  /** The record a new patient gets from the Bundle's Patient resource. */
  function PatientRecord(patient: Resource, encounters: seq<Resource>, conditions: seq<StoredCondition>, bundleId: string): StoredPatient
  {
    StoredPatient(
      patient.id,
      if Truthy(patient.given) then patient.given.value else "Unknown",
      if Truthy(patient.family) then patient.family.value else "",
      if Truthy(patient.gender) then patient.gender.value else "unknown",
      if Truthy(patient.birthDate) then patient.birthDate else None,
      encounters,
      conditions,
      [bundleId])
  }

  /** An existing record after a further upload for the same patient. */
  function Merge(existing: StoredPatient, incoming: StoredPatient): StoredPatient
  {
    existing.(
      encounters := existing.encounters + incoming.encounters,
      conditions := existing.conditions + incoming.conditions,
      bundleIds := existing.bundleIds + incoming.bundleIds)
  }

  predicate SameAbhaId(p: StoredPatient, q: StoredPatient)
  {
    p.abhaId == q.abhaId
  }

  /** The patient list after storing `incoming`: merged into the first record with the same
      `abhaId`, or appended. */
  function Upsert(patients: seq<StoredPatient>, incoming: StoredPatient): seq<StoredPatient>
  {
    var k := FirstIndex(patients, (p: StoredPatient) => SameAbhaId(p, incoming));
    if k.Some? then patients[k.value := Merge(patients[k.value], incoming)] else patients + [incoming]
  }

  /** The list grows by one exactly when no record has the incoming `abhaId`; otherwise only
      the first such record changes, and it gains the incoming encounters, conditions and
      bundle ids after its own. */
  lemma UpsertShape(patients: seq<StoredPatient>, incoming: StoredPatient)
    ensures (forall i | 0 <= i < |patients| :: !SameAbhaId(patients[i], incoming)) ==>
      Upsert(patients, incoming) == patients + [incoming]
    ensures forall k | 0 <= k < |patients| && SameAbhaId(patients[k], incoming) &&
        (forall i | 0 <= i < k :: !SameAbhaId(patients[i], incoming)) ::
      Upsert(patients, incoming) == patients[k := Merge(patients[k], incoming)]
    ensures |patients| <= |Upsert(patients, incoming)| <= |patients| + 1
  {
  }

  /** The number of Conditions the patient records hold. */
  function PatientConditionTotal(patients: seq<StoredPatient>): nat
  {
    if patients == [] then 0
    else PatientConditionTotal(patients[..|patients| - 1]) + |patients[|patients| - 1].conditions|
  }

  /** Replacing one record changes the total by the difference of their Conditions. */
  lemma {:induction false} PatientConditionTotalUpdate(patients: seq<StoredPatient>, k: nat, p: StoredPatient)
    requires k < |patients|
    ensures PatientConditionTotal(patients[k := p]) + |patients[k].conditions| == PatientConditionTotal(patients) + |p.conditions|
  {
    var n := |patients| - 1;
    if k < n {
      assert patients[k := p][..n] == patients[..n][k := p];
      PatientConditionTotalUpdate(patients[..n], k, p);
    } else {
      assert patients[k := p][..n] == patients[..n];
    }
  }

  /** Storing a record adds its Conditions to the total, whether it is merged or appended. */
  lemma UpsertConditionTotal(patients: seq<StoredPatient>, incoming: StoredPatient)
    ensures PatientConditionTotal(Upsert(patients, incoming)) == PatientConditionTotal(patients) + |incoming.conditions|
  {
    var k := FirstIndex(patients, (p: StoredPatient) => SameAbhaId(p, incoming));
    if k.Some? {
      PatientConditionTotalUpdate(patients, k.value, Merge(patients[k.value], incoming));
    } else {
      assert (patients + [incoming])[..|patients|] == patients;
    }
  }

  /** No two records share an `abhaId`. */
  predicate DistinctIds(patients: seq<StoredPatient>)
  {
    forall i, j | 0 <= i < j < |patients| :: patients[i].abhaId != patients[j].abhaId
  }

  /** Upserting never creates a second record for an `abhaId`. */
  lemma UpsertKeepsIdsDistinct(patients: seq<StoredPatient>, incoming: StoredPatient)
    requires DistinctIds(patients)
    ensures DistinctIds(Upsert(patients, incoming))
  {
    var k := FirstIndex(patients, (p: StoredPatient) => SameAbhaId(p, incoming));
    var r := Upsert(patients, incoming);
    if k.None? {
      forall i, j | 0 <= i < j < |r|
        ensures r[i].abhaId != r[j].abhaId
      {
        if j == |patients| {
          assert !SameAbhaId(patients[i], incoming);
        }
      }
    }
  }

  /** Every bundle id a patient lists is the id of a stored bundle. */
  predicate RefsStored(patients: seq<StoredPatient>, ids: set<Option<string>>)
  {
    forall i, id | 0 <= i < |patients| && id in patients[i].bundleIds :: Some(id) in ids
  }

  lemma UpsertKeepsRefs(patients: seq<StoredPatient>, incoming: StoredPatient, ids: set<Option<string>>)
    requires RefsStored(patients, ids)
    requires forall id | id in incoming.bundleIds :: Some(id) in ids
    ensures RefsStored(Upsert(patients, incoming), ids)
  {
    var r := Upsert(patients, incoming);
    forall i, id | 0 <= i < |r| && id in r[i].bundleIds
      ensures Some(id) in ids
    {
      if i < |patients| && r[i] != patients[i] {
        assert r[i] == Merge(patients[i], incoming);
        assert id in patients[i].bundleIds || id in incoming.bundleIds;
      }
    }
  }

  lemma RefsStoredGrow(patients: seq<StoredPatient>, ids: set<Option<string>>, more: set<Option<string>>)
    requires RefsStored(patients, ids) && ids <= more
    ensures RefsStored(patients, more)
  {
  }

  function IdsOf(bundles: seq<Bundle>): set<Option<string>>
  {
    set b | b in bundles :: b.id
  }

  /** `bundle.id || \`bundle-${Date.now()}\``: always truthy. */
  function BundleId(bundle: Bundle, now: nat): (id: string)
    ensures id != []
    ensures Truthy(bundle.id) ==> id == bundle.id.value
  {
    if Truthy(bundle.id) then bundle.id.value else "bundle-" + NatToString(now)
  }

  /** The record that an accepted Bundle with Patient resource `patient` stores or merges. */
  function IncomingPatient(bundle: Bundle, patient: Resource, now: nat, mappings: seq<Tm2Mapping>): StoredPatient
  {
    PatientRecord(patient, Filter(bundle.entry, IsEncounter), ConditionRecords(bundle.entry, mappings), BundleId(bundle, now))
  }

  // ---------------------------------------------------------------------------------------
  // CSV ingest

  /** The record the upload stores for one NAMASTE CSV row. */
  datatype NamasteRecord = NamasteRecord(
    disease: string,
    code: string,
    term: string,
    diacritical: string,
    devanagari: string,
    nameEnglish: string,
    shortDefinition: string)

  function Project(row: NamasteRow): NamasteRecord
  {
    NamasteRecord(row.disease, row.namcCode, row.namcTerm, row.diacritical, row.devanagari, row.nameEnglish, row.shortDefinition)
  }

  /** The projection only renames: no column is lost. */
  lemma ProjectInjective(a: NamasteRow, b: NamasteRow)
    ensures Project(a) == Project(b) <==> a == b
  {
  }

  // ---------------------------------------------------------------------------------------
  // The server

  datatype UploadReply = InvalidBundle | NoPatientResource | BundleUploaded

  function UploadStatus(r: UploadReply): int
  {
    if r.BundleUploaded? then 200 else 400
  }

  datatype CsvReply = CsvIngested(count: nat) | CsvReadError

  /** The stored data agree: every stored Bundle has an id, no two patients share an
      `abhaId`, every bundle id a patient lists names a stored Bundle, and the patient records
      hold exactly as many Conditions as the stored Bundles. */
  predicate Stored(bundles: seq<Bundle>, patients: seq<StoredPatient>)
  {
    && (forall i | 0 <= i < |bundles| :: Truthy(bundles[i].id))
    && DistinctIds(patients)
    && RefsStored(patients, IdsOf(bundles))
    && PatientConditionTotal(patients) == TotalConditions(bundles)
  }

  /** Storing an accepted Bundle and its patient record keeps the stored data in agreement. */
  lemma AcceptKeepsInvariant(bundles: seq<Bundle>, patients: seq<StoredPatient>, stored: Bundle, incoming: StoredPatient)
    requires Stored(bundles, patients)
    requires Truthy(stored.id) && incoming.bundleIds == [stored.id.value]
    requires |incoming.conditions| == ConditionCount(stored.entry)
    ensures Stored(bundles + [stored], Upsert(patients, incoming))
  {
    assert IdsOf(bundles + [stored]) == IdsOf(bundles) + {stored.id};
    RefsStoredGrow(patients, IdsOf(bundles), IdsOf(bundles + [stored]));
    UpsertKeepsRefs(patients, incoming, IdsOf(bundles + [stored]));
    UpsertKeepsIdsDistinct(patients, incoming);
    UpsertConditionTotal(patients, incoming);
    assert (bundles + [stored])[..|bundles|] == bundles;
  }

  class Server {
    /** The ingested NAMASTE rows (`namasteData`). */
    var namasteData: seq<NamasteRecord>
    /** Request timestamps per client address (`rateLimitMap`). */
    var rateLimitMap: map<string, seq<int>>
    /** The uploaded Bundles (`fhirBundlesData`). */
    var fhirBundles: seq<Bundle>
    /** The patient records (`patientsData`). */
    var patients: seq<StoredPatient>
    /** The disease mappings read at start-up (`diseaseMappings`). */
    const diseaseMappings: seq<Tm2Mapping>

    /** No client holds more than the maximum of timestamps, and the stored data agree. */
    predicate Valid()
      reads this
    {
      && (forall ip | ip in rateLimitMap :: |rateLimitMap[ip]| <= RATE_LIMIT_MAX)
      && Stored(fhirBundles, patients)
    }

    /** A server started with none of its data files present. */
    constructor (mappings: seq<Tm2Mapping>)
      ensures Valid()
      ensures namasteData == [] && rateLimitMap == map[] && fhirBundles == [] && patients == []
      ensures diseaseMappings == mappings
    {
      namasteData := [];
      rateLimitMap := map[];
      fhirBundles := [];
      patients := [];
      diseaseMappings := mappings;
    }

    /** `checkRateLimit(ip)` at time `now`: refused when 100 requests of this client fall in
        the last 15 minutes; otherwise the client's list keeps only those and gains `now`. */
    method CheckRateLimit(ip: string, now: int) returns (allowed: bool)
      requires Valid()
      modifies this`rateLimitMap
      ensures Valid()
      ensures allowed <==> |InWindow(Recorded(old(rateLimitMap), ip), now - RATE_LIMIT_WINDOW)| < RATE_LIMIT_MAX
      ensures !allowed ==> rateLimitMap == old(rateLimitMap)
      ensures allowed ==> rateLimitMap == old(rateLimitMap)[ip := InWindow(Recorded(old(rateLimitMap), ip), now - RATE_LIMIT_WINDOW) + [now]]
    {
      var windowStart := now - RATE_LIMIT_WINDOW;
      if ip !in rateLimitMap {
        rateLimitMap := rateLimitMap[ip := []];
      }
      var requests := InWindow(rateLimitMap[ip], windowStart);
      if |requests| >= RATE_LIMIT_MAX {
        return false;
      }
      requests := requests + [now];
      rateLimitMap := rateLimitMap[ip := requests];
      return true;
    }

    /** `GET /api/patient/:abhaId` from client `ip` at time `now`. */
    method GetPatient(ip: string, abhaId: string, mockMode: Option<string>, now: int) returns (reply: PatientReply)
      requires Valid()
      modifies this`rateLimitMap
      ensures Valid()
      ensures reply == PatientGate(|InWindow(Recorded(old(rateLimitMap), ip), now - RATE_LIMIT_WINDOW)| < RATE_LIMIT_MAX, abhaId, mockMode)
      ensures reply == TooManyRequests ==> rateLimitMap == old(rateLimitMap)
      ensures reply != TooManyRequests ==>
        rateLimitMap == old(rateLimitMap)[ip := InWindow(Recorded(old(rateLimitMap), ip), now - RATE_LIMIT_WINDOW) + [now]]
    {
      var admitted := CheckRateLimit(ip, now);
      if !admitted {
        return TooManyRequests;
      }
      if !IsValidAbhaId(abhaId) {
        return InvalidFormat;
      }
      if mockMode == Some("false") {
        return ServiceUnavailable;
      }
      if abhaId !in KNOWN_IDS {
        return PatientNotFound;
      }
      return PatientFound(GenerateRealisticPatient(abhaId));
    }

    /** `POST /api/upload/fhir` at time `now`. */
    method UploadFhir(bundle: Bundle, now: nat) returns (reply: UploadReply)
      requires Valid()
      modifies this`fhirBundles, this`patients
      ensures Valid()
      ensures bundle.resourceType != "Bundle" ==>
        reply == InvalidBundle && fhirBundles == old(fhirBundles) && patients == old(patients)
      ensures bundle.resourceType == "Bundle" && Find(bundle.entry, IsPatient).None? ==>
        reply == NoPatientResource && fhirBundles == old(fhirBundles) && patients == old(patients)
      ensures bundle.resourceType == "Bundle" && Find(bundle.entry, IsPatient).Some? ==>
        && reply == BundleUploaded
        && fhirBundles == old(fhirBundles) + [bundle.(id := Some(BundleId(bundle, now)))]
        && patients == Upsert(old(patients), IncomingPatient(bundle, Find(bundle.entry, IsPatient).value, now, diseaseMappings))
    {
      if bundle.resourceType != "Bundle" {
        return InvalidBundle;
      }
      var patientEntry := Find(bundle.entry, IsPatient);
      if patientEntry.None? {
        return NoPatientResource;
      }
      var encounters := Filter(bundle.entry, IsEncounter);
      var conditions := ExtractConditions(bundle.entry, diseaseMappings);
      var bundleId := if Truthy(bundle.id) then bundle.id.value else "bundle-" + NatToString(now);
      var stored := bundle.(id := Some(bundleId));
      var incoming := PatientRecord(patientEntry.value, encounters, conditions, bundleId);
      ConditionRecordsCount(bundle.entry, diseaseMappings);
      AcceptKeepsInvariant(fhirBundles, patients, stored, incoming);
      fhirBundles := fhirBundles + [stored];
      var existing := FirstIndex(patients, (p: StoredPatient) => SameAbhaId(p, incoming));
      if existing.Some? {
        var k := existing.value;
        patients := patients[k := Merge(patients[k], incoming)];
      } else {
        patients := patients + [incoming];
      }
      assert patients == Upsert(old(patients), incoming);
      return BundleUploaded;
    }

    /** `POST /api/upload` with the parsed rows of the file, `None` when reading it fails:
        the old rows are dropped first, then replaced by one record per row. */
    method UploadCsv(rows: Option<seq<NamasteRow>>) returns (reply: CsvReply)
      requires Valid()
      modifies this`namasteData
      ensures Valid()
      ensures rows.None? ==> reply == CsvReadError && namasteData == []
      ensures rows.Some? ==>
        && reply == CsvIngested(|rows.value|)
        && |namasteData| == |rows.value|
        && forall i | 0 <= i < |rows.value| :: namasteData[i] == Project(rows.value[i])
    {
      namasteData := [];
      if rows.None? {
        return CsvReadError;
      }
      var results := [];
      for i := 0 to |rows.value|
        invariant |results| == i
        invariant forall j | 0 <= j < i :: results[j] == Project(rows.value[j])
      {
        results := results + [Project(rows.value[i])];
      }
      namasteData := results;
      return CsvIngested(|namasteData|);
    }

    /** `POST /api/reset` */
    method Reset()
      requires Valid()
      modifies this`namasteData
      ensures Valid()
      ensures namasteData == []
    {
      namasteData := [];
    }
  }
}
