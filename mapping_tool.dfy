/**
 * The mapping tool page of src/pages/MappingTool/index.jsx: searching the NAMASTE or ICD code
 * list, the selection of codes, joining the selection with the disease mappings, and building
 * the HL7 FHIR R4 Bundle, ConceptMap and CodeSystem from them.
 */
module MappingTool {
  import opened Wrappers
  import opened Text
  import opened Seqs
  import opened Terminology
  import opened Fhir
  import opened Backend

  /** An entry of the page's code lists. A NAMASTE entry comes from a record of `/api/namaste`
      (display = term), an ICD entry from a record of `/api/icd` (code = the biomedicine code,
      display = the English name). Missing cells are "". */
  datatype CodeEntry = CodeEntry(code: string, display: string, disease: string, definition: string)

  function NamasteEntry(r: NamasteRecord): CodeEntry
  {
    CodeEntry(r.code, r.term, r.disease, r.shortDefinition)
  }

  function IcdEntry(r: IcdRow): CodeEntry
  {
    CodeEntry(r.biomedCode, r.nameEnglish, r.disease, r.shortDefinition)
  }

  datatype SearchType = NamasteSearch | IcdSearch

  // ---------------------------------------------------------------------------------------
  // Search

  /** One clause of the filter: a truthy field that contains the term, ignoring case. */
  predicate FieldMatches(field: string, term: string)
  {
    field != "" && ContainsIgnoringCase(field, term)
  }

  predicate CodeMatches(c: CodeEntry, term: string)
  {
    FieldMatches(c.disease, term) || FieldMatches(c.display, term) || FieldMatches(c.code, term)
  }

  /** The search results for `term` over the chosen list: nothing for a blank term, and the
      matching entries otherwise. The untrimmed term is what is searched for. */
  function SearchCodes(codes: seq<CodeEntry>, term: string): seq<CodeEntry>
  {
    if IsBlank(term) then [] else Filter(codes, (c: CodeEntry) => CodeMatches(c, term))
  }

  /** The results are exactly the matching entries, each as often as in the list; a blank term
      gives none. */
  lemma SearchCodesCount(codes: seq<CodeEntry>, term: string, x: CodeEntry)
    ensures multiset(SearchCodes(codes, term))[x] ==
      if !IsBlank(term) && CodeMatches(x, term) then multiset(codes)[x] else 0
  {
    if !IsBlank(term) {
      FilterCount(codes, (c: CodeEntry) => CodeMatches(c, term), x);
    }
  }

  /** Results keep the order of the list: searching two slices and joining the results is
      searching their join. */
  lemma SearchCodesAppend(a: seq<CodeEntry>, b: seq<CodeEntry>, term: string)
    ensures SearchCodes(a + b, term) == SearchCodes(a, term) + SearchCodes(b, term)
  {
    if !IsBlank(term) {
      FilterAppend(a, b, (c: CodeEntry) => CodeMatches(c, term));
    }
  }

  lemma LowerIdempotent(s: string)
    ensures Lower(Lower(s)) == Lower(s)
  {
  }

  /** Only the lower-cased term matters. */
  lemma SearchIgnoresCase(codes: seq<CodeEntry>, term: string)
    ensures SearchCodes(codes, Lower(term)) == SearchCodes(codes, term)
  {
    LowerIdempotent(term);
    assert IsBlank(Lower(term)) == IsBlank(term) by {
      forall i | 0 <= i < |term|
        ensures IsWhiteSpace(Lower(term)[i]) == IsWhiteSpace(term[i])
      {
      }
    }
    forall c: CodeEntry
      ensures CodeMatches(c, Lower(term)) == CodeMatches(c, term)
    {
      LowerIdempotent(c.disease);
    }
    FilterSame(codes, (c: CodeEntry) => CodeMatches(c, Lower(term)), (c: CodeEntry) => CodeMatches(c, term));
  }

  // ---------------------------------------------------------------------------------------
  // Selection

  predicate IsSelected(selected: seq<CodeEntry>, code: string)
  {
    exists i | 0 <= i < |selected| :: selected[i].code == code
  }

  /** A click on search result `c`: deselect every entry with its code, or append it. */
  function Toggled(selected: seq<CodeEntry>, c: CodeEntry): seq<CodeEntry>
  {
    if IsSelected(selected, c.code) then Filter(selected, (s: CodeEntry) => s.code != c.code)
    else selected + [c]
  }

  /** No code is selected twice. */
  predicate DistinctCodes(selected: seq<CodeEntry>)
  {
    forall i, j | 0 <= i < j < |selected| :: selected[i].code != selected[j].code
  }

  /** A click flips whether the code is selected, and leaves the other codes alone. */
  lemma ToggledFlips(selected: seq<CodeEntry>, c: CodeEntry, other: CodeEntry)
    requires other.code != c.code
    ensures IsSelected(Toggled(selected, c), c.code) <==> !IsSelected(selected, c.code)
    ensures multiset(Toggled(selected, c))[other] == multiset(selected)[other]
  {
    var p := (s: CodeEntry) => s.code != c.code;
    if IsSelected(selected, c.code) {
      FilterCount(selected, p, other);
      var r := Filter(selected, p);
      forall i | 0 <= i < |r|
        ensures r[i].code != c.code
      {
        assert r[i] in r;
      }
    } else {
      assert Toggled(selected, c)[|selected|].code == c.code;
    }
  }

  /** Clicking an unselected code twice restores the selection. */
  lemma ToggleTwice(selected: seq<CodeEntry>, c: CodeEntry)
    requires !IsSelected(selected, c.code)
    ensures Toggled(Toggled(selected, c), c) == selected
  {
    var p := (s: CodeEntry) => s.code != c.code;
    var once := selected + [c];
    assert once[|selected|].code == c.code;
    FilterAppend(selected, [c], p);
    FilterAll(selected, p);
    assert Filter([c], p) == [];
  }

  lemma FilterKeepsDistinct(selected: seq<CodeEntry>, p: CodeEntry -> bool)
    requires DistinctCodes(selected)
    ensures DistinctCodes(Filter(selected, p))
  {
    var r := Filter(selected, p);
    forall i, j | 0 <= i < j < |r|
      ensures r[i].code != r[j].code
    {
      if r[i].code == r[j].code {
        FilterCount(selected, p, r[i]);
        FilterCount(selected, p, r[j]);
        DistinctCount(selected, r[i]);
        DistinctCount(selected, r[j]);
      }
    }
  }

  /** With distinct codes, an entry occurs at most once. */
  lemma {:induction false} DistinctCount(selected: seq<CodeEntry>, x: CodeEntry)
    requires DistinctCodes(selected)
    ensures multiset(selected)[x] <= 1
  {
    if selected != [] {
      var n := |selected| - 1;
      var front := selected[..n];
      assert selected == front + [selected[n]];
      DistinctCount(front, x);
    }
  }

  lemma ToggledKeepsDistinct(selected: seq<CodeEntry>, c: CodeEntry)
    requires DistinctCodes(selected)
    ensures DistinctCodes(Toggled(selected, c))
  {
    if IsSelected(selected, c.code) {
      FilterKeepsDistinct(selected, (s: CodeEntry) => s.code != c.code);
    }
  }

  /** The `selectedCodes` state. */
  class Selection {
    var selected: seq<CodeEntry>

    predicate Valid()
      reads this
    {
      DistinctCodes(selected)
    }

    constructor ()
      ensures Valid() && selected == []
    {
      selected := [];
    }

    /** A click on a search result. */
    method Toggle(c: CodeEntry)
      requires Valid()
      modifies this
      ensures Valid()
      ensures selected == Toggled(old(selected), c)
    {
      ToggledKeepsDistinct(selected, c);
      if IsSelected(selected, c.code) {
        selected := Filter(selected, (s: CodeEntry) => s.code != c.code);
      } else {
        selected := selected + [c];
      }
    }

    /** The Remove button of the entry at `index`. */
    method Remove(index: nat)
      requires Valid() && index < |selected|
      modifies this
      ensures Valid()
      ensures selected == old(selected)[..index] + old(selected)[index + 1..]
      ensures |selected| == |old(selected)| - 1
      ensures forall i | 0 <= i < |selected| :: selected[i] == old(selected)[if i < index then i else i + 1]
    {
      selected := selected[..index] + selected[index + 1..];
    }

    /** The Clear All button. */
    method Clear()
      modifies this
      ensures Valid() && selected == []
    {
      selected := [];
    }
  }

  // ---------------------------------------------------------------------------------------
  // Mapped results

  /** The `namaste` part of a result row: a mapping's NAMASTE row, the selected code entry
      itself (NAMASTE mode, no mapping), or the "No match" sentinel (ICD mode, no mapping). */
  datatype NamasteSide = MappedNamaste(row: NamasteRow) | SelectedCode(entry: CodeEntry) | NoNamasteMatch

  datatype MappedResult = MappedResult(namaste: NamasteSide, tm2: CodeRef, biomedicine: CodeRef)

  const NO_TM2 := CodeRef("No match", "No TM2 mapping found")
  const NO_BIOMEDICINE := CodeRef("No match", "No biomedicine mapping found")

  function FromMapping(m: Tm2Mapping): MappedResult
  {
    MappedResult(MappedNamaste(m.namaste), m.tm2, m.biomedicine)
  }

  /** NAMASTE mode: the first mapping with the selected code, or the code with two sentinels. */
  function NamasteResult(c: CodeEntry, mappings: seq<Tm2Mapping>): MappedResult
  {
    var m := Find(mappings, (x: Tm2Mapping) => HasNamasteCode(x, c.code));
    if m.Some? then FromMapping(m.value) else MappedResult(SelectedCode(c), NO_TM2, NO_BIOMEDICINE)
  }

  /** ICD mode: every mapping with the selected biomedicine code, or one sentinel row. */
  function IcdResults(c: CodeEntry, mappings: seq<Tm2Mapping>): seq<MappedResult>
  {
    var ms := Filter(mappings, (x: Tm2Mapping) => HasBiomedicineCode(x, c.code));
    if |ms| > 0 then seq(|ms|, i requires 0 <= i < |ms| => FromMapping(ms[i]))
    else [MappedResult(NoNamasteMatch, NO_TM2, CodeRef(c.code, c.display))]
  }

  function IcdResultsAll(selected: seq<CodeEntry>, mappings: seq<Tm2Mapping>): seq<MappedResult>
  {
    if selected == [] then []
    else IcdResultsAll(selected[..|selected| - 1], mappings) + IcdResults(selected[|selected| - 1], mappings)
  }

  /** `generateMappedResults()` */
  function MappedResults(mode: SearchType, selected: seq<CodeEntry>, mappings: seq<Tm2Mapping>): seq<MappedResult>
  {
    match mode
    case NamasteSearch => seq(|selected|, i requires 0 <= i < |selected| => NamasteResult(selected[i], mappings))
    case IcdSearch => IcdResultsAll(selected, mappings)
  }

  /** In NAMASTE mode a row either carries the NAMASTE row of the first mapping with the
      selected code, or, when no mapping has it, the code itself and both sentinels. */
  lemma NamasteResultSpec(c: CodeEntry, mappings: seq<Tm2Mapping>)
    ensures (forall j | 0 <= j < |mappings| :: mappings[j].namaste.namcCode != c.code) ==>
      NamasteResult(c, mappings) == MappedResult(SelectedCode(c), NO_TM2, NO_BIOMEDICINE)
    ensures forall k | 0 <= k < |mappings| && mappings[k].namaste.namcCode == c.code &&
        (forall j | 0 <= j < k :: mappings[j].namaste.namcCode != c.code) ::
      NamasteResult(c, mappings) == FromMapping(mappings[k])
  {
    var p := (x: Tm2Mapping) => HasNamasteCode(x, c.code);
    var k := FirstIndex(mappings, p);
    if k.Some? {
      forall k' | 0 <= k' < |mappings| && mappings[k'].namaste.namcCode == c.code &&
          (forall j | 0 <= j < k' :: mappings[j].namaste.namcCode != c.code)
        ensures k' == k.value
      {
      }
    }
  }

  /** In ICD mode every row carries the selected biomedicine code, and a code yields one row
      per mapping that has it, or one row when none has. */
  lemma IcdResultsSpec(c: CodeEntry, mappings: seq<Tm2Mapping>)
    ensures forall r | r in IcdResults(c, mappings) :: r.biomedicine.code == c.code
    ensures |IcdResults(c, mappings)| == Max1(|Filter(mappings, (x: Tm2Mapping) => HasBiomedicineCode(x, c.code))|)
  {
    var ms := Filter(mappings, (x: Tm2Mapping) => HasBiomedicineCode(x, c.code));
    forall r | r in IcdResults(c, mappings)
      ensures r.biomedicine.code == c.code
    {
      if |ms| > 0 {
        var i :| 0 <= i < |ms| && IcdResults(c, mappings)[i] == r;
        assert ms[i] in ms;
      }
    }
  }

  function Max1(n: nat): nat
  {
    if n == 0 then 1 else n
  }

  /** The number of ICD-mode rows: `max(1, matches)` summed over the selection. */
  function IcdRowCount(selected: seq<CodeEntry>, mappings: seq<Tm2Mapping>): nat
  {
    if selected == [] then 0
    else
      var c := selected[|selected| - 1];
      IcdRowCount(selected[..|selected| - 1], mappings) + Max1(|Filter(mappings, (x: Tm2Mapping) => HasBiomedicineCode(x, c.code))|)
  }

  /** NAMASTE mode gives one row per selected code; ICD mode gives `max(1, matches)` rows per
      selected code, so never fewer rows than codes. */
  lemma {:induction false} MappedResultsLength(mode: SearchType, selected: seq<CodeEntry>, mappings: seq<Tm2Mapping>)
    ensures mode.NamasteSearch? ==> |MappedResults(mode, selected, mappings)| == |selected|
    ensures mode.IcdSearch? ==> |MappedResults(mode, selected, mappings)| == IcdRowCount(selected, mappings)
    ensures |MappedResults(mode, selected, mappings)| >= |selected|
  {
    if mode.IcdSearch? && selected != [] {
      MappedResultsLength(mode, selected[..|selected| - 1], mappings);
      IcdResultsSpec(selected[|selected| - 1], mappings);
    }
  }

  // ---------------------------------------------------------------------------------------
  // The FHIR Bundle

  /** The logged-in user of the authentication context. */
  datatype User = User(
    abhaId: Option<string>,
    firstName: Option<string>,
    lastName: Option<string>,
    gender: Option<string>,
    dateOfBirth: Option<string>)

  /** The NAMASTE coding of a Condition: `mapping.namaste.NAMC_CODE` and `.NAMC_term`. A
      selected code entry has neither field, so both are undefined. */
  function NamasteCoding(side: NamasteSide): Coding
  {
    match side
    case MappedNamaste(row) => Coding(NAMASTE_SYSTEM, Some(row.namcCode), Some(row.namcTerm))
    case SelectedCode(_) => Coding(NAMASTE_SYSTEM, None, None)
    case NoNamasteMatch => Coding(NAMASTE_SYSTEM, Some("No match"), Some("No Namaste mapping found"))
  }

  /** The coding that carries the selected code when no mapping has it. */
  function NamasteCodingFixed(side: NamasteSide): Coding
  {
    match side
    case SelectedCode(e) => Coding(NAMASTE_SYSTEM, Some(e.code), Some(e.display))
    case _ => NamasteCoding(side)
  }

  /** `mapping.namaste.Disease || 'Unknown Disease'` */
  function NoteText(side: NamasteSide): string
  {
    if side.MappedNamaste? && side.row.disease != "" then side.row.disease else "Unknown Disease"
  }

  function Codings(namaste: Coding, r: MappedResult): seq<Coding>
  {
    [namaste,
     Coding(TM2_SYSTEM, Some(r.tm2.code), Some(r.tm2.display)),
     Coding(BIOMEDICINE_SYSTEM, Some(r.biomedicine.code), Some(r.biomedicine.display))]
  }

  function ConditionId(user: User, index: nat): string
  {
    Show(user.abhaId) + "-" + NatToString(index)
  }

  /** Condition `index` of the Bundle, built from result row `r`. */
  function ConditionResource(user: User, index: nat, r: MappedResult): Resource
  {
    Resource("Condition", Some(ConditionId(user, index)), None, None, None, None,
      Codings(NamasteCoding(r.namaste), r), None, Some(NoteText(r.namaste)))
  }

  function PatientResource(user: User): Resource
  {
    Resource("Patient", user.abhaId, user.firstName, user.lastName, user.gender, user.dateOfBirth, [], None, None)
  }

  /** The Conditions of the Bundle, one per result row. */
  function Conditions(user: User, results: seq<MappedResult>): seq<Resource>
  {
    seq(|results|, i requires 0 <= i < |results| => ConditionResource(user, i, results[i]))
  }

  /** `generateFHIRBundle()` at time `now`; `None` is the null returned for an empty
      selection. */
  function GenerateFhirBundle(mode: SearchType, selected: seq<CodeEntry>, mappings: seq<Tm2Mapping>, user: User, now: nat): Option<Bundle>
  {
    if selected == [] then None
    else
      Some(Bundle("Bundle", Some("bundle-" + NatToString(now)),
        [PatientResource(user)] + Conditions(user, MappedResults(mode, selected, mappings))))
  }

  /** Every Condition built from a row is a Condition with its id and the row's three
      codings, NAMASTE first. */
  lemma ConditionsShape(user: User, results: seq<MappedResult>)
    ensures |Conditions(user, results)| == |results|
    ensures forall i | 0 <= i < |results| ::
      var c := Conditions(user, results)[i];
      && IsCondition(c)
      && c.id == Some(ConditionId(user, i))
      && |c.coding| == 3
      && c.coding[0].system == NAMASTE_SYSTEM
      && c.coding[1] == Coding(TM2_SYSTEM, Some(results[i].tm2.code), Some(results[i].tm2.display))
      && c.coding[2] == Coding(BIOMEDICINE_SYSTEM, Some(results[i].biomedicine.code), Some(results[i].biomedicine.display))
  {
  }

  /** The entries of a Bundle built from any result rows hold one Condition per row, after
      the Patient. */
  lemma EntriesCount(user: User, results: seq<MappedResult>)
    ensures ConditionCount([PatientResource(user)] + Conditions(user, results)) == |results|
  {
    var conds := Conditions(user, results);
    ConditionCountAppend([PatientResource(user)], conds);
    ConditionCountAll(conds);
    assert ConditionCount([PatientResource(user)]) == 0 by {
      assert [PatientResource(user)][..0] == [];
    }
  }

  /** There is no Bundle without a selection. Otherwise the Bundle holds the user's Patient
      first and then one Condition per result row, Condition `i` with id `<abhaId>-<i>` and
      the NAMASTE, TM2 and biomedicine codings in that order. */
  lemma GenerateFhirBundleShape(mode: SearchType, selected: seq<CodeEntry>, mappings: seq<Tm2Mapping>, user: User, now: nat)
    ensures GenerateFhirBundle(mode, selected, mappings, user, now).None? <==> selected == []
    ensures GenerateFhirBundle(mode, selected, mappings, user, now).Some? ==>
      var b := GenerateFhirBundle(mode, selected, mappings, user, now).value;
      var results := MappedResults(mode, selected, mappings);
      && b.resourceType == "Bundle"
      && b.id == Some("bundle-" + NatToString(now))
      && b.entry == [PatientResource(user)] + Conditions(user, results)
      && ConditionCount(b.entry) == |results| >= |selected|
  {
    if selected != [] {
      EntriesCount(user, MappedResults(mode, selected, mappings));
      MappedResultsLength(mode, selected, mappings);
    }
  }

  /** The server accepts every Bundle the page generates: it is a Bundle and has a Patient. */
  lemma ServerAcceptsGeneratedBundle(mode: SearchType, selected: seq<CodeEntry>, mappings: seq<Tm2Mapping>, user: User, now: nat)
    requires selected != []
    ensures GenerateFhirBundle(mode, selected, mappings, user, now).value.resourceType == "Bundle"
    ensures Find(GenerateFhirBundle(mode, selected, mappings, user, now).value.entry, IsPatient) == Some(PatientResource(user))
  {
    var b := GenerateFhirBundle(mode, selected, mappings, user, now).value;
    assert IsPatient(b.entry[0]);
  }

  // ---------------------------------------------------------------------------------------
  // What the server makes of a generated Condition

  /** Neither the TM2 nor the biomedicine system names ICD, so the server reads no ICD code
      from a generated Condition. */
  lemma GeneratedSystemsAreNotIcd()
    ensures !IsIcdCoding(Coding(TM2_SYSTEM, None, None))
    ensures !IsIcdCoding(Coding(BIOMEDICINE_SYSTEM, None, None))
  {
    AbsentPair(TM2_SYSTEM, "icd", 1);
    AbsentPair(TM2_SYSTEM, "ICD", 1);
    AbsentPair(BIOMEDICINE_SYSTEM, "icd", 1);
    AbsentPair(BIOMEDICINE_SYSTEM, "ICD", 1);
  }

  /** The codes the server reads from a generated Condition: the NAMASTE coding's code, and
      no ICD code. */
  lemma GeneratedCodes(namaste: Coding, r: MappedResult)
    requires namaste.system == NAMASTE_SYSTEM
    ensures CodesOf(Codings(namaste, r)) == ConditionCodes(namaste.code, None)
  {
    GeneratedSystemsAreNotIcd();
    var tm2 := Coding(TM2_SYSTEM, Some(r.tm2.code), Some(r.tm2.display));
    var biomedicine := Coding(BIOMEDICINE_SYSTEM, Some(r.biomedicine.code), Some(r.biomedicine.display));
    assert !IsIcdCoding(tm2) && !IsIcdCoding(biomedicine);
    var one := [namaste];
    assert one[..0] == [];
    assert CodesOf(one) == ConditionCodes(namaste.code, None);
    var two := one + [tm2];
    assert two[..1] == one;
    assert CodesOf(two) == ConditionCodes(namaste.code, None);
    var three := two + [biomedicine];
    assert three[..2] == two;
    assert three == Codings(namaste, r);
  }

  /** A NAMASTE-mode row whose code has a mapping reaches the server intact when the server's
      start-up copy of the mappings (`serverMappings`) is the list the page was given: the
      stored Condition has that NAMASTE code, and the backfilled ICD code is the biomedicine
      code of the same mapping the page chose. */
  lemma MappedSelectionRoundTrip(user: User, index: nat, c: CodeEntry, mappings: seq<Tm2Mapping>, serverMappings: seq<Tm2Mapping>)
    requires c.code != ""
    requires exists j | 0 <= j < |mappings| :: mappings[j].namaste.namcCode == c.code
    requires serverMappings == mappings
    ensures NamasteResult(c, mappings).namaste.MappedNamaste?
    ensures ConditionRecord(ConditionResource(user, index, NamasteResult(c, mappings)), serverMappings).codes ==
      ConditionCodes(Some(c.code), Some(NamasteResult(c, mappings).biomedicine.code))
  {
    var r := NamasteResult(c, mappings);
    var k := FirstIndex(mappings, (x: Tm2Mapping) => HasNamasteCode(x, c.code));
    assert k.Some?;
    assert r == FromMapping(mappings[k.value]);
    GeneratedCodes(NamasteCoding(r.namaste), r);
    var codes := ConditionCodes(Some(c.code), None);
    BackfillIcd(codes, serverMappings);
  }

  /** When the server's start-up copy of the mappings lacks the code the page mapped (as on a
      first start, before the mapping script has written the file), the Condition is stored
      with its NAMASTE code and no ICD code. */
  lemma StaleServerMappingsLoseIcd(user: User, index: nat, c: CodeEntry, mappings: seq<Tm2Mapping>, serverMappings: seq<Tm2Mapping>)
    requires c.code != ""
    requires exists j | 0 <= j < |mappings| :: mappings[j].namaste.namcCode == c.code
    requires forall j | 0 <= j < |serverMappings| :: serverMappings[j].namaste.namcCode != c.code
    ensures ConditionRecord(ConditionResource(user, index, NamasteResult(c, mappings)), serverMappings).codes ==
      ConditionCodes(Some(c.code), None)
  {
    var r := NamasteResult(c, mappings);
    var k := FirstIndex(mappings, (x: Tm2Mapping) => HasNamasteCode(x, c.code));
    assert k.Some?;
    assert r == FromMapping(mappings[k.value]);
    GeneratedCodes(NamasteCoding(r.namaste), r);
    BackfillIcd(ConditionCodes(Some(c.code), None), serverMappings);
  }

  /** As written, a NAMASTE-mode code without a mapping on the page is uploaded with no code
      at all, whatever mappings the server holds: its NAMASTE coding reads fields the code
      entry lacks, and nothing names ICD. */
  lemma UnmatchedSelectionLosesCode(user: User, index: nat, c: CodeEntry, mappings: seq<Tm2Mapping>, serverMappings: seq<Tm2Mapping>)
    requires forall j | 0 <= j < |mappings| :: mappings[j].namaste.namcCode != c.code
    ensures ConditionRecord(ConditionResource(user, index, NamasteResult(c, mappings)), serverMappings).codes ==
      ConditionCodes(None, None)
  {
    NamasteResultSpec(c, mappings);
    GeneratedCodes(NamasteCoding(SelectedCode(c)), NamasteResult(c, mappings));
  }

  /** With the coding that carries the selected code, the server stores it whatever mappings
      it holds, and adds no ICD code when it has no mapping for it either. */
  lemma FixedSelectionKeepsCode(c: CodeEntry, mappings: seq<Tm2Mapping>, serverMappings: seq<Tm2Mapping>)
    requires c.code != ""
    requires forall j | 0 <= j < |mappings| :: mappings[j].namaste.namcCode != c.code
    ensures Backfill(CodesOf(Codings(NamasteCodingFixed(SelectedCode(c)), NamasteResult(c, mappings))), serverMappings).namaste ==
      Some(c.code)
    ensures (forall j | 0 <= j < |serverMappings| :: serverMappings[j].namaste.namcCode != c.code) ==>
      Backfill(CodesOf(Codings(NamasteCodingFixed(SelectedCode(c)), NamasteResult(c, mappings))), serverMappings) ==
        ConditionCodes(Some(c.code), None)
  {
    GeneratedCodes(NamasteCodingFixed(SelectedCode(c)), NamasteResult(c, mappings));
    BackfillIcd(ConditionCodes(Some(c.code), None), serverMappings);
  }

  // ---------------------------------------------------------------------------------------
  // ConceptMap and CodeSystem downloads

  datatype ConceptMapTarget = ConceptMapTarget(code: string, equivalence: string)
  datatype ConceptMapElement = ConceptMapElement(code: string, target: seq<ConceptMapTarget>)

  /** The elements of `generateConceptMap()`'s single group. */
  function ConceptMapElements(mappings: seq<Tm2Mapping>): (es: seq<ConceptMapElement>)
    ensures |es| == |mappings|
  {
    seq(|mappings|, i requires 0 <= i < |mappings| =>
      ConceptMapElement(mappings[i].namaste.namcCode, [ConceptMapTarget(mappings[i].biomedicine.code, "equivalent")]))
  }

  /** The ConceptMap and the server agree: for the first mapping of a NAMASTE code, the single
      target of its element is the ICD code the server backfills for that code, as long as the
      server's start-up copy of the mappings (`serverMappings`) agrees with the page's list up
      to and including that mapping. */
  lemma ConceptMapMatchesBackfill(mappings: seq<Tm2Mapping>, serverMappings: seq<Tm2Mapping>, k: nat)
    requires k < |mappings| && mappings[k].namaste.namcCode != ""
    requires forall j | 0 <= j < k :: mappings[j].namaste.namcCode != mappings[k].namaste.namcCode
    requires k < |serverMappings| && serverMappings[..k + 1] == mappings[..k + 1]
    ensures |ConceptMapElements(mappings)[k].target| == 1
    ensures ConceptMapElements(mappings)[k].target[0].equivalence == "equivalent"
    ensures Backfill(ConditionCodes(Some(ConceptMapElements(mappings)[k].code), None), serverMappings) ==
      ConditionCodes(Some(ConceptMapElements(mappings)[k].code), Some(ConceptMapElements(mappings)[k].target[0].code))
  {
    forall j | 0 <= j <= k
      ensures serverMappings[j] == mappings[j]
    {
      assert serverMappings[..k + 1][j] == mappings[..k + 1][j];
    }
    BackfillIcd(ConditionCodes(Some(mappings[k].namaste.namcCode), None), serverMappings);
  }

  datatype Concept = Concept(code: string, display: string, definition: string)

  /** The concepts of `generateNamasteCodeSystem()`: one per NAMASTE entry, in list order. */
  function NamasteConcepts(codes: seq<CodeEntry>): (cs: seq<Concept>)
    ensures |cs| == |codes|
  {
    seq(|codes|, i requires 0 <= i < |codes| => Concept(codes[i].code, codes[i].display, codes[i].definition))
  }

  /** Every code the search can return is a concept of the downloaded CodeSystem. */
  lemma SearchResultsInCodeSystem(codes: seq<CodeEntry>, term: string, x: CodeEntry)
    requires x in SearchCodes(codes, term)
    ensures Concept(x.code, x.display, x.definition) in NamasteConcepts(codes)
  {
    var i :| 0 <= i < |codes| && codes[i] == x;
    assert NamasteConcepts(codes)[i] == Concept(x.code, x.display, x.definition);
  }
}
