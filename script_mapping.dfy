/**
 * scripts/mapDiseases.js, the variant the server loads: the same fuzzy best match as
 * mapDiseasesUpdated.js, emitted as `{ namaste, tm2, biomedicine, similarity }`, and a
 * `searchDisease` copied from the other variants that still reads `mapping.icd`, a field
 * these entries do not have.
 */
module ScriptMapping {
  import opened Wrappers
  import opened Text
  import opened Terminology
  import opened FuzzyMatch

  /** The entry pushed for a matched NAMASTE row: both codes and both displays come from the
      same best ICD row. */
  function Entry(score: Scorer, icd: seq<IcdRow>, n: NamasteRow): Tm2Mapping
    requires Matched(score, icd, n)
  {
    var p := Best(score, n.disease, icd).value;
    var row := icd[p.index];
    Tm2Mapping(n, CodeRef(row.tm2Code, row.nameEnglish), CodeRef(row.biomedCode, row.nameEnglish), p.score)
  }

  method CreateMapping(score: Scorer, namaste: seq<NamasteRow>, icd: seq<IcdRow>) returns (mappings: seq<Tm2Mapping>)
    ensures |mappings| == |MatchedRows(score, namaste, icd)|
    ensures forall k | 0 <= k < |mappings| ::
      var n := MatchedRows(score, namaste, icd)[k];
      Matched(score, icd, n) && mappings[k] == Entry(score, icd, n)
  {
    mappings := [];
    ghost var matched: seq<NamasteRow> := [];
    for i := 0 to |namaste|
      invariant matched == MatchedRows(score, namaste[..i], icd)
      invariant |mappings| == |matched|
      invariant forall k | 0 <= k < |mappings| :: Matched(score, icd, matched[k]) && mappings[k] == Entry(score, icd, matched[k])
    {
      MatchedRowsSnoc(score, namaste, icd, i);
      var namaste := namaste[i];
      if namaste.disease == "" {
        continue;
      }
      var bestMatch := FindBest(score, namaste.disease, icd);
      if bestMatch.Some? {
        var row := icd[bestMatch.value.index];
        var tm2 := CodeRef(row.tm2Code, row.nameEnglish);
        var biomedicine := CodeRef(row.biomedCode, row.nameEnglish);
        EntryOfPick(score, icd, namaste);
        mappings := mappings + [Tm2Mapping(namaste, tm2, biomedicine, bestMatch.value.score)];
        matched := matched + [namaste];
      }
    }
    assert namaste[..|namaste|] == namaste;
  }

  lemma EntryOfPick(score: Scorer, icd: seq<IcdRow>, n: NamasteRow)
    requires n.disease != "" && Best(score, n.disease, icd).Some?
    ensures Matched(score, icd, n)
    ensures var row := icd[Best(score, n.disease, icd).value.index];
      Entry(score, icd, n) ==
        Tm2Mapping(n, CodeRef(row.tm2Code, row.nameEnglish), CodeRef(row.biomedCode, row.nameEnglish), Best(score, n.disease, icd).value.score)
  {
  }

  /** Every entry has similarity above 70 and takes its TM2 code, its biomedicine code and
      both displays from one eligible ICD row with the highest score, the earliest such. */
  lemma EntryIsBest(score: Scorer, icd: seq<IcdRow>, n: NamasteRow)
    requires Matched(score, icd, n)
    ensures Entry(score, icd, n).similarity > THRESHOLD
    ensures exists j | 0 <= j < |icd| ::
      && icd[j].disease != ""
      && Entry(score, icd, n).tm2 == CodeRef(icd[j].tm2Code, icd[j].nameEnglish)
      && Entry(score, icd, n).biomedicine == CodeRef(icd[j].biomedCode, icd[j].nameEnglish)
      && Entry(score, icd, n).similarity == ScoreOf(score, n.disease, icd[j])
      && (forall i | 0 <= i < j && icd[i].disease != "" :: ScoreOf(score, n.disease, icd[i]) < Entry(score, icd, n).similarity)
    ensures forall j | 0 <= j < |icd| && icd[j].disease != "" ::
      ScoreOf(score, n.disease, icd[j]) <= Entry(score, icd, n).similarity
  {
    var p := Best(score, n.disease, icd).value;
    assert Entry(score, icd, n).tm2 == CodeRef(icd[p.index].tm2Code, icd[p.index].nameEnglish);
  }

  // ---------------------------------------------------------------------------------------
  // searchDisease

  /** `mapping.namaste.Disease && mapping.namaste.Disease.toLowerCase().includes(lowerQuery)` */
  predicate SourceHit(m: Tm2Mapping, query: string)
  {
    m.namaste.disease != "" && ContainsIgnoringCase(m.namaste.disease, query)
  }

  /** The result object on a hit. Its `type` is always 'NAMASTE' and its `icd` is `undefined`,
      so neither is a field here. */
  datatype Hit = Hit(query: string, namaste: NamasteRow, similarity: int)

  /** What a call ends in: a result, `null`, or the TypeError thrown by reading `.disease` of
      the missing `mapping.icd`. */
  datatype Outcome = Found(hit: Hit) | NotFound | Thrown

  /** What `searchDisease` as written ends in: only the first entry is ever looked at, since
      a miss on its NAMASTE side reads the missing `icd` side. */
  function SearchOutcome(mappings: seq<Tm2Mapping>, query: string): Outcome
  {
    if mappings == [] then NotFound
    else if SourceHit(mappings[0], query) then Found(Hit(query, mappings[0].namaste, mappings[0].similarity))
    else Thrown
  }

  /** `searchDisease` as written. */
  method SearchDisease(mappings: seq<Tm2Mapping>, query: string) returns (r: Outcome)
    ensures r == SearchOutcome(mappings, query)
    ensures mappings == [] ==> r == NotFound
    ensures mappings != [] && SourceHit(mappings[0], query) ==>
      r == Found(Hit(query, mappings[0].namaste, mappings[0].similarity))
    ensures mappings != [] && !SourceHit(mappings[0], query) ==> r == Thrown
  {
    for k := 0 to |mappings|
      invariant k == 0
    {
      var mapping := mappings[k];
      if SourceHit(mapping, query) {
        return Found(Hit(query, mapping.namaste, mapping.similarity));
      }
      // `mapping.icd` is undefined, so `mapping.icd.disease` throws
      return Thrown;
    }
    return NotFound;
  }

  /** As written, a query is only ever answered from the first entry: on entries for "Kasa"
      then "Jvara", the query "jvara" throws although the second entry matches it and the
      first does not, which is the input on which `SearchDiseaseFixed` returns the second
      entry. */
  lemma SearchDiseaseMissesLaterHits()
    ensures var q := "jvara";
      var first := Tm2Mapping(NamasteRow("Kasa", "", "", "", "", "", ""), CodeRef("", ""), CodeRef("", ""), 80);
      var second := Tm2Mapping(NamasteRow("Jvara", "", "", "", "", "", ""), CodeRef("", ""), CodeRef("", ""), 90);
      && !SourceHit(first, q) && SourceHit(second, q)
      && SearchOutcome([first, second], q) == Thrown
  {
    var q := "jvara";
    assert Lower("Jvara") == "jvara";
    assert OccursAt(Lower("Jvara"), Lower(q), 0);
    assert Lower("Kasa") == "kasa";
    assert !Contains("kasa", "jvara");
  }

  /** The search with the missing `icd` side treated as absent: the first entry whose NAMASTE
      disease contains the query, or none. */
  method SearchDiseaseFixed(mappings: seq<Tm2Mapping>, query: string) returns (r: Option<Hit>)
    ensures r.None? <==> forall k | 0 <= k < |mappings| :: !SourceHit(mappings[k], query)
    ensures r.Some? ==> exists k | 0 <= k < |mappings| ::
      && SourceHit(mappings[k], query)
      && r.value == Hit(query, mappings[k].namaste, mappings[k].similarity)
      && forall j | 0 <= j < k :: !SourceHit(mappings[j], query)
  {
    for k := 0 to |mappings|
      invariant forall j | 0 <= j < k :: !SourceHit(mappings[j], query)
    {
      var mapping := mappings[k];
      if SourceHit(mapping, query) {
        return Some(Hit(query, mapping.namaste, mapping.similarity));
      }
    }
    return None;
  }
}
