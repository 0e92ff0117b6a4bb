/**
 * `createMapping` of mapDiseasesUpdated.js: one entry per NAMASTE row that has a fuzzy best
 * match among the ICD rows, carrying that row as `{ disease, code, display }`. Its
 * `searchDisease` is DiseaseSearch.SearchDisease.
 */
module UpdatedMapping {
  import opened Wrappers
  import opened Terminology
  import opened FuzzyMatch

  /** The entry pushed for a matched NAMASTE row. */
  function Entry(score: Scorer, icd: seq<IcdRow>, n: NamasteRow): Mapping
    requires Matched(score, icd, n)
  {
    var p := Best(score, n.disease, icd).value;
    Mapping(n, IcdRefOf(icd[p.index]), p.score)
  }

  method CreateMapping(score: Scorer, namaste: seq<NamasteRow>, icd: seq<IcdRow>) returns (mappings: seq<Mapping>)
    ensures |mappings| == |MatchedRows(score, namaste, icd)|
    ensures forall k | 0 <= k < |mappings| ::
      var n := MatchedRows(score, namaste, icd)[k];
      Matched(score, icd, n) && mappings[k] == Entry(score, icd, n)
  {
    mappings := [];
    ghost var matched: seq<NamasteRow> := [];
    for i := 0 to |namaste|
      invariant matched == MatchedRows(score, namaste[..i], icd)
      invariant |mappings| == |matched|
      invariant forall k | 0 <= k < |mappings| :: Matched(score, icd, matched[k]) && mappings[k] == Entry(score, icd, matched[k])
    {
      MatchedRowsSnoc(score, namaste, icd, i);
      var namaste := namaste[i];
      if namaste.disease == "" {
        continue;
      }
      var bestMatch := FindBest(score, namaste.disease, icd);
      if bestMatch.Some? {
        var row := icd[bestMatch.value.index];
        EntryOfPick(score, icd, namaste);
        mappings := mappings + [Mapping(namaste, IcdRef(row.disease, row.tm2Code, row.nameEnglish), bestMatch.value.score)];
        matched := matched + [namaste];
      }
    }
    assert namaste[..|namaste|] == namaste;
  }

  lemma EntryOfPick(score: Scorer, icd: seq<IcdRow>, n: NamasteRow)
    requires n.disease != "" && Best(score, n.disease, icd).Some?
    ensures Matched(score, icd, n)
    ensures var row := icd[Best(score, n.disease, icd).value.index];
      Entry(score, icd, n) == Mapping(n, IcdRef(row.disease, row.tm2Code, row.nameEnglish), Best(score, n.disease, icd).value.score)
  {
  }

  /** Every entry has similarity above 70, equal to the highest score any ICD row reaches for
      its NAMASTE row, and names the earliest ICD row reaching it. */
  lemma EntryIsBest(score: Scorer, icd: seq<IcdRow>, n: NamasteRow)
    requires Matched(score, icd, n)
    ensures Entry(score, icd, n).similarity > THRESHOLD
    ensures exists j | 0 <= j < |icd| ::
      && Entry(score, icd, n).icd == IcdRefOf(icd[j])
      && icd[j].disease != ""
      && Entry(score, icd, n).similarity == ScoreOf(score, n.disease, icd[j])
      && (forall i | 0 <= i < j && icd[i].disease != "" :: ScoreOf(score, n.disease, icd[i]) < Entry(score, icd, n).similarity)
    ensures forall j | 0 <= j < |icd| && icd[j].disease != "" ::
      ScoreOf(score, n.disease, icd[j]) <= Entry(score, icd, n).similarity
  {
    var p := Best(score, n.disease, icd).value;
    assert Entry(score, icd, n).icd == IcdRefOf(icd[p.index]);
  }
}
