/**
 * `searchDisease(mappings, query)` of mapDiseasesUnique.js and mapDiseasesUpdated.js (the two
 * copies are identical): a first-hit, case-insensitive substring search over a mapping table
 * that tests the NAMASTE disease of an entry before its ICD disease.
 */
module DiseaseSearch {
  import opened Wrappers
  import opened Text
  import opened Terminology

  datatype MatchType = NamasteType | IcdType

  /** The `{ type, query, namaste, icd, similarity }` object returned on a hit. */
  datatype SearchResult = SearchResult(kind: MatchType, query: string, namaste: NamasteRow, icd: IcdRef, similarity: int)

  /** `mapping.namaste.Disease && mapping.namaste.Disease.toLowerCase().includes(lowerQuery)` */
  predicate SourceHit(m: Mapping, query: string)
  {
    m.namaste.disease != "" && ContainsIgnoringCase(m.namaste.disease, query)
  }

  /** `mapping.icd.disease && mapping.icd.disease.toLowerCase().includes(lowerQuery)` */
  predicate TargetHit(m: Mapping, query: string)
  {
    m.icd.disease != "" && ContainsIgnoringCase(m.icd.disease, query)
  }

  predicate Hit(m: Mapping, query: string)
  {
    SourceHit(m, query) || TargetHit(m, query)
  }

  /** The result reported for entry `m` once it is known to match. */
  function ResultFor(m: Mapping, query: string): SearchResult
  {
    SearchResult(if SourceHit(m, query) then NamasteType else IcdType, query, m.namaste, m.icd, m.similarity)
  }

  method SearchDisease(mappings: seq<Mapping>, query: string) returns (r: Option<SearchResult>)
    ensures r.None? <==> forall k | 0 <= k < |mappings| :: !Hit(mappings[k], query)
    ensures r.Some? ==> exists k | 0 <= k < |mappings| ::
      Hit(mappings[k], query) && r.value == ResultFor(mappings[k], query) &&
      forall j | 0 <= j < k :: !Hit(mappings[j], query)
  {
    for k := 0 to |mappings|
      invariant forall j | 0 <= j < k :: !Hit(mappings[j], query)
    {
      var mapping := mappings[k];
      if SourceHit(mapping, query) {
        return Some(SearchResult(NamasteType, query, mapping.namaste, mapping.icd, mapping.similarity));
      }
      if TargetHit(mapping, query) {
        return Some(SearchResult(IcdType, query, mapping.namaste, mapping.icd, mapping.similarity));
      }
    }
    return None;
  }
}
