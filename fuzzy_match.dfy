/**
 * The best-match selection shared by `createMapping` in mapDiseasesUpdated.js and in
 * scripts/mapDiseases.js: for one NAMASTE disease name, scan the ICD rows, skip those without
 * a Disease, score each with `fuzzball.ratio` on the lower-cased names, and replace the current
 * best only when the score is strictly above 70 and strictly above the best so far.
 *
 * `fuzzball.ratio` is a library function; here it is the parameter `score`, any function from
 * two strings to a whole percentage.
 */
module FuzzyMatch {
  import opened Wrappers
  import opened Text
  import opened Terminology

  type Percent = x: int | 0 <= x <= 100

  /** `fuzzball.ratio(a, b)` */
  type Scorer = (string, string) -> Percent

  /** Scores must be strictly above this to count as a match. */
  const THRESHOLD := 70

  /** The score of ICD row `row` against NAMASTE disease `name`. */
  function ScoreOf(score: Scorer, name: string, row: IcdRow): Percent
  {
    score(Lower(name), Lower(row.disease))
  }

  /** ICD row `row` is scored at all and clears the threshold. */
  predicate Eligible(score: Scorer, name: string, row: IcdRow)
  {
    row.disease != "" && ScoreOf(score, name, row) > THRESHOLD
  }

  /** The kept candidate: its position in the ICD table and its score (`bestScore`). */
  datatype Pick = Pick(index: nat, score: Percent)

  /** The pick left after the scan of `icd`: no candidate clears the threshold, or the
      eligible row with the highest score, the earliest one among equals. */
  function Best(score: Scorer, name: string, icd: seq<IcdRow>): (b: Option<Pick>)
    ensures b.None? <==> forall j | 0 <= j < |icd| :: !Eligible(score, name, icd[j])
    ensures b.Some? ==>
      && b.value.index < |icd|
      && Eligible(score, name, icd[b.value.index])
      && b.value.score == ScoreOf(score, name, icd[b.value.index])
      && (forall j | 0 <= j < |icd| && icd[j].disease != "" :: ScoreOf(score, name, icd[j]) <= b.value.score)
      && (forall j | 0 <= j < b.value.index && icd[j].disease != "" :: ScoreOf(score, name, icd[j]) < b.value.score)
  {
    if icd == [] then None
    else
      var last := |icd| - 1;
      var prev := Best(score, name, icd[..last]);
      var bestScore := if prev.Some? then prev.value.score else 0;
      var row := icd[last];
      if row.disease != "" && ScoreOf(score, name, row) > bestScore && ScoreOf(score, name, row) > THRESHOLD
      then Some(Pick(last, ScoreOf(score, name, row)))
      else prev
  }

  /** The inner loop of `createMapping`. */
  method FindBest(score: Scorer, name: string, icd: seq<IcdRow>) returns (bestMatch: Option<Pick>)
    ensures bestMatch == Best(score, name, icd)
  {
    bestMatch := None;
    var bestScore := 0;
    for j := 0 to |icd|
      invariant bestMatch == Best(score, name, icd[..j])
      invariant bestScore == if bestMatch.Some? then bestMatch.value.score else 0
    {
      assert icd[..j + 1][..j] == icd[..j];
      if icd[j].disease == "" {
        continue;
      }
      var s := score(Lower(name), Lower(icd[j].disease));
      if s > bestScore && s > THRESHOLD { // Threshold for match
        bestMatch := Some(Pick(j, s));
        bestScore := s;
      }
    }
    assert icd[..|icd|] == icd;
  }

  /** Only the lower-cased NAMASTE name reaches the scorer. */
  lemma {:induction false} BestIgnoresCase(score: Scorer, a: string, b: string, icd: seq<IcdRow>)
    requires Lower(a) == Lower(b)
    ensures Best(score, a, icd) == Best(score, b, icd)
  {
    if icd != [] {
      BestIgnoresCase(score, a, b, icd[..|icd| - 1]);
    }
  }

  /** A NAMASTE row that gets an entry: it has a Disease and some ICD row is eligible for it. */
  predicate Matched(score: Scorer, icd: seq<IcdRow>, n: NamasteRow)
  {
    n.disease != "" && Best(score, n.disease, icd).Some?
  }

  /** The NAMASTE rows that get an entry, in table order. */
  function MatchedRows(score: Scorer, namaste: seq<NamasteRow>, icd: seq<IcdRow>): (r: seq<NamasteRow>)
    ensures |r| <= |namaste|
    ensures forall x | x in r :: Matched(score, icd, x)
  {
    if namaste == [] then []
    else
      var last := namaste[|namaste| - 1];
      MatchedRows(score, namaste[..|namaste| - 1], icd) + (if Matched(score, icd, last) then [last] else [])
  }

  /** One step of a loop over the NAMASTE table. */
  lemma MatchedRowsSnoc(score: Scorer, namaste: seq<NamasteRow>, icd: seq<IcdRow>, i: nat)
    requires i < |namaste|
    ensures MatchedRows(score, namaste[..i + 1], icd) ==
      MatchedRows(score, namaste[..i], icd) + (if Matched(score, icd, namaste[i]) then [namaste[i]] else [])
  {
    assert namaste[..i + 1][..i] == namaste[..i];
  }

  /** The matched rows are exactly the rows of the table that match, each as often as it
      occurs there. */
  lemma {:induction false} MatchedRowsCount(score: Scorer, namaste: seq<NamasteRow>, icd: seq<IcdRow>, x: NamasteRow)
    ensures multiset(MatchedRows(score, namaste, icd))[x] ==
      if Matched(score, icd, x) then multiset(namaste)[x] else 0
  {
    if namaste != [] {
      var front := namaste[..|namaste| - 1];
      assert namaste == front + [namaste[|namaste| - 1]];
      MatchedRowsCount(score, front, icd, x);
    }
  }

  /** Order is kept: the entries for an earlier part of the NAMASTE table come before those for
      a later part. */
  lemma {:induction false} MatchedRowsAppend(score: Scorer, a: seq<NamasteRow>, b: seq<NamasteRow>, icd: seq<IcdRow>)
    ensures MatchedRows(score, a + b, icd) == MatchedRows(score, a, icd) + MatchedRows(score, b, icd)
  {
    if b == [] {
      assert a + b == a;
    } else {
      assert (a + b)[..|a + b| - 1] == a + b[..|b| - 1];
      MatchedRowsAppend(score, a, b[..|b| - 1], icd);
    }
  }
}
