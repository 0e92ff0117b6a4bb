/**
 * The dashboard of src/pages/Dashboard.jsx: the statistics loaded by `fetchStats`, which hide
 * the Bundles deleted in this browser, and the quick search over the loaded patients and
 * Bundles.
 *
 * `fetchAllPatients` and `fetchAllBundles` are not defined in src/services/patientApi.js, so
 * what they answer is a parameter (`FetchOutcome`), including the exception that sends
 * `fetchStats` to its error path. Dates are compared as millisecond times: `parse` stands for
 * `new Date(s)` (`None` is an invalid date, with which every comparison is false) and `now` for
 * the clock.
 */
module Dashboard {
  import opened Wrappers
  import opened Text
  import opened Seqs
  import opened Fhir

  /** The fields of a patient object that the dashboard reads. */
  datatype DashPatient = DashPatient(
    id: Option<string>,
    abhaId: Option<string>,
    firstName: Option<string>,
    lastName: Option<string>,
    phoneNumber: Option<string>,
    email: Option<string>,
    registrationDate: Option<string>)

  datatype ApiResponse<T> = Succeeded(data: T) | Failed

  /** What the two fetches produced: their responses, or an exception. */
  datatype FetchOutcome = Fetched(patients: ApiResponse<seq<DashPatient>>, bundles: ApiResponse<seq<Bundle>>) | Threw

  datatype Stats = Stats(totalPatients: nat, totalBundles: nat, recentRegistrations: nat, online: bool)

  const OFFLINE := Stats(0, 0, 0, false)
  const MAX_PATIENT_RESULTS := 5
  const MAX_BUNDLE_RESULTS := 3
  const WEEK_MS := 7 * 24 * 60 * 60 * 1000

  // ---------------------------------------------------------------------------------------
  // Statistics

  /** A Bundle not deleted in this browser (`!deletedBundles.has(b.id)`). */
  predicate Kept(b: Bundle, deleted: set<string>)
  {
    b.id.None? || b.id.value !in deleted
  }

  function KeptBundles(bundles: seq<Bundle>, deleted: set<string>): seq<Bundle>
  {
    Filter(bundles, (b: Bundle) => Kept(b, deleted))
  }

  /** Exactly the Bundles that are not deleted remain, in order and as often as they occur. */
  lemma KeptBundlesSpec(bundles: seq<Bundle>, deleted: set<string>, x: Bundle)
    ensures multiset(KeptBundles(bundles, deleted))[x] == if Kept(x, deleted) then multiset(bundles)[x] else 0
    ensures deleted == {} ==> KeptBundles(bundles, deleted) == bundles
  {
    FilterCount(bundles, (b: Bundle) => Kept(b, deleted), x);
    if deleted == {} {
      FilterAll(bundles, (b: Bundle) => Kept(b, deleted));
    }
  }

  /** Registered less than a week before `now`. */
  predicate Recent(p: DashPatient, parse: string -> Option<int>, now: int)
  {
    Truthy(p.registrationDate) && parse(p.registrationDate.value).Some? &&
    parse(p.registrationDate.value).value > now - WEEK_MS
  }

  function RecentPatients(patients: seq<DashPatient>, parse: string -> Option<int>, now: int): seq<DashPatient>
  {
    Filter(patients, (p: DashPatient) => Recent(p, parse, now))
  }

  /** The statistics for the data a successful fetch installs. */
  function StatsOf(patients: seq<DashPatient>, bundles: seq<Bundle>, parse: string -> Option<int>, now: int): (s: Stats)
    ensures s.online && s.recentRegistrations <= s.totalPatients
    ensures s.totalPatients == |patients| && s.totalBundles == |bundles|
  {
    Stats(|patients|, |bundles|, |RecentPatients(patients, parse, now)|, true)
  }

  /** A patient without a registration date, or with one that does not parse, never counts as
      recent. */
  lemma UndatedNotRecent(patients: seq<DashPatient>, parse: string -> Option<int>, now: int, x: DashPatient)
    requires !Truthy(x.registrationDate) || parse(x.registrationDate.value).None?
    ensures x !in RecentPatients(patients, parse, now)
  {
  }

  // ---------------------------------------------------------------------------------------
  // Quick search

  /** `field?.toLowerCase().includes(searchTerm.toLowerCase())` */
  predicate HasIgnoringCase(field: Option<string>, term: string)
  {
    field.Some? && Contains(Lower(field.value), Lower(term))
  }

  /** `field?.includes(searchTerm)` */
  predicate HasExactly(field: Option<string>, term: string)
  {
    field.Some? && Contains(field.value, term)
  }

  predicate PatientHit(p: DashPatient, term: string)
  {
    HasIgnoringCase(p.firstName, term) || HasIgnoringCase(p.lastName, term) ||
    HasExactly(p.phoneNumber, term) || HasExactly(p.abhaId, term) || HasIgnoringCase(p.email, term)
  }

  predicate BundleHit(b: Bundle, term: string)
  {
    Contains(Lower(b.resourceType), Lower(term)) || HasExactly(b.id, term)
  }

  datatype SearchResult =
    | PatientResult(id: Option<string>, title: string, subtitle: string, details: string)
    | BundleResult(id: Option<string>, title: string)

  function PatientResultOf(p: DashPatient): SearchResult
  {
    PatientResult(OrElse(p.id, p.abhaId), Show(p.firstName) + " " + Show(p.lastName),
      "Phone: " + Show(p.phoneNumber), "ABHA: " + Show(p.abhaId))
  }

  function BundleResultOf(b: Bundle): SearchResult
  {
    BundleResult(b.id, if b.resourceType != "" then b.resourceType else "FHIR Bundle")
  }

  function PatientHits(patients: seq<DashPatient>, term: string): seq<DashPatient>
  {
    Filter(patients, (p: DashPatient) => PatientHit(p, term))
  }

  function BundleHits(bundles: seq<Bundle>, term: string): seq<Bundle>
  {
    Filter(bundles, (b: Bundle) => BundleHit(b, term))
  }

  /** The results the search effect installs for `term`. */
  function SearchResults(patients: seq<DashPatient>, bundles: seq<Bundle>, term: string): seq<SearchResult>
  {
    if IsBlank(term) then []
    else
      ResultsOf(Take(PatientHits(patients, term), MAX_PATIENT_RESULTS), Take(BundleHits(bundles, term), MAX_BUNDLE_RESULTS))
  }

  /** The patient results followed by the Bundle results. */
  function ResultsOf(ps: seq<DashPatient>, bs: seq<Bundle>): seq<SearchResult>
  {
    seq(|ps|, i requires 0 <= i < |ps| => PatientResultOf(ps[i])) +
    seq(|bs|, i requires 0 <= i < |bs| => BundleResultOf(bs[i]))
  }

  lemma ResultsOfLayout(ps: seq<DashPatient>, bs: seq<Bundle>)
    ensures |ResultsOf(ps, bs)| == |ps| + |bs|
    ensures forall i | 0 <= i < |ps| :: ResultsOf(ps, bs)[i] == PatientResultOf(ps[i])
    ensures forall i | |ps| <= i < |ps| + |bs| :: ResultsOf(ps, bs)[i] == BundleResultOf(bs[i - |ps|])
  {
  }

  function Min(a: nat, b: nat): nat
  {
    if a < b then a else b
  }

  /** A blank term shows nothing. Otherwise the results are the first five matching patients,
      in list order, followed by the first three matching Bundles. */
  lemma SearchResultsSpec(patients: seq<DashPatient>, bundles: seq<Bundle>, term: string)
    ensures IsBlank(term) ==> SearchResults(patients, bundles, term) == []
    ensures !IsBlank(term) ==>
      var r := SearchResults(patients, bundles, term);
      var np := Min(|PatientHits(patients, term)|, MAX_PATIENT_RESULTS);
      var nb := Min(|BundleHits(bundles, term)|, MAX_BUNDLE_RESULTS);
      && |r| == np + nb <= MAX_PATIENT_RESULTS + MAX_BUNDLE_RESULTS
      && (forall i | 0 <= i < |r| :: r[i].PatientResult? <==> i < np)
      && (forall i | 0 <= i < np :: r[i] == PatientResultOf(PatientHits(patients, term)[i]))
      && (forall i | np <= i < |r| :: r[i] == BundleResultOf(BundleHits(bundles, term)[i - np]))
  {
    if !IsBlank(term) {
      var ps := Take(PatientHits(patients, term), MAX_PATIENT_RESULTS);
      var bs := Take(BundleHits(bundles, term), MAX_BUNDLE_RESULTS);
      ResultsOfLayout(ps, bs);
    }
  }

  /** Every result stands for a patient or Bundle that matches the term. */
  lemma SearchResultsMatch(patients: seq<DashPatient>, bundles: seq<Bundle>, term: string, i: nat)
    requires i < |SearchResults(patients, bundles, term)|
    ensures var r := SearchResults(patients, bundles, term)[i];
      (r.PatientResult? ==> exists p | p in patients && PatientHit(p, term) :: r == PatientResultOf(p))
      && (r.BundleResult? ==> exists b | b in bundles && BundleHit(b, term) :: r == BundleResultOf(b))
  {
    SearchResultsSpec(patients, bundles, term);
    var np := Min(|PatientHits(patients, term)|, MAX_PATIENT_RESULTS);
    if i < np {
      assert PatientHits(patients, term)[i] in PatientHits(patients, term);
    } else {
      assert BundleHits(bundles, term)[i - np] in BundleHits(bundles, term);
    }
  }

  /** The phone number and the ABHA number are searched as typed, the names and the email
      ignoring case: a patient known only by an upper-case email is found by its lower-case
      spelling. */
  lemma EmailIgnoresCase(p: DashPatient)
    requires p.email == Some("A@B.IN")
    ensures PatientHit(p, "a@b.in")
  {
    assert Lower("A@B.IN") == "a@b.in";
    assert Lower("a@b.in") == "a@b.in";
    assert OccursAt("a@b.in", "a@b.in", 0);
  }

  // ---------------------------------------------------------------------------------------
  // The page

  /** The state of the dashboard that the statistics and the search use. */
  class DashboardPage {
    var searchTerm: string
    var searchResults: seq<SearchResult>
    var showSearchResults: bool
    var stats: Stats
    var allPatients: seq<DashPatient>
    var allBundles: seq<Bundle>
    /** The ids deleted in this browser, read from local storage when the page is created. */
    const deletedBundles: set<string>

    /** The results always reflect the term and the loaded data, no deleted Bundle is loaded,
        and under the handlers modelled here (typing, the search effect, a result click) the
        panel shows exactly when the term is not blank. */
    predicate Valid()
      reads this
    {
      && searchResults == SearchResults(allPatients, allBundles, searchTerm)
      && (showSearchResults <==> !IsBlank(searchTerm))
      && forall i | 0 <= i < |allBundles| :: Kept(allBundles[i], deletedBundles)
    }

    constructor (deleted: set<string>)
      ensures Valid()
      ensures searchTerm == "" && searchResults == [] && !showSearchResults
      ensures stats == Stats(0, 0, 0, true) && allPatients == [] && allBundles == []
      ensures deletedBundles == deleted
    {
      searchTerm := "";
      searchResults := [];
      showSearchResults := false;
      stats := Stats(0, 0, 0, true);
      allPatients := [];
      allBundles := [];
      deletedBundles := deleted;
    }

    /** The search effect, run whenever the term or the loaded data change. */
    method SearchEffect()
      modifies this`searchResults, this`showSearchResults
      ensures searchResults == SearchResults(allPatients, allBundles, searchTerm)
      ensures showSearchResults <==> !IsBlank(searchTerm)
    {
      if !IsBlank(searchTerm) {
        var ps := Take(PatientHits(allPatients, searchTerm), MAX_PATIENT_RESULTS);
        var bs := Take(BundleHits(allBundles, searchTerm), MAX_BUNDLE_RESULTS);
        searchResults := seq(|ps|, i requires 0 <= i < |ps| => PatientResultOf(ps[i])) +
          seq(|bs|, i requires 0 <= i < |bs| => BundleResultOf(bs[i]));
        showSearchResults := true;
      } else {
        searchResults := [];
        showSearchResults := false;
      }
    }

    /** Typing in the search box. */
    method SetSearchTerm(term: string)
      requires Valid()
      modifies this`searchTerm, this`searchResults, this`showSearchResults
      ensures Valid() && searchTerm == term
    {
      searchTerm := term;
      SearchEffect();
    }

    /** A click on a search result closes the panel and empties the box. */
    method ClickResult()
      requires Valid()
      modifies this`searchTerm, this`searchResults, this`showSearchResults
      ensures Valid() && searchTerm == "" && searchResults == [] && !showSearchResults
    {
      showSearchResults := false;
      searchTerm := "";
      SearchEffect();
    }

    /** `fetchStats()` with the fetches' `outcome`, at time `now`. */
    method FetchStats(outcome: FetchOutcome, parse: string -> Option<int>, now: int)
      requires Valid()
      modifies this`stats, this`allPatients, this`allBundles, this`searchResults, this`showSearchResults
      ensures Valid()
      ensures outcome.Threw? ==>
        stats == OFFLINE && allPatients == old(allPatients) && allBundles == old(allBundles)
      ensures outcome.Fetched? ==>
        && allPatients == (if outcome.patients.Succeeded? then outcome.patients.data else [])
        && allBundles == (if outcome.bundles.Succeeded? then KeptBundles(outcome.bundles.data, deletedBundles) else [])
        && stats == StatsOf(allPatients, allBundles, parse, now)
    {
      if outcome.Threw? {
        stats := OFFLINE;
        return;
      }
      var patients := if outcome.patients.Succeeded? then outcome.patients.data else [];
      var bundles := if outcome.bundles.Succeeded? then KeptBundles(outcome.bundles.data, deletedBundles) else [];
      forall i | 0 <= i < |bundles|
        ensures Kept(bundles[i], deletedBundles)
      {
        assert bundles[i] in bundles;
      }
      allPatients := patients;
      allBundles := bundles;
      var recent := RecentPatients(patients, parse, now);
      stats := Stats(|patients|, |bundles|, |recent|, true);
      SearchEffect();
    }
  }
}
