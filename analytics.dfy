/**
 * The analytics page of src/pages/DataAnalytics/index.jsx: `loadAnalyticsData` reads the
 * patients and Bundles kept in local storage and computes the totals, the gender and age
 * histograms, the five most common NAMASTE conditions and the registrations of the last
 * seven days.
 *
 * A JavaScript object used as a counter (`acc[key] = (acc[key] || 0) + 1`) is a `Tally`: its
 * keys in insertion order, which is the order `Object.entries` lists them in, and the count of
 * each. The clock is a parameter: `currentYear`, `yearOf` for `new Date(s).getFullYear()`
 * (`None` for an invalid date) and `dayBefore(n)` for the local date `n` days ago.
 */
module Analytics {
  import opened Wrappers
  import opened Text
  import opened Seqs
  import opened Fhir

  // ---------------------------------------------------------------------------------------
  // Counters

  datatype Tally = Tally(keys: seq<string>, count: map<string, nat>)

  /** The keys are listed once each, and exactly the listed keys have a count, at least 1. */
  predicate WellFormed(t: Tally)
  {
    && (forall k | k in t.count :: k in t.keys && t.count[k] >= 1)
    && (forall k | k in t.keys :: k in t.count)
    && (forall i, j | 0 <= i < j < |t.keys| :: t.keys[i] != t.keys[j])
  }

  /** `acc[key] || 0` */
  function Count(t: Tally, key: string): nat
  {
    if key in t.count then t.count[key] else 0
  }

  /** `acc[key] = (acc[key] || 0) + 1` */
  function Bump(t: Tally, key: string): Tally
  {
    if key in t.count then Tally(t.keys, t.count[key := t.count[key] + 1])
    else Tally(t.keys + [key], t.count[key := 1])
  }

  /** The counter after bumping each key in turn, starting from `{}`. */
  function TallyOf(keys: seq<string>): Tally
  {
    if keys == [] then Tally([], map[])
    else Bump(TallyOf(keys[..|keys| - 1]), keys[|keys| - 1])
  }

  /** The sum of the counts of `keys`. */
  function SumOf(keys: seq<string>, count: map<string, nat>): nat
    requires forall k | k in keys :: k in count
  {
    if keys == [] then 0 else SumOf(keys[..|keys| - 1], count) + count[keys[|keys| - 1]]
  }

  function Total(t: Tally): nat
    requires WellFormed(t)
  {
    SumOf(t.keys, t.count)
  }

  lemma {:induction false} SumOfSame(keys: seq<string>, a: map<string, nat>, b: map<string, nat>)
    requires forall k | k in keys :: k in a && k in b && a[k] == b[k]
    ensures SumOf(keys, a) == SumOf(keys, b)
  {
    if keys != [] {
      SumOfSame(keys[..|keys| - 1], a, b);
    }
  }

  /** Adding one to the count of a key listed once adds one to the sum. */
  lemma {:induction false} SumOfBump(keys: seq<string>, count: map<string, nat>, key: string)
    requires forall k | k in keys :: k in count
    requires forall i, j | 0 <= i < j < |keys| :: keys[i] != keys[j]
    requires key in keys
    ensures SumOf(keys, count[key := count[key] + 1]) == SumOf(keys, count) + 1
  {
    var n := |keys| - 1;
    var front := keys[..n];
    if keys[n] == key {
      assert key !in front;
      SumOfSame(front, count, count[key := count[key] + 1]);
    } else {
      assert key in front;
      SumOfBump(front, count, key);
    }
  }

  /** Bumping keeps a counter well formed, adds one to the bumped key's count and to the
      total, and leaves every other count alone. */
  lemma BumpSpec(t: Tally, key: string)
    requires WellFormed(t)
    ensures WellFormed(Bump(t, key))
    ensures Total(Bump(t, key)) == Total(t) + 1
    ensures Count(Bump(t, key), key) == Count(t, key) + 1
    ensures forall k | k != key :: Count(Bump(t, key), k) == Count(t, k)
  {
    BumpWellFormed(t, key);
    BumpTotal(t, key);
  }

  lemma BumpTotal(t: Tally, key: string)
    requires forall k | k in t.keys :: k in t.count
    requires forall i, j | 0 <= i < j < |t.keys| :: t.keys[i] != t.keys[j]
    requires key in t.count <==> key in t.keys
    ensures forall k | k in Bump(t, key).keys :: k in Bump(t, key).count
    ensures SumOf(Bump(t, key).keys, Bump(t, key).count) == SumOf(t.keys, t.count) + 1
  {
    if key in t.count {
      SumOfBump(t.keys, t.count, key);
    } else {
      var keys := t.keys + [key];
      assert keys[..|t.keys|] == t.keys;
      SumOfSame(t.keys, t.count, t.count[key := 1]);
    }
  }

  lemma BumpWellFormed(t: Tally, key: string)
    requires WellFormed(t)
    ensures WellFormed(Bump(t, key))
  {
    if key !in t.count {
      var keys := t.keys + [key];
      forall i, j | 0 <= i < j < |keys|
        ensures keys[i] != keys[j]
      {
        if j == |t.keys| {
          assert keys[i] in t.keys;
        }
      }
    }
  }

  /** The counter of a list of keys is well formed, counts every key as often as it occurs, and
      its counts add up to the length of the list. */
  lemma {:induction false} TallyOfSpec(keys: seq<string>)
    ensures WellFormed(TallyOf(keys))
    ensures Total(TallyOf(keys)) == |keys|
    ensures forall k :: Count(TallyOf(keys), k) == multiset(keys)[k]
  {
    if keys != [] {
      var n := |keys| - 1;
      TallyOfSpec(keys[..n]);
      BumpSpec(TallyOf(keys[..n]), keys[n]);
      assert keys == keys[..n] + [keys[n]];
    }
  }

  // ---------------------------------------------------------------------------------------
  // Totals and histograms

  /** The fields of a stored patient that the page reads. */
  datatype StoredPatient = StoredPatient(gender: Option<string>, dateOfBirth: Option<string>, registrationDate: Option<string>)

  /** `acc[patient.gender]`: a missing gender is counted under "undefined". */
  function GenderKeys(patients: seq<StoredPatient>): (keys: seq<string>)
    ensures |keys| == |patients|
  {
    seq(|patients|, i requires 0 <= i < |patients| => Show(patients[i].gender))
  }

  function GenderDistribution(patients: seq<StoredPatient>): Tally
  {
    TallyOf(GenderKeys(patients))
  }

  /** Every patient is counted under its gender, so the counts add up to the number of
      patients. */
  lemma GenderDistributionSpec(patients: seq<StoredPatient>)
    ensures WellFormed(GenderDistribution(patients))
    ensures Total(GenderDistribution(patients)) == |patients|
    ensures forall k :: Count(GenderDistribution(patients), k) == multiset(GenderKeys(patients))[k]
  {
    TallyOfSpec(GenderKeys(patients));
  }

  /** The age group of `age`; an invalid date gives NaN, for which every comparison is false. */
  function AgeGroup(age: Option<int>): string
  {
    if age.None? then "65+"
    else if age.value < 18 then "Under 18"
    else if age.value < 35 then "18-34"
    else if age.value < 50 then "35-49"
    else if age.value < 65 then "50-64"
    else "65+"
  }

  /** The bucket boundaries: each group starts at its lower bound. */
  lemma AgeGroupBounds(age: int)
    ensures AgeGroup(Some(age)) == "Under 18" <==> age < 18
    ensures AgeGroup(Some(age)) == "18-34" <==> 18 <= age < 35
    ensures AgeGroup(Some(age)) == "35-49" <==> 35 <= age < 50
    ensures AgeGroup(Some(age)) == "50-64" <==> 50 <= age < 65
    ensures AgeGroup(Some(age)) == "65+" <==> 65 <= age
    ensures AgeGroup(None) == "65+"
  {
  }

  predicate HasBirthDate(p: StoredPatient)
  {
    Truthy(p.dateOfBirth)
  }

  function Age(p: StoredPatient, currentYear: int, yearOf: string -> Option<int>): Option<int>
    requires HasBirthDate(p)
  {
    var y := yearOf(p.dateOfBirth.value);
    if y.Some? then Some(currentYear - y.value) else None
  }

  /** The groups of the patients that have a birth date, in list order. */
  function AgeKeys(patients: seq<StoredPatient>, currentYear: int, yearOf: string -> Option<int>): (keys: seq<string>)
    ensures |keys| == |Filter(patients, HasBirthDate)|
    ensures forall i | 0 <= i < |keys| :: IsAgeGroup(keys[i])
  {
    var dated := Filter(patients, HasBirthDate);
    seq(|dated|, i requires 0 <= i < |dated| => AgeGroup(Age(dated[i], currentYear, yearOf)))
  }

  function AgeDistribution(patients: seq<StoredPatient>, currentYear: int, yearOf: string -> Option<int>): Tally
  {
    TallyOf(AgeKeys(patients, currentYear, yearOf))
  }

  predicate IsAgeGroup(k: string)
  {
    k == "Under 18" || k == "18-34" || k == "35-49" || k == "50-64" || k == "65+"
  }

  /** Only patients with a birth date are counted, each once, and only under the five group
      names. */
  lemma AgeDistributionSpec(patients: seq<StoredPatient>, currentYear: int, yearOf: string -> Option<int>)
    ensures WellFormed(AgeDistribution(patients, currentYear, yearOf))
    ensures Total(AgeDistribution(patients, currentYear, yearOf)) == |Filter(patients, HasBirthDate)| <= |patients|
    ensures forall k | k in AgeDistribution(patients, currentYear, yearOf).keys :: IsAgeGroup(k)
  {
    var keys := AgeKeys(patients, currentYear, yearOf);
    TallyOfSpec(keys);
    forall k | k in TallyOf(keys).keys
      ensures IsAgeGroup(k)
    {
      KeyIsAgeGroup(keys, k);
    }
  }

  lemma KeyIsAgeGroup(keys: seq<string>, k: string)
    requires forall i | 0 <= i < |keys| :: IsAgeGroup(keys[i])
    requires WellFormed(TallyOf(keys)) && k in TallyOf(keys).keys
    requires Count(TallyOf(keys), k) == multiset(keys)[k]
    ensures IsAgeGroup(k)
  {
    assert k in multiset(keys);
    var i :| 0 <= i < |keys| && keys[i] == k;
  }

  // ---------------------------------------------------------------------------------------
  // Condition counts

  /** The displays of the NAMASTE codings among `codings`, under the key `String(display)`. */
  function CodingKeys(codings: seq<Coding>): seq<string>
  {
    if codings == [] then []
    else
      var c := codings[|codings| - 1];
      CodingKeys(codings[..|codings| - 1]) + (if c.system == NAMASTE_SYSTEM then [Show(c.display)] else [])
  }

  /** The keys of the Condition entries of one Bundle. */
  function EntryKeys(entry: seq<Resource>): seq<string>
  {
    if entry == [] then []
    else
      var e := entry[|entry| - 1];
      EntryKeys(entry[..|entry| - 1]) + (if IsCondition(e) then CodingKeys(e.coding) else [])
  }

  function BundleKeys(bundles: seq<Bundle>): seq<string>
  {
    if bundles == [] then [] else BundleKeys(bundles[..|bundles| - 1]) + EntryKeys(bundles[|bundles| - 1].entry)
  }

  lemma TallyOfSnoc(keys: seq<string>, k: string)
    ensures TallyOf(keys + [k]) == Bump(TallyOf(keys), k)
  {
    assert (keys + [k])[..|keys|] == keys;
  }

  lemma CodingStep(before: seq<string>, codes: seq<Coding>, k: nat)
    requires k < |codes|
    ensures before + CodingKeys(codes[..k + 1]) ==
      (before + CodingKeys(codes[..k])) + (if codes[k].system == NAMASTE_SYSTEM then [Show(codes[k].display)] else [])
  {
    assert codes[..k + 1][..k] == codes[..k];
  }

  lemma EntryStep(done: seq<string>, entry: seq<Resource>, j: nat)
    requires j < |entry|
    ensures done + EntryKeys(entry[..j + 1]) ==
      (done + EntryKeys(entry[..j])) + (if IsCondition(entry[j]) then CodingKeys(entry[j].coding) else [])
  {
    assert entry[..j + 1][..j] == entry[..j];
  }

  lemma BundleStep(bundles: seq<Bundle>, i: nat)
    requires i < |bundles|
    ensures BundleKeys(bundles[..i + 1]) == BundleKeys(bundles[..i]) + EntryKeys(bundles[i].entry)
  {
    assert bundles[..i + 1][..i] == bundles[..i];
  }

  /** The nested `forEach` loops that fill `conditionCounts`. */
  method CountConditions(bundles: seq<Bundle>) returns (t: Tally)
    ensures t == TallyOf(BundleKeys(bundles))
  {
    t := Tally([], map[]);
    for i := 0 to |bundles|
      invariant t == TallyOf(BundleKeys(bundles[..i]))
    {
      BundleStep(bundles, i);
      ghost var done := BundleKeys(bundles[..i]);
      var entry := bundles[i].entry;
      assert done + EntryKeys(entry[..0]) == done;
      for j := 0 to |entry|
        invariant t == TallyOf(done + EntryKeys(entry[..j]))
      {
        EntryStep(done, entry, j);
        if IsCondition(entry[j]) {
          ghost var before := done + EntryKeys(entry[..j]);
          var codes := entry[j].coding;
          assert before + CodingKeys(codes[..0]) == before;
          for k := 0 to |codes|
            invariant t == TallyOf(before + CodingKeys(codes[..k]))
          {
            CodingStep(before, codes, k);
            if codes[k].system == NAMASTE_SYSTEM {
              TallyOfSnoc(before + CodingKeys(codes[..k]), Show(codes[k].display));
              t := Bump(t, Show(codes[k].display));
            } else {
              assert before + CodingKeys(codes[..k + 1]) == before + CodingKeys(codes[..k]);
            }
          }
          assert codes[..|codes|] == codes;
          assert before + CodingKeys(codes) == done + EntryKeys(entry[..j + 1]);
        } else {
          assert done + EntryKeys(entry[..j + 1]) == done + EntryKeys(entry[..j]);
        }
      }
      assert entry[..|entry|] == entry;
    }
    assert bundles[..|bundles|] == bundles;
  }

  // ---------------------------------------------------------------------------------------
  // The five most common conditions

  datatype Ranked = Ranked(condition: string, count: nat)

  /** `Object.entries(conditionCounts)` */
  function Entries(t: Tally): (es: seq<Ranked>)
    requires WellFormed(t)
    ensures |es| == |t.keys|
  {
    seq(|t.keys|, i requires 0 <= i < |t.keys| => Ranked(t.keys[i], t.count[t.keys[i]]))
  }

  predicate SortedByCount(s: seq<Ranked>)
  {
    forall i, j | 0 <= i < j < |s| :: s[i].count >= s[j].count
  }

  /** Places `x` after every entry counted at least as often: the stable insertion step. */
  function Insert(x: Ranked, s: seq<Ranked>): seq<Ranked>
  {
    if s == [] then [x]
    else if s[0].count >= x.count then [s[0]] + Insert(x, s[1..])
    else [x] + s
  }

  /** `sort(([,a], [,b]) => b - a)`: non-increasing counts, ties in their original order. */
  function SortByCount(s: seq<Ranked>): seq<Ranked>
  {
    if s == [] then [] else Insert(s[|s| - 1], SortByCount(s[..|s| - 1]))
  }

  lemma {:induction false} InsertMultiset(x: Ranked, s: seq<Ranked>)
    ensures multiset(Insert(x, s)) == multiset(s) + multiset{x}
  {
    if s != [] && s[0].count >= x.count {
      InsertMultiset(x, s[1..]);
      assert s == [s[0]] + s[1..];
    }
  }

  lemma {:induction false} InsertSpec(x: Ranked, s: seq<Ranked>)
    requires SortedByCount(s)
    ensures SortedByCount(Insert(x, s))
    ensures multiset(Insert(x, s)) == multiset(s) + multiset{x}
  {
    InsertMultiset(x, s);
    if s != [] && s[0].count >= x.count {
      var r := Insert(x, s[1..]);
      InsertSpec(x, s[1..]);
      InsertMultiset(x, s[1..]);
      forall i | 0 <= i < |r|
        ensures r[i].count <= s[0].count
      {
        assert r[i] in multiset(s[1..]) + multiset{x};
        if r[i] != x {
          assert r[i] in s[1..];
        }
      }
      assert Insert(x, s) == [s[0]] + r;
    }
  }

  /** Sorting orders the entries by non-increasing count and only reorders them. */
  lemma {:induction false} SortByCountSpec(s: seq<Ranked>)
    ensures SortedByCount(SortByCount(s))
    ensures multiset(SortByCount(s)) == multiset(s)
  {
    if s != [] {
      var n := |s| - 1;
      SortByCountSpec(s[..n]);
      InsertSpec(s[n], SortByCount(s[..n]));
      assert s == s[..n] + [s[n]];
    }
  }

  const TOP_CONDITIONS := 5

  /** `mostCommonConditions` */
  function MostCommon(t: Tally): seq<Ranked>
    requires WellFormed(t)
  {
    Take(SortByCount(Entries(t)), TOP_CONDITIONS)
  }

  /** At most five conditions are listed, in non-increasing count, each with its own count and
      each once; and no condition left out is more common than the last one listed. */
  lemma MostCommonSpec(t: Tally)
    requires WellFormed(t)
    ensures var r := MostCommon(t);
      && |r| == (if |t.keys| < TOP_CONDITIONS then |t.keys| else TOP_CONDITIONS)
      && SortedByCount(r)
      && (forall i | 0 <= i < |r| :: r[i].condition in t.keys && r[i].count == Count(t, r[i].condition))
      && (forall i, j | 0 <= i < j < |r| :: r[i].condition != r[j].condition)
      && (forall k | k in t.keys && (forall i | 0 <= i < |r| :: r[i].condition != k) ::
            |r| == TOP_CONDITIONS && Count(t, k) <= r[TOP_CONDITIONS - 1].count)
  {
    var sorted := SortByCount(Entries(t));
    SortedEntries(t);
    var r := MostCommon(t);
    forall k | k in t.keys && (forall i | 0 <= i < |r| :: r[i].condition != k)
      ensures |r| == TOP_CONDITIONS && Count(t, k) <= r[TOP_CONDITIONS - 1].count
    {
      var es := Entries(t);
      var p :| 0 <= p < |t.keys| && t.keys[p] == k;
      assert es[p] in multiset(sorted);
      var q :| 0 <= q < |sorted| && sorted[q] == es[p];
      assert q >= |r|;
    }
  }

  /** The sorted entries: one per key, each with its count, in non-increasing count. */
  lemma SortedEntries(t: Tally)
    requires WellFormed(t)
    ensures var sorted := SortByCount(Entries(t));
      && |sorted| == |t.keys|
      && SortedByCount(sorted)
      && multiset(sorted) == multiset(Entries(t))
      && (forall i | 0 <= i < |sorted| :: sorted[i].condition in t.keys && sorted[i].count == Count(t, sorted[i].condition))
      && (forall i, j | 0 <= i < j < |sorted| :: sorted[i].condition != sorted[j].condition)
  {
    var es := Entries(t);
    var sorted := SortByCount(es);
    SortByCountSpec(es);
    assert |sorted| == |es| by {
      assert |multiset(sorted)| == |multiset(es)|;
    }
    forall i | 0 <= i < |sorted|
      ensures sorted[i].condition in t.keys && sorted[i].count == Count(t, sorted[i].condition)
    {
      assert sorted[i] in multiset(es);
    }
    forall i, j | 0 <= i < j < |sorted|
      ensures sorted[i].condition != sorted[j].condition
    {
      DistinctEntries(t, sorted, i, j);
    }
  }

  /** Two positions of a reordering of the entries name different conditions. */
  lemma DistinctEntries(t: Tally, sorted: seq<Ranked>, i: nat, j: nat)
    requires WellFormed(t) && multiset(sorted) == multiset(Entries(t))
    requires i < j < |sorted|
    ensures sorted[i].condition != sorted[j].condition
  {
    var es := Entries(t);
    if sorted[i] == sorted[j] {
      var front := sorted[..j];
      assert sorted[i] in front;
      assert sorted[..j + 1] == front + [sorted[j]];
      assert sorted == sorted[..j + 1] + sorted[j + 1..];
      assert multiset(sorted)[sorted[i]] >= 2;
      var p :| 0 <= p < |es| && es[p] == sorted[i];
      EntryOnce(t, p);
    } else {
      assert sorted[i] in multiset(es) && sorted[j] in multiset(es);
    }
  }

  /** Each entry occurs once among the entries. */
  lemma EntryOnce(t: Tally, p: nat)
    requires WellFormed(t) && p < |t.keys|
    ensures multiset(Entries(t))[Entries(t)[p]] == 1
  {
    var es := Entries(t);
    var x := es[p];
    assert es == es[..p] + [x] + es[p + 1..];
    forall q | 0 <= q < |es| && q != p
      ensures es[q] != x
    {
      assert t.keys[q] != t.keys[p];
    }
    assert x !in es[..p];
    assert x !in es[p + 1..];
  }

  // ---------------------------------------------------------------------------------------
  // Registrations of the last seven days

  datatype TrendPoint = TrendPoint(date: string, count: nat)

  const TREND_DAYS := 7

  function RegisteredOn(patients: seq<StoredPatient>, date: string): seq<StoredPatient>
  {
    Filter(patients, (p: StoredPatient) => p.registrationDate == Some(date))
  }

  /** `last7Days`, oldest first, and the registrations of each day. */
  function RegistrationTrend(patients: seq<StoredPatient>, dayBefore: nat -> string): (trend: seq<TrendPoint>)
    ensures |trend| == TREND_DAYS
    ensures forall i | 0 <= i < TREND_DAYS :: trend[i].date == dayBefore(TREND_DAYS - 1 - i)
  {
    seq(TREND_DAYS, i requires 0 <= i < TREND_DAYS =>
      TrendPoint(dayBefore(TREND_DAYS - 1 - i), |RegisteredOn(patients, dayBefore(TREND_DAYS - 1 - i))|))
  }

  function TrendTotal(trend: seq<TrendPoint>): nat
  {
    if trend == [] then 0 else TrendTotal(trend[..|trend| - 1]) + trend[|trend| - 1].count
  }

  /** The number of the given dates that are `d`. */
  function Hits(dates: seq<string>, d: Option<string>): nat
  {
    if dates == [] then 0 else Hits(dates[..|dates| - 1], d) + (if d == Some(dates[|dates| - 1]) then 1 else 0)
  }

  lemma {:induction false} HitsAtMostOne(dates: seq<string>, d: Option<string>)
    requires forall i, j | 0 <= i < j < |dates| :: dates[i] != dates[j]
    ensures Hits(dates, d) <= 1
    ensures Hits(dates, d) == 1 ==> d.Some? && d.value in dates
  {
    if dates != [] {
      var n := |dates| - 1;
      HitsAtMostOne(dates[..n], d);
      if d == Some(dates[n]) {
        HitsNone(dates[..n], d);
      }
    }
  }

  lemma {:induction false} HitsNone(dates: seq<string>, d: Option<string>)
    requires d.None? || d.value !in dates
    ensures Hits(dates, d) == 0
  {
    if dates != [] {
      HitsNone(dates[..|dates| - 1], d);
    }
  }

  /** The total over a list of days of the registrations on each day. */
  function DayCounts(patients: seq<StoredPatient>, dates: seq<string>): nat
  {
    if dates == [] then 0 else DayCounts(patients, dates[..|dates| - 1]) + |RegisteredOn(patients, dates[|dates| - 1])|
  }

  /** Counting per day is counting, per patient, the days it registered on. */
  lemma {:induction false} DayCountsByPatient(patients: seq<StoredPatient>, dates: seq<string>)
    ensures DayCounts(patients, dates) == PatientHits(patients, dates)
  {
    if patients != [] {
      var n := |patients| - 1;
      DayCountsByPatient(patients[..n], dates);
      DayCountsSplit(patients[..n], patients[n], dates);
      assert patients == patients[..n] + [patients[n]];
    } else {
      DayCountsEmpty(dates);
    }
  }

  function PatientHits(patients: seq<StoredPatient>, dates: seq<string>): nat
  {
    if patients == [] then 0
    else PatientHits(patients[..|patients| - 1], dates) + Hits(dates, patients[|patients| - 1].registrationDate)
  }

  lemma {:induction false} DayCountsEmpty(dates: seq<string>)
    ensures DayCounts([], dates) == 0
  {
    if dates != [] {
      DayCountsEmpty(dates[..|dates| - 1]);
    }
  }

  lemma {:induction false} DayCountsSplit(patients: seq<StoredPatient>, p: StoredPatient, dates: seq<string>)
    ensures DayCounts(patients + [p], dates) == DayCounts(patients, dates) + Hits(dates, p.registrationDate)
  {
    if dates != [] {
      var n := |dates| - 1;
      DayCountsSplit(patients, p, dates[..n]);
      var f := (q: StoredPatient) => q.registrationDate == Some(dates[n]);
      FilterAppend(patients, [p], f);
      assert [p][..0] == [];
    }
  }

  /** On distinct days, a patient registers at most once, so the trend never counts more
      registrations than there are patients. */
  lemma {:induction false} PatientHitsBound(patients: seq<StoredPatient>, dates: seq<string>)
    requires forall i, j | 0 <= i < j < |dates| :: dates[i] != dates[j]
    ensures PatientHits(patients, dates) <= |patients|
  {
    if patients != [] {
      PatientHitsBound(patients[..|patients| - 1], dates);
      HitsAtMostOne(dates, patients[|patients| - 1].registrationDate);
    }
  }

  function TrendDates(dayBefore: nat -> string): seq<string>
  {
    seq(TREND_DAYS, i requires 0 <= i < TREND_DAYS => dayBefore(TREND_DAYS - 1 - i))
  }

  lemma {:induction false} TrendTotalIsDayCounts(patients: seq<StoredPatient>, dayBefore: nat -> string, n: nat)
    requires n <= TREND_DAYS
    ensures TrendTotal(RegistrationTrend(patients, dayBefore)[..n]) == DayCounts(patients, TrendDates(dayBefore)[..n])
  {
    if n > 0 {
      TrendTotalIsDayCounts(patients, dayBefore, n - 1);
      assert RegistrationTrend(patients, dayBefore)[..n][..n - 1] == RegistrationTrend(patients, dayBefore)[..n - 1];
      assert TrendDates(dayBefore)[..n][..n - 1] == TrendDates(dayBefore)[..n - 1];
    }
  }

  /** When the seven days are distinct dates, the trend counts each patient at most once. */
  lemma RegistrationTrendBound(patients: seq<StoredPatient>, dayBefore: nat -> string)
    requires forall i, j | 0 <= i < j < TREND_DAYS :: dayBefore(i) != dayBefore(j)
    ensures TrendTotal(RegistrationTrend(patients, dayBefore)) <= |patients|
  {
    var dates := TrendDates(dayBefore);
    forall i, j | 0 <= i < j < |dates|
      ensures dates[i] != dates[j]
    {
      assert dates[i] == dayBefore(TREND_DAYS - 1 - i);
    }
    TrendTotalIsDayCounts(patients, dayBefore, TREND_DAYS);
    assert RegistrationTrend(patients, dayBefore)[..TREND_DAYS] == RegistrationTrend(patients, dayBefore);
    assert dates[..TREND_DAYS] == dates;
    DayCountsByPatient(patients, dates);
    PatientHitsBound(patients, dates);
  }

  // ---------------------------------------------------------------------------------------
  // The page

  datatype Summary = Summary(
    totalPatients: nat,
    totalConditions: nat,
    mostCommonConditions: seq<Ranked>,
    genderDistribution: Tally,
    ageDistribution: Tally,
    registrationTrend: seq<TrendPoint>)

  class AnalyticsPage {
    var patients: seq<StoredPatient>
    var fhirBundles: seq<Bundle>
    var analytics: Summary

    constructor ()
      ensures patients == [] && fhirBundles == []
      ensures analytics == Summary(0, 0, [], Tally([], map[]), Tally([], map[]), [])
    {
      patients := [];
      fhirBundles := [];
      analytics := Summary(0, 0, [], Tally([], map[]), Tally([], map[]), []);
    }

    /** `loadAnalyticsData()` on what local storage holds. */
    method Load(storedPatients: seq<StoredPatient>, storedBundles: seq<Bundle>,
                currentYear: int, yearOf: string -> Option<int>, dayBefore: nat -> string)
      modifies this
      ensures patients == storedPatients && fhirBundles == storedBundles
      ensures analytics.totalPatients == |storedPatients|
      ensures analytics.totalConditions == TotalConditions(storedBundles)
      ensures analytics.genderDistribution == GenderDistribution(storedPatients)
      ensures analytics.ageDistribution == AgeDistribution(storedPatients, currentYear, yearOf)
      ensures WellFormed(TallyOf(BundleKeys(storedBundles)))
      ensures analytics.mostCommonConditions == MostCommon(TallyOf(BundleKeys(storedBundles)))
      ensures analytics.registrationTrend == RegistrationTrend(storedPatients, dayBefore)
    {
      patients := storedPatients;
      fhirBundles := storedBundles;
      var conditionCounts := CountConditions(storedBundles);
      TallyOfSpec(BundleKeys(storedBundles));
      analytics := Summary(
        |storedPatients|,
        TotalConditions(storedBundles),
        MostCommon(conditionCounts),
        GenderDistribution(storedPatients),
        AgeDistribution(storedPatients, currentYear, yearOf),
        RegistrationTrend(storedPatients, dayBefore));
    }
  }
}
