/**
 * The slice of HL7 FHIR R4 that the app reads and writes: Bundles whose entries hold
 * Patient, Condition and Encounter resources, and the codings inside a Condition.
 */
module Fhir {
  import opened Wrappers

  /** The coding systems the app writes into the Conditions it generates. */
  const NAMASTE_SYSTEM := "http://namaste.terminology.system"
  const TM2_SYSTEM := "http://tm2.terminology.system"
  const BIOMEDICINE_SYSTEM := "http://biomedicine.terminology.system"

  /** A coding `{ system, code, display }`. A missing `system` is "": the app only ever compares
      it, tests its truthiness or searches it. */
  datatype Coding = Coding(system: string, code: Option<string>, display: Option<string>)

  /** The resource of a Bundle entry, with the fields the app touches:
      for a Patient `id`, `name[0].given[0]` (given), `name[0].family` (family), `gender` and
      `birthDate`; for a Condition `id`, `code.coding`, `code.text` and `note[0].text`. */
  datatype Resource = Resource(
    resourceType: string,
    id: Option<string>,
    given: Option<string>,
    family: Option<string>,
    gender: Option<string>,
    birthDate: Option<string>,
    coding: seq<Coding>,
    text: Option<string>,
    note: Option<string>)

  /** A Bundle `{ resourceType, id, entry }`; a missing `entry` behaves as an empty one. */
  datatype Bundle = Bundle(resourceType: string, id: Option<string>, entry: seq<Resource>)

  predicate IsCondition(r: Resource)
  {
    r.resourceType == "Condition"
  }

  /** `entry.filter(e => e.resource?.resourceType === 'Condition').length` */
  function ConditionCount(entry: seq<Resource>): nat
  {
    if entry == [] then 0
    else ConditionCount(entry[..|entry| - 1]) + (if IsCondition(entry[|entry| - 1]) then 1 else 0)
  }

  /** `bundles.reduce((acc, bundle) => acc + (conditions of bundle), 0)` */
  function TotalConditions(bundles: seq<Bundle>): nat
  {
    if bundles == [] then 0
    else TotalConditions(bundles[..|bundles| - 1]) + ConditionCount(bundles[|bundles| - 1].entry)
  }

  /** The positions of the Condition entries. */
  function ConditionPositions(entry: seq<Resource>): set<nat>
  {
    set i: nat | i < |entry| && IsCondition(entry[i])
  }

  /** The count is the number of positions that hold a Condition. */
  lemma {:induction false} ConditionCountIsSize(entry: seq<Resource>)
    ensures ConditionCount(entry) == |ConditionPositions(entry)|
    ensures ConditionCount(entry) <= |entry|
  {
    if entry != [] {
      var n := |entry| - 1;
      ConditionCountIsSize(entry[..n]);
      var before := ConditionPositions(entry[..n]);
      assert ConditionPositions(entry) == before + (if IsCondition(entry[n]) then {n} else {});
      assert n !in before;
    }
  }

  /** Counting commutes with concatenation. */
  lemma {:induction false} ConditionCountAppend(a: seq<Resource>, b: seq<Resource>)
    ensures ConditionCount(a + b) == ConditionCount(a) + ConditionCount(b)
  {
    if b == [] {
      assert a + b == a;
    } else {
      assert (a + b)[..|a + b| - 1] == a + b[..|b| - 1];
      ConditionCountAppend(a, b[..|b| - 1]);
    }
  }

  /** A list of Conditions counts all its entries. */
  lemma {:induction false} ConditionCountAll(entry: seq<Resource>)
    requires forall i | 0 <= i < |entry| :: IsCondition(entry[i])
    ensures ConditionCount(entry) == |entry|
  {
    if entry != [] {
      ConditionCountAll(entry[..|entry| - 1]);
    }
  }

  /** Totals over consecutive slices of a bundle list add up. */
  lemma {:induction false} TotalConditionsAppend(a: seq<Bundle>, b: seq<Bundle>)
    ensures TotalConditions(a + b) == TotalConditions(a) + TotalConditions(b)
  {
    if b == [] {
      assert a + b == a;
    } else {
      assert (a + b)[..|a + b| - 1] == a + b[..|b| - 1];
      TotalConditionsAppend(a, b[..|b| - 1]);
    }
  }
}
