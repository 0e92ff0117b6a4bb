/**
 * `createMapping` of mapDiseasesUnique.js: exact, case-sensitive grouping of the NAMASTE and
 * ICD rows by their Disease cell, and cyclic pairing inside every disease both tables share.
 * Its `searchDisease` is DiseaseSearch.SearchDisease.
 */
module UniqueMapping {
  import opened Terminology

  /** The rows of `rows` whose key is `d`, in table order: what `byDisease[d]` holds once the
      grouping loop has seen `rows`. */
  function Group<R>(rows: seq<R>, key: R -> string, d: string): (g: seq<R>)
    ensures |g| <= |rows|
  {
    if rows == [] then []
    else
      var last := rows[|rows| - 1];
      Group(rows[..|rows| - 1], key, d) + (if key(last) == d then [last] else [])
  }

  /** The keys of the grouping object in insertion order: the distinct non-empty keys of
      `rows` in order of first appearance. */
  function Keys<R>(rows: seq<R>, key: R -> string): (ks: seq<string>)
    ensures forall d | d in ks :: d != ""
  {
    if rows == [] then []
    else
      var ks := Keys(rows[..|rows| - 1], key);
      var d := key(rows[|rows| - 1]);
      if d != "" && d !in ks then ks + [d] else ks
  }

  predicate Distinct(ks: seq<string>)
  {
    forall i, j | 0 <= i < j < |ks| :: ks[i] != ks[j]
  }

  /** A disease both tables have rows for. */
  predicate Shared(icd: seq<IcdRow>, d: string)
  {
    d != "" && Group(icd, IcdDisease, d) != []
  }

  /** The entry pushed for NAMASTE row `n` paired with ICD row `i`. */
  function Pair(n: NamasteRow, i: IcdRow): Mapping
  {
    Mapping(n, IcdRefOf(i), 100)
  }

  /** The inner loop: the k-th NAMASTE entry of a group takes ICD entry k mod |icdEntries|. */
  function PairGroup(ns: seq<NamasteRow>, cs: seq<IcdRow>): seq<Mapping>
    requires |cs| > 0
  {
    if ns == [] then []
    else PairGroup(ns[..|ns| - 1], cs) + [Pair(ns[|ns| - 1], cs[(|ns| - 1) % |cs|])]
  }

  /** What the outer loop pushes for disease `d`: nothing when the ICD table has no rows for it. */
  function Block(d: string, namaste: seq<NamasteRow>, icd: seq<IcdRow>): seq<Mapping>
  {
    var icdEntries := Group(icd, IcdDisease, d);
    if icdEntries != [] then PairGroup(Group(namaste, NamasteDisease, d), icdEntries) else []
  }

  /** The outer loop over the diseases `ks`. */
  function MappingsFor(ks: seq<string>, namaste: seq<NamasteRow>, icd: seq<IcdRow>): seq<Mapping>
  {
    if ks == [] then []
    else MappingsFor(ks[..|ks| - 1], namaste, icd) + Block(ks[|ks| - 1], namaste, icd)
  }

  /** The table `createMapping` returns for the two CSV tables. */
  function ExactMappings(namaste: seq<NamasteRow>, icd: seq<IcdRow>): seq<Mapping>
  {
    MappingsFor(Keys(namaste, NamasteDisease), namaste, icd)
  }

  /** The grouping object a `forEach` over `rows` builds: every non-empty key mapped to its
      rows in table order. */
  function Index<R>(rows: seq<R>, key: R -> string): map<string, seq<R>>
  {
    if rows == [] then map[]
    else
      var m := Index(rows[..|rows| - 1], key);
      var last := rows[|rows| - 1];
      var d := key(last);
      if d == "" then m else m[d := (if d in m then m[d] else []) + [last]]
  }

  /** The first loop of `createMapping`: ICD rows grouped by their Disease. */
  method GroupIcd(icd: seq<IcdRow>) returns (byDisease: map<string, seq<IcdRow>>)
    ensures byDisease == Index(icd, IcdDisease)
  {
    byDisease := map[];
    for j := 0 to |icd|
      invariant byDisease == Index(icd[..j], IcdDisease)
    {
      assert icd[..j + 1][..j] == icd[..j];
      var row := icd[j];
      if row.disease == "" {
        continue;
      }
      if row.disease !in byDisease {
        byDisease := byDisease[row.disease := []];
      }
      byDisease := byDisease[row.disease := byDisease[row.disease] + [row]];
    }
    assert icd[..|icd|] == icd;
  }

  /** The second loop: NAMASTE rows grouped by Disease, with the object's key order. */
  method GroupNamaste(namaste: seq<NamasteRow>) returns (byDisease: map<string, seq<NamasteRow>>, order: seq<string>)
    ensures byDisease == Index(namaste, NamasteDisease)
    ensures order == Keys(namaste, NamasteDisease)
  {
    byDisease := map[];
    order := [];
    for j := 0 to |namaste|
      invariant byDisease == Index(namaste[..j], NamasteDisease)
      invariant order == Keys(namaste[..j], NamasteDisease)
    {
      assert namaste[..j + 1][..j] == namaste[..j];
      IndexKeys(namaste[..j], NamasteDisease, namaste[j].disease);
      var row := namaste[j];
      if row.disease == "" {
        continue;
      }
      if row.disease !in byDisease {
        byDisease := byDisease[row.disease := []];
        order := order + [row.disease];
      }
      byDisease := byDisease[row.disease := byDisease[row.disease] + [row]];
    }
    assert namaste[..|namaste|] == namaste;
  }

  method CreateMapping(namaste: seq<NamasteRow>, icd: seq<IcdRow>) returns (mappings: seq<Mapping>)
    ensures mappings == ExactMappings(namaste, icd)
  {
    var icdByDisease := GroupIcd(icd);
    var namasteByDisease, order := GroupNamaste(namaste);
    mappings := [];
    for k := 0 to |order|
      invariant mappings == MappingsFor(order[..k], namaste, icd)
    {
      OuterStep(namaste, icd, order, k);
      var disease := order[k];
      var namasteEntries := namasteByDisease[disease];
      if disease in icdByDisease {
        mappings := PushPairs(mappings, namasteEntries, icdByDisease[disease]);
      }
    }
    assert order[..|order|] == order;
  }

  /** The inner loop: push one entry per NAMASTE row of the group, cycling through the ICD rows. */
  method PushPairs(done: seq<Mapping>, namasteEntries: seq<NamasteRow>, icdEntries: seq<IcdRow>) returns (mappings: seq<Mapping>)
    requires |icdEntries| > 0
    ensures mappings == done + PairGroup(namasteEntries, icdEntries)
  {
    mappings := done;
    for i := 0 to |namasteEntries|
      invariant mappings == done + PairGroup(namasteEntries[..i], icdEntries)
    {
      assert namasteEntries[..i + 1][..i] == namasteEntries[..i];
      var n := namasteEntries[i];
      var c := icdEntries[i % |icdEntries|]; // cycle through ICD entries if more NAMASTE
      mappings := mappings + [Mapping(n, IcdRef(c.disease, c.tm2Code, c.nameEnglish), 100)];
    }
    assert namasteEntries[..|namasteEntries|] == namasteEntries;
  }

  /** One step of the outer loop, read off the two grouping objects. */
  lemma OuterStep(namaste: seq<NamasteRow>, icd: seq<IcdRow>, order: seq<string>, k: nat)
    requires order == Keys(namaste, NamasteDisease) && k < |order|
    ensures order[k] in Index(namaste, NamasteDisease)
    ensures order[k] in Index(icd, IcdDisease) ==> |Index(icd, IcdDisease)[order[k]]| > 0
    ensures MappingsFor(order[..k + 1], namaste, icd) == MappingsFor(order[..k], namaste, icd) +
      if order[k] in Index(icd, IcdDisease)
      then PairGroup(Index(namaste, NamasteDisease)[order[k]], Index(icd, IcdDisease)[order[k]])
      else []
  {
    var d := order[k];
    assert order[..k + 1] == order[..k] + [d];
    MappingsForSnoc(order[..k], d, namaste, icd);
    IndexAt(namaste, NamasteDisease, d);
    IndexAt(icd, IcdDisease, d);
    KeysComplete(namaste, NamasteDisease, d);
  }

  lemma MappingsForSnoc(ks: seq<string>, d: string, namaste: seq<NamasteRow>, icd: seq<IcdRow>)
    ensures MappingsFor(ks + [d], namaste, icd) == MappingsFor(ks, namaste, icd) + Block(d, namaste, icd)
  {
    assert (ks + [d])[..|ks|] == ks;
  }

  // ---------------------------------------------------------------------------------------
  // Grouping facts

  lemma {:induction false} KeysComplete<R>(rows: seq<R>, key: R -> string, d: string)
    ensures d in Keys(rows, key) <==> d != "" && Group(rows, key, d) != []
  {
    if rows != [] {
      KeysComplete(rows[..|rows| - 1], key, d);
    }
  }

  /** A group holds rows of the table with exactly its key. */
  lemma {:induction false} GroupSubset<R>(rows: seq<R>, key: R -> string, d: string)
    ensures forall x | x in Group(rows, key, d) :: x in rows && key(x) == d
  {
    if rows != [] {
      GroupSubset(rows[..|rows| - 1], key, d);
      assert rows == rows[..|rows| - 1] + [rows[|rows| - 1]];
    }
  }

  /** The grouping object holds exactly the non-empty keys that occur, each with its group. */
  lemma {:induction false} IndexAt<R>(rows: seq<R>, key: R -> string, d: string)
    ensures d in Index(rows, key) <==> d != "" && Group(rows, key, d) != []
    ensures d in Index(rows, key) ==> Index(rows, key)[d] == Group(rows, key, d)
  {
    if rows != [] {
      IndexAt(rows[..|rows| - 1], key, d);
    }
  }

  lemma IndexKeys<R>(rows: seq<R>, key: R -> string, d: string)
    ensures d in Index(rows, key) <==> d in Keys(rows, key)
  {
    IndexAt(rows, key, d);
    KeysComplete(rows, key, d);
  }

  lemma {:induction false} KeysDistinct<R>(rows: seq<R>, key: R -> string)
    ensures Distinct(Keys(rows, key))
  {
    if rows != [] {
      KeysDistinct(rows[..|rows| - 1], key);
    }
  }

  /** Cyclic reuse: the i-th NAMASTE row of a group is paired with ICD row i mod |cs|. */
  lemma {:induction false} PairGroupAt(ns: seq<NamasteRow>, cs: seq<IcdRow>, i: nat)
    requires |cs| > 0 && i < |ns|
    ensures |PairGroup(ns, cs)| == |ns|
    ensures PairGroup(ns, cs)[i] == Pair(ns[i], cs[i % |cs|])
  {
    PairGroupLength(ns, cs);
    if i < |ns| - 1 {
      PairGroupAt(ns[..|ns| - 1], cs, i);
    }
  }

  lemma {:induction false} PairGroupLength(ns: seq<NamasteRow>, cs: seq<IcdRow>)
    requires |cs| > 0
    ensures |PairGroup(ns, cs)| == |ns|
  {
    if ns != [] {
      PairGroupLength(ns[..|ns| - 1], cs);
    }
  }

  /** The entries of `ms` whose NAMASTE disease is `d`, in order. */
  function Select(ms: seq<Mapping>, d: string): seq<Mapping>
  {
    if ms == [] then []
    else Select(ms[..|ms| - 1], d) + (if ms[|ms| - 1].namaste.disease == d then [ms[|ms| - 1]] else [])
  }

  lemma {:induction false} SelectAppend(a: seq<Mapping>, b: seq<Mapping>, d: string)
    ensures Select(a + b, d) == Select(a, d) + Select(b, d)
  {
    if b != [] {
      assert (a + b)[..|a + b| - 1] == a + b[..|b| - 1];
      SelectAppend(a, b[..|b| - 1], d);
    } else {
      assert a + b == a;
    }
  }

  lemma {:induction false} SelectUniform(ms: seq<Mapping>, k: string, d: string)
    requires forall i | 0 <= i < |ms| :: ms[i].namaste.disease == k
    ensures Select(ms, d) == if k == d then ms else []
  {
    if ms != [] {
      SelectUniform(ms[..|ms| - 1], k, d);
    }
  }

  lemma PairGroupUniform(ns: seq<NamasteRow>, cs: seq<IcdRow>, k: string, d: string)
    requires |cs| > 0
    requires forall x | x in ns :: x.disease == k
    ensures Select(PairGroup(ns, cs), d) == if k == d then PairGroup(ns, cs) else []
  {
    var ms := PairGroup(ns, cs);
    PairGroupLength(ns, cs);
    forall i | 0 <= i < |ms| ensures ms[i].namaste.disease == k {
      PairGroupAt(ns, cs, i);
    }
    SelectUniform(ms, k, d);
  }

  lemma SelectBlock(k: string, namaste: seq<NamasteRow>, icd: seq<IcdRow>, d: string)
    ensures Select(Block(k, namaste, icd), d) == if k == d then Block(k, namaste, icd) else []
  {
    var icdEntries := Group(icd, IcdDisease, k);
    GroupSubset(namaste, NamasteDisease, k);
    if icdEntries != [] {
      PairGroupUniform(Group(namaste, NamasteDisease, k), icdEntries, k, d);
    }
  }

  lemma {:induction false} SelectMappingsFor(ks: seq<string>, namaste: seq<NamasteRow>, icd: seq<IcdRow>, d: string)
    requires Distinct(ks)
    ensures Select(MappingsFor(ks, namaste, icd), d) == if d in ks then Block(d, namaste, icd) else []
  {
    if ks != [] {
      var k := ks[|ks| - 1];
      var front := ks[..|ks| - 1];
      assert ks == front + [k];
      DistinctSnoc(front, k);
      SelectMappingsFor(front, namaste, icd, d);
      SelectAppend(MappingsFor(front, namaste, icd), Block(k, namaste, icd), d);
      SelectBlock(k, namaste, icd, d);
    }
  }

  lemma DistinctSnoc(ks: seq<string>, k: string)
    requires Distinct(ks + [k])
    ensures Distinct(ks) && k !in ks
  {
    var all := ks + [k];
    forall i | 0 <= i < |ks| ensures ks[i] != k {
      assert all[i] == ks[i] && all[|ks|] == k;
    }
    forall i, j | 0 <= i < j < |ks| ensures ks[i] != ks[j] {
      assert all[i] == ks[i] && all[j] == ks[j];
    }
  }

  /** The entries for one disease `d` are exactly its NAMASTE group, in table order, each row
      paired with the ICD group cyclically; a disease without ICD rows (or the empty one)
      contributes nothing. With PairGroupAt this states the whole pairing rule. */
  lemma ExactMappingsByDisease(namaste: seq<NamasteRow>, icd: seq<IcdRow>, d: string)
    ensures Select(ExactMappings(namaste, icd), d) ==
      if Shared(icd, d)
      then PairGroup(Group(namaste, NamasteDisease, d), Group(icd, IcdDisease, d))
      else []
  {
    KeysDistinct(namaste, NamasteDisease);
    KeysComplete(namaste, NamasteDisease, d);
    SelectMappingsFor(Keys(namaste, NamasteDisease), namaste, icd, d);
  }

  /** Every entry pairs a NAMASTE row with an ICD row of exactly the same disease, and has
      similarity 100. */
  lemma ExactMappingEntries(namaste: seq<NamasteRow>, icd: seq<IcdRow>, m: Mapping)
    requires m in ExactMappings(namaste, icd)
    ensures m.similarity == 100
    ensures m.namaste in namaste && m.namaste.disease != ""
    ensures m.icd.disease == m.namaste.disease
    ensures exists r | r in icd :: m.icd == IcdRefOf(r)
  {
    var all := ExactMappings(namaste, icd);
    var d := m.namaste.disease;
    var k :| 0 <= k < |all| && all[k] == m;
    assert all == all[..k] + [m] + all[k + 1..];
    SelectAppend(all[..k] + [m], all[k + 1..], d);
    SelectAppend(all[..k], [m], d);
    assert m in Select(all, d);
    ExactMappingsByDisease(namaste, icd, d);
    var ns, cs := Group(namaste, NamasteDisease, d), Group(icd, IcdDisease, d);
    var pg := PairGroup(ns, cs);
    PairGroupLength(ns, cs);
    var i :| 0 <= i < |pg| && pg[i] == m;
    PairGroupAt(ns, cs, i);
    GroupSubset(namaste, NamasteDisease, d);
    GroupSubset(icd, IcdDisease, d);
    assert ns[i] in ns && cs[i % |cs|] in cs;
  }

  // ---------------------------------------------------------------------------------------
  // Every NAMASTE row of a shared disease is mapped exactly once

  function Namastes(ms: seq<Mapping>): seq<NamasteRow>
  {
    if ms == [] then [] else Namastes(ms[..|ms| - 1]) + [ms[|ms| - 1].namaste]
  }

  /** The NAMASTE rows whose disease the ICD table also has, in table order. */
  function SharedRows(rows: seq<NamasteRow>, icd: seq<IcdRow>): seq<NamasteRow>
  {
    if rows == [] then []
    else SharedRows(rows[..|rows| - 1], icd) + (if Shared(icd, rows[|rows| - 1].disease) then [rows[|rows| - 1]] else [])
  }

  function GroupsConcat(ks: seq<string>, rows: seq<NamasteRow>, icd: seq<IcdRow>): seq<NamasteRow>
  {
    if ks == [] then []
    else
      var d := ks[|ks| - 1];
      GroupsConcat(ks[..|ks| - 1], rows, icd) + SharedGroup(d, rows, icd)
  }

  /** The NAMASTE rows the outer loop consumes for disease `d`. */
  function SharedGroup(d: string, rows: seq<NamasteRow>, icd: seq<IcdRow>): seq<NamasteRow>
  {
    if Group(icd, IcdDisease, d) != [] then Group(rows, NamasteDisease, d) else []
  }

  lemma GroupSnoc<R>(rows: seq<R>, x: R, key: R -> string, d: string)
    ensures Group(rows + [x], key, d) == Group(rows, key, d) + (if key(x) == d then [x] else [])
  {
    assert (rows + [x])[..|rows|] == rows;
  }

  lemma {:induction false} NamastesAppend(a: seq<Mapping>, b: seq<Mapping>)
    ensures Namastes(a + b) == Namastes(a) + Namastes(b)
  {
    if b != [] {
      assert (a + b)[..|a + b| - 1] == a + b[..|b| - 1];
      NamastesAppend(a, b[..|b| - 1]);
    } else {
      assert a + b == a;
    }
  }

  lemma {:induction false} NamastesPairGroup(ns: seq<NamasteRow>, cs: seq<IcdRow>)
    requires |cs| > 0
    ensures Namastes(PairGroup(ns, cs)) == ns
  {
    if ns != [] {
      var front := ns[..|ns| - 1];
      NamastesPairGroup(front, cs);
      NamastesAppend(PairGroup(front, cs), [Pair(ns[|ns| - 1], cs[(|ns| - 1) % |cs|])]);
    }
  }

  lemma {:induction false} NamastesMappingsFor(ks: seq<string>, rows: seq<NamasteRow>, icd: seq<IcdRow>)
    ensures Namastes(MappingsFor(ks, rows, icd)) == GroupsConcat(ks, rows, icd)
  {
    if ks != [] {
      var d := ks[|ks| - 1];
      NamastesMappingsFor(ks[..|ks| - 1], rows, icd);
      var icdEntries := Group(icd, IcdDisease, d);
      var tail := if icdEntries != [] then PairGroup(Group(rows, NamasteDisease, d), icdEntries) else [];
      NamastesAppend(MappingsFor(ks[..|ks| - 1], rows, icd), tail);
      if icdEntries != [] {
        NamastesPairGroup(Group(rows, NamasteDisease, d), icdEntries);
      }
    }
  }

  /** Adding row `x` leaves the group of every other disease as it was. */
  lemma {:induction false} GroupsConcatOther(ks: seq<string>, rows: seq<NamasteRow>, x: NamasteRow, icd: seq<IcdRow>)
    requires x.disease !in ks
    ensures GroupsConcat(ks, rows + [x], icd) == GroupsConcat(ks, rows, icd)
  {
    if ks != [] {
      var k := ks[|ks| - 1];
      GroupsConcatOther(ks[..|ks| - 1], rows, x, icd);
      GroupSnoc(rows, x, NamasteDisease, k);
      assert SharedGroup(k, rows + [x], icd) == SharedGroup(k, rows, icd);
    }
  }

  /** Adding row `x` to an existing group adds `x` once, if the group is shared. */
  lemma {:induction false} GroupsConcatSame(ks: seq<string>, rows: seq<NamasteRow>, x: NamasteRow, icd: seq<IcdRow>)
    requires Distinct(ks) && x.disease in ks && x.disease != ""
    ensures multiset(GroupsConcat(ks, rows + [x], icd)) ==
      multiset(GroupsConcat(ks, rows, icd)) + (if Shared(icd, x.disease) then multiset{x} else multiset{})
  {
    var k := ks[|ks| - 1];
    var front := ks[..|ks| - 1];
    assert ks == front + [k];
    DistinctSnoc(front, k);
    var before, after := GroupsConcat(front, rows, icd), GroupsConcat(front, rows + [x], icd);
    var g, g' := SharedGroup(k, rows, icd), SharedGroup(k, rows + [x], icd);
    assert GroupsConcat(ks, rows, icd) == before + g;
    assert GroupsConcat(ks, rows + [x], icd) == after + g';
    var extra := if Shared(icd, x.disease) then multiset{x} else multiset{};
    assert multiset(after + g') == multiset(after) + multiset(g');
    assert multiset(before + g) == multiset(before) + multiset(g);
    if k == x.disease {
      GroupsConcatOther(front, rows, x, icd);
      SharedGroupSnoc(k, rows, x, icd);
      assert multiset(g') == multiset(g) + extra;
      assert multiset(after) == multiset(before);
    } else {
      GroupsConcatSame(front, rows, x, icd);
      GroupSnoc(rows, x, NamasteDisease, k);
      assert multiset(after) == multiset(before) + extra;
      assert g' == g;
    }
  }

  lemma SharedGroupSnoc(d: string, rows: seq<NamasteRow>, x: NamasteRow, icd: seq<IcdRow>)
    requires x.disease == d != ""
    ensures multiset(SharedGroup(d, rows + [x], icd)) ==
      multiset(SharedGroup(d, rows, icd)) + (if Shared(icd, d) then multiset{x} else multiset{})
  {
    GroupSnoc(rows, x, NamasteDisease, d);
  }

  lemma {:induction false} GroupsConcatIsSharedRows(rows: seq<NamasteRow>, icd: seq<IcdRow>)
    ensures multiset(GroupsConcat(Keys(rows, NamasteDisease), rows, icd)) == multiset(SharedRows(rows, icd))
  {
    if rows != [] {
      var front := rows[..|rows| - 1];
      var x := rows[|rows| - 1];
      assert rows == front + [x];
      GroupsConcatIsSharedRows(front, icd);
      var ks := Keys(front, NamasteDisease);
      KeysDistinct(front, NamasteDisease);
      KeysComplete(front, NamasteDisease, x.disease);
      if x.disease == "" {
        GroupsConcatOther(ks, front, x, icd);
      } else if x.disease in ks {
        GroupsConcatSame(ks, front, x, icd);
      } else {
        GroupsConcatOther(ks, front, x, icd);
        GroupSnoc(front, x, NamasteDisease, x.disease);
        assert Keys(rows, NamasteDisease) == ks + [x.disease];
        assert GroupsConcat(ks + [x.disease], rows, icd) == GroupsConcat(ks, rows, icd) + SharedGroup(x.disease, rows, icd);
      }
    }
  }

  /** Each NAMASTE row whose disease has ICD rows yields exactly one entry, and no other row
      yields any: the NAMASTE sides of the table are, as a multiset, exactly those rows. */
  lemma ExactMappingsCoverSharedRows(namaste: seq<NamasteRow>, icd: seq<IcdRow>)
    ensures multiset(Namastes(ExactMappings(namaste, icd))) == multiset(SharedRows(namaste, icd))
    ensures |ExactMappings(namaste, icd)| == |SharedRows(namaste, icd)|
  {
    NamastesMappingsFor(Keys(namaste, NamasteDisease), namaste, icd);
    GroupsConcatIsSharedRows(namaste, icd);
    NamastesLength(ExactMappings(namaste, icd));
    var ns := Namastes(ExactMappings(namaste, icd));
    assert |multiset(ns)| == |ns|;
    assert |multiset(SharedRows(namaste, icd))| == |SharedRows(namaste, icd)|;
  }

  lemma {:induction false} NamastesLength(ms: seq<Mapping>)
    ensures |Namastes(ms)| == |ms|
  {
    if ms != [] {
      NamastesLength(ms[..|ms| - 1]);
    }
  }

  lemma {:induction false} SharedRowsMembers(rows: seq<NamasteRow>, icd: seq<IcdRow>, x: NamasteRow)
    ensures x in SharedRows(rows, icd) <==> x in rows && Shared(icd, x.disease)
  {
    if rows != [] {
      SharedRowsMembers(rows[..|rows| - 1], icd, x);
      assert rows == rows[..|rows| - 1] + [rows[|rows| - 1]];
    }
  }

  lemma {:induction false} GroupMembers<R>(rows: seq<R>, key: R -> string, d: string)
    ensures Group(rows, key, d) != [] <==> exists r | r in rows :: key(r) == d
  {
    if rows != [] {
      GroupMembers(rows[..|rows| - 1], key, d);
      assert rows == rows[..|rows| - 1] + [rows[|rows| - 1]];
    }
  }

  /** A NAMASTE row gets an entry iff its Disease is non-empty and some ICD row has exactly
      (case-sensitively) the same Disease. */
  lemma MappedIffSameDisease(namaste: seq<NamasteRow>, icd: seq<IcdRow>, x: NamasteRow)
    requires x in namaste
    ensures (exists m | m in ExactMappings(namaste, icd) :: m.namaste == x) <==>
      x.disease != "" && exists r | r in icd :: r.disease == x.disease
  {
    var all := ExactMappings(namaste, icd);
    NamastesMember(all, x);
    assert x in Namastes(all) <==> x in SharedRows(namaste, icd) by {
      ExactMappingsCoverSharedRows(namaste, icd);
      assert x in Namastes(all) <==> x in multiset(Namastes(all));
      assert x in SharedRows(namaste, icd) <==> x in multiset(SharedRows(namaste, icd));
    }
    SharedRowsMembers(namaste, icd, x);
    GroupMembers(icd, IcdDisease, x.disease);
  }

  /** A row is among the NAMASTE sides exactly when some entry carries it. */
  lemma NamastesMember(ms: seq<Mapping>, x: NamasteRow)
    ensures x in Namastes(ms) <==> exists m | m in ms :: m.namaste == x
  {
    NamastesAt(ms);
    if x in Namastes(ms) {
      var k :| 0 <= k < |Namastes(ms)| && Namastes(ms)[k] == x;
      assert ms[k] in ms;
    }
    if exists m | m in ms :: m.namaste == x {
      var m :| m in ms && m.namaste == x;
      var k :| 0 <= k < |ms| && ms[k] == m;
      assert Namastes(ms)[k] == x;
    }
  }

  lemma {:induction false} NamastesAt(ms: seq<Mapping>)
    ensures |Namastes(ms)| == |ms|
    ensures forall k | 0 <= k < |ms| :: Namastes(ms)[k] == ms[k].namaste
  {
    NamastesLength(ms);
    if ms != [] {
      NamastesAt(ms[..|ms| - 1]);
    }
  }
}
