/** The same-id merge of map-integration.js:100-125: sort the features by
    id, then fold left, unioning each feature into the last accumulated
    entry when the ids agree and appending it otherwise. */
module Merge {

  import opened Seqs
  import opened Sorting
  import opened Features

  /** The geometry library as the merge calls it: turf's `union` (of which
      only the resulting geometry is used) and `rewind(g, true)` from
      @mapbox/geojson-rewind.  Both are left uninterpreted. */
  datatype GeoOps = GeoOps(union: (Geometry, Geometry) -> Geometry, rewind: Geometry -> Geometry)

  /** `rewind(union(a, b).geometry, true)`. */
  function Unite(ops: GeoOps, a: Geometry, b: Geometry): Geometry {
    ops.rewind(ops.union(a, b))
  }

  /** One call of the reducer: the first feature starts the accumulator; a
      feature with the id of the last entry only replaces that entry's
      geometry; any other feature is appended. */
  function Step(ops: GeoOps, acc: seq<Feature>, cur: Feature): (r: seq<Feature>)
    ensures 0 < |r| <= |acc| + 1
    ensures r[|r| - 1].id == cur.id
  {
    if |acc| == 0 then [cur]
    else
      var last := acc[|acc| - 1];
      if last.id == cur.id then
        acc[..|acc| - 1] + [last.(geometry := Unite(ops, last.geometry, cur.geometry))]
      else
        acc + [cur]
  }

  /** `reduce(Step, [])`: the fold over `s`, left to right. */
  function Reduce(ops: GeoOps, s: seq<Feature>): (r: seq<Feature>)
    ensures |r| <= |s|
    ensures |s| > 0 ==> |r| > 0 && r[|r| - 1].id == s[|s| - 1].id
  {
    if |s| == 0 then [] else Step(ops, Reduce(ops, s[..|s| - 1]), s[|s| - 1])
  }

  /** Reference meaning of one group: the union of all its geometries,
      taken in order and rewound after every union.  A single feature's
      geometry is returned as is. */
  function FoldGeometry(ops: GeoOps, g: seq<Feature>): Geometry
    requires |g| > 0
  {
    if |g| == 1 then g[0].geometry
    else Unite(ops, FoldGeometry(ops, g[..|g| - 1]), g[|g| - 1].geometry)
  }

  /** The merged entry for a group: the first feature of the group (its id
      and properties) carrying the group's folded geometry. */
  function Combine(ops: GeoOps, g: seq<Feature>): Feature
    requires |g| > 0
  {
    g[0].(geometry := FoldGeometry(ops, g))
  }

  /** A group of one feature is that feature, unchanged. */
  lemma CombineSingle(ops: GeoOps, f: Feature)
    ensures Combine(ops, [f]) == f
  {
  }

  /** `f` is the merge of all features of `s` that share its id. */
  predicate IsMergedGroup(ops: GeoOps, s: seq<Feature>, f: Feature) {
    |WithId(s, f.id)| > 0 && f == Combine(ops, WithId(s, f.id))
  }

  lemma StepIds(ops: GeoOps, acc: seq<Feature>, x: Feature)
    ensures Ids(Step(ops, acc, x))
         == if |acc| > 0 && acc[|acc| - 1].id == x.id then Ids(acc) else Ids(acc) + [x.id]
  {
    var r := Step(ops, acc, x);
    if |acc| > 0 && acc[|acc| - 1].id == x.id {
      assert |r| == |acc|;
      forall i | 0 <= i < |r|
        ensures r[i].id == acc[i].id
      {
      }
    } else {
      assert r == acc + [x];
    }
  }

  /** The fold merges only neighbours: the ids of its result are the input
      ids with adjacent repeats collapsed, whatever the input order. */
  lemma {:induction false} ReduceIds(ops: GeoOps, s: seq<Feature>)
    ensures Ids(Reduce(ops, s)) == Dedup(Ids(s))
  {
    if |s| > 0 {
      var p, x := s[..|s| - 1], s[|s| - 1];
      ReduceIds(ops, p);
      var R := Reduce(ops, p);
      assert Reduce(ops, s) == Step(ops, R, x);
      StepIds(ops, R, x);
      var t := Ids(s);
      assert t[..|t| - 1] == Ids(p);
      assert t[|t| - 1] == x.id;
      assert Dedup(t) == var d := Dedup(Ids(p));
        if |d| > 0 && d[|d| - 1] == x.id then d else d + [x.id];
      if |R| > 0 {
        assert Ids(R)[|R| - 1] == R[|R| - 1].id;
      }
    }
  }

  /** No id is lost and none is invented by the fold. */
  lemma ReduceKeepsIdSet(ops: GeoOps, s: seq<Feature>)
    ensures IdSet(Reduce(ops, s)) == IdSet(s)
  {
    var r := Reduce(ops, s);
    ReduceIds(ops, s);
    DedupProperties(Ids(s));
    forall k | k in IdSet(r)
      ensures k in IdSet(s)
    {
      var i :| 0 <= i < |r| && r[i].id == k;
      assert Ids(r)[i] == k;
      assert k in Dedup(Ids(s));
      assert k in Ids(s);
      var j :| 0 <= j < |s| && Ids(s)[j] == k;
      assert s[j].id == k;
    }
    forall k | k in IdSet(s)
      ensures k in IdSet(r)
    {
      var j :| 0 <= j < |s| && s[j].id == k;
      assert Ids(s)[j] == k;
      assert k in Ids(s);
      assert k in Ids(r);
      var i :| 0 <= i < |r| && Ids(r)[i] == k;
      assert r[i].id == k;
    }
  }

  /** Without the sort, ids "b", "a", "b" stay three separate entries: the
      two "b" features are never unioned. */
  lemma UnsortedRunsStaySeparate(ops: GeoOps, at: Attributes, g1: Geometry, g2: Geometry, g3: Geometry)
    ensures var s := [Feature("b", at, g1), Feature("a", at, g2), Feature("b", at, g3)];
            Reduce(ops, s) == s
  {
    var s := [Feature("b", at, g1), Feature("a", at, g2), Feature("b", at, g3)];
    assert s[..1] == [s[0]];
    assert s[..2] == [s[0], s[1]];
    assert s[..2][..1] == [s[0]];
    assert [s[0]][..0] == [];
    assert Reduce(ops, [s[0]]) == [s[0]];
    assert Reduce(ops, [s[0], s[1]]) == [s[0], s[1]];
  }

  lemma WithIdSnoc(p: seq<Feature>, x: Feature, k: string)
    ensures WithId(p + [x], k) == WithId(p, k) + (if x.id == k then [x] else [])
  {
    FilterSnoc(p, x, HasId(k));
  }

  /** Every feature of a sorted sequence whose id differs from the last
      one's comes strictly before it. */
  lemma SortedBelowLast(s: seq<Feature>)
    requires SortedById(s) && |s| >= 2
    requires s[|s| - 2].id != s[|s| - 1].id
    ensures forall i :: 0 <= i < |s| - 1 ==> IdLess(s[i].id, s[|s| - 1].id)
  {
    var n := |s|;
    var top, x := s[n - 2], s[n - 1];
    assert !ById()(x, top);
    IdLessTotal(x.id, top.id);
    forall i | 0 <= i < n - 1
      ensures IdLess(s[i].id, x.id)
    {
      if i < n - 2 {
        assert !ById()(top, s[i]);
        IdLessTotal(s[i].id, top.id);
        if IdLess(s[i].id, top.id) {
          IdLessTransitive(s[i].id, top.id, x.id);
        }
      }
    }
  }

  /** A group the new feature does not belong to is unaffected by it. */
  lemma OtherGroupUnchanged(ops: GeoOps, p: seq<Feature>, x: Feature, e: Feature)
    requires IsMergedGroup(ops, p, e) && e.id != x.id
    ensures IsMergedGroup(ops, p + [x], e)
  {
    WithIdSnoc(p, x, e.id);
    assert WithId(p + [x], e.id) == WithId(p, e.id);
  }

  /** The group the new feature belongs to gains its geometry, united
      last. */
  lemma JoinedGroup(ops: GeoOps, p: seq<Feature>, x: Feature, e: Feature)
    requires IsMergedGroup(ops, p, e) && e.id == x.id
    ensures IsMergedGroup(ops, p + [x], e.(geometry := Unite(ops, e.geometry, x.geometry)))
  {
    var g := WithId(p, x.id);
    WithIdSnoc(p, x, x.id);
    var g' := g + [x];
    assert g'[..|g'| - 1] == g;
    assert g'[0] == g[0];
  }

  lemma JoinShape(ops: GeoOps, acc: seq<Feature>, x: Feature)
    requires |acc| > 0 && acc[|acc| - 1].id == x.id
    ensures |Step(ops, acc, x)| == |acc|
    ensures Step(ops, acc, x)[|acc| - 1] == acc[|acc| - 1].(geometry := Unite(ops, acc[|acc| - 1].geometry, x.geometry))
    ensures forall j :: 0 <= j < |acc| - 1 ==> Step(ops, acc, x)[j] == acc[j]
  {
  }

  /** Induction step when the new feature joins the last entry. */
  lemma SortedReduceJoin(ops: GeoOps, p: seq<Feature>, x: Feature)
    requires StrictlyIncreasing(Reduce(ops, p))
    requires forall j :: 0 <= j < |Reduce(ops, p)| ==> IsMergedGroup(ops, p, Reduce(ops, p)[j])
    requires |p| > 0 && p[|p| - 1].id == x.id
    ensures StrictlyIncreasing(Reduce(ops, p + [x]))
    ensures forall j :: 0 <= j < |Reduce(ops, p + [x])| ==> IsMergedGroup(ops, p + [x], Reduce(ops, p + [x])[j])
  {
    var s := p + [x];
    assert s[..|s| - 1] == p;
    assert Reduce(ops, s) == Step(ops, Reduce(ops, p), x);
    StepJoin(ops, p, x, Reduce(ops, p));
  }

  lemma StepJoin(ops: GeoOps, p: seq<Feature>, x: Feature, R: seq<Feature>)
    requires |R| > 0 && R[|R| - 1].id == x.id
    requires StrictlyIncreasing(R)
    requires forall j :: 0 <= j < |R| ==> IsMergedGroup(ops, p, R[j])
    ensures StrictlyIncreasing(Step(ops, R, x))
    ensures forall j :: 0 <= j < |Step(ops, R, x)| ==> IsMergedGroup(ops, p + [x], Step(ops, R, x)[j])
  {
    var r := Step(ops, R, x);
    JoinShape(ops, R, x);
    var m := |R| - 1;
    JoinedGroup(ops, p, x, R[m]);
    forall j | 0 <= j < m
      ensures IsMergedGroup(ops, p + [x], r[j])
    {
      IdLessIrreflexive(R[j].id);
      OtherGroupUnchanged(ops, p, x, R[j]);
    }
    assert forall j :: 0 <= j < |r| ==> r[j].id == R[j].id;
  }

  /** Induction step when the new feature starts a new entry. */
  lemma ReduceBelow(ops: GeoOps, p: seq<Feature>, k: string)
    requires forall i :: 0 <= i < |p| ==> IdLess(p[i].id, k)
    ensures forall j :: 0 <= j < |Reduce(ops, p)| ==> IdLess(Reduce(ops, p)[j].id, k)
  {
    var R := Reduce(ops, p);
    ReduceKeepsIdSet(ops, p);
    forall j | 0 <= j < |R|
      ensures IdLess(R[j].id, k)
    {
      assert R[j].id in IdSet(R);
      var i :| 0 <= i < |p| && p[i].id == R[j].id;
    }
  }

  lemma FreshIdGroup(p: seq<Feature>, x: Feature)
    requires forall i :: 0 <= i < |p| ==> IdLess(p[i].id, x.id)
    ensures WithId(p + [x], x.id) == [x]
  {
    IdLessIrreflexive(x.id);
    forall i | 0 <= i < |p|
      ensures !HasId(x.id)(p[i])
    {
    }
    FilterNone(p, HasId(x.id));
    WithIdSnoc(p, x, x.id);
  }

  lemma SortedReduceAppend(ops: GeoOps, p: seq<Feature>, x: Feature)
    requires StrictlyIncreasing(Reduce(ops, p))
    requires forall j :: 0 <= j < |Reduce(ops, p)| ==> IsMergedGroup(ops, p, Reduce(ops, p)[j])
    requires forall i :: 0 <= i < |p| ==> IdLess(p[i].id, x.id)
    ensures StrictlyIncreasing(Reduce(ops, p + [x]))
    ensures forall j :: 0 <= j < |Reduce(ops, p + [x])| ==> IsMergedGroup(ops, p + [x], Reduce(ops, p + [x])[j])
  {
    var s := p + [x];
    assert s[..|s| - 1] == p;
    var R := Reduce(ops, p);
    ReduceBelow(ops, p, x.id);
    FreshIdGroup(p, x);
    assert Reduce(ops, s) == Step(ops, R, x);
    StepAppend(ops, p, x, R);
  }

  lemma StepAppend(ops: GeoOps, p: seq<Feature>, x: Feature, R: seq<Feature>)
    requires StrictlyIncreasing(R)
    requires forall j :: 0 <= j < |R| ==> IsMergedGroup(ops, p, R[j])
    requires forall j :: 0 <= j < |R| ==> IdLess(R[j].id, x.id)
    requires WithId(p + [x], x.id) == [x]
    ensures StrictlyIncreasing(Step(ops, R, x))
    ensures forall j :: 0 <= j < |Step(ops, R, x)| ==> IsMergedGroup(ops, p + [x], Step(ops, R, x)[j])
  {
    IdLessIrreflexive(x.id);
    assert Step(ops, R, x) == R + [x];
    CombineSingle(ops, x);
    forall j | 0 <= j < |R|
      ensures IsMergedGroup(ops, p + [x], R[j])
    {
      OtherGroupUnchanged(ops, p, x, R[j]);
    }
    AppendIncreasing(R, x);
  }

  lemma AppendIncreasing(R: seq<Feature>, x: Feature)
    requires StrictlyIncreasing(R)
    requires forall j :: 0 <= j < |R| ==> IdLess(R[j].id, x.id)
    ensures StrictlyIncreasing(R + [x])
  {
  }

  /** On input sorted by id the fold yields one entry per id, in strictly
      increasing id order, each the merge of its whole group. */
  lemma {:induction false} SortedReduce(ops: GeoOps, s: seq<Feature>)
    requires SortedById(s)
    ensures StrictlyIncreasing(Reduce(ops, s))
    ensures forall j :: 0 <= j < |Reduce(ops, s)| ==> IsMergedGroup(ops, s, Reduce(ops, s)[j])
  {
    if |s| == 0 {
      return;
    }
    var n := |s|;
    var p, x := s[..n - 1], s[n - 1];
    assert s == p + [x];
    assert SortedById(p) by {
      forall i, j | 0 <= i < j < |p|
        ensures !ById()(p[j], p[i])
      {
        assert p[i] == s[i] && p[j] == s[j];
      }
    }
    SortedReduce(ops, p);
    if |p| > 0 && p[|p| - 1].id == x.id {
      SortedReduceJoin(ops, p, x);
    } else {
      if |p| > 0 {
        SortedBelowLast(s);
      }
      SortedReduceAppend(ops, p, x);
    }
  }

  lemma SortKeepsIdSet(s: seq<Feature>)
    ensures IdSet(SortBy(s, ById())) == IdSet(s)
  {
    var sorted := SortBy(s, ById());
    forall k | k in IdSet(s)
      ensures k in IdSet(sorted)
    {
      var i :| 0 <= i < |s| && s[i].id == k;
      assert s[i] in multiset(sorted);
      var j :| 0 <= j < |sorted| && sorted[j] == s[i];
    }
    forall k | k in IdSet(sorted)
      ensures k in IdSet(s)
    {
      var i :| 0 <= i < |sorted| && sorted[i].id == k;
      assert sorted[i] in multiset(s);
      var j :| 0 <= j < |s| && s[j] == sorted[i];
    }
  }

  lemma SortKeepsGroup(s: seq<Feature>, k: string)
    ensures WithId(SortBy(s, ById()), k) == WithId(s, k)
  {
    forall a, b | HasId(k)(a) && HasId(k)(b)
      ensures !ById()(a, b)
    {
      IdLessIrreflexive(k);
    }
    SortByStable(s, ById(), HasId(k));
  }

  /** The whole merge step, map-integration.js:102-125: every input id
      appears exactly once, in increasing order, and its entry is the merge
      of all input features with that id taken in input order. */
  function MergeById(ops: GeoOps, s: seq<Feature>): (r: seq<Feature>)
    ensures IdSet(r) == IdSet(s)
    ensures StrictlyIncreasing(r)
    ensures |r| == |IdSet(s)|
    ensures forall j :: 0 <= j < |r| ==> IsMergedGroup(ops, s, r[j])
  {
    var sorted := SortBy(s, ById());
    ByIdIsStrictWeakOrder();
    SortBySorted(s, ById());
    SortedReduce(ops, sorted);
    ReduceKeepsIdSet(ops, sorted);
    SortKeepsIdSet(s);
    var r := Reduce(ops, sorted);
    assert forall j :: 0 <= j < |r| ==> IsMergedGroup(ops, s, r[j]) by {
      forall j | 0 <= j < |r|
        ensures IsMergedGroup(ops, s, r[j])
      {
        assert IsMergedGroup(ops, sorted, r[j]);
        SortKeepsGroup(s, r[j].id);
      }
    }
    StrictlyIncreasingCount(r);
    r
  }

  /** A feature whose id occurs once passes through the merge unchanged:
      no union and no rewind is applied to it. */
  lemma SingletonPassesThrough(ops: GeoOps, s: seq<Feature>, f: Feature)
    requires WithId(s, f.id) == [f]
    ensures f in MergeById(ops, s)
  {
    var r := MergeById(ops, s);
    assert f in WithId(s, f.id);
    var i :| 0 <= i < |s| && s[i] == f;
    assert f.id in IdSet(s);
    var j :| 0 <= j < |r| && r[j].id == f.id;
    assert IsMergedGroup(ops, s, r[j]);
    CombineSingle(ops, f);
  }

  /** Every entry built from two or more fragments comes out of `rewind`
      last, so whatever orientation `rewind` guarantees holds of it,
      regardless of the orientation `union` produced. */
  lemma MergedGroupsRewound(ops: GeoOps, s: seq<Feature>, wound: Geometry -> bool)
    requires forall g :: wound(ops.rewind(g))
    ensures forall j :: 0 <= j < |MergeById(ops, s)| && |WithId(s, MergeById(ops, s)[j].id)| >= 2
              ==> wound(MergeById(ops, s)[j].geometry)
  {
    var r := MergeById(ops, s);
    forall j | 0 <= j < |r| && |WithId(s, r[j].id)| >= 2
      ensures wound(r[j].geometry)
    {
      var g := WithId(s, r[j].id);
      assert IsMergedGroup(ops, s, r[j]);
      assert r[j].geometry == ops.rewind(ops.union(FoldGeometry(ops, g[..|g| - 1]), g[|g| - 1].geometry));
    }
  }

  lemma TwoIdsInOrder(r: seq<Feature>, a: string, b: string)
    requires StrictlyIncreasing(r) && |r| == 2
    requires IdSet(r) == {a, b} && IdLess(a, b)
    ensures r[0].id == a && r[1].id == b
  {
    assert r[0].id in IdSet(r) && r[1].id in IdSet(r);
    assert IdLess(r[0].id, r[1].id);
    IdLessIrreflexive(a);
    IdLessIrreflexive(b);
    IdLessAsymmetric(a, b);
  }

  lemma TwoBuildingsIds(f1: Feature, f2: Feature, f3: Feature, r: seq<Feature>)
    requires f1.id == f2.id && IdLess(f1.id, f3.id)
    requires IdSet(r) == IdSet([f1, f2, f3])
    requires StrictlyIncreasing(r)
    requires |r| == |IdSet([f1, f2, f3])|
    ensures |r| == 2 && r[0].id == f1.id && r[1].id == f3.id
  {
    var s := [f1, f2, f3];
    var a, b := f1.id, f3.id;
    IdLessIrreflexive(a);
    assert IdSet(s) == {a, b} by {
      forall k | k in IdSet(s)
        ensures k == a || k == b
      {
        var i :| 0 <= i < |s| && s[i].id == k;
      }
      assert s[0].id in IdSet(s) && s[2].id in IdSet(s);
    }
    assert |{a, b}| == 2;
    TwoIdsInOrder(r, a, b);
  }

  lemma TwoBuildingsFilters(f1: Feature, f2: Feature, f3: Feature)
    requires f1.id == f2.id && f1.id != f3.id
    ensures WithId([f1, f2, f3], f1.id) == [f1, f2]
    ensures WithId([f1, f2, f3], f3.id) == [f3]
  {
    var a, b := f1.id, f3.id;
    WithIdSnoc([f1, f2], f3, a);
    WithIdSnoc([f1, f2], f3, b);
    WithIdSnoc([f1], f2, a);
    WithIdSnoc([f1], f2, b);
    WithIdSnoc([], f1, a);
    WithIdSnoc([], f1, b);
    assert [f1] + [f2] == [f1, f2];
    assert [f1, f2] + [f3] == [f1, f2, f3];
    assert [] + [f1] == [f1];
  }

  lemma TwoBuildingsGroups(ops: GeoOps, f1: Feature, f2: Feature, f3: Feature, r: seq<Feature>)
    requires f1.id == f2.id && IdLess(f1.id, f3.id)
    requires |r| == 2 && r[0].id == f1.id && r[1].id == f3.id
    requires IsMergedGroup(ops, [f1, f2, f3], r[0]) && IsMergedGroup(ops, [f1, f2, f3], r[1])
    ensures r == [f1.(geometry := Unite(ops, f1.geometry, f2.geometry)), f3]
  {
    IdLessIrreflexive(f1.id);
    TwoBuildingsFilters(f1, f2, f3);
    assert r[0] == Combine(ops, [f1, f2]);
    assert [f1, f2][..1] == [f1];
    assert FoldGeometry(ops, [f1, f2]) == Unite(ops, f1.geometry, f2.geometry);
    assert r[1] == Combine(ops, [f3]);
    CombineSingle(ops, f3);
    assert r == [r[0], r[1]];
  }

  /** The merge of two fragments `f1`, `f2` of one building and one
      fragment `f3` of a building with a later id: two entries, the first
      carrying `f1`'s properties and the rewound union of both fragments,
      the second `f3` unchanged. */
  lemma TwoBuildingsScenario(ops: GeoOps, f1: Feature, f2: Feature, f3: Feature)
    requires f1.id == f2.id && IdLess(f1.id, f3.id)
    ensures MergeById(ops, [f1, f2, f3])
         == [f1.(geometry := Unite(ops, f1.geometry, f2.geometry)), f3]
  {
    var r := MergeById(ops, [f1, f2, f3]);
    TwoBuildingsIds(f1, f2, f3, r);
    TwoBuildingsGroups(ops, f1, f2, f3, r);
  }
}
