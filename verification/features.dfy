/** GeoJSON building features as the map demo handles them: an id (the
    `properties.id` every tile assigns to the same building), the remaining
    properties, and a geometry the model never looks inside. */
module Features {

  import opened Seqs
  import opened Sorting

  /** A Polygon or MultiPolygon; only the geometry library inspects it. */
  type Geometry(==, !new)

  /** The properties other than `id` (source id, type, height, age). */
  type Attributes(==, !new)

  datatype Feature = Feature(id: string, attributes: Attributes, geometry: Geometry)

  /** `a.localeCompare(b) < 0`, taken as plain lexicographic order on
      character codes: a proper prefix comes first, otherwise the first
      differing character decides. */
  predicate IdLess(a: string, b: string) {
    if |b| == 0 then false
    else if |a| == 0 then true
    else if a[0] != b[0] then a[0] < b[0]
    else IdLess(a[1..], b[1..])
  }

  lemma {:induction false} IdLessIrreflexive(a: string)
    ensures !IdLess(a, a)
  {
    if |a| > 0 {
      IdLessIrreflexive(a[1..]);
    }
  }

  lemma {:induction false} IdLessTransitive(a: string, b: string, c: string)
    requires IdLess(a, b) && IdLess(b, c)
    ensures IdLess(a, c)
  {
    if |a| > 0 && a[0] == b[0] && b[0] == c[0] {
      IdLessTransitive(a[1..], b[1..], c[1..]);
    }
  }

  /** Two ids are equal or one of them comes first. */
  lemma {:induction false} IdLessTotal(a: string, b: string)
    ensures a == b || IdLess(a, b) || IdLess(b, a)
  {
    if |a| > 0 && |b| > 0 && a[0] == b[0] {
      IdLessTotal(a[1..], b[1..]);
      if a[1..] == b[1..] {
        assert a == [a[0]] + a[1..] && b == [b[0]] + b[1..];
      }
    }
  }

  lemma IdLessAsymmetric(a: string, b: string)
    requires IdLess(a, b)
    ensures !IdLess(b, a)
  {
    if IdLess(b, a) {
      IdLessTransitive(a, b, a);
      IdLessIrreflexive(a);
    }
  }

  /** The sort comparator of map-integration.js:103. */
  function ById(): (Feature, Feature) -> bool {
    (a: Feature, b: Feature) => IdLess(a.id, b.id)
  }

  lemma ByIdIsStrictWeakOrder()
    ensures StrictWeakOrder(ById())
  {
    forall a: Feature, b: Feature | ById()(a, b)
      ensures !ById()(b, a)
    {
      IdLessAsymmetric(a.id, b.id);
    }
    forall a: Feature, b: Feature, c: Feature | !ById()(a, b) && !ById()(b, c)
      ensures !ById()(a, c)
    {
      IdLessTotal(a.id, b.id);
      IdLessTotal(b.id, c.id);
      if IdLess(a.id, c.id) {
        if IdLess(b.id, a.id) {
          IdLessTransitive(b.id, a.id, c.id);
        }
        if IdLess(c.id, b.id) {
          IdLessTransitive(a.id, c.id, b.id);
          IdLessAsymmetric(a.id, b.id);
        }
      }
    }
  }

  /** Sorted by id: no feature has a smaller id than one before it. */
  predicate SortedById(s: seq<Feature>) {
    SortedBy(s, ById())
  }

  /** Ids increase strictly along `s`, so in particular no id repeats. */
  predicate StrictlyIncreasing(s: seq<Feature>) {
    forall i, j :: 0 <= i < j < |s| ==> IdLess(s[i].id, s[j].id)
  }

  function HasId(k: string): Feature -> bool {
    (f: Feature) => f.id == k
  }

  /** The features carrying id `k`, in order. */
  function WithId(s: seq<Feature>, k: string): seq<Feature> {
    Filter(s, HasId(k))
  }

  /** The set of ids occurring in `s`. */
  function IdSet(s: seq<Feature>): set<string> {
    set i | 0 <= i < |s| :: s[i].id
  }

  /** The ids of `s`, position by position. */
  function Ids(s: seq<Feature>): (r: seq<string>)
    ensures |r| == |s|
    ensures forall i :: 0 <= i < |s| ==> r[i] == s[i].id
  {
    seq(|s|, i requires 0 <= i < |s| => s[i].id)
  }

  lemma IdSetSnoc(s: seq<Feature>, x: Feature)
    ensures IdSet(s + [x]) == IdSet(s) + {x.id}
  {
    var t := s + [x];
    forall k | k in IdSet(t)
      ensures k in IdSet(s) + {x.id}
    {
      var i :| 0 <= i < |t| && t[i].id == k;
      if i < |s| {
        assert t[i] == s[i];
      }
    }
    forall k | k in IdSet(s)
      ensures k in IdSet(t)
    {
      var i :| 0 <= i < |s| && s[i].id == k;
      assert t[i] == s[i];
    }
    assert t[|s|] == x;
  }

  /** With strictly increasing ids there is exactly one entry per id. */
  lemma {:induction false} StrictlyIncreasingCount(s: seq<Feature>)
    requires StrictlyIncreasing(s)
    ensures |IdSet(s)| == |s|
  {
    if |s| > 0 {
      var p, x := s[..|s| - 1], s[|s| - 1];
      assert s == p + [x];
      assert StrictlyIncreasing(p) by {
        forall i, j | 0 <= i < j < |p|
          ensures IdLess(p[i].id, p[j].id)
        {
          assert p[i] == s[i] && p[j] == s[j];
        }
      }
      StrictlyIncreasingCount(p);
      IdSetSnoc(p, x);
      if x.id in IdSet(p) {
        var i :| 0 <= i < |p| && p[i].id == x.id;
        assert IdLess(s[i].id, s[|s| - 1].id);
        IdLessIrreflexive(x.id);
      }
    }
  }
}
