/** The body selection of applyAttraction (main.js:171-200): every body
    except the borders, ranked by area, largest first; the first five of
    the ranking pull on every other non-border body.  Areas are inputs
    (Matter.Vertices.area is not modelled) and so is the force each pair
    exerts. */
module Attraction {

  import opened Basics
  import opened Seqs
  import opened Sorting

  /** A body of the world as applyAttraction sees it: Matter's unique
      body id, which stands for object identity, its `label` (a reserved
      word in Dafny, hence `name`) and its area. */
  datatype Body = Body(id: nat, name: string, area: real)

  /** The label the four static walls carry (main.js:62). */
  const BorderLabel: string := "border"

  /** How many of the largest bodies attract (main.js:185). */
  const AttractorCount: nat := 5

  predicate Movable(b: Body) {
    b.name != BorderLabel
  }

  /** The comparator `(a, b) => b.area - a.area` read as "a goes first":
      negative exactly when `a` is larger. */
  predicate LargerArea(a: Body, b: Body) {
    a.area > b.area
  }

  lemma LargerAreaIsStrictWeakOrder()
    ensures StrictWeakOrder(LargerArea)
  {
  }

  function HasArea(x: real): Body -> bool {
    (b: Body) => b.area == x
  }

  /** The non-border bodies in descending area; JavaScript's sort is
      stable, so bodies of equal area keep their order in the world. */
  function Ranking(world: seq<Body>): seq<Body> {
    SortBy(Filter(world, Movable), LargerArea)
  }

  /** The five largest bodies (main.js:172-185): no border, at most five,
      drawn from the world without repetition, in descending area, and
      no body left out is larger than any body chosen. */
  function Attractors(world: seq<Body>): (r: seq<Body>)
    ensures |r| == Min(AttractorCount, |Filter(world, Movable)|)
    ensures forall i :: 0 <= i < |r| ==> Movable(r[i]) && r[i] in world
    ensures multiset(r) <= multiset(Filter(world, Movable))
    ensures forall i, j :: 0 <= i < j < |r| ==> r[i].area >= r[j].area
    ensures forall b, i :: b in multiset(Filter(world, Movable)) - multiset(r) && 0 <= i < |r| ==> b.area <= r[i].area
  {
    var ranked := Ranking(world);
    var r := ranked[..Min(AttractorCount, |ranked|)];
    LargerAreaIsStrictWeakOrder();
    SortBySorted(Filter(world, Movable), LargerArea);
    TopOfRanking(ranked, |r|);
    RankingMembers(world);
    r
  }

  lemma RankingMembers(world: seq<Body>)
    ensures forall b :: b in Ranking(world) ==> Movable(b) && b in world
  {
    forall b | b in Ranking(world)
      ensures Movable(b) && b in world
    {
      assert b in multiset(Ranking(world));
      assert b in Filter(world, Movable);
    }
  }

  /** The first `m` entries of a list sorted by descending area are in
      descending area and none of the other entries is larger. */
  lemma TopOfRanking(ranked: seq<Body>, m: nat)
    requires m <= |ranked| && SortedBy(ranked, LargerArea)
    ensures forall i, j :: 0 <= i < j < m ==> ranked[i].area >= ranked[j].area
    ensures multiset(ranked[..m]) <= multiset(ranked)
    ensures forall b, i :: b in multiset(ranked) - multiset(ranked[..m]) && 0 <= i < m ==> b.area <= ranked[i].area
  {
    var r, rest := ranked[..m], ranked[m..];
    assert ranked == r + rest;
    assert multiset(ranked) == multiset(r) + multiset(rest);
    forall b, i | b in multiset(ranked) - multiset(r) && 0 <= i < m
      ensures b.area <= ranked[i].area
    {
      assert b in rest;
      var j :| 0 <= j < |rest| && rest[j] == b;
      assert ranked[m + j] == b;
    }
  }

  /** Among bodies of equal area the ranking keeps the world's order. */
  lemma RankingKeepsTies(world: seq<Body>, x: real)
    ensures Filter(Ranking(world), HasArea(x)) == Filter(Filter(world, Movable), HasArea(x))
  {
    SortByStable(Filter(world, Movable), LargerArea, HasArea(x));
  }

  /** The test `bodyA !== bodyB` (main.js:190), on body ids. */
  function NotSelf(a: Body): Body -> bool {
    (b: Body) => b.id != a.id
  }

  /** The bodies one attractor pulls, in the order of `bodies`. */
  function Others(a: Body, bodies: seq<Body>): seq<Body> {
    Filter(bodies, NotSelf(a))
  }

  /** Matter gives every body its own id. */
  predicate DistinctIds(s: seq<Body>) {
    forall i, j :: 0 <= i < j < |s| ==> s[i].id != s[j].id
  }

  predicate NoRepeats<T(==)>(s: seq<T>) {
    forall i, j :: 0 <= i < j < |s| ==> s[i] != s[j]
  }

  /** The inner loop for one attractor `a` (main.js:189-197): a pair for
      every body but `a` itself, in the order of `bodies`. */
  function Targets(a: Body, bodies: seq<Body>): (r: seq<(Body, Body)>)
    ensures forall p :: p in r <==> p.0 == a && p.1 in bodies && p.1.id != a.id
    ensures |r| == |Others(a, bodies)|
    ensures forall k :: 0 <= k < |r| ==> r[k] == (a, Others(a, bodies)[k])
  {
    if |bodies| == 0 then []
    else
      var rest := Targets(a, bodies[1..]);
      assert forall x :: x in bodies <==> x == bodies[0] || x in bodies[1..];
      assert Others(a, bodies) == (if bodies[0].id != a.id then [bodies[0]] else []) + Others(a, bodies[1..]);
      (if bodies[0].id != a.id then [(a, bodies[0])] else []) + rest
  }

  /** Both loops (main.js:188-199): every attractor with every body other
      than itself. */
  function Pulls(attractors: seq<Body>, bodies: seq<Body>): (r: seq<(Body, Body)>)
    ensures forall p :: p in r <==> p.0 in attractors && p.1 in bodies && p.0.id != p.1.id
  {
    if |attractors| == 0 then []
    else
      var rest := Pulls(attractors[1..], bodies);
      assert forall x :: x in attractors <==> x == attractors[0] || x in attractors[1..];
      Targets(attractors[0], bodies) + rest
  }

  /** The pairs one call of applyAttraction applies a force to: the pulling
      body is one of the five largest, the pulled one any other
      non-border body; no body pulls itself and no border takes part. */
  function AttractionPairs(world: seq<Body>): (r: seq<(Body, Body)>)
    ensures forall p :: p in r <==> p.0 in Attractors(world) && p.1 in world && Movable(p.1) && p.0.id != p.1.id
    ensures forall p :: p in r ==> Movable(p.0) && Movable(p.1) && p.0.id != p.1.id
  {
    var bodies := Filter(world, Movable);
    assert forall b :: b in bodies <==> b in world && Movable(b) by {
      forall b | b in world && Movable(b)
        ensures b in bodies
      {
        var i :| 0 <= i < |world| && world[i] == b;
      }
    }
    Pulls(Attractors(world), bodies)
  }

  /** With distinct ids, one attractor pulls each other body once. */
  lemma {:induction false} TargetsOnce(a: Body, bodies: seq<Body>)
    requires DistinctIds(bodies)
    ensures NoRepeats(Targets(a, bodies))
  {
    if |bodies| > 0 {
      var rest := bodies[1..];
      assert DistinctIds(rest) by {
        forall i, j | 0 <= i < j < |rest|
          ensures rest[i].id != rest[j].id
        {
          assert rest[i] == bodies[i + 1] && rest[j] == bodies[j + 1];
        }
      }
      TargetsOnce(a, rest);
      forall p | p in Targets(a, rest)
        ensures p.1 != bodies[0]
      {
        var k :| 0 <= k < |rest| && rest[k] == p.1;
        assert bodies[k + 1] == p.1;
      }
    }
  }

  /** With distinct ids, an attractor that is itself one of the bodies
      pulls all of them but itself. */
  lemma {:induction false} TargetsCount(a: Body, bodies: seq<Body>)
    requires DistinctIds(bodies) && a in bodies
    ensures |Targets(a, bodies)| == |bodies| - 1
  {
    var rest := bodies[1..];
    assert DistinctIds(rest) by {
      forall i, j | 0 <= i < j < |rest|
        ensures rest[i].id != rest[j].id
      {
        assert rest[i] == bodies[i + 1] && rest[j] == bodies[j + 1];
      }
    }
    if bodies[0] == a {
      forall k | 0 <= k < |rest|
        ensures rest[k].id != a.id
      {
        assert rest[k] == bodies[k + 1];
      }
      TargetsOfStrangers(a, rest);
    } else {
      var k :| 0 <= k < |bodies| && bodies[k] == a;
      assert bodies[0].id != a.id;
      TargetsCount(a, rest);
    }
  }

  /** An attractor that is none of the bodies pulls every one of them. */
  lemma {:induction false} TargetsOfStrangers(a: Body, bodies: seq<Body>)
    requires forall k :: 0 <= k < |bodies| ==> bodies[k].id != a.id
    ensures |Targets(a, bodies)| == |bodies|
  {
    if |bodies| > 0 {
      TargetsOfStrangers(a, bodies[1..]);
    }
  }

  /** With distinct ids on both sides, the nested loops (main.js:188-197)
      apply a force to each (attractor, body) pair at most once. */
  lemma {:induction false} PullsOnce(attractors: seq<Body>, bodies: seq<Body>)
    requires DistinctIds(attractors) && DistinctIds(bodies)
    ensures NoRepeats(Pulls(attractors, bodies))
  {
    if |attractors| > 0 {
      var a, rest := attractors[0], attractors[1..];
      assert DistinctIds(rest) by {
        forall i, j | 0 <= i < j < |rest|
          ensures rest[i].id != rest[j].id
        {
          assert rest[i] == attractors[i + 1] && rest[j] == attractors[j + 1];
        }
      }
      PullsOnce(rest, bodies);
      TargetsOnce(a, bodies);
      var t, u := Targets(a, bodies), Pulls(rest, bodies);
      assert Pulls(attractors, bodies) == t + u;
      forall p | p in u
        ensures p.0 != a
      {
        var k :| 0 <= k < |rest| && rest[k] == p.0;
        assert attractors[k + 1] == p.0;
      }
      forall i, j | 0 <= i < |t| && 0 <= j < |u|
        ensures t[i] != u[j]
      {
        assert t[i] in t && u[j] in u;
      }
    }
  }

  /** With distinct ids, and attractors drawn from the bodies, every
      attractor pulls every body but itself: |attractors| * (|bodies| - 1)
      forces in all. */
  lemma {:induction false} PullsCount(attractors: seq<Body>, bodies: seq<Body>)
    requires DistinctIds(bodies)
    requires forall k :: 0 <= k < |attractors| ==> attractors[k] in bodies
    ensures |Pulls(attractors, bodies)| == |attractors| * (|bodies| - 1)
  {
    if |attractors| > 0 {
      var rest := attractors[1..];
      forall k | 0 <= k < |rest|
        ensures rest[k] in bodies
      {
        assert rest[k] == attractors[k + 1];
      }
      TargetsCount(attractors[0], bodies);
      PullsCount(rest, bodies);
      var n, m := |attractors|, |bodies| - 1;
      assert |Pulls(attractors, bodies)| == m + (n - 1) * m;
      MulStep(n, m);
    }
  }

  /** A filter keeps ids distinct. */
  lemma {:induction false} FilterDistinctIds(s: seq<Body>, p: Body -> bool)
    requires DistinctIds(s)
    ensures DistinctIds(Filter(s, p))
  {
    if |s| > 0 {
      var rest := s[1..];
      assert DistinctIds(rest) by {
        forall i, j | 0 <= i < j < |rest|
          ensures rest[i].id != rest[j].id
        {
          assert rest[i] == s[i + 1] && rest[j] == s[j + 1];
        }
      }
      FilterDistinctIds(rest, p);
      forall b | b in Filter(rest, p)
        ensures b.id != s[0].id
      {
        var k :| 0 <= k < |rest| && rest[k] == b;
        assert s[k + 1] == b;
      }
    }
  }

  /** A body occurs at most once in a list with distinct ids. */
  lemma {:induction false} DistinctIdsOnce(s: seq<Body>, x: Body)
    requires DistinctIds(s)
    ensures multiset(s)[x] <= 1
  {
    if |s| > 0 {
      var rest := s[1..];
      assert s == [s[0]] + rest;
      assert DistinctIds(rest) by {
        forall i, j | 0 <= i < j < |rest|
          ensures rest[i].id != rest[j].id
        {
          assert rest[i] == s[i + 1] && rest[j] == s[j + 1];
        }
      }
      DistinctIdsOnce(rest, x);
      if x == s[0] {
        forall k | 0 <= k < |rest|
          ensures rest[k] != x
        {
          assert rest[k] == s[k + 1];
        }
        assert x !in rest;
      }
    }
  }

  /** Drawing without repetition from a list with distinct ids keeps the
      ids distinct. */
  lemma SubMultisetDistinctIds(r: seq<Body>, s: seq<Body>)
    requires DistinctIds(s) && multiset(r) <= multiset(s)
    ensures DistinctIds(r)
  {
    forall i, j | 0 <= i < j < |r|
      ensures r[i].id != r[j].id
    {
      if r[i].id == r[j].id {
        assert r[i] in multiset(s) && r[j] in multiset(s);
        var p :| 0 <= p < |s| && s[p] == r[i];
        var q :| 0 <= q < |s| && s[q] == r[j];
        assert p == q;
        var x := r[i];
        assert r == r[..j] + r[j..];
        assert x in r[..j] && x in r[j..];
        assert multiset(r)[x] == multiset(r[..j])[x] + multiset(r[j..])[x];
        DistinctIdsOnce(s, x);
        assert false;
      }
    }
  }

  /** In a world whose bodies have distinct ids (Matter's ids are unique),
      one call of applyAttraction applies a force to each (attractor, other body) pair
      exactly once: no pair twice, and every chosen attractor pulls every
      other non-border body. */
  lemma EachPairOnce(world: seq<Body>)
    requires DistinctIds(world)
    ensures NoRepeats(AttractionPairs(world))
    ensures |AttractionPairs(world)| == |Attractors(world)| * (|Filter(world, Movable)| - 1)
  {
    var bodies, attractors := Filter(world, Movable), Attractors(world);
    FilterDistinctIds(world, Movable);
    SubMultisetDistinctIds(attractors, bodies);
    forall k | 0 <= k < |attractors|
      ensures attractors[k] in bodies
    {
      assert attractors[k] in multiset(bodies);
    }
    PullsOnce(attractors, bodies);
    PullsCount(attractors, bodies);
  }
}
