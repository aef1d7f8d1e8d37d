/** The step after earcut in map-integration.js:129-151: earcut returns a
    flat list of vertex indices, three per triangle; each index is turned
    into the coordinate pair it names in the flattened vertex list, and
    the pairs are cut into triples, one per drawn triangle.  earcut itself
    and the Mercator projection are not modelled: the index list and the
    vertex list are inputs. */
module Triangulation {

  import opened Basics
  import opened Seqs

  /** One entry of the `triangles` list, `[vertices[k], vertices[k + 1]]`.
      Reading past the end of a JavaScript array yields `undefined`, so
      each coordinate is optional. */
  datatype Corner = Corner(x: Option<real>, y: Option<real>)

  /** `v[k]` as JavaScript reads it. */
  function At(v: seq<real>, k: nat): Option<real> {
    if k < |v| then Some(v[k]) else None
  }

  /** The corner that earcut index `index` names, for vertices laid out
      `dims` numbers apiece (map-integration.js:136-140). */
  function CornerOf(vertices: seq<real>, dims: nat, index: nat): Corner {
    Corner(At(vertices, index * dims), At(vertices, index * dims + 1))
  }

  /** The loop of map-integration.js:134-141: one corner per index, in the
      order earcut returned them.  A corner is complete exactly when the
      second of its two numbers lies inside the vertex list. */
  method TriangleCorners(indices: seq<nat>, vertices: seq<real>, dims: nat) returns (r: seq<Corner>)
    ensures |r| == |indices|
    ensures forall i :: 0 <= i < |r| ==> r[i] == CornerOf(vertices, dims, indices[i])
    ensures forall i :: 0 <= i < |r| ==>
      (r[i].x.Some? && r[i].y.Some? <==> indices[i] * dims + 1 < |vertices|)
    ensures forall i :: 0 <= i < |r| && indices[i] * dims + 1 < |vertices| ==>
      r[i] == Corner(Some(vertices[indices[i] * dims]), Some(vertices[indices[i] * dims + 1]))
  {
    r := [];
    var i := 0;
    while i < |indices|
      invariant 0 <= i <= |indices|
      invariant |r| == i
      invariant forall k :: 0 <= k < i ==> r[k] == CornerOf(vertices, dims, indices[k])
    {
      var index := indices[i];
      r := r + [Corner(At(vertices, index * dims), At(vertices, index * dims + 1))];
      i := i + 1;
    }
  }

  /** earcut.flatten on a ring of two-dimensional points: the coordinates
      one after the other, `x` before `y`. */
  function Interleave(points: seq<Point>): (r: seq<real>)
    ensures |r| == 2 * |points|
  {
    if |points| == 0 then [] else [points[0].x, points[0].y] + Interleave(points[1..])
  }

  /** Point `k` sits at positions `2k` and `2k + 1` of the flattened ring. */
  lemma {:induction false} InterleaveAt(points: seq<Point>, k: nat)
    requires k < |points|
    ensures Interleave(points)[2 * k] == points[k].x
    ensures Interleave(points)[2 * k + 1] == points[k].y
  {
    if k > 0 {
      InterleaveAt(points[1..], k - 1);
      var rest := Interleave(points[1..]);
      assert Interleave(points) == [points[0].x, points[0].y] + rest;
      assert Interleave(points)[2 * k] == rest[2 * (k - 1)];
      assert Interleave(points)[2 * k + 1] == rest[2 * (k - 1) + 1];
    }
  }

  /** Over a flattened ring with two numbers per vertex the index
      arithmetic reads back exactly the point the index names, and an
      index past the ring reads `undefined` twice. */
  lemma CornerOfRing(points: seq<Point>, index: nat)
    ensures CornerOf(Interleave(points), 2, index) ==
      if index < |points| then Corner(Some(points[index].x), Some(points[index].y))
      else Corner(None, None)
  {
    if index < |points| {
      InterleaveAt(points, index);
    }
  }

  /** The drawing loop of map-integration.js:145-151, `i = 0, 3, 6, …`
      below the length, each step taking `slice(i, i + 3)`. */
  method Triples<T>(corners: seq<T>) returns (r: seq<seq<T>>)
    ensures r == Chunks(corners, 3)
  {
    r := [];
    var i := 0;
    while i < |corners|
      invariant i == 3 * |r|
      invariant 3 * |r| <= |corners| + 2
      invariant forall j :: 0 <= j < |r| ==> r[j] == corners[3 * j .. Min(3 * j + 3, |corners|)]
    {
      r := r + [corners[i .. Min(i + 3, |corners|)]];
      i := i + 3;
    }
    var c := Chunks(corners, 3);
    assert |c| == |r| by {
      ChunkCount(corners, 3);
      DivUnique(|corners| + 2, 3, |r|, |corners| + 2 - 3 * |r|);
    }
    forall j | 0 <= j < |r|
      ensures r[j] == c[j]
    {
      ChunkAt(corners, 3, j);
    }
  }

  /** When earcut returns a whole number of triangles, every triple is a
      full triangle and there are a third as many triples as indices. */
  lemma WholeTriangles<T>(corners: seq<T>)
    requires |corners| % 3 == 0
    ensures |Chunks(corners, 3)| == |corners| / 3
    ensures forall j :: 0 <= j < |Chunks(corners, 3)| ==> |Chunks(corners, 3)[j]| == 3
  {
    var c := Chunks(corners, 3);
    ChunkCount(corners, 3);
    DivUnique(|corners| + 2, 3, |corners| / 3, 2);
    forall j | 0 <= j < |c|
      ensures |c[j]| == 3
    {
      ChunkAt(corners, 3, j);
    }
  }
}
