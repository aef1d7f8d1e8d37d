/** The path handling of svg.js: the bounding box over every path's
    move-to and line-to points (getSVGBoundingBox) and the vertex list of a
    path's first subpath, shifted and scaled onto the canvas (parsePath).
    The parser itself is not modelled: its output, the list of segments of
    one path, is the input here. */
module SvgPath {

  import opened Basics
  import opened Seqs

  /** One segment as svg-path-parser reports it: the command letter and
      the end point.  Only `M` and `L` segments are ever read, and those
      always carry both coordinates. */
  datatype Segment = Segment(code: char, x: real, y: real)

  datatype Box = Box(minX: real, minY: real, maxX: real, maxY: real)

  /** The segments that count as vertices: absolute move-to and line-to. */
  predicate IsVertex(s: Segment) {
    s.code == 'M' || s.code == 'L'
  }

  predicate IsMove(s: Segment) {
    s.code == 'M'
  }

  predicate Contains(b: Box, s: Segment) {
    b.minX <= s.x <= b.maxX && b.minY <= s.y <= b.maxY
  }

  /** Each bound of `b` is a coordinate of some vertex of `segs`. */
  predicate Attained(b: Box, segs: seq<Segment>) {
    && (exists s :: s in segs && IsVertex(s) && s.x == b.minX)
    && (exists s :: s in segs && IsVertex(s) && s.y == b.minY)
    && (exists s :: s in segs && IsVertex(s) && s.x == b.maxX)
    && (exists s :: s in segs && IsVertex(s) && s.y == b.maxY)
  }

  /** One iteration of the inner loop (svg.js:23-28).  `None` is the
      starting state, all four bounds at plus or minus Infinity; the first
      vertex therefore sets every bound to its own coordinates. */
  function Widen(b: Option<Box>, s: Segment): Option<Box> {
    if !IsVertex(s) then b
    else match b
      case None => Some(Box(s.x, s.y, s.x, s.y))
      case Some(c) => Some(Box(if s.x < c.minX then s.x else c.minX,
                               if s.y < c.minY then s.y else c.minY,
                               if s.x > c.maxX then s.x else c.maxX,
                               if s.y > c.maxY then s.y else c.maxY))
  }

  /** The fold of `Widen` over `segs`: empty exactly when no segment is a
      vertex, and otherwise a box holding every vertex. */
  function BoxOf(segs: seq<Segment>): (r: Option<Box>)
    ensures r.None? <==> forall s :: s in segs ==> !IsVertex(s)
    ensures r.Some? ==> forall s :: s in segs && IsVertex(s) ==> Contains(r.value, s)
  {
    if |segs| == 0 then None
    else Widen(BoxOf(segs[..|segs| - 1]), segs[|segs| - 1])
  }

  /** The running box after the inner forEach of svg.js:21-29 has seen
      `segs`, starting from the box `b` the earlier paths left. */
  function WidenAll(b: Option<Box>, segs: seq<Segment>): Option<Box> {
    if |segs| == 0 then b
    else Widen(WidenAll(b, segs[..|segs| - 1]), segs[|segs| - 1])
  }

  /** Widening by two runs of segments is widening by their concatenation. */
  lemma {:induction false} WidenAllConcat(b: Option<Box>, x: seq<Segment>, y: seq<Segment>)
    ensures WidenAll(b, x + y) == WidenAll(WidenAll(b, x), y)
  {
    if |y| == 0 {
      assert x + y == x;
    } else {
      var n := |y|;
      assert (x + y)[..|x + y| - 1] == x + y[..n - 1];
      assert (x + y)[|x + y| - 1] == y[n - 1];
      WidenAllConcat(b, x, y[..n - 1]);
    }
  }

  /** Started at the Infinity sentinels, the running box is `BoxOf`. */
  lemma {:induction false} WidenAllFromStart(segs: seq<Segment>)
    ensures WidenAll(None, segs) == BoxOf(segs)
  {
    if |segs| > 0 {
      WidenAllFromStart(segs[..|segs| - 1]);
    }
  }

  /** The box is tight: every bound is reached by a vertex. */
  lemma {:induction false} BoxAttained(segs: seq<Segment>)
    ensures BoxOf(segs).Some? ==> Attained(BoxOf(segs).value, segs)
  {
    if BoxOf(segs).None? {
      return;
    }
    var n := |segs|;
    var p, s := segs[..n - 1], segs[n - 1];
    assert segs == p + [s];
    assert s in segs;
    if BoxOf(p).Some? {
      BoxAttained(p);
      forall t | t in p
        ensures t in segs
      {
      }
    }
  }

  lemma BoxSnoc(p: seq<Segment>, s: Segment)
    ensures BoxOf(p + [s]) == Widen(BoxOf(p), s)
  {
    assert (p + [s])[..|p|] == p;
  }

  /** Segments other than `M` and `L` do not affect the box. */
  lemma {:induction false} BoxIgnoresOtherSegments(segs: seq<Segment>)
    ensures BoxOf(segs) == BoxOf(Filter(segs, IsVertex))
  {
    if |segs| > 0 {
      var n := |segs|;
      var p, s := segs[..n - 1], segs[n - 1];
      assert segs == p + [s];
      BoxIgnoresOtherSegments(p);
      FilterSnoc(p, s, IsVertex);
      var fp := Filter(p, IsVertex);
      BoxSnoc(p, s);
      if IsVertex(s) {
        BoxSnoc(fp, s);
        assert Filter(segs, IsVertex) == fp + [s];
      } else {
        assert Filter(segs, IsVertex) == fp;
      }
    }
  }

  /** A segment is in the concatenation of the paths exactly when it is in
      one of them. */
  lemma FlattenVertices(paths: seq<seq<Segment>>)
    ensures forall p, s :: 0 <= p < |paths| && s in paths[p] ==> s in Flatten(paths)
    ensures forall s :: s in Flatten(paths) ==> exists p :: 0 <= p < |paths| && s in paths[p]
  {
    forall p, s | 0 <= p < |paths| && s in paths[p]
      ensures s in Flatten(paths)
    {
      FlattenMembers(paths, s);
    }
    forall s | s in Flatten(paths)
      ensures exists p :: 0 <= p < |paths| && s in paths[p]
    {
      FlattenMembers(paths, s);
    }
  }

  /** getSVGBoundingBox (svg.js:16-33) over the parsed paths: `None`, the
      untouched Infinity sentinels, exactly when no path has a vertex;
      otherwise a box that holds every vertex of every path and whose
      bounds are all reached. */
  function BoundingBox(paths: seq<seq<Segment>>): (r: Option<Box>)
    ensures r.None? <==> forall p, s :: 0 <= p < |paths| && s in paths[p] ==> !IsVertex(s)
    ensures r.Some? ==> forall p, s :: 0 <= p < |paths| && s in paths[p] && IsVertex(s) ==> Contains(r.value, s)
    ensures r.Some? ==> Attained(r.value, Flatten(paths))
  {
    var all := Flatten(paths);
    FlattenVertices(paths);
    BoxAttained(all);
    BoxOf(all)
  }

  /** The number of `M` segments in `s`. */
  function MoveCount(s: seq<Segment>): nat {
    |Filter(s, IsMove)|
  }

  /** The stateful filter of svg.js:41-44: `moves` is `mCodeCount`, bumped
      at every `M`; a segment is kept while the count is below two, so the
      result stops just before the second `M`. */
  function KeepFirstSubpath(segs: seq<Segment>, moves: nat): (r: seq<Segment>)
    ensures |r| <= |segs|
    ensures moves >= 2 ==> r == []
    ensures moves <= 1 ==> r == segs[..|r|]
    ensures moves <= 1 ==> moves + MoveCount(r) <= 1
    ensures moves <= 1 && |r| < |segs| ==> IsMove(segs[|r|]) && moves + MoveCount(r) == 1
  {
    if |segs| == 0 then []
    else
      var m := if IsMove(segs[0]) then moves + 1 else moves;
      var rest := KeepFirstSubpath(segs[1..], m);
      if m < 2 then
        assert [segs[0]] + segs[1..][..|rest|] == segs[..|rest| + 1];
        assert ([segs[0]] + rest)[1..] == rest;
        [segs[0]] + rest
      else rest
  }

  /** The vertex segments of one path before scaling (svg.js:39-44): only
      `M` and `L` segments, in their order, and of those exactly the
      longest prefix that holds at most one `M`. */
  function FirstSubpath(segs: seq<Segment>): (r: seq<Segment>)
    ensures |r| <= |Filter(segs, IsVertex)|
    ensures forall i :: 0 <= i < |r| ==> IsVertex(r[i])
    ensures r == Filter(segs, IsVertex)[..|r|]
    ensures MoveCount(r) <= 1
    ensures |r| < |Filter(segs, IsVertex)| ==> IsMove(Filter(segs, IsVertex)[|r|]) && MoveCount(r) == 1
  {
    var vs := Filter(segs, IsVertex);
    var r := KeepFirstSubpath(vs, 0);
    assert forall i :: 0 <= i < |r| ==> r[i] == vs[i];
    r
  }

  /** The offset and scale parsePath applies (svg.js:45). */
  datatype Frame = Frame(scale: real, offsetX: real, offsetY: real)

  function ToCanvas(s: Segment, f: Frame): Point {
    Point((s.x - f.offsetX) * f.scale, (s.y - f.offsetY) * f.scale)
  }

  /** processPaths offsets every path by the box's lower corner
      (main.js:116-117); with a positive scale every vertex the box holds
      lands in the rectangle from the origin to the scaled box size. */
  lemma CanvasFits(b: Box, scale: real, s: Segment)
    requires scale > 0.0 && Contains(b, s)
    ensures var p := ToCanvas(s, Frame(scale, b.minX, b.minY));
            0.0 <= p.x <= (b.maxX - b.minX) * scale && 0.0 <= p.y <= (b.maxY - b.minY) * scale
  {
    MulMonotone(s.x - b.minX, b.maxX - b.minX, scale);
    MulMonotone(s.y - b.minY, b.maxY - b.minY, scale);
  }

  lemma MulMonotone(a: real, c: real, k: real)
    requires 0.0 <= a <= c && k > 0.0
    ensures 0.0 <= a * k <= c * k
  {
    assert c * k - a * k == (c - a) * k;
  }

  /** The vertex list parsePath hands to simplify: the first subpath's
      points, each shifted by the offset and scaled. */
  function Vertices(segs: seq<Segment>, f: Frame): (r: seq<Point>)
    ensures |r| == |FirstSubpath(segs)|
    ensures forall i :: 0 <= i < |r| ==> r[i] == ToCanvas(FirstSubpath(segs)[i], f)
  {
    var kept := FirstSubpath(segs);
    seq(|kept|, i requires 0 <= i < |kept| => ToCanvas(kept[i], f))
  }
}
