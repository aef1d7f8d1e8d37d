/** processPaths (main.js:104-136): every SVG path becomes, if it can, a
    Matter.js body.  The paths are handled in batches of fifty with a
    frame yield after each batch; inside a batch every path is handled on
    its own, so one failing path does not stop the others.  The SVG parser,
    simplify-js and Matter's body construction are parameters; the
    rendering-frame wait is an event in the result. */
module PathBatches {

  import opened Basics
  import opened Seqs
  import opened SvgPath
  import opened Attraction

  /** Paths per batch (main.js:119-121). */
  const BatchSize: nat := 50

  /** The foreign code a path goes through.  Each function answers `None`
      where the library would throw. */
  datatype Toolkit = Toolkit(
    parse: string -> Option<seq<Segment>>,        // SVGPathParser
    simplify: seq<Point> -> Option<seq<Point>>,   // simplify(vertices, 0.3, true)
    build: seq<Point> -> Option<Body>)            // calculateCentroid, then Bodies.fromVertices

  /** What happened to one path. */
  datatype Outcome =
    | Added(body: Body)                  // the body was added to the world
    | BuildFailed(vertices: seq<Point>)  // createBody caught an error (main.js:98-100)
    | TooFew(vertices: seq<Point>)       // "Insufficient vertices" (main.js:127-128)
    | PathFailed(pathData: string)       // "Error processing path" (main.js:130-132)

  /** parsePath (svg.js:36-48). */
  function ParsePath(kit: Toolkit, pathData: string, f: Frame): Option<seq<Point>> {
    match kit.parse(pathData)
    case None => None
    case Some(segs) => kit.simplify(Vertices(segs, f))
  }

  /** The body of the forEach callback (main.js:123-132).  A body is
      attempted exactly when parsing and simplifying succeeded with more
      than two vertices, and then with those vertices; otherwise the path
      is reported and skipped. */
  function ProcessOne(kit: Toolkit, f: Frame, pathData: string): (r: Outcome)
    ensures r.PathFailed? <==> ParsePath(kit, pathData, f).None?
    ensures r.TooFew? <==> ParsePath(kit, pathData, f).Some? && |ParsePath(kit, pathData, f).value| <= 2
    ensures r.Added? || r.BuildFailed? <==> ParsePath(kit, pathData, f).Some? && |ParsePath(kit, pathData, f).value| > 2
    ensures r.Added? ==> kit.build(ParsePath(kit, pathData, f).value) == Some(r.body)
    ensures r.BuildFailed? ==> r.vertices == ParsePath(kit, pathData, f).value && kit.build(r.vertices).None?
  {
    match ParsePath(kit, pathData, f)
    case None => PathFailed(pathData)
    case Some(v) =>
      if |v| > 2 then
        match kit.build(v)
        case None => BuildFailed(v)
        case Some(b) => Added(b)
      else TooFew(v)
  }

  /** What the loop emits, in order. */
  datatype Event = Processed(outcome: Outcome) | FrameYield

  function Outcomes(events: seq<Event>): (r: seq<Outcome>)
    ensures |r| <= |events|
  {
    if |events| == 0 then []
    else
      var rest := Outcomes(events[..|events| - 1]);
      match events[|events| - 1]
      case Processed(o) => rest + [o]
      case FrameYield => rest
  }

  function YieldCount(events: seq<Event>): nat {
    if |events| == 0 then 0
    else YieldCount(events[..|events| - 1]) + if events[|events| - 1].FrameYield? then 1 else 0
  }

  lemma EventSnoc(events: seq<Event>, e: Event)
    ensures Outcomes(events + [e]) == Outcomes(events) + if e.Processed? then [e.outcome] else []
    ensures YieldCount(events + [e]) == YieldCount(events) + if e.FrameYield? then 1 else 0
  {
    assert (events + [e])[..|events|] == events;
  }

  /** Each path handled on its own: the reference the loop is measured
      against. */
  function Results(kit: Toolkit, f: Frame, paths: seq<string>): (r: seq<Outcome>)
    ensures |r| == |paths|
    ensures forall i :: 0 <= i < |paths| ==> r[i] == ProcessOne(kit, f, paths[i])
  {
    seq(|paths|, i requires 0 <= i < |paths| => ProcessOne(kit, f, paths[i]))
  }

  lemma ResultsConcat(kit: Toolkit, f: Frame, a: seq<string>, b: seq<string>)
    ensures Results(kit, f, a + b) == Results(kit, f, a) + Results(kit, f, b)
  {
  }

  /** The events the forEach of one batch emits: one outcome per path, in
      the batch's order. */
  function BatchBody(kit: Toolkit, f: Frame, batch: seq<string>): seq<Event> {
    seq(|batch|, i requires 0 <= i < |batch| => Processed(ProcessOne(kit, f, batch[i])))
  }

  /** The events of one iteration of the loop of main.js:119-135: the
      batch's outcomes, then the frame yield of main.js:134. */
  function BatchEvents(kit: Toolkit, f: Frame, batch: seq<string>): seq<Event> {
    BatchBody(kit, f, batch) + [FrameYield]
  }

  /** The events of whole batches, one after the other: the reference the
      loop is measured against for where its yields fall. */
  function EventsOf(kit: Toolkit, f: Frame, batches: seq<seq<string>>): seq<Event> {
    if |batches| == 0 then []
    else EventsOf(kit, f, batches[..|batches| - 1]) + BatchEvents(kit, f, batches[|batches| - 1])
  }

  lemma EventsSnoc(kit: Toolkit, f: Frame, batches: seq<seq<string>>, batch: seq<string>)
    ensures EventsOf(kit, f, batches + [batch]) == EventsOf(kit, f, batches) + BatchEvents(kit, f, batch)
  {
    assert (batches + [batch])[..|batches|] == batches;
  }

  /** One batch (main.js:122-133): the outcomes of its paths are appended
      in order and no frame is yielded. */
  method ProcessBatch(kit: Toolkit, f: Frame, events: seq<Event>, batch: seq<string>) returns (r: seq<Event>)
    ensures r == events + BatchBody(kit, f, batch)
  {
    r := events;
    var j := 0;
    while j < |batch|
      invariant 0 <= j <= |batch|
      invariant r == events + BatchBody(kit, f, batch[..j])
    {
      assert BatchBody(kit, f, batch[..j + 1]) == BatchBody(kit, f, batch[..j]) + [Processed(ProcessOne(kit, f, batch[j]))];
      r := r + [Processed(ProcessOne(kit, f, batch[j]))];
      j := j + 1;
    }
    assert batch[..j] == batch;
  }

  lemma BatchBodySnoc(kit: Toolkit, f: Frame, init: seq<string>, x: string)
    ensures BatchBody(kit, f, init + [x]) == BatchBody(kit, f, init) + [Processed(ProcessOne(kit, f, x))]
  {
  }

  lemma ResultsSnoc(kit: Toolkit, f: Frame, init: seq<string>, x: string)
    ensures Results(kit, f, init + [x]) == Results(kit, f, init) + [ProcessOne(kit, f, x)]
  {
  }

  /** A batch's events carry its paths' outcomes, in order. */
  lemma {:induction false} BodyOutcomes(kit: Toolkit, f: Frame, events: seq<Event>, batch: seq<string>)
    ensures Outcomes(events + BatchBody(kit, f, batch)) == Outcomes(events) + Results(kit, f, batch)
  {
    if |batch| == 0 {
      assert events + BatchBody(kit, f, batch) == events;
    } else {
      var init, x := batch[..|batch| - 1], batch[|batch| - 1];
      assert batch == init + [x];
      var e := Processed(ProcessOne(kit, f, x));
      var base := events + BatchBody(kit, f, init);
      var o := ProcessOne(kit, f, x);
      calc {
        Outcomes(events + BatchBody(kit, f, batch));
        == { BatchBodySnoc(kit, f, init, x); assert events + BatchBody(kit, f, batch) == base + [e]; }
        Outcomes(base + [e]);
        == { EventSnoc(base, e); }
        Outcomes(base) + [o];
        == { BodyOutcomes(kit, f, events, init); }
        (Outcomes(events) + Results(kit, f, init)) + [o];
        == { ResultsSnoc(kit, f, init, x); }
        Outcomes(events) + Results(kit, f, batch);
      }
    }
  }

  /** A batch's events hold no yield. */
  lemma {:induction false} BodyYields(kit: Toolkit, f: Frame, events: seq<Event>, batch: seq<string>)
    ensures YieldCount(events + BatchBody(kit, f, batch)) == YieldCount(events)
  {
    if |batch| == 0 {
      assert events + BatchBody(kit, f, batch) == events;
    } else {
      var init, x := batch[..|batch| - 1], batch[|batch| - 1];
      assert batch == init + [x];
      var e := Processed(ProcessOne(kit, f, x));
      var base := events + BatchBody(kit, f, init);
      BodyYields(kit, f, events, init);
      BatchBodySnoc(kit, f, init, x);
      assert events + BatchBody(kit, f, batch) == base + [e];
      EventSnoc(base, e);
    }
  }

  lemma FlattenSnoc<T>(init: seq<seq<T>>, b: seq<T>)
    ensures Flatten(init + [b]) == Flatten(init) + b
  {
    FlattenConcat(init, [b]);
    assert Flatten([b]) == b + Flatten([b][1..]);
  }

  /** The events of whole batches carry the outcomes of all their paths,
      in order. */
  lemma {:induction false} EventsOfOutcomes(kit: Toolkit, f: Frame, batches: seq<seq<string>>)
    ensures Outcomes(EventsOf(kit, f, batches)) == Results(kit, f, Flatten(batches))
  {
    if |batches| > 0 {
      var init, b := batches[..|batches| - 1], batches[|batches| - 1];
      assert batches == init + [b];
      var prev := EventsOf(kit, f, init);
      var pre := prev + BatchBody(kit, f, b);
      EventsOfOutcomes(kit, f, init);
      BodyOutcomes(kit, f, prev, b);
      assert EventsOf(kit, f, batches) == pre + [FrameYield];
      EventSnoc(pre, FrameYield);
      FlattenSnoc(init, b);
      ResultsConcat(kit, f, Flatten(init), b);
    }
  }

  /** The events of whole batches hold one yield per batch, and the last
      of them is a yield. */
  lemma {:induction false} EventsOfYields(kit: Toolkit, f: Frame, batches: seq<seq<string>>)
    ensures YieldCount(EventsOf(kit, f, batches)) == |batches|
    ensures |batches| > 0 ==> |EventsOf(kit, f, batches)| > 0 && EventsOf(kit, f, batches)[|EventsOf(kit, f, batches)| - 1] == FrameYield
  {
    if |batches| > 0 {
      var init, b := batches[..|batches| - 1], batches[|batches| - 1];
      var prev := EventsOf(kit, f, init);
      var pre := prev + BatchBody(kit, f, b);
      EventsOfYields(kit, f, init);
      BodyYields(kit, f, prev, b);
      assert EventsOf(kit, f, batches) == pre + [FrameYield];
      EventSnoc(pre, FrameYield);
    }
  }

  /** The loop of main.js:119-135 with a fixed frame.  The events are,
      batch after batch, that batch's outcomes followed by one frame
      yield, so the loop yields once after each batch and nowhere else;
      every path is handled, in input order, independently of how the
      others fared; and the batches are the fifty-path slices of the
      input, in order. */
  method ProcessBatches(kit: Toolkit, f: Frame, paths: seq<string>)
    returns (events: seq<Event>, ghost batches: seq<seq<string>>)
    ensures events == EventsOf(kit, f, batches)
    ensures Outcomes(events) == Results(kit, f, paths)
    ensures YieldCount(events) == |batches| == (|paths| + BatchSize - 1) / BatchSize
    ensures batches == Chunks(paths, BatchSize) && Flatten(batches) == paths
    ensures forall j :: 0 <= j < |batches| ==> 0 < |batches[j]| <= BatchSize
    ensures forall j :: 0 <= j < |batches| - 1 ==> |batches[j]| == BatchSize
    ensures |paths| > 0 ==> events[|events| - 1] == FrameYield
  {
    events, batches := [], [];
    var i := 0;
    while i < |paths|
      invariant i == BatchSize * |batches|
      invariant BatchSize * |batches| <= |paths| + BatchSize - 1
      invariant Batched(paths, batches)
      invariant events == EventsOf(kit, f, batches)
    {
      var end := Min(i + BatchSize, |paths|);
      var batch := paths[i .. end];
      events := ProcessBatch(kit, f, events, batch);
      events := events + [FrameYield];
      BatchedSnoc(paths, batches, batch);
      EventsSnoc(kit, f, batches, batch);
      batches := batches + [batch];
      i := i + BatchSize;
    }
    BatchesAreChunks(paths, batches);
    ChunkSizes(paths, BatchSize);
    EventsOfOutcomes(kit, f, batches);
    EventsOfYields(kit, f, batches);
  }

  /** Batch `j` is the slice `paths.slice(50 * j, 50 * j + 50)`. */
  ghost predicate Batched(paths: seq<string>, batches: seq<seq<string>>) {
    forall j :: 0 <= j < |batches| ==>
      && BatchSize * j <= |paths|
      && batches[j] == paths[BatchSize * j .. Min(BatchSize * j + BatchSize, |paths|)]
  }

  lemma BatchedSnoc(paths: seq<string>, batches: seq<seq<string>>, batch: seq<string>)
    requires Batched(paths, batches) && BatchSize * |batches| < |paths|
    requires batch == paths[BatchSize * |batches| .. Min(BatchSize * |batches| + BatchSize, |paths|)]
    ensures Batched(paths, batches + [batch])
  {
  }

  lemma BatchesAreChunks(paths: seq<string>, batches: seq<seq<string>>)
    requires |paths| <= BatchSize * |batches| <= |paths| + BatchSize - 1
    requires Batched(paths, batches)
    ensures |batches| == (|paths| + BatchSize - 1) / BatchSize
    ensures batches == Chunks(paths, BatchSize) && Flatten(batches) == paths
  {
    var c := Chunks(paths, BatchSize);
    ChunkCount(paths, BatchSize);
    ChunksFlatten(paths, BatchSize);
    DivUnique(|paths| + BatchSize - 1, BatchSize, |batches|, |paths| + BatchSize - 1 - BatchSize * |batches|);
    forall j | 0 <= j < |batches|
      ensures batches[j] == c[j]
    {
      ChunkAt(paths, BatchSize, j);
    }
  }

  /** The frame processPaths derives (main.js:105-117): offset by the
      lower corner of the box, with the scale given.  Without any vertex
      the box keeps its Infinity sentinels; no path then has a vertex to
      place, so the offset is immaterial and is taken as zero. */
  function FrameFor(box: Option<Box>, scale: real): Frame {
    match box
    case None => Frame(scale, 0.0, 0.0)
    case Some(b) => Frame(scale, b.minX, b.minY)
  }

  /** The segments of the paths that parse, in order. */
  function Parsed(kit: Toolkit, paths: seq<string>): seq<seq<Segment>> {
    if |paths| == 0 then []
    else (match kit.parse(paths[0]) case None => [] case Some(segs) => [segs]) + Parsed(kit, paths[1..])
  }

  lemma {:induction false} ParsedConcat(kit: Toolkit, a: seq<string>, b: seq<string>)
    ensures Parsed(kit, a + b) == Parsed(kit, a) + Parsed(kit, b)
  {
    if |a| == 0 {
      assert a + b == b;
    } else {
      assert (a + b)[0] == a[0] && (a + b)[1..] == a[1..] + b;
      ParsedConcat(kit, a[1..], b);
    }
  }

  /** getSVGBoundingBox as written (svg.js:16-33), called at main.js:105
      outside any try block.  The outer forEach parses the paths one after
      the other (svg.js:20), and each widens the running box by all its
      segments.  The first path the parser rejects throws, and the whole
      call fails (`None`).  `Some(None)` is a box still at its Infinity
      sentinels. */
  function BoxAsWritten(kit: Toolkit, paths: seq<string>): Option<Option<Box>> {
    if |paths| == 0 then Some(None)
    else
      match BoxAsWritten(kit, paths[..|paths| - 1])
      case None => None
      case Some(b) =>
        match kit.parse(paths[|paths| - 1])
        case None => None
        case Some(segs) => Some(WidenAll(b, segs))
  }

  /** getSVGBoundingBox throws exactly when some path does not parse. */
  lemma {:induction false} BoxAsWrittenFails(kit: Toolkit, paths: seq<string>)
    ensures BoxAsWritten(kit, paths).None? <==> exists i :: 0 <= i < |paths| && kit.parse(paths[i]).None?
  {
    if |paths| > 0 {
      var init := paths[..|paths| - 1];
      BoxAsWrittenFails(kit, init);
      if exists i :: 0 <= i < |init| && kit.parse(init[i]).None? {
        var i :| 0 <= i < |init| && kit.parse(init[i]).None?;
        assert paths[i] == init[i];
      }
      if exists i :: 0 <= i < |paths| && kit.parse(paths[i]).None? {
        var i :| 0 <= i < |paths| && kit.parse(paths[i]).None?;
        if i < |init| {
          assert init[i] == paths[i];
        }
      }
    }
  }

  lemma {:induction false} BoxAsWrittenValue(kit: Toolkit, paths: seq<string>)
    requires BoxAsWritten(kit, paths).Some?
    ensures BoxAsWritten(kit, paths).value == WidenAll(None, Flatten(Parsed(kit, paths)))
  {
    if |paths| > 0 {
      var init, last := paths[..|paths| - 1], paths[|paths| - 1];
      assert paths == init + [last];
      BoxAsWrittenValue(kit, init);
      var segs := kit.parse(last).value;
      ParsedConcat(kit, init, [last]);
      assert Parsed(kit, [last]) == [segs] by {
        assert [last][1..] == [];
      }
      FlattenSnoc(Parsed(kit, init), segs);
      WidenAllConcat(None, Flatten(Parsed(kit, init)), segs);
    }
  }

  /** When getSVGBoundingBox does not throw, its box is the bounding box
      of all the parsed paths. */
  lemma BoxAsWrittenIsBoundingBox(kit: Toolkit, paths: seq<string>)
    requires BoxAsWritten(kit, paths).Some?
    ensures BoxAsWritten(kit, paths).value == BoundingBox(Parsed(kit, paths))
  {
    BoxAsWrittenValue(kit, paths);
    WidenAllFromStart(Flatten(Parsed(kit, paths)));
  }

  /** processPaths as written (main.js:104-136): the box of
      getSVGBoundingBox gives the frame, so a single path the parser
      rejects throws before the loop and no path is processed. */
  function ProcessPathsAsWritten(kit: Toolkit, scale: real, paths: seq<string>): (r: Option<seq<Outcome>>)
    ensures r.None? <==> exists i :: 0 <= i < |paths| && kit.parse(paths[i]).None?
  {
    BoxAsWrittenFails(kit, paths);
    match BoxAsWritten(kit, paths)
    case None => None
    case Some(box) => Some(Results(kit, FrameFor(box, scale), paths))
  }

  /** processPaths as its per-path error handling intends: the bounding
      box skips the paths that do not parse, and each of those is reported
      on its own in the loop. */
  function ProcessPaths(kit: Toolkit, scale: real, paths: seq<string>): (r: seq<Outcome>)
    ensures |r| == |paths|
    ensures forall i :: 0 <= i < |paths| && kit.parse(paths[i]).None? ==> r[i] == PathFailed(paths[i])
  {
    Results(kit, FrameFor(BoundingBox(Parsed(kit, paths)), scale), paths)
  }

  /** Wherever the code as written does not throw, it agrees with the
      corrected version. */
  lemma ProcessPathsAgrees(kit: Toolkit, scale: real, paths: seq<string>)
    requires ProcessPathsAsWritten(kit, scale, paths).Some?
    ensures ProcessPathsAsWritten(kit, scale, paths).value == ProcessPaths(kit, scale, paths)
  {
    BoxAsWrittenIsBoundingBox(kit, paths);
  }

  /** In the corrected version a path that does not parse changes nothing
      for the others: with it removed, every other path has the outcome it
      had. */
  lemma FailureIsIsolated(kit: Toolkit, scale: real, a: seq<string>, bad: string, b: seq<string>)
    requires kit.parse(bad).None?
    ensures var r, r' := ProcessPaths(kit, scale, a + [bad] + b), ProcessPaths(kit, scale, a + b);
            && |r| == |r'| + 1
            && r[|a|] == PathFailed(bad)
            && (forall i :: 0 <= i < |a| ==> r[i] == r'[i])
            && (forall i :: |a| <= i < |r'| ==> r[i + 1] == r'[i])
  {
    SameFrame(kit, a, bad, b);
    var s, s' := a + [bad] + b, a + b;
    assert forall i :: 0 <= i < |a| ==> s[i] == s'[i];
    assert forall i :: |a| <= i < |s'| ==> s[i + 1] == s'[i];
  }

  lemma SameFrame(kit: Toolkit, a: seq<string>, bad: string, b: seq<string>)
    requires kit.parse(bad).None?
    ensures Parsed(kit, a + [bad] + b) == Parsed(kit, a + b)
  {
    ParsedConcat(kit, a + [bad], b);
    ParsedConcat(kit, a, [bad]);
    ParsedConcat(kit, a, b);
    assert Parsed(kit, [bad]) == [] by {
      assert [bad][1..] == [];
    }
  }

  /** A well-formed path followed by one the parser rejects: as written,
      nothing is processed; corrected, the first path still becomes a
      body. */
  lemma UnparsablePathStopsAll(kit: Toolkit, scale: real, good: string, bad: string)
    requires kit.parse(bad).None? && kit.parse(good).Some?
    requires ProcessOne(kit, FrameFor(BoundingBox([kit.parse(good).value]), scale), good).Added?
    ensures ProcessPathsAsWritten(kit, scale, [good, bad]).None?
    ensures ProcessPaths(kit, scale, [good, bad])[0].Added?
  {
    var paths := [good, bad];
    assert kit.parse(paths[1]).None?;
    ParsedConcat(kit, [good], [bad]);
    assert paths == [good] + [bad];
    assert Parsed(kit, [good]) == [kit.parse(good).value] by {
      assert [good][1..] == [];
    }
    assert Parsed(kit, [bad]) == [] by {
      assert [bad][1..] == [];
    }
  }
}
