/** Vocabulary shared by both canvases: points, strokes, pointer events, the
    calls the session makes on the Windows ink manager (kept as a trace), the
    drawing commands it issues on a 2D canvas (kept as a log), and the effect
    of the few ink-manager calls the session relies on. */
module Ink {
  import opened Colors

  /** A canvas position in exact reals. Coordinates are passed through,
      except that moving a selection adds the translation to them. */
  datatype Point = Point(x: real, y: real)

  /** One rendering segment of a stroke: an anchor and two Bezier control points. */
  datatype Segment = Segment(position: Point, control1: Point, control2: Point)

  /** A stroke held by the ink manager, with its drawing attributes and selection flag. */
  datatype Stroke = Stroke(segments: seq<Segment>, color: Color, width: real, selected: bool)

  /** The two 2D contexts: the ink canvas and (ink-canvas.js only) the selection canvas. */
  datatype Ctx = InkContext | SelectionContext

  /** Windows.UI.Input.Inking.InkManipulationMode. */
  datatype InkMode = Inking | Erasing | Selecting

  /** The ink manager's default drawing attributes for new strokes. */
  datatype DrawingDefaults = DrawingDefaults(color: Color, width: real)

  /** PointerEvent.pointerType. */
  datatype PointerKind = Pen | Mouse | Touch | OtherKind

  /** The fields of a pointer event the handlers read. `intermediatePoints`
      holds the newest point at index 0 and the oldest at the end. */
  datatype PointerEvent = PointerEvent(
    pointerId: int,
    pointerType: PointerKind,
    button: int,
    isEraser: bool,
    position: Point,
    intermediatePoints: seq<Point>)

  /** A call the session makes on the ink manager. */
  datatype InkCall =
    | SelectWithLine(from: Point, to: Point)
    | ProcessPointerDown(p: Point)
    | ProcessPointerUpdate(p: Point)
    | ProcessPointerUp(p: Point)
    | DeleteSelected
    | MoveSelected(dx: real, dy: real)
    | RecognizeAll
    | UpdateRecognitionResults(results: seq<seq<string>>)

  /** A drawing command on a 2D context. `LineTo` stands for `lineTo`
      followed by `stroke`; `StrokePath` for one renderStroke call. */
  datatype DrawCall =
    | ClearRect(canvas: Ctx)
    | BeginPathAt(ctx: Ctx, p: Point)
    | LineTo(ctx: Ctx, p: Point)
    | ClosePath(ctx: Ctx)
    | StrokePath(segments: seq<Segment>, style: string, width: real)

  /** The origin, used for the zero-length selection line that clears the selection. */
  const Origin := Point(0.0, 0.0)

  /** The updates the move handlers forward (inky.js:478-481,
      ink-canvas.js:333-336): one per intermediate point, walking the array
      from its last index down to 0, that is oldest point first. */
  function ForwardedUpdates(pts: seq<Point>): seq<InkCall>
  {
    if pts == [] then [] else ForwardedUpdates(pts[1..]) + [ProcessPointerUpdate(pts[0])]
  }

  /** The k-th forwarded update carries the point k places from the end of
      the array: every point once, oldest first. */
  lemma {:induction false} ForwardedUpdateAt(pts: seq<Point>, k: int)
    requires 0 <= k < |pts|
    ensures |ForwardedUpdates(pts)| == |pts|
    ensures ForwardedUpdates(pts)[k] == ProcessPointerUpdate(pts[|pts| - 1 - k])
  {
    ForwardedLength(pts);
    if k < |pts| - 1 {
      ForwardedUpdateAt(pts[1..], k);
    }
  }

  lemma {:induction false} ForwardedLength(pts: seq<Point>)
    ensures |ForwardedUpdates(pts)| == |pts|
  {
    if pts != [] {
      ForwardedLength(pts[1..]);
    }
  }

  /** Forwarding does not add, drop or duplicate points. */
  lemma {:induction false} ForwardedPointsPermute(pts: seq<Point>)
    ensures multiset(ForwardedUpdates(pts)) == multiset(seq(|pts|, i requires 0 <= i < |pts| => ProcessPointerUpdate(pts[i])))
  {
    var asCalls := seq(|pts|, i requires 0 <= i < |pts| => ProcessPointerUpdate(pts[i]));
    if pts != [] {
      ForwardedPointsPermute(pts[1..]);
      var rest := seq(|pts[1..]|, i requires 0 <= i < |pts[1..]| => ProcessPointerUpdate(pts[1..][i]));
      assert asCalls == [ProcessPointerUpdate(pts[0])] + rest;
    }
  }

  /** The move handlers' count-down loop over the intermediate points. */
  method ForwardIntermediatePoints(pts: seq<Point>) returns (calls: seq<InkCall>)
    ensures calls == ForwardedUpdates(pts)
  {
    calls := [];
    var i := |pts| - 1;
    while i >= 0
      invariant -1 <= i < |pts|
      invariant calls == ForwardedUpdates(pts[i + 1..])
    {
      assert pts[i..][1..] == pts[i + 1..];
      calls := calls + [ProcessPointerUpdate(pts[i])];
      i := i - 1;
    }
    assert pts[0..] == pts;
  }

  /** Every stroke with its `selected` flag set (selectAllStrokes, inky.js:622-627). */
  function AllSelected(strokes: seq<Stroke>): seq<Stroke>
  {
    seq(|strokes|, i requires 0 <= i < |strokes| => strokes[i].(selected := true))
  }

  /** The selection cleared, as the zero-length `selectWithLine` does. */
  function Deselected(strokes: seq<Stroke>): seq<Stroke>
  {
    seq(|strokes|, i requires 0 <= i < |strokes| => strokes[i].(selected := false))
  }

  /** What `deleteSelected` leaves: the unselected strokes, in order. */
  function Unselected(strokes: seq<Stroke>): (r: seq<Stroke>)
    ensures forall s :: s in r ==> s in strokes && !s.selected
    ensures forall s :: s in strokes && !s.selected ==> s in r
  {
    if strokes == [] then []
    else if strokes[0].selected then Unselected(strokes[1..])
    else [strokes[0]] + Unselected(strokes[1..])
  }

  /** Deleting the selection after selecting everything leaves no strokes. */
  lemma SelectAllThenDeleteIsEmpty(strokes: seq<Stroke>)
    ensures Unselected(AllSelected(strokes)) == []
  {
    NothingUnselectedLeft(AllSelected(strokes));
  }

  /** Deleting the selection right after clearing it deletes nothing. */
  lemma {:induction false} DeselectThenDeleteKeepsAll(strokes: seq<Stroke>)
    ensures Unselected(Deselected(strokes)) == Deselected(strokes)
  {
    if strokes != [] {
      DeselectThenDeleteKeepsAll(strokes[1..]);
      assert Deselected(strokes) == [strokes[0].(selected := false)] + Deselected(strokes[1..]);
    }
  }

  /** When every stroke is selected, deleteSelected leaves nothing. */
  lemma {:induction false} NothingUnselectedLeft(strokes: seq<Stroke>)
    requires forall i :: 0 <= i < |strokes| ==> strokes[i].selected
    ensures Unselected(strokes) == []
  {
    if strokes != [] {
      NothingUnselectedLeft(strokes[1..]);
    }
  }

  /** `moveSelected`: each selected stroke's segments shifted by (dx, dy). */
  function Moved(strokes: seq<Stroke>, dx: real, dy: real): seq<Stroke>
  {
    seq(|strokes|, i requires 0 <= i < |strokes| => if strokes[i].selected then Translated(strokes[i], dx, dy) else strokes[i])
  }

  function Shift(p: Point, dx: real, dy: real): Point {
    Point(p.x + dx, p.y + dy)
  }

  function Translated(s: Stroke, dx: real, dy: real): (r: Stroke)
    ensures r.color == s.color && r.width == s.width && r.selected == s.selected
    ensures |r.segments| == |s.segments|
  {
    s.(segments := seq(|s.segments|, i requires 0 <= i < |s.segments| =>
      Segment(Shift(s.segments[i].position, dx, dy),
              Shift(s.segments[i].control1, dx, dy),
              Shift(s.segments[i].control2, dx, dy))))
  }

  /** Moving the selection by (dx, dy) and back by (-dx, -dy) restores every stroke. */
  lemma MovedThereAndBack(strokes: seq<Stroke>, dx: real, dy: real)
    ensures Moved(Moved(strokes, dx, dy), -dx, -dy) == strokes
  {
    var there := Moved(strokes, dx, dy);
    var back := Moved(there, -dx, -dy);
    forall i | 0 <= i < |strokes|
      ensures back[i] == strokes[i]
    {
      if strokes[i].selected {
        var t := Translated(strokes[i], dx, dy);
        assert there[i] == t;
        assert Translated(t, -dx, -dy).segments == strokes[i].segments;
      }
    }
  }
}
