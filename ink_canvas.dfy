/** InkCanvas (ink-canvas.js): the earlier variant of the canvas, with ink,
    select and erase modes, a saved cursor, tap-to-deselect and a movable
    selection box, and no recognition dictionary or clear timer.

    The `self.*` fields of the source are the fields of class InkCanvas.
    Canvas is a value holding the same state; each method is proved against
    a function on Canvas, and the lemmas about those functions state what
    the source promises across several steps. */
module InkCanvas {
  import opened Options
  import opened Colors
  import opened Ink
  import Seqs

  /** A canvas `strokeStyle`, as the string last assigned to it. */
  type Style = string

  /** inkContext.strokeStyle after initialisation (ink-canvas.js:559). */
  const InitialInkStyle: Style := "Black"
  /** selContext.strokeStyle after initialisation (ink-canvas.js:570). */
  const InitialSelStyle: Style := "Gold"
  /** The transparent style of the erase modes (ink-canvas.js:242, 251). */
  const EraseStyle: Style := "rgba(255,255,255,0.0)"
  /** selPattern, which stays null (ink-canvas.js:102); assigning it stores "null". */
  const SelPattern: Style := "null"
  /** The stripe drawn over a selected stroke (ink-canvas.js:436). */
  const StripeStyle: Style := "White"
  /** selCanvas.style.cursor in ink and select modes. */
  const DefaultCursor := "default"
  /** selCanvas.style.cursor in the erase modes. */
  const EraseCursor := "url(images/erase.cur), auto"

  /** The lineWidth of each context (ink-canvas.js:558, 569). */
  function LineWidth(ctx: Ctx): real {
    if ctx == InkContext then 2.0 else 1.0
  }

  /** A selection rectangle as processPointerUp returns it. */
  datatype Rect = Rect(x: real, y: real, width: real, height: real)

  /** selBox.style left, top, width and height, in pixels. */
  datatype BoxStyle = BoxStyle(left: real, top: real, width: real, height: real)

  const ZeroBox := BoxStyle(0.0, 0.0, 0.0, 0.0)

  /** The depth-1 saved-mode slot: savedContext, savedStyle, savedCursor, savedMode. */
  datatype SavedMode = SavedMode(context: Ctx, style: Style, cursor: string, mode: InkMode)

  /** The state of one InkCanvas after initialisation. `boxRect` is
      selBox.rect (absent until the first detachSelection); `tapPointers` and
      `boxPointers` are the pointers handed to the selection canvas's and the
      selection box's gesture objects. */
  datatype Canvas = Canvas(
    context: Ctx,
    inkStyle: Style,
    selStyle: Style,
    cursor: string,
    mode: InkMode,
    saved: Option<SavedMode>,
    defaults: DrawingDefaults,
    penID: int,
    boxRect: Option<Rect>,
    boxStyle: BoxStyle,
    strokes: seq<Stroke>,
    inkCalls: seq<InkCall>,
    canvasLog: seq<DrawCall>,
    tapPointers: seq<int>,
    boxPointers: seq<int>)

  /** The strokeStyle of a context. */
  function StyleOf(s: Canvas, ctx: Ctx): Style {
    if ctx == InkContext then s.inkStyle else s.selStyle
  }

  /** Assign the strokeStyle of a context. */
  function WithStyle(s: Canvas, ctx: Ctx, style: Style): (r: Canvas)
    ensures StyleOf(r, ctx) == style
    ensures ctx != InkContext ==> r.inkStyle == s.inkStyle
    ensures ctx == InkContext ==> r.selStyle == s.selStyle
  {
    if ctx == InkContext then s.(inkStyle := style) else s.(selStyle := style)
  }

  /** What every reachable canvas satisfies: every style toColorStruct may
      read is decodable. */
  ghost predicate Inv(s: Canvas) {
    && ParsableColor(s.inkStyle)
    && ParsableColor(s.selStyle)
    && (s.saved.Some? ==> ParsableColor(s.saved.value.style))
  }

  /** The fields once initializeInk has set up both canvases, before inkMode. */
  const Declared := Canvas(InkContext, InitialInkStyle, InitialSelStyle, "", Inking, None,
                           DrawingDefaults(NamedColor(Black), 2.0), -1, None, ZeroBox, [], [], [], [], [])

  /** The canvas once initializeInk has run inkMode (ink-canvas.js:554-600). */
  function Initialized(): (r: Canvas)
    ensures Inv(r) && r.context == InkContext && r.mode == Inking && r.saved.None?
    ensures r.penID == -1 && r.boxRect.None? && r.defaults == DrawingDefaults(NamedColor(Black), 2.0)
  {
    InkModeSet(Declared)
  }

  // Mode functions (ink-canvas.js:183-275)

  /** clearMode: empty the saved slot. */
  function ClearedMode(s: Canvas): Canvas {
    s.(saved := None)
  }

  /** saveMode: record the context, its style, the cursor and the mode,
      only if the slot is empty. */
  function WithSavedMode(s: Canvas): Canvas {
    if s.saved.None? then s.(saved := Some(SavedMode(s.context, StyleOf(s, s.context), s.cursor, s.mode)))
    else s
  }

  /** restoreMode: switch back to the saved context, write the saved style
      into it, restore mode and cursor, empty the slot; nothing when empty. */
  function RestoredMode(s: Canvas): Canvas {
    if s.saved.Some? then
      var m := s.saved.value;
      WithStyle(s, m.context, m.style).(context := m.context, mode := m.mode, cursor := m.cursor, saved := None)
    else s
  }

  /** setDefaults: the default width is the current context's line width,
      the default colour its decoded style with alpha forced to 255. */
  function WithDefaults(s: Canvas): (r: Canvas)
    requires ParsableColor(StyleOf(s, s.context))
    ensures r.defaults.color.a == 255
  {
    s.(defaults := DrawingDefaults(ToColorStruct(StyleOf(s, s.context)).(a := 255), LineWidth(s.context)))
  }

  /** inkMode. */
  function InkModeSet(s: Canvas): Canvas
    requires ParsableColor(s.inkStyle)
  {
    WithDefaults(ClearedMode(s).(context := InkContext, mode := Inking)).(cursor := DefaultCursor)
  }

  /** selectMode. */
  function SelectModeSet(s: Canvas): Canvas {
    ClearedMode(s).(selStyle := SelPattern, context := SelectionContext, mode := Selecting, cursor := DefaultCursor)
  }

  /** eraseMode. */
  function EraseModeSet(s: Canvas): Canvas {
    ClearedMode(s).(selStyle := EraseStyle, context := SelectionContext, mode := Erasing, cursor := EraseCursor)
  }

  /** tempEraseMode: save the mode, then erase on the selection canvas. */
  function TempEraseSet(s: Canvas): Canvas {
    WithSavedMode(s).(selStyle := EraseStyle, context := SelectionContext, mode := Erasing, cursor := EraseCursor)
  }

  // The selection box (ink-canvas.js:72-89)

  /** anchorSelection: the box becomes zero-sized at the top-left corner; its rect is kept. */
  function Anchored(s: Canvas): Canvas {
    s.(boxStyle := ZeroBox)
  }

  /** detachSelection: the box takes the rect and overlaps it exactly. */
  function Detached(s: Canvas, rect: Rect): Canvas {
    s.(boxRect := Some(rect), boxStyle := BoxStyle(rect.x, rect.y, rect.width, rect.height))
  }

  // Rendering (ink-canvas.js:422-447)

  /** The renderStroke calls for one stroke: a selected stroke is drawn in
      its colour at double width, then in white at width - 1; an unselected
      one once in its colour and width. */
  function DrawsOf(stroke: Stroke): seq<DrawCall> {
    if stroke.selected then
      [StrokePath(stroke.segments, ToColorString(stroke.color), stroke.width * 2.0),
       StrokePath(stroke.segments, StripeStyle, stroke.width - 1.0)]
    else
      [StrokePath(stroke.segments, ToColorString(stroke.color), stroke.width)]
  }

  /** The renderStroke calls of renderAllStrokes, stroke by stroke in order. */
  function RenderedDraws(strokes: seq<Stroke>): seq<DrawCall> {
    if strokes == [] then [] else RenderedDraws(strokes[..|strokes| - 1]) + DrawsOf(strokes[|strokes| - 1])
  }

  /** How many strokes are selected. */
  function SelectedCount(strokes: seq<Stroke>): nat {
    if strokes == [] then 0 else SelectedCount(strokes[..|strokes| - 1]) + (if strokes[|strokes| - 1].selected then 1 else 0)
  }

  /** renderAllStrokes: clear both canvases, draw every stroke, start recognition. */
  function Rendered(s: Canvas): Canvas {
    s.(canvasLog := s.canvasLog + [ClearRect(SelectionContext), ClearRect(InkContext)] + RenderedDraws(s.strokes),
       inkCalls := s.inkCalls + [RecognizeAll])
  }

  /** anySelected: whether some stroke is selected. */
  function AnySelected(strokes: seq<Stroke>): (r: bool)
    ensures r <==> exists i :: 0 <= i < |strokes| && strokes[i].selected
  {
    if strokes == [] then false
    else if strokes[0].selected then true
    else
      var r := AnySelected(strokes[1..]);
      assert forall i :: 1 <= i < |strokes| ==> strokes[i] == strokes[1..][i - 1];
      r
  }

  // Event handlers (ink-canvas.js:288-417)

  /** handlePointerDown: a pen, or a mouse with button 0, starts a stroke;
      a touch pointer joins the tap gesture; anything else is ignored. */
  function PointerDown(s: Canvas, e: PointerEvent): Canvas {
    if e.pointerType == Pen || (e.pointerType == Mouse && e.button == 0) then StrokeStarted(s, e)
    else if e.pointerType == Touch then s.(tapPointers := s.tapPointers + [e.pointerId])
    else s
  }

  /** The start of a stroke: anchor and clear the selection, erase with a
      pen eraser or restore the saved mode otherwise, begin the path in the
      resulting context, and track the pointer. */
  function StrokeStarted(s: Canvas, e: PointerEvent): Canvas {
    var s1 := SelectionCleared(s);
    PathBegun(if e.isEraser then TempEraseSet(s1) else RestoredMode(s1), e)
  }

  /** Anchor the selection box and clear the selection with a zero-length selectWithLine. */
  function SelectionCleared(s: Canvas): Canvas {
    Anchored(s).(strokes := Deselected(s.strokes), inkCalls := s.inkCalls + [SelectWithLine(Origin, Origin)])
  }

  /** Begin the path in the current context, hand the point to the ink manager, track the pointer. */
  function PathBegun(s: Canvas, e: PointerEvent): Canvas {
    s.(canvasLog := s.canvasLog + [BeginPathAt(s.context, e.position)],
       inkCalls := s.inkCalls + [ProcessPointerDown(e.position)],
       penID := e.pointerId)
  }

  /** handlePointerMove. */
  function PointerMove(s: Canvas, e: PointerEvent): Canvas {
    if e.pointerId != s.penID then s
    else s.(canvasLog := s.canvasLog + [LineTo(s.context, e.position)],
            inkCalls := s.inkCalls + ForwardedUpdates(e.intermediatePoints))
  }

  /** The part of handlePointerUp and handlePointerOut before rendering:
      release the pointer, finish the path, hand the last point to the ink
      manager, whose strokes are then `inkStrokes`. */
  function StrokeClosed(s: Canvas, e: PointerEvent, inkStrokes: seq<Stroke>): Canvas {
    s.(penID := -1,
       canvasLog := s.canvasLog + [LineTo(s.context, e.position), ClosePath(s.context)],
       inkCalls := s.inkCalls + [ProcessPointerUp(e.position)],
       strokes := inkStrokes)
  }

  /** handlePointerUp; `rect` is what processPointerUp returns, and the
      selection box is placed on it in select mode. */
  function PointerUp(s: Canvas, e: PointerEvent, inkStrokes: seq<Stroke>, rect: Rect): Canvas {
    if e.pointerId != s.penID then s
    else
      var s1 := StrokeClosed(s, e, inkStrokes);
      Rendered(if s1.mode == Selecting then Detached(s1, rect) else s1)
  }

  /** handlePointerOut. */
  function PointerOut(s: Canvas, e: PointerEvent, inkStrokes: seq<Stroke>): Canvas {
    if e.pointerId != s.penID then s else Rendered(StrokeClosed(s, e, inkStrokes))
  }

  /** handleTap: with a selection, anchor the box, clear the selection and re-render. */
  function Tapped(s: Canvas): Canvas {
    if AnySelected(s.strokes) then
      Rendered(SelectionCleared(s))
    else s
  }

  /** handleSelectionBoxGestureChange. Before any detachSelection the box
      has no rect and reading `rect.x` throws: nothing changes (None). */
  function GestureChanged(s: Canvas, dx: real, dy: real): Option<Canvas> {
    if s.boxRect.None? then None else Some(Rendered(SelectionMoved(s, dx, dy)))
  }

  /** The gesture before rendering: the rect and the box's left/top shift by
      the translation, and the ink manager moves the selected strokes. */
  function SelectionMoved(s: Canvas, dx: real, dy: real): Canvas
    requires s.boxRect.Some?
  {
    var r := s.boxRect.value.(x := s.boxRect.value.x + dx, y := s.boxRect.value.y + dy);
    s.(boxRect := Some(r), boxStyle := s.boxStyle.(left := r.x, top := r.y),
       inkCalls := s.inkCalls + [MoveSelected(dx, dy)],
       strokes := Moved(s.strokes, dx, dy))
  }

  // ---------------------------------------------------------------------
  // Properties
  // ---------------------------------------------------------------------

  /** A second saveMode before a restore keeps the first saved values. */
  lemma SaveModeKeepsFirst(s: Canvas)
    ensures WithSavedMode(WithSavedMode(s)) == WithSavedMode(s)
    ensures s.saved.Some? ==> WithSavedMode(s) == s
    ensures s.saved.None? ==> WithSavedMode(s).saved == Some(SavedMode(s.context, StyleOf(s, s.context), s.cursor, s.mode))
  {
  }

  /** restoreMode restores context, its style, cursor and mode, and empties
      the slot; on an empty slot it changes nothing. */
  lemma RestoreModeRestores(s: Canvas)
    ensures s.saved.None? ==> RestoredMode(s) == s
    ensures s.saved.Some? ==>
      var r := RestoredMode(s);
      && r.context == s.saved.value.context && StyleOf(r, r.context) == s.saved.value.style
      && r.cursor == s.saved.value.cursor && r.mode == s.saved.value.mode && r.saved.None?
  {
  }

  /** tempEraseMode then restoreMode on an empty slot puts back the context,
      its style, the cursor and the mode. Only the selection canvas's style
      can differ: when the ink context was current, it stays transparent. */
  lemma TempEraseThenRestore(s: Canvas)
    requires s.saved.None?
    ensures RestoredMode(TempEraseSet(s)) == if s.context == InkContext then s.(selStyle := EraseStyle) else s
  {
  }

  /** inkMode, selectMode and eraseMode each empty the slot and select their
      context, ink-manager mode and cursor. */
  lemma ModeSettersClearSlot(s: Canvas)
    requires ParsableColor(s.inkStyle)
    ensures var r := InkModeSet(s);
      r.saved.None? && r.context == InkContext && r.mode == Inking && r.cursor == DefaultCursor
    ensures var r := SelectModeSet(s);
      r.saved.None? && r.context == SelectionContext && r.mode == Selecting && r.selStyle == SelPattern
    ensures var r := EraseModeSet(s);
      r.saved.None? && r.context == SelectionContext && r.mode == Erasing && r.cursor == EraseCursor
  {
  }

  /** inkMode's defaults: the ink context's decoded colour with alpha 255, width 2. */
  lemma InkModeDefaults(s: Canvas)
    requires ParsableColor(s.inkStyle)
    ensures InkModeSet(s).defaults == DrawingDefaults(ToColorStruct(s.inkStyle), 2.0)
    ensures InkModeSet(s).defaults.color.a == 255
  {
  }

  /** Only a pen, or a mouse with button 0, starts a stroke and takes penID;
      a touch pointer only joins the tap gesture. */
  lemma PointerDownOnlyForPenOrLeftMouse(s: Canvas, e: PointerEvent)
    ensures (e.pointerType == Pen || (e.pointerType == Mouse && e.button == 0)) ==>
              PointerDown(s, e).penID == e.pointerId
    ensures e.pointerType == Touch ==>
              PointerDown(s, e) == s.(tapPointers := s.tapPointers + [e.pointerId])
    ensures !(e.pointerType == Pen || e.pointerType == Mouse || e.pointerType == Touch) ==> PointerDown(s, e) == s
    ensures e.pointerType == Mouse && e.button != 0 ==> PointerDown(s, e) == s
  {
  }

  /** A pen-eraser pointer-down followed by an ordinary one returns to the
      context, cursor and mode in force before, with the slot empty. */
  lemma EraserRoundTrip(s: Canvas, eraser: PointerEvent, pen: PointerEvent)
    requires s.saved.None? && eraser.pointerType == Pen && eraser.isEraser && pen.pointerType == Pen && !pen.isEraser
    ensures var r := PointerDown(PointerDown(s, eraser), pen);
      && r.context == s.context && StyleOf(r, s.context) == StyleOf(s, s.context)
      && r.cursor == s.cursor && r.mode == s.mode && r.saved.None? && r.penID == pen.pointerId
  {
  }

  /** Move, up and out events from a pointer other than penID change nothing. */
  lemma OtherPointerIgnored(s: Canvas, e: PointerEvent, inkStrokes: seq<Stroke>, rect: Rect)
    requires e.pointerId != s.penID
    ensures PointerMove(s, e) == s && PointerUp(s, e, inkStrokes, rect) == s && PointerOut(s, e, inkStrokes) == s
  {
  }

  /** Up and out from the tracked pointer release it and take the ink manager's strokes. */
  lemma StrokeEndReleasesPointer(s: Canvas, e: PointerEvent, inkStrokes: seq<Stroke>, rect: Rect)
    requires e.pointerId == s.penID
    ensures PointerUp(s, e, inkStrokes, rect).penID == -1 && PointerOut(s, e, inkStrokes).penID == -1
    ensures PointerUp(s, e, inkStrokes, rect).strokes == inkStrokes
    ensures s.mode == Selecting ==> PointerUp(s, e, inkStrokes, rect).boxRect == Some(rect)
    ensures s.mode != Selecting ==> PointerUp(s, e, inkStrokes, rect).boxRect == s.boxRect
  {
  }

  /** A move from the tracked pointer forwards every intermediate point once, oldest first. */
  lemma MoveForwardsOldestFirst(s: Canvas, e: PointerEvent, k: int)
    requires e.pointerId == s.penID && 0 <= k < |e.intermediatePoints|
    ensures var r := PointerMove(s, e);
      && |r.inkCalls| == |s.inkCalls| + |e.intermediatePoints|
      && r.inkCalls[..|s.inkCalls|] == s.inkCalls
      && r.inkCalls[|s.inkCalls| + k] == ProcessPointerUpdate(e.intermediatePoints[|e.intermediatePoints| - 1 - k])
      && r.canvasLog == s.canvasLog + [LineTo(s.context, e.position)]
      && r == s.(canvasLog := r.canvasLog, inkCalls := r.inkCalls)
  {
    ForwardedUpdateAt(e.intermediatePoints, k);
  }

  /** A tap with nothing selected changes nothing; with a selection, it
      leaves every stroke unselected. */
  lemma TapDeselects(s: Canvas)
    ensures !AnySelected(s.strokes) ==> Tapped(s) == s
    ensures AnySelected(s.strokes) ==> !AnySelected(Tapped(s).strokes) && |Tapped(s).strokes| == |s.strokes|
  {
    if AnySelected(s.strokes) {
      var r := Tapped(s).strokes;
      assert forall i :: 0 <= i < |r| ==> !r[i].selected;
    }
  }

  /** The gesture moves the box's rect and its left/top by exactly the
      translation, and moves the selected strokes by the same offset. */
  lemma GestureShiftsExactly(s: Canvas, dx: real, dy: real)
    requires s.boxRect.Some?
    ensures var r := GestureChanged(s, dx, dy);
      && r.Some?
      && r.value.boxRect == Some(Rect(s.boxRect.value.x + dx, s.boxRect.value.y + dy,
                                      s.boxRect.value.width, s.boxRect.value.height))
      && r.value.boxStyle.left == s.boxRect.value.x + dx && r.value.boxStyle.top == s.boxRect.value.y + dy
      && r.value.strokes == Moved(s.strokes, dx, dy)
  {
  }

  /** Before any rect was detached the gesture changes nothing. */
  lemma GestureWithoutRect(s: Canvas, dx: real, dy: real)
    requires s.boxRect.None?
    ensures GestureChanged(s, dx, dy).None?
  {
  }

  /** Two gestures add up: moving by (dx, dy) and then by (-dx, -dy) puts
      the box and the strokes back where they were. */
  lemma GestureThereAndBack(s: Canvas, dx: real, dy: real)
    requires s.boxRect.Some?
    ensures var r1 := GestureChanged(s, dx, dy);
      r1.Some? && GestureChanged(r1.value, -dx, -dy).Some?
    ensures var r2 := GestureChanged(GestureChanged(s, dx, dy).value, -dx, -dy).value;
      r2.boxRect == s.boxRect && r2.strokes == s.strokes
  {
    var r1 := GestureChanged(s, dx, dy).value;
    GestureKeepsBoxAndStrokes(s, dx, dy);
    GestureKeepsBoxAndStrokes(r1, -dx, -dy);
    var b, b1 := s.boxRect.value, r1.boxRect.value;
    assert b1 == b.(x := b.x + dx, y := b.y + dy);
    assert b1.(x := b1.x + -dx, y := b1.y + -dy) == b;
    MovedThereAndBack(s.strokes, dx, dy);
  }

  /** The rendering after a gesture leaves the box and strokes the move produced. */
  lemma GestureKeepsBoxAndStrokes(s: Canvas, dx: real, dy: real)
    requires s.boxRect.Some?
    ensures var r := GestureChanged(s, dx, dy);
      && r.Some? && r.value.strokes == Moved(s.strokes, dx, dy)
      && r.value.boxRect == Some(s.boxRect.value.(x := s.boxRect.value.x + dx, y := s.boxRect.value.y + dy))
  {
  }

  /** anchorSelection zeroes the box and keeps the rect; detachSelection puts the box exactly on the rect. */
  lemma AnchorAndDetach(s: Canvas, rect: Rect)
    ensures Anchored(s).boxStyle == BoxStyle(0.0, 0.0, 0.0, 0.0) && Anchored(s).boxRect == s.boxRect
    ensures var r := Detached(s, rect);
      r.boxRect == Some(rect) && r.boxStyle == BoxStyle(rect.x, rect.y, rect.width, rect.height)
  {
  }

  /** Rendering two runs of strokes is rendering the first, then the second:
      the draws come in stroke order. */
  lemma {:induction false} RenderedDrawsAppend(a: seq<Stroke>, b: seq<Stroke>)
    ensures RenderedDraws(a + b) == RenderedDraws(a) + RenderedDraws(b)
  {
    if b == [] {
      assert a + b == a;
    } else {
      var n := |b| - 1;
      var front, last := b[..n], b[n];
      Seqs.AppendLast(a, b);
      Seqs.Unsnoc(b);
      RenderedDrawsAppend(a, front);
      RenderedDrawsSnoc(a + front, last);
      RenderedDrawsSnoc(front, last);
      Seqs.Assoc(RenderedDraws(a), RenderedDraws(front), DrawsOf(last));
    }
  }

  /** One more stroke rendered: its draws come after those of the strokes before it. */
  lemma RenderedDrawsSnoc(strokes: seq<Stroke>, stroke: Stroke)
    ensures RenderedDraws(strokes + [stroke]) == RenderedDraws(strokes) + DrawsOf(stroke)
  {
    Seqs.DropLast(strokes, stroke);
  }

  /** Each selected stroke is drawn twice and each unselected stroke once. */
  lemma {:induction false} RenderedDrawsCount(strokes: seq<Stroke>)
    ensures |RenderedDraws(strokes)| == |strokes| + SelectedCount(strokes)
  {
    if strokes != [] {
      RenderedDrawsCount(strokes[..|strokes| - 1]);
    }
  }

  /** The draws of stroke k sit between those of the strokes before it and those after it. */
  lemma RenderedDrawsAt(strokes: seq<Stroke>, k: int)
    requires 0 <= k < |strokes|
    ensures RenderedDraws(strokes) == RenderedDraws(strokes[..k]) + DrawsOf(strokes[k]) + RenderedDraws(strokes[k + 1..])
  {
    Seqs.SplitAround(strokes, k);
    RenderedDrawsAppend(strokes[..k] + [strokes[k]], strokes[k + 1..]);
    RenderedDrawsAppend(strokes[..k], [strokes[k]]);
    RenderedDrawsSingle(strokes[k]);
  }

  lemma RenderedDrawsSingle(stroke: Stroke)
    ensures RenderedDraws([stroke]) == DrawsOf(stroke)
  {
    assert [stroke][..0] == [];
  }

  /** Every step keeps the invariant. */
  lemma ModeStepsPreserveInv(s: Canvas)
    requires Inv(s)
    ensures Inv(ClearedMode(s)) && Inv(WithSavedMode(s)) && Inv(RestoredMode(s))
    ensures Inv(InkModeSet(s)) && Inv(SelectModeSet(s)) && Inv(EraseModeSet(s)) && Inv(TempEraseSet(s))
  {
  }

  /** Every event handler keeps the invariant. */
  lemma HandlersPreserveInv(s: Canvas, e: PointerEvent, inkStrokes: seq<Stroke>, rect: Rect, dx: real, dy: real)
    requires Inv(s)
    ensures Inv(PointerDown(s, e)) && Inv(PointerMove(s, e))
    ensures Inv(PointerUp(s, e, inkStrokes, rect)) && Inv(PointerOut(s, e, inkStrokes))
    ensures Inv(Tapped(s)) && (GestureChanged(s, dx, dy).Some? ==> Inv(GestureChanged(s, dx, dy).value))
  {
  }

  // ---------------------------------------------------------------------
  // The object
  // ---------------------------------------------------------------------

  class InkCanvas {
    var context: Ctx
    var inkStyle: Style
    var selStyle: Style
    var cursor: string
    var mode: InkMode
    var saved: Option<SavedMode>
    var defaults: DrawingDefaults
    var penID: int
    var boxRect: Option<Rect>
    var boxStyle: BoxStyle
    var strokes: seq<Stroke>
    var inkCalls: seq<InkCall>
    var canvasLog: seq<DrawCall>
    var tapPointers: seq<int>
    var boxPointers: seq<int>

    /** The object's state as a Canvas value. */
    ghost function Snapshot(): Canvas
      reads this
    {
      Canvas(context, inkStyle, selStyle, cursor, mode, saved, defaults, penID, boxRect, boxStyle,
             strokes, inkCalls, canvasLog, tapPointers, boxPointers)
    }

    ghost predicate Valid()
      reads this
    {
      Inv(Snapshot())
    }

    /** new InkCanvas() followed by initializeInk(). */
    constructor ()
      ensures Valid() && Snapshot() == Initialized()
    {
      context, inkStyle, selStyle, cursor := InkContext, InitialInkStyle, InitialSelStyle, DefaultCursor;
      mode, saved := Inking, None;
      defaults := DrawingDefaults(ToColorStruct(InitialInkStyle).(a := 255), LineWidth(InkContext));
      penID, boxRect, boxStyle := -1, None, ZeroBox;
      strokes, inkCalls, canvasLog, tapPointers, boxPointers := [], [], [], [], [];
    }

    method ClearMode()
      requires Valid()
      modifies this
      ensures Valid()
      ensures Snapshot() == ClearedMode(old(Snapshot()))
    {
      saved := None;
    }

    method SaveMode()
      requires Valid()
      modifies this
      ensures Valid()
      ensures Snapshot() == WithSavedMode(old(Snapshot()))
    {
      if saved.None? {
        var style := if context == InkContext then inkStyle else selStyle;
        saved := Some(SavedMode(context, style, cursor, mode));
      }
    }

    method RestoreMode()
      requires Valid()
      modifies this
      ensures Valid()
      ensures Snapshot() == RestoredMode(old(Snapshot()))
    {
      if saved.Some? {
        var m := saved.value;
        ghost var r := RestoredMode(Snapshot());
        context := m.context;
        if m.context == InkContext {
          inkStyle := m.style;
        } else {
          selStyle := m.style;
        }
        mode := m.mode;
        cursor := m.cursor;
        saved := None;
        assert Snapshot() == r;
      }
    }

    method InkMode()
      requires Valid()
      modifies this
      ensures Valid()
      ensures Snapshot() == InkModeSet(old(Snapshot()))
    {
      ghost var s1 := ClearedMode(Snapshot()).(context := InkContext, mode := Inking);
      ClearMode();
      context := InkContext;
      mode := Inking;
      assert Snapshot() == s1;
      SetDefaults();
      cursor := DefaultCursor;
    }

    method SelectMode()
      requires Valid()
      modifies this
      ensures Valid()
      ensures Snapshot() == SelectModeSet(old(Snapshot()))
    {
      ClearMode();
      selStyle := SelPattern;
      context := SelectionContext;
      mode := Selecting;
      cursor := DefaultCursor;
    }

    method EraseMode()
      requires Valid()
      modifies this
      ensures Valid()
      ensures Snapshot() == EraseModeSet(old(Snapshot()))
    {
      ClearMode();
      selStyle := EraseStyle;
      context := SelectionContext;
      mode := Erasing;
      cursor := EraseCursor;
    }

    method TempEraseMode()
      requires Valid()
      modifies this
      ensures Valid()
      ensures Snapshot() == TempEraseSet(old(Snapshot()))
    {
      SaveMode();
      selStyle := EraseStyle;
      context := SelectionContext;
      mode := Erasing;
      cursor := EraseCursor;
    }

    method SetDefaults()
      requires Valid()
      modifies this
      ensures Valid()
      ensures Snapshot() == WithDefaults(old(Snapshot()))
    {
      var style := if context == InkContext then inkStyle else selStyle;
      var color := ToColorStruct(style);
      color := color.(a := 255);
      defaults := DrawingDefaults(color, LineWidth(context));
    }

    method AnchorSelection()
      requires Valid()
      modifies this
      ensures Valid()
      ensures Snapshot() == Anchored(old(Snapshot()))
    {
      boxStyle := ZeroBox;
    }

    method DetachSelection(rect: Rect)
      requires Valid()
      modifies this
      ensures Valid()
      ensures Snapshot() == Detached(old(Snapshot()), rect)
    {
      boxRect := Some(rect);
      boxStyle := BoxStyle(rect.x, rect.y, rect.width, rect.height);
    }

    method HandlePointerDown(e: PointerEvent)
      requires Valid()
      modifies this
      ensures Valid()
      ensures Snapshot() == PointerDown(old(Snapshot()), e)
    {
      if e.pointerType == Pen || (e.pointerType == Mouse && e.button == 0) {
        StartStroke(e);
      } else if e.pointerType == Touch {
        tapPointers := tapPointers + [e.pointerId];
      }
    }

    /** The pen and left-mouse branch of handlePointerDown. */
    method StartStroke(e: PointerEvent)
      requires Valid()
      modifies this
      ensures Valid()
      ensures Snapshot() == StrokeStarted(old(Snapshot()), e)
    {
      ClearSelection();
      if e.isEraser {
        TempEraseMode();
      } else {
        RestoreMode();
      }
      BeginPath(e);
    }

    /** anchorSelection, then a zero-length selectWithLine that clears the selection. */
    method ClearSelection()
      requires Valid()
      modifies this
      ensures Valid()
      ensures Snapshot() == SelectionCleared(old(Snapshot()))
    {
      AnchorSelection();
      strokes := Deselected(strokes);
      inkCalls := inkCalls + [SelectWithLine(Origin, Origin)];
    }

    /** beginPath and moveTo at the event's point, processPointerDown, and penID. */
    method BeginPath(e: PointerEvent)
      requires Valid()
      modifies this
      ensures Valid()
      ensures Snapshot() == PathBegun(old(Snapshot()), e)
    {
      canvasLog := canvasLog + [BeginPathAt(context, e.position)];
      inkCalls := inkCalls + [ProcessPointerDown(e.position)];
      penID := e.pointerId;
    }

    method HandlePointerMove(e: PointerEvent)
      requires Valid()
      modifies this
      ensures Valid()
      ensures Snapshot() == PointerMove(old(Snapshot()), e)
    {
      if e.pointerId == penID {
        canvasLog := canvasLog + [LineTo(context, e.position)];
        var forwarded := ForwardIntermediatePoints(e.intermediatePoints);
        inkCalls := inkCalls + forwarded;
      }
    }

    /** `inkStrokes` and `rect` are the ink manager's strokes and the
        bounding rectangle once processPointerUp returns. */
    method HandlePointerUp(e: PointerEvent, inkStrokes: seq<Stroke>, rect: Rect)
      requires Valid()
      modifies this
      ensures Valid()
      ensures Snapshot() == PointerUp(old(Snapshot()), e, inkStrokes, rect)
    {
      if e.pointerId == penID {
        ghost var s1 := StrokeClosed(Snapshot(), e, inkStrokes);
        penID := -1;
        canvasLog := canvasLog + [LineTo(context, e.position), ClosePath(context)];
        inkCalls := inkCalls + [ProcessPointerUp(e.position)];
        strokes := inkStrokes;
        assert Snapshot() == s1;
        if mode == Selecting {
          DetachSelection(rect);
        }
        RenderAllStrokes();
      }
    }

    /** `inkStrokes` are the ink manager's strokes once processPointerUp returns. */
    method HandlePointerOut(e: PointerEvent, inkStrokes: seq<Stroke>)
      requires Valid()
      modifies this
      ensures Valid()
      ensures Snapshot() == PointerOut(old(Snapshot()), e, inkStrokes)
    {
      if e.pointerId == penID {
        ghost var s1 := StrokeClosed(Snapshot(), e, inkStrokes);
        canvasLog := canvasLog + [LineTo(context, e.position), ClosePath(context)];
        inkCalls := inkCalls + [ProcessPointerUp(e.position)];
        strokes := inkStrokes;
        penID := -1;
        assert Snapshot() == s1;
        RenderAllStrokes();
      }
    }

    method HandleTap()
      requires Valid()
      modifies this
      ensures Valid()
      ensures Snapshot() == Tapped(old(Snapshot()))
    {
      var any := AnyStrokeSelected(strokes);
      if any {
        ClearSelection();
        RenderAllStrokes();
      }
    }

    /** The scan of anySelected, stopping at the first selected stroke. */
    static method AnyStrokeSelected(strokes: seq<Stroke>) returns (any: bool)
      ensures any == AnySelected(strokes)
    {
      var i := 0;
      while i < |strokes|
        invariant 0 <= i <= |strokes|
        invariant forall k :: 0 <= k < i ==> !strokes[k].selected
      {
        if strokes[i].selected {
          return true;
        }
        i := i + 1;
      }
      return false;
    }

    method HandleSelectionBoxPointerDown(pointerId: int)
      requires Valid()
      modifies this
      ensures Valid()
      ensures Snapshot() == old(Snapshot()).(boxPointers := old(boxPointers) + [pointerId])
    {
      boxPointers := boxPointers + [pointerId];
    }

    /** Returns whether the handler threw because the box has no rect yet;
        if so nothing changed. */
    method HandleSelectionBoxGestureChange(dx: real, dy: real) returns (thrown: bool)
      requires Valid()
      modifies this
      ensures Valid()
      ensures thrown <==> GestureChanged(old(Snapshot()), dx, dy).None?
      ensures thrown ==> Snapshot() == old(Snapshot())
      ensures !thrown ==> Snapshot() == GestureChanged(old(Snapshot()), dx, dy).value
    {
      if boxRect.None? {
        return true;
      }
      thrown := false;
      MoveSelection(dx, dy);
      RenderAllStrokes();
    }

    /** The updates of handleSelectionBoxGestureChange before it re-renders. */
    method MoveSelection(dx: real, dy: real)
      requires boxRect.Some?
      requires Valid()
      modifies this
      ensures Valid()
      ensures Snapshot() == SelectionMoved(old(Snapshot()), dx, dy)
    {
      var r := boxRect.value.(x := boxRect.value.x + dx, y := boxRect.value.y + dy);
      boxRect := Some(r);
      boxStyle := boxStyle.(left := r.x, top := r.y);
      inkCalls := inkCalls + [MoveSelected(dx, dy)];
      strokes := Moved(strokes, dx, dy);
    }

    method RenderAllStrokes()
      requires Valid()
      modifies this
      ensures Valid()
      ensures Snapshot() == Rendered(old(Snapshot()))
    {
      var draws := RenderCalls(strokes);
      canvasLog := canvasLog + [ClearRect(SelectionContext), ClearRect(InkContext)] + draws;
      inkCalls := inkCalls + [RecognizeAll];
    }

    /** The forEach of renderAllStrokes. */
    static method RenderCalls(strokes: seq<Stroke>) returns (draws: seq<DrawCall>)
      ensures draws == RenderedDraws(strokes)
    {
      draws := [];
      for i := 0 to |strokes|
        invariant draws == RenderedDraws(strokes[..i])
      {
        var stroke := strokes[i];
        var color := ToColorString(stroke.color);
        var calls: seq<DrawCall>;
        if stroke.selected {
          calls := [StrokePath(stroke.segments, color, stroke.width * 2.0),
                    StrokePath(stroke.segments, StripeStyle, stroke.width - 1.0)];
        } else {
          calls := [StrokePath(stroke.segments, color, stroke.width)];
        }
        Seqs.TakeOneMore(strokes, i);
        RenderedDrawsSnoc(strokes[..i], stroke);
        draws := draws + calls;
      }
      assert strokes[..|strokes|] == strokes;
    }

    /** The success continuation of find's recognizeAsync. */
    method OnRecognitionResults(results: seq<seq<string>>)
      requires Valid()
      modifies this
      ensures Valid()
      ensures Snapshot() == old(Snapshot()).(inkCalls := old(inkCalls) + [UpdateRecognitionResults(results)])
    {
      inkCalls := inkCalls + [UpdateRecognitionResults(results)];
    }
  }
}
