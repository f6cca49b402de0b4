/** Inky.AutoCanvas (inky.js): a canvas that captures pen, mouse and touch
    strokes through the Windows ink manager, re-renders them, and runs a
    debounced validate-or-clear step over the recogniser's output.

    The closure variables of the source are the fields of class AutoCanvas.
    Session is a value holding the same state; each method of the class is
    proved against a function on Session, and the lemmas about those
    functions state what the source promises across several steps. */
module Inky {
  import opened Options
  import opened Colors
  import opened Ink
  import Seqs
  import opened Recognition

  /** A canvas `strokeStyle`, as the string last assigned to it. */
  type Style = string

  /** inkContext.strokeStyle after initialisation (inky.js:915). */
  const InitialStyle: Style := "Black"
  /** The transparent style of temporary erasing (inky.js:388). */
  const EraseStyle: Style := "rgba(255,255,255,0.0)"
  /** inkContext.lineWidth (inky.js:914). */
  const InkLineWidth: real := 2.0
  /** clearTimeoutDuration when none is configured (inky.js:188). */
  const DefaultClearTimeout: int := 1000
  /** The overlay's font size when none is configured (inky.js:872). */
  const DefaultFontSize: string := "4rem"

  // ---------------------------------------------------------------------
  // Configuration (initializeInk, inky.js:871-897)
  // ---------------------------------------------------------------------

  /** The configuration object of initializeInk. A member that is absent
      or falsy is `false`, 0 or "" here; the dictionary is None when absent. */
  datatype Config = Config(
    errorHandler: bool,
    messageHandler: bool,
    alphabetDictionary: Option<seq<Entry>>,
    recognitionCallback: bool,
    clearTimeoutDuration: int,
    autoConvertHandwritingToText: bool,
    fontSize: string)

  /** The closure variables initializeInk sets, plus the overlay font size. */
  datatype Settings = Settings(
    customErrorHandler: bool,
    customMessageHandler: bool,
    dictionary: Option<seq<Entry>>,
    hasCallback: bool,
    clearTimeoutDuration: int,
    autoConvert: bool,
    fontSize: string)

  /** The closure variables as declared (inky.js:38-223). */
  const InitialSettings := Settings(false, false, None, false, DefaultClearTimeout, false, DefaultFontSize)

  /** initializeInk's handling of its configuration (inky.js:872-896). The
      dictionary and the callback are always overwritten; the handlers, the
      duration and autoconvert only by a truthy value; the font size is
      "4rem" unless a non-empty one is given. */
  function Configure(prev: Settings, configuration: Option<Config>): (r: Settings)
    ensures configuration.None? ==> r == prev.(fontSize := DefaultFontSize)
    ensures configuration.Some? ==>
              var c := configuration.value;
              && r.dictionary == c.alphabetDictionary
              && r.hasCallback == c.recognitionCallback
              && r.customErrorHandler == (prev.customErrorHandler || c.errorHandler)
              && r.customMessageHandler == (prev.customMessageHandler || c.messageHandler)
              && (c.clearTimeoutDuration != 0 ==> r.clearTimeoutDuration == c.clearTimeoutDuration)
              && (c.clearTimeoutDuration == 0 ==> r.clearTimeoutDuration == prev.clearTimeoutDuration)
              && r.autoConvert == (prev.autoConvert || c.autoConvertHandwritingToText)
              && r.fontSize == (if c.fontSize != "" then c.fontSize else DefaultFontSize)
    ensures prev.clearTimeoutDuration != 0 ==> r.clearTimeoutDuration != 0
    ensures r.fontSize != ""
  {
    match configuration
    case None => prev.(fontSize := DefaultFontSize)
    case Some(c) =>
      Settings(
        prev.customErrorHandler || c.errorHandler,
        prev.customMessageHandler || c.messageHandler,
        c.alphabetDictionary,
        c.recognitionCallback,
        if c.clearTimeoutDuration != 0 then c.clearTimeoutDuration else prev.clearTimeoutDuration,
        prev.autoConvert || c.autoConvertHandwritingToText,
        if c.fontSize != "" then c.fontSize else DefaultFontSize)
  }

  /** Configuring twice with the same object is the same as configuring once. */
  lemma ConfigureIdempotent(prev: Settings, configuration: Option<Config>)
    ensures Configure(Configure(prev, configuration), configuration) == Configure(prev, configuration)
  {
  }

  /** With no configuration the defaults stand: no dictionary, no callback,
      a 1000 ms clear delay, no autoconversion, font size "4rem". */
  lemma DefaultsWithoutConfiguration()
    ensures Configure(InitialSettings, None) == InitialSettings
    ensures InitialSettings.clearTimeoutDuration == 1000 && !InitialSettings.autoConvert
  {
  }

  // ---------------------------------------------------------------------
  // Session state
  // ---------------------------------------------------------------------

  /** The depth-1 saved-mode slot: savedStyle and savedMode. savedContext is
      always inkContext in this file, so the slot records only that it is full. */
  datatype SavedMode = SavedMode(style: Style, mode: InkMode)

  /** A message sent through sendNotification. */
  datatype Note = FoundConversion(text: string) | CandidateList(candidates: seq<string>)

  /** The state of one AutoCanvas after initialisation. `pendingClears` are
      the ids of clear timers not yet fired or cancelled, `nextTimer` the
      next id `setTimeout` hands out (ids start at 1, so a queued id is
      truthy). `strokes` are the ink manager's strokes, `inkCalls` the calls
      made on it, `canvasLog` the drawing commands issued. */
  datatype Session = Session(
    inkStyle: Style,
    mode: InkMode,
    saved: Option<SavedMode>,
    defaults: DrawingDefaults,
    penID: int,
    canvasEnabled: bool,
    queuedClear: Option<nat>,
    pendingClears: set<nat>,
    nextTimer: nat,
    strokes: seq<Stroke>,
    inkCalls: seq<InkCall>,
    canvasLog: seq<DrawCall>,
    overlayText: string,
    overlayShown: bool,
    notes: seq<Note>)

  /** What every reachable session satisfies: the styles toColorStruct will
      read are decodable, and timer ids are positive and older than nextTimer. */
  ghost predicate Inv(s: Session) {
    && ParsableColor(s.inkStyle)
    && (s.saved.Some? ==> ParsableColor(s.saved.value.style))
    && 1 <= s.nextTimer
    && (forall t :: t in s.pendingClears ==> 1 <= t < s.nextTimer)
    && (s.queuedClear.Some? ==> 1 <= s.queuedClear.value < s.nextTimer)
  }

  /** The closure variables before initializeInk runs inkMode. */
  const Declared := Session(InitialStyle, Inking, None, DrawingDefaults(NamedColor(Black), InkLineWidth),
                            -1, true, None, {}, 1, [], [], [], "", false, [])

  /** The session once initializeInk has set up the canvas and run inkMode (inky.js:913-943). */
  function Initialized(): (r: Session)
    ensures Inv(r) && r.mode == Inking && r.saved.None? && r.penID == -1 && r.canvasEnabled
    ensures r.defaults == DrawingDefaults(NamedColor(Black), InkLineWidth)
  {
    InkModeSet(Declared)
  }

  // Mode functions (inky.js:329-413)

  /** clearMode: empty the saved slot. */
  function ClearedMode(s: Session): (r: Session)
  {
    s.(saved := None)
  }

  /** saveMode: fill the slot with the current style and mode, only if it is empty. */
  function WithSavedMode(s: Session): (r: Session)
  {
    if s.saved.None? then s.(saved := Some(SavedMode(s.inkStyle, s.mode))) else s
  }

  /** restoreMode: put back the saved style and mode and empty the slot; nothing when empty. */
  function RestoredMode(s: Session): (r: Session)
  {
    if s.saved.Some? then s.(inkStyle := s.saved.value.style, mode := s.saved.value.mode, saved := None) else s
  }

  /** setDefaults: default width from the context's line width, default
      colour decoded from its stroke style. */
  function WithDefaults(s: Session): (r: Session)
    requires ParsableColor(s.inkStyle)
    ensures r.defaults.color.a == 255
  {
    s.(defaults := DrawingDefaults(ToColorStruct(s.inkStyle), InkLineWidth))
  }

  /** inkMode: empty the slot, switch the ink manager to inking, set the defaults. */
  function InkModeSet(s: Session): (r: Session)
    requires ParsableColor(s.inkStyle)
  {
    WithDefaults(ClearedMode(s).(mode := Inking))
  }

  /** tempEraseMode: save the mode, then erase with a transparent style. */
  function TempEraseSet(s: Session): (r: Session)
  {
    WithSavedMode(s).(inkStyle := EraseStyle, mode := Erasing)
  }

  /** resetClearQueue (inky.js:635-640): cancel the queued clear timer, if any, and forget it. */
  function ClearQueueReset(s: Session): (r: Session)
  {
    if s.queuedClear.Some? then
      s.(pendingClears := s.pendingClears - {s.queuedClear.value}, queuedClear := None)
    else s
  }

  // Pointer events (inky.js:425-545)

  /** handlePointerDown: ignored while disabled; otherwise the clear queue
      is reset, and a button-0 press starts a stroke. */
  function PointerDown(s: Session, e: PointerEvent): (r: Session)
  {
    if !s.canvasEnabled then s
    else
      var s1 := ClearQueueReset(s);
      if e.button != 0 then s1 else StrokeStarted(s1, e)
  }

  /** The start of a stroke: deselect everything, erase with a pen eraser or
      restore the saved mode otherwise, begin the path, and track the pointer. */
  function StrokeStarted(s: Session, e: PointerEvent): (r: Session)
  {
    var s1 := SelectionCleared(s);
    PathBegun(if e.isEraser then TempEraseSet(s1) else RestoredMode(s1), e)
  }

  /** The zero-length selectWithLine, which clears the selection. */
  function SelectionCleared(s: Session): Session {
    s.(strokes := Deselected(s.strokes), inkCalls := s.inkCalls + [SelectWithLine(Origin, Origin)])
  }

  /** Begin the path at the event's point, hand the point to the ink manager, track the pointer. */
  function PathBegun(s: Session, e: PointerEvent): Session {
    s.(canvasLog := s.canvasLog + [BeginPathAt(InkContext, e.position)],
       inkCalls := s.inkCalls + [ProcessPointerDown(e.position)],
       penID := e.pointerId)
  }

  /** handlePointerMove. */
  function PointerMove(s: Session, e: PointerEvent): (r: Session)
  {
    if !s.canvasEnabled || e.pointerId != s.penID then s
    else s.(canvasLog := s.canvasLog + [LineTo(InkContext, e.position)],
            inkCalls := s.inkCalls + ForwardedUpdates(e.intermediatePoints))
  }

  /** handlePointerUp and handlePointerOut, which reach the same state:
      finish the path, hand the last point to the ink manager (whose strokes
      are then `inkStrokes`), release the pointer and re-render with
      recognition. */
  function StrokeEnded(s: Session, e: PointerEvent, inkStrokes: seq<Stroke>): (r: Session)
  {
    if !s.canvasEnabled || e.pointerId != s.penID then s
    else Rendered(s.(penID := -1,
                     canvasLog := s.canvasLog + [LineTo(InkContext, e.position), ClosePath(InkContext)],
                     inkCalls := s.inkCalls + [ProcessPointerUp(e.position)],
                     strokes := inkStrokes), false)
  }

  // Rendering, recognition and clearing (inky.js:556-703, 790-835)

  /** The renderStroke call for one stroke: its own colour and width. */
  function StrokeDraw(stroke: Stroke): DrawCall {
    StrokePath(stroke.segments, ToColorString(stroke.color), stroke.width)
  }

  /** The renderStroke calls of renderAllStrokes: every stroke once, in order. */
  function StrokeDraws(strokes: seq<Stroke>): seq<DrawCall> {
    if strokes == [] then [] else StrokeDraws(strokes[..|strokes| - 1]) + [StrokeDraw(strokes[|strokes| - 1])]
  }

  /** renderAllStrokes issues exactly one renderStroke per stroke. */
  lemma {:induction false} StrokeDrawsLength(strokes: seq<Stroke>)
    ensures |StrokeDraws(strokes)| == |strokes|
  {
    if strokes != [] {
      StrokeDrawsLength(strokes[..|strokes| - 1]);
    }
  }

  /** Rendering two runs of strokes is rendering the first, then the second. */
  lemma {:induction false} StrokeDrawsAppend(a: seq<Stroke>, b: seq<Stroke>)
    ensures StrokeDraws(a + b) == StrokeDraws(a) + StrokeDraws(b)
  {
    if b == [] {
      assert a + b == a;
    } else {
      var n := |b| - 1;
      var front, last := b[..n], b[n];
      Seqs.AppendLast(a, b);
      Seqs.Unsnoc(b);
      StrokeDrawsAppend(a, front);
      StrokeDrawsSnoc(a + front, last);
      StrokeDrawsSnoc(front, last);
      Seqs.Assoc(StrokeDraws(a), StrokeDraws(front), [StrokeDraw(last)]);
    }
  }

  /** One more stroke rendered: its draw comes after those of the strokes before it. */
  lemma StrokeDrawsSnoc(strokes: seq<Stroke>, stroke: Stroke)
    ensures StrokeDraws(strokes + [stroke]) == StrokeDraws(strokes) + [StrokeDraw(stroke)]
  {
    Seqs.DropLast(strokes, stroke);
  }

  /** The draw of stroke k sits between those of the strokes before and after it. */
  lemma StrokeDrawsAt(strokes: seq<Stroke>, k: int)
    requires 0 <= k < |strokes|
    ensures StrokeDraws(strokes) == StrokeDraws(strokes[..k]) + [StrokeDraw(strokes[k])] + StrokeDraws(strokes[k + 1..])
  {
    Seqs.SplitAround(strokes, k);
    StrokeDrawsAppend(strokes[..k] + [strokes[k]], strokes[k + 1..]);
    StrokeDrawsAppend(strokes[..k], [strokes[k]]);
    assert StrokeDraws([strokes[k]]) == [StrokeDraw(strokes[k])] by {
      assert [strokes[k]][..0] == [];
    }
  }

  /** renderAllStrokes(dontFind). */
  function Rendered(s: Session, dontFind: bool): (r: Session)
  {
    var s1 := s.(canvasLog := s.canvasLog + [ClearRect(InkContext)] + StrokeDraws(s.strokes));
    if dontFind then s1 else Found(s1)
  }

  /** find, up to the asynchronous call: cancel the queued clear and start recognition. */
  function Found(s: Session): (r: Session)
  {
    var s1 := ClearQueueReset(s);
    s1.(inkCalls := s1.inkCalls + [RecognizeAll])
  }

  /** clear: select every stroke, delete the selection, return to ink mode
      and re-render without recognition. */
  function Cleared(s: Session): (r: Session)
    requires ParsableColor(s.inkStyle)
  {
    var s1 := s.(strokes := Unselected(AllSelected(s.strokes)), inkCalls := s.inkCalls + [DeleteSelected]);
    Rendered(InkModeSet(s1), true)
  }

  /** resetCanvas: clear, enable input, hide the overlay. */
  function CanvasReset(s: Session): (r: Session)
    requires ParsableColor(s.inkStyle)
  {
    Cleared(s).(canvasEnabled := true, overlayShown := false)
  }

  /** The CandidateList notes of the no-dictionary branch, one per segment, in order. */
  function ResultNotes(results: seq<seq<string>>): seq<Note> {
    if results == [] then [] else ResultNotes(results[..|results| - 1]) + [CandidateList(results[|results| - 1])]
  }

  /** One note per segment. */
  lemma {:induction false} ResultNotesLength(results: seq<seq<string>>)
    ensures |ResultNotes(results)| == |results|
  {
    if results != [] {
      ResultNotesLength(results[..|results| - 1]);
    }
  }

  /** The i-th note lists the i-th segment's candidates. */
  lemma {:induction false} ResultNotesAt(results: seq<seq<string>>, i: int)
    requires 0 <= i < |results|
    ensures |ResultNotes(results)| == |results| && ResultNotes(results)[i] == CandidateList(results[i])
  {
    var n := |results| - 1;
    ResultNotesLength(results[..n]);
    ResultNotesLength(results);
    if i < n {
      ResultNotesAt(results[..n], i);
      assert results[..n][i] == results[i];
    }
  }

  /** The continuation of find when recognition succeeds (inky.js:656-692).
      `callbackAccepts` is what the recognition callback returns. A match
      whose key is "" is falsy and takes the no-match branch. */
  function Recognized(s: Session, cfg: Settings, results: seq<seq<string>>, callbackAccepts: bool): (r: Session)
    requires ParsableColor(s.inkStyle)
  {
    var s1 := s.(inkCalls := s.inkCalls + [UpdateRecognitionResults(results)]);
    if cfg.dictionary.Some? then
      KeyLookedUp(s1, cfg, CheckForValidRecognitionResults(results, cfg.dictionary.value), callbackAccepts)
    else
      s1.(notes := s1.notes + ResultNotes(results))
  }

  /** The dictionary branch, given checkForValidRecognitionResults' answer. */
  function KeyLookedUp(s: Session, cfg: Settings, found: Option<string>, callbackAccepts: bool): Session
    requires ParsableColor(s.inkStyle)
  {
    if found.Some? && found.value != "" then TextRecognized(s, cfg, found.value, callbackAccepts)
    else ClearQueued(s)
  }

  /** A dictionary key was found: a rejecting callback clears at once;
      otherwise, with autoconversion, the overlay shows the key, input is
      disabled and the strokes are cleared; the key is reported. */
  function TextRecognized(s: Session, cfg: Settings, text: string, callbackAccepts: bool): (r: Session)
    requires ParsableColor(s.inkStyle)
  {
    if cfg.hasCallback && !callbackAccepts then
      ClearQueueReset(Cleared(s))
    else
      var s2 := if cfg.autoConvert
                then Cleared(s.(overlayText := text, overlayShown := true, canvasEnabled := false))
                else s;
      s2.(notes := s2.notes + [FoundConversion(text)])
  }

  /** No key was found: a new clear timer is queued. The earlier one is not
      cancelled, because the `clearTimeout()` at inky.js:684 passes no id. */
  function ClearQueued(s: Session): (r: Session)
  {
    s.(queuedClear := Some(s.nextTimer), pendingClears := s.pendingClears + {s.nextTimer}, nextTimer := s.nextTimer + 1)
  }

  /** A clear timer firing: if it was not cancelled, clear the canvas.
      queuedClear is left as it was. */
  function TimerFired(s: Session, id: nat): (r: Session)
    requires ParsableColor(s.inkStyle)
  {
    if id in s.pendingClears then Cleared(s.(pendingClears := s.pendingClears - {id})) else s
  }

  // ---------------------------------------------------------------------
  // Properties
  // ---------------------------------------------------------------------

  /** Clearing keeps the session invariant, and so does every step built on it. */
  lemma ClearPreservesInv(s: Session)
    requires Inv(s)
    ensures Inv(Cleared(s)) && Inv(CanvasReset(s))
  {
  }

  /** Pointer-down keeps the session invariant. */
  lemma PointerDownPreservesInv(s: Session, e: PointerEvent)
    requires Inv(s)
    ensures Inv(PointerDown(s, e))
  {
  }

  /** Move, up and out keep the session invariant. */
  lemma PointerMovesPreserveInv(s: Session, e: PointerEvent, inkStrokes: seq<Stroke>)
    requires Inv(s)
    ensures Inv(PointerMove(s, e)) && Inv(StrokeEnded(s, e, inkStrokes))
  {
  }

  /** The recognised-key branch keeps the session invariant. */
  lemma TextRecognizedPreservesInv(s: Session, cfg: Settings, text: string, accepts: bool)
    requires Inv(s)
    ensures Inv(TextRecognized(s, cfg, text, accepts))
  {
    ClearPreservesInv(s);
    ClearPreservesInv(s.(overlayText := text, overlayShown := true, canvasEnabled := false));
  }

  /** The recognition continuation keeps the session invariant: in
      particular a queued clear id is always one setTimeout handed out. */
  lemma RecognitionPreservesInv(s: Session, cfg: Settings, results: seq<seq<string>>, accepts: bool)
    requires Inv(s)
    ensures Inv(Recognized(s, cfg, results, accepts))
  {
    var s1 := s.(inkCalls := s.inkCalls + [UpdateRecognitionResults(results)]);
    if cfg.dictionary.Some? {
      KeyLookedUpPreservesInv(s1, cfg, CheckForValidRecognitionResults(results, cfg.dictionary.value), accepts);
    }
  }

  /** The dictionary branch keeps the session invariant. */
  lemma KeyLookedUpPreservesInv(s: Session, cfg: Settings, found: Option<string>, accepts: bool)
    requires Inv(s)
    ensures Inv(KeyLookedUp(s, cfg, found, accepts))
  {
    if found.Some? && found.value != "" {
      TextRecognizedPreservesInv(s, cfg, found.value, accepts);
    }
  }

  /** A firing clear timer keeps the session invariant. */
  lemma TimerPreservesInv(s: Session, id: nat)
    requires Inv(s)
    ensures Inv(TimerFired(s, id))
  {
    ClearPreservesInv(s.(pendingClears := s.pendingClears - {id}));
  }

  /** A second saveMode before a restore keeps the first saved values. */
  lemma SaveModeKeepsFirst(s: Session)
    ensures WithSavedMode(WithSavedMode(s)) == WithSavedMode(s)
    ensures s.saved.Some? ==> WithSavedMode(s) == s
  {
  }

  /** restoreMode on an empty slot changes nothing. */
  lemma RestoreEmptyIsNoOp(s: Session)
    requires s.saved.None?
    ensures RestoredMode(s) == s
  {
  }

  /** tempEraseMode then restoreMode gives back exactly the state before
      erasing when the slot was empty; when it was full, the earlier saved
      values are the ones restored. */
  lemma TempEraseThenRestore(s: Session)
    ensures s.saved.None? ==> RestoredMode(TempEraseSet(s)) == s
    ensures s.saved.Some? ==> RestoredMode(TempEraseSet(s)) == RestoredMode(s)
  {
  }

  /** inkMode always empties the slot and sets the mode to inking. */
  lemma InkModeResets(s: Session)
    requires ParsableColor(s.inkStyle)
    ensures InkModeSet(s).saved.None? && InkModeSet(s).mode == Inking
    ensures InkModeSet(s).defaults == DrawingDefaults(ToColorStruct(s.inkStyle), InkLineWidth)
    ensures InkModeSet(s).inkStyle == s.inkStyle
  {
  }

  /** While the canvas is disabled every pointer handler leaves the state unchanged. */
  lemma DisabledIgnoresPointers(s: Session, e: PointerEvent, inkStrokes: seq<Stroke>)
    requires !s.canvasEnabled
    ensures PointerDown(s, e) == s && PointerMove(s, e) == s && StrokeEnded(s, e, inkStrokes) == s
  {
  }

  /** Move, up and out events from a pointer other than penID change nothing. */
  lemma OtherPointerIgnored(s: Session, e: PointerEvent, inkStrokes: seq<Stroke>)
    requires e.pointerId != s.penID
    ensures PointerMove(s, e) == s && StrokeEnded(s, e, inkStrokes) == s
  {
  }

  /** Pointer-down first resets the clear queue; with button 0 it records the
      event's pointer as penID, otherwise penID is kept. */
  lemma PointerDownTracksPointer(s: Session, e: PointerEvent)
    requires s.canvasEnabled
    ensures PointerDown(s, e).queuedClear.None?
    ensures s.queuedClear.Some? ==> s.queuedClear.value !in PointerDown(s, e).pendingClears
    ensures PointerDown(s, e).penID == if e.button == 0 then e.pointerId else s.penID
  {
  }

  /** A move from the tracked pointer draws one line and forwards every
      intermediate point once, oldest first, and changes nothing else. */
  lemma MoveForwardsOldestFirst(s: Session, e: PointerEvent, k: int)
    requires s.canvasEnabled && e.pointerId == s.penID && 0 <= k < |e.intermediatePoints|
    ensures var r := PointerMove(s, e);
      && |r.inkCalls| == |s.inkCalls| + |e.intermediatePoints|
      && r.inkCalls[..|s.inkCalls|] == s.inkCalls
      && r.inkCalls[|s.inkCalls| + k] == ProcessPointerUpdate(e.intermediatePoints[|e.intermediatePoints| - 1 - k])
      && r.canvasLog == s.canvasLog + [LineTo(InkContext, e.position)]
      && r == s.(canvasLog := r.canvasLog, inkCalls := r.inkCalls)
  {
    ForwardedUpdateAt(e.intermediatePoints, k);
  }

  /** Up or out from the tracked pointer releases it (penID -1), takes the ink
      manager's strokes, and starts a recognition with no clear queued. */
  lemma StrokeEndReleasesPointer(s: Session, e: PointerEvent, inkStrokes: seq<Stroke>)
    requires s.canvasEnabled && e.pointerId == s.penID
    ensures var r := StrokeEnded(s, e, inkStrokes);
      && r.penID == -1 && r.strokes == inkStrokes && r.queuedClear.None?
      && r.inkCalls == s.inkCalls + [ProcessPointerUp(e.position), RecognizeAll]
  {
  }

  /** A pen-eraser pointer-down followed by an ordinary one restores the
      style and mode in force before the erase, and empties the slot. */
  lemma EraserRoundTrip(s: Session, eraser: PointerEvent, pen: PointerEvent)
    requires s.canvasEnabled && s.saved.None?
    requires eraser.button == 0 && eraser.isEraser && pen.button == 0 && !pen.isEraser
    ensures var r := PointerDown(PointerDown(s, eraser), pen);
      r.inkStyle == s.inkStyle && r.mode == s.mode && r.saved.None? && r.penID == pen.pointerId
  {
  }

  /** After clear there are no strokes, the mode is inking with an empty
      slot, and no recognition was started: the only ink-manager call is
      deleteSelected. Pending timers are untouched. */
  lemma ClearEmptiesCanvas(s: Session)
    requires ParsableColor(s.inkStyle)
    ensures var r := Cleared(s);
      && r.strokes == [] && r.mode == Inking && r.saved.None?
      && r.inkCalls == s.inkCalls + [DeleteSelected]
      && r.queuedClear == s.queuedClear && r.pendingClears == s.pendingClears
      && r.canvasLog == s.canvasLog + [ClearRect(InkContext)]
  {
    SelectAllThenDeleteIsEmpty(s.strokes);
  }

  /** resetCanvas leaves the canvas enabled, the overlay hidden and no strokes. */
  lemma ResetEnables(s: Session)
    requires ParsableColor(s.inkStyle)
    ensures CanvasReset(s).canvasEnabled && !CanvasReset(s).overlayShown && CanvasReset(s).strokes == []
  {
    SelectAllThenDeleteIsEmpty(s.strokes);
  }

  /** After resetClearQueue nothing is queued and the queued timer is no longer pending. */
  lemma ResetClearQueueCancels(s: Session)
    ensures ClearQueueReset(s).queuedClear.None?
    ensures s.queuedClear.Some? ==> ClearQueueReset(s).pendingClears == s.pendingClears - {s.queuedClear.value}
    ensures s.queuedClear.None? ==> ClearQueueReset(s) == s
  {
  }

  /** A no-match result while a clear is already queued leaves BOTH timers
      pending: the earlier one is not cancelled (inky.js:683-686). Two
      overlapping recognitions can therefore schedule two clears. */
  lemma NoMatchKeepsEarlierClear(s: Session, cfg: Settings, results: seq<seq<string>>, accepts: bool)
    requires Inv(s) && s.queuedClear.Some? && s.queuedClear.value in s.pendingClears
    requires cfg.dictionary.Some? && CheckForValidRecognitionResults(results, cfg.dictionary.value).None?
    ensures var r := Recognized(s, cfg, results, accepts);
      && s.queuedClear.value in r.pendingClears
      && r.queuedClear == Some(s.nextTimer) && s.nextTimer in r.pendingClears
      && s.queuedClear.value != s.nextTimer
  {
  }

  /** Starting from no pending clear, two no-match continuations in a row
      leave two distinct clear timers pending. */
  lemma TwoNoMatchesTwoClears(s: Session, cfg: Settings, results: seq<seq<string>>, accepts: bool)
    requires Inv(s) && s.pendingClears == {}
    requires cfg.dictionary.Some? && CheckForValidRecognitionResults(results, cfg.dictionary.value).None?
    ensures |Recognized(Recognized(s, cfg, results, accepts), cfg, results, accepts).pendingClears| == 2
  {
    var r1 := Recognized(s, cfg, results, accepts);
    assert r1.pendingClears == {s.nextTimer};
    var r2 := Recognized(r1, cfg, results, accepts);
    assert r2.pendingClears == {s.nextTimer, s.nextTimer + 1};
  }

  /** A recognised symbol with autoconversion (and a callback that accepts,
      or none): the overlay shows the symbol, input is disabled, the strokes
      are cleared and the symbol is reported. */
  lemma AcceptedSymbolConverts(s: Session, cfg: Settings, results: seq<seq<string>>, accepts: bool, key: string)
    requires ParsableColor(s.inkStyle)
    requires cfg.dictionary.Some? && CheckForValidRecognitionResults(results, cfg.dictionary.value) == Some(key)
    requires key != "" && cfg.autoConvert && (cfg.hasCallback ==> accepts)
    ensures var r := Recognized(s, cfg, results, accepts);
      && !r.canvasEnabled && r.overlayShown && r.overlayText == key && r.strokes == []
      && r.notes == s.notes + [FoundConversion(key)]
  {
    SelectAllThenDeleteIsEmpty(s.strokes);
  }

  /** A recognised symbol the callback rejects clears the canvas at once and
      leaves no clear queued. */
  lemma RejectedSymbolClears(s: Session, cfg: Settings, results: seq<seq<string>>, key: string)
    requires ParsableColor(s.inkStyle)
    requires cfg.dictionary.Some? && CheckForValidRecognitionResults(results, cfg.dictionary.value) == Some(key)
    requires key != "" && cfg.hasCallback
    ensures var r := Recognized(s, cfg, results, false);
      r.strokes == [] && r.queuedClear.None? && r.notes == s.notes && r.mode == Inking
  {
    SelectAllThenDeleteIsEmpty(s.strokes);
  }

  /** Without a dictionary each segment's candidates are reported and nothing else changes but the trace. */
  lemma NoDictionaryReports(s: Session, cfg: Settings, results: seq<seq<string>>, accepts: bool, i: int)
    requires ParsableColor(s.inkStyle) && cfg.dictionary.None? && 0 <= i < |results|
    ensures var r := Recognized(s, cfg, results, accepts);
      && |r.notes| == |s.notes| + |results| && r.notes[|s.notes| + i] == CandidateList(results[i])
      && r.strokes == s.strokes && r.queuedClear == s.queuedClear
  {
    ResultNotesAt(results, i);
  }

  // ---------------------------------------------------------------------
  // The object
  // ---------------------------------------------------------------------

  class AutoCanvas {
    const settings: Settings
    var inkStyle: Style
    var mode: InkMode
    var saved: Option<SavedMode>
    var defaults: DrawingDefaults
    var penID: int
    var canvasEnabled: bool
    var queuedClear: Option<nat>
    var pendingClears: set<nat>
    var nextTimer: nat
    var strokes: seq<Stroke>
    var inkCalls: seq<InkCall>
    var canvasLog: seq<DrawCall>
    var overlayText: string
    var overlayShown: bool
    var notes: seq<Note>

    /** The object's state as a Session value. */
    ghost function Snapshot(): Session
      reads this
    {
      Session(inkStyle, mode, saved, defaults, penID, canvasEnabled, queuedClear, pendingClears,
              nextTimer, strokes, inkCalls, canvasLog, overlayText, overlayShown, notes)
    }

    ghost predicate Valid()
      reads this
    {
      Inv(Snapshot())
    }

    /** new AutoCanvas() followed by initializeInk(configuration). */
    constructor (configuration: Option<Config>)
      ensures settings == Configure(InitialSettings, configuration)
      ensures Valid() && Snapshot() == Initialized()
    {
      settings := Configure(InitialSettings, configuration);
      inkStyle, mode, saved := InitialStyle, Inking, None;
      defaults := DrawingDefaults(ToColorStruct(InitialStyle), InkLineWidth);
      penID, canvasEnabled := -1, true;
      queuedClear, pendingClears, nextTimer := None, {}, 1;
      strokes, inkCalls, canvasLog := [], [], [];
      overlayText, overlayShown, notes := "", false, [];
    }

    method ClearMode()
      requires Valid()
      modifies this
      ensures Valid()
      ensures Snapshot() == ClearedMode(old(Snapshot()))
    {
      saved := None;
    }

    method SaveMode()
      requires Valid()
      modifies this
      ensures Valid()
      ensures Snapshot() == WithSavedMode(old(Snapshot()))
    {
      if saved.None? {
        saved := Some(SavedMode(inkStyle, mode));
      }
    }

    method RestoreMode()
      requires Valid()
      modifies this
      ensures Valid()
      ensures Snapshot() == RestoredMode(old(Snapshot()))
    {
      if saved.Some? {
        inkStyle := saved.value.style;
        mode := saved.value.mode;
        saved := None;
      }
    }

    method SetDefaults()
      requires Valid()
      modifies this
      ensures Valid()
      ensures Snapshot() == WithDefaults(old(Snapshot()))
    {
      defaults := DrawingDefaults(ToColorStruct(inkStyle), InkLineWidth);
    }

    method InkMode()
      requires Valid()
      modifies this
      ensures Valid()
      ensures Snapshot() == InkModeSet(old(Snapshot()))
    {
      ghost var s1 := ClearedMode(Snapshot()).(mode := Inking);
      ClearMode();
      mode := Inking;
      assert Snapshot() == s1;
      SetDefaults();
    }

    method TempEraseMode()
      requires Valid()
      modifies this
      ensures Valid()
      ensures Snapshot() == TempEraseSet(old(Snapshot()))
    {
      SaveMode();
      inkStyle := EraseStyle;
      mode := Erasing;
    }

    method ResetClearQueue()
      requires Valid()
      modifies this
      ensures Valid()
      ensures Snapshot() == ClearQueueReset(old(Snapshot()))
    {
      if queuedClear.Some? {
        pendingClears := pendingClears - {queuedClear.value};
        queuedClear := None;
      }
    }

    method HandlePointerDown(e: PointerEvent)
      requires Valid()
      modifies this
      ensures Valid()
      ensures Snapshot() == PointerDown(old(Snapshot()), e)
    {
      if !canvasEnabled {
        return;
      }
      ResetClearQueue();
      assert Snapshot() == ClearQueueReset(old(Snapshot()));
      if e.button == 0 {
        StartStroke(e);
      }
    }

    /** The button-0 part of handlePointerDown. */
    method StartStroke(e: PointerEvent)
      requires Valid()
      modifies this
      ensures Valid()
      ensures Snapshot() == StrokeStarted(old(Snapshot()), e)
    {
      ClearSelection();
      if e.isEraser {
        TempEraseMode();
      } else {
        RestoreMode();
      }
      BeginPath(e);
    }

    /** Clear the selection with a zero-length selectWithLine. */
    method ClearSelection()
      requires Valid()
      modifies this
      ensures Valid()
      ensures Snapshot() == SelectionCleared(old(Snapshot()))
    {
      strokes := Deselected(strokes);
      inkCalls := inkCalls + [SelectWithLine(Origin, Origin)];
    }

    /** beginPath and moveTo at the event's point, processPointerDown, and penID. */
    method BeginPath(e: PointerEvent)
      requires Valid()
      modifies this
      ensures Valid()
      ensures Snapshot() == PathBegun(old(Snapshot()), e)
    {
      canvasLog := canvasLog + [BeginPathAt(InkContext, e.position)];
      inkCalls := inkCalls + [ProcessPointerDown(e.position)];
      penID := e.pointerId;
    }

    method HandlePointerMove(e: PointerEvent)
      requires Valid()
      modifies this
      ensures Valid()
      ensures Snapshot() == PointerMove(old(Snapshot()), e)
    {
      if !canvasEnabled {
        return;
      }
      if e.pointerId == penID {
        canvasLog := canvasLog + [LineTo(InkContext, e.position)];
        var forwarded := ForwardIntermediatePoints(e.intermediatePoints);
        inkCalls := inkCalls + forwarded;
      }
    }

    /** `inkStrokes` is the ink manager's stroke list once processPointerUp returns. */
    method HandlePointerUp(e: PointerEvent, inkStrokes: seq<Stroke>)
      requires Valid()
      modifies this
      ensures Valid()
      ensures Snapshot() == StrokeEnded(old(Snapshot()), e, inkStrokes)
    {
      if !canvasEnabled {
        return;
      }
      if e.pointerId == penID {
        ghost var s1 := Snapshot().(penID := -1,
                                    canvasLog := canvasLog + [LineTo(InkContext, e.position), ClosePath(InkContext)],
                                    inkCalls := inkCalls + [ProcessPointerUp(e.position)],
                                    strokes := inkStrokes);
        penID := -1;
        canvasLog := canvasLog + [LineTo(InkContext, e.position), ClosePath(InkContext)];
        inkCalls := inkCalls + [ProcessPointerUp(e.position)];
        strokes := inkStrokes;
        assert Snapshot() == s1;
        RenderAllStrokes(false);
      }
    }

    /** `inkStrokes` is the ink manager's stroke list once processPointerUp returns. */
    method HandlePointerOut(e: PointerEvent, inkStrokes: seq<Stroke>)
      requires Valid()
      modifies this
      ensures Valid()
      ensures Snapshot() == StrokeEnded(old(Snapshot()), e, inkStrokes)
    {
      if !canvasEnabled {
        return;
      }
      if e.pointerId == penID {
        ghost var s1 := Snapshot().(penID := -1,
                                    canvasLog := canvasLog + [LineTo(InkContext, e.position), ClosePath(InkContext)],
                                    inkCalls := inkCalls + [ProcessPointerUp(e.position)],
                                    strokes := inkStrokes);
        canvasLog := canvasLog + [LineTo(InkContext, e.position), ClosePath(InkContext)];
        inkCalls := inkCalls + [ProcessPointerUp(e.position)];
        strokes := inkStrokes;
        penID := -1;
        assert Snapshot() == s1;
        RenderAllStrokes(false);
      }
    }

    method RenderAllStrokes(dontFind: bool)
      requires Valid()
      modifies this
      ensures Valid()
      ensures Snapshot() == Rendered(old(Snapshot()), dontFind)
    {
      var draws := DrawCalls(strokes);
      ghost var s1 := Snapshot().(canvasLog := canvasLog + [ClearRect(InkContext)] + draws);
      canvasLog := canvasLog + [ClearRect(InkContext)] + draws;
      assert Snapshot() == s1;
      if !dontFind {
        Find();
      }
    }

    /** The loop of renderAllStrokes: renderStroke for each stroke in turn. */
    static method DrawCalls(strokes: seq<Stroke>) returns (draws: seq<DrawCall>)
      ensures draws == StrokeDraws(strokes)
    {
      draws := [];
      var i := 0;
      while i < |strokes|
        invariant 0 <= i <= |strokes|
        invariant draws == StrokeDraws(strokes[..i])
      {
        draws := draws + [StrokeDraw(strokes[i])];
        Seqs.TakeOneMore(strokes, i);
        StrokeDrawsSnoc(strokes[..i], strokes[i]);
        i := i + 1;
      }
      assert strokes[..i] == strokes;
    }

    method SelectAllStrokes()
      requires Valid()
      modifies this
      ensures Valid()
      ensures Snapshot() == old(Snapshot()).(strokes := AllSelected(old(strokes)))
    {
      var i := 0;
      while i < |strokes|
        invariant 0 <= i <= |strokes| == |old(strokes)|
        invariant forall k :: 0 <= k < i ==> strokes[k] == old(strokes)[k].(selected := true)
        invariant forall k :: i <= k < |strokes| ==> strokes[k] == old(strokes)[k]
        invariant Snapshot() == old(Snapshot()).(strokes := strokes)
      {
        strokes := strokes[i := strokes[i].(selected := true)];
        i := i + 1;
      }
    }

    method Find()
      requires Valid()
      modifies this
      ensures Valid()
      ensures Snapshot() == Found(old(Snapshot()))
    {
      ResetClearQueue();
      inkCalls := inkCalls + [RecognizeAll];
    }

    /** The success continuation of find's recognizeAsync. */
    method OnRecognitionResults(results: seq<seq<string>>, callbackAccepts: bool)
      requires Valid()
      modifies this
      ensures Valid()
      ensures Snapshot() == Recognized(old(Snapshot()), settings, results, callbackAccepts)
    {
      ghost var s1 := Snapshot().(inkCalls := inkCalls + [UpdateRecognitionResults(results)]);
      inkCalls := inkCalls + [UpdateRecognitionResults(results)];
      assert Snapshot() == s1;
      if settings.dictionary.Some? {
        var recognizedText := CheckForValidRecognitionResults(results, settings.dictionary.value);
        LookUpKey(recognizedText, callbackAccepts);
      } else {
        ReportCandidates(results);
      }
    }

    /** The dictionary branch of the continuation. */
    method LookUpKey(recognizedText: Option<string>, callbackAccepts: bool)
      requires Valid()
      modifies this
      ensures Valid()
      ensures Snapshot() == KeyLookedUp(old(Snapshot()), settings, recognizedText, callbackAccepts)
    {
      if recognizedText.Some? && recognizedText.value != "" {
        OnRecognizedText(recognizedText.value, callbackAccepts);
      } else {
        QueueClear();
      }
    }

    /** The branch of a recognised dictionary key. */
    method OnRecognizedText(text: string, callbackAccepts: bool)
      requires Valid()
      modifies this
      ensures Valid()
      ensures Snapshot() == TextRecognized(old(Snapshot()), settings, text, callbackAccepts)
    {
      if settings.hasCallback && !callbackAccepts {
        RejectText();
        return;
      }
      if settings.autoConvert {
        ConvertText(text);
      }
      notes := notes + [FoundConversion(text)];
    }

    /** A key the callback rejects: clear at once and forget any queued clear. */
    method RejectText()
      requires Valid()
      modifies this
      ensures Valid()
      ensures Snapshot() == ClearQueueReset(Cleared(old(Snapshot())))
    {
      Clear();
      ResetClearQueue();
    }

    /** Autoconversion: show the key on the overlay, disable input, clear the strokes. */
    method ConvertText(text: string)
      requires Valid()
      modifies this
      ensures Valid()
      ensures Snapshot() == Cleared(old(Snapshot()).(overlayText := text, overlayShown := true, canvasEnabled := false))
    {
      ghost var s1 := Snapshot().(overlayText := text, overlayShown := true, canvasEnabled := false);
      overlayText, overlayShown := text, true;
      canvasEnabled := false;
      assert Snapshot() == s1;
      Clear();
    }

    /** The no-match branch: a fresh clear timer is scheduled. The
        `clearTimeout()` before it passes no id and cancels nothing. */
    method QueueClear()
      requires Valid()
      modifies this
      ensures Valid()
      ensures Snapshot() == ClearQueued(old(Snapshot()))
    {
      pendingClears := pendingClears + {nextTimer};
      queuedClear := Some(nextTimer);
      nextTimer := nextTimer + 1;
    }

    /** The no-dictionary branch: one sendNotification per segment. */
    method ReportCandidates(results: seq<seq<string>>)
      requires Valid()
      modifies this
      ensures Valid()
      ensures Snapshot() == old(Snapshot()).(notes := old(notes) + ResultNotes(results))
    {
      var reported := CandidateNotes(results);
      notes := notes + reported;
    }

    /** The loop of the no-dictionary branch. */
    static method CandidateNotes(results: seq<seq<string>>) returns (reported: seq<Note>)
      ensures reported == ResultNotes(results)
    {
      reported := [];
      for i := 0 to |results|
        invariant reported == ResultNotes(results[..i])
      {
        reported := reported + [CandidateList(results[i])];
        assert results[..i + 1][..i] == results[..i];
      }
      assert results[..|results|] == results;
    }

    /** The callback of a clear timer. */
    method OnClearTimer(id: nat)
      requires Valid()
      modifies this
      ensures Valid()
      ensures Snapshot() == TimerFired(old(Snapshot()), id)
    {
      if id in pendingClears {
        ghost var s1 := Snapshot().(pendingClears := pendingClears - {id});
        pendingClears := pendingClears - {id};
        assert Snapshot() == s1;
        Clear();
      }
    }

    method Clear()
      requires Valid()
      modifies this
      ensures Valid()
      ensures Snapshot() == Cleared(old(Snapshot()))
    {
      SelectAllStrokes();
      ghost var s1 := Snapshot().(strokes := Unselected(strokes), inkCalls := inkCalls + [DeleteSelected]);
      strokes := Unselected(strokes);
      inkCalls := inkCalls + [DeleteSelected];
      assert Snapshot() == s1;
      InkMode();
      assert Snapshot() == InkModeSet(s1);
      RenderAllStrokes(true);
    }

    method SetCanvasEnabled(value: bool)
      requires Valid()
      modifies this
      ensures Valid()
      ensures Snapshot() == old(Snapshot()).(canvasEnabled := value)
    {
      canvasEnabled := value;
    }

    method GetCanvasEnabled() returns (enabled: bool)
      ensures enabled == canvasEnabled
    {
      enabled := canvasEnabled;
    }

    method ResetCanvas()
      requires Valid()
      modifies this
      ensures Valid()
      ensures Snapshot() == CanvasReset(old(Snapshot()))
    {
      Clear();
      SetCanvasEnabled(true);
      overlayShown := false;
    }
  }
}
