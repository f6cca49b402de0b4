# InkCanvas in Dafny

A model of the two canvas controls of jjulik/InkCanvas:

- `Inky.AutoCanvas` (inky.js). This canvas captures pen, mouse and touch strokes through the Windows ink manager and re-renders them. After every stroke it runs handwriting recognition. If a recognised candidate is a variant of a key of the conversion dictionary, the key is reported. Optionally the key is also shown as text and the ink is cleared. Otherwise a clear is queued on a timer.
- `InkCanvas` (ink-canvas.js). This is the earlier variant. It has ink, select and erase modes, a saved cursor, tap-to-deselect and a movable selection box.

Both controls hold a small state machine behind their event handlers. It has four parts:

- a current mode with a depth-1 saved-mode slot;
- the single pointer id `penID`, which gates move, up and out events;
- the `canvasEnabled` flag (inky.js);
- the pending-clear timer `queuedClear` (inky.js).

Each control is a Dafny `class` whose fields are the source's closure variables (inky.js) or `self.*` fields (ink-canvas.js). A ghost `Snapshot()` reads the fields into a value: `Session` for `AutoCanvas`, `Canvas` for `InkCanvas`. Every method is proved to move the snapshot by a pure transition function: `ensures Snapshot() == PointerDown(old(Snapshot()), e)`. Every method that changes the fields also requires and keeps `Valid()`, which is the invariant `Inv` of the snapshot: every colour string `toColorStruct` may be given can be decoded. The constructors establish it. The lemmas about those functions state what the source promises across one or several events.

Loops stay loops:

- the count-down over a pointer event's intermediate points;
- `selectAllStrokes`;
- the render loops;
- the `anySelected` scan;
- the loop that sends one notification per segment.

Each loop sits in a method proved against a function. The function is recursive, except for `selectAllStrokes`, whose function `AllSelected` is a sequence comprehension.

The Windows ink manager, the recogniser and the 2D canvases are not modelled as objects. Instead the model keeps three pieces of state:

- `strokes`: the ink manager's strokes, each with a `selected` flag;
- `inkCalls`: a trace of the ink manager's stroke-changing and recognition calls (`selectWithLine`, the three `processPointer…` calls, `deleteSelected`, `moveSelected`, `recognize…`, `updateRecognitionResults`). `setDefaultDrawingAttributes` is the `defaults` field, the `inkManager.mode` writes are the `mode` field, and `getStrokes()` is a read of `strokes`;
- `canvasLog`: a log of the drawing commands issued on the canvases.

A call's result that the handlers consume is a parameter of the handler. These are the strokes and bounding rectangle after `processPointerUp`, the recognition results, and the recognition callback's answer.

Modules: `Options` (an `Option` type), `Colors` (`byteHex`, `toColorString`, `toColorStruct`; the text is the same in both files), `Recognition` (`checkForValidRecognitionResults`), `Ink` (shared vocabulary and the intermediate-point forwarding), `Inky`, `InkCanvas`, and `Seqs` (sequence slicing facts used by the proofs).

Timers are modelled as ids:

- `setTimeout` hands out ids `1, 2, …` from `nextTimer`.
- `pendingClears` is the set of timers not yet fired or cancelled.
- `queuedClear` is the id the code remembers.

The no-match branch of `find` calls `clearTimeout()` with no argument (inky.js:684). That call cancels nothing, so two overlapping no-match results leave two clears pending. `Inky.NoMatchKeepsEarlierClear` and `Inky.TwoNoMatchesTwoClears` state this. Only `resetClearQueue` really cancels. The comment on `queuedClear` (inky.js:169-171) says it keeps track of whether clear was already called. The code does not keep the pending clears to one; the model follows the code.

## Model

| member | source | states |
|---|---|---|
| Colors.ByteHex | inky.js:244-252 | for every byte, exactly two lower-case hexadecimal digits whose value is the byte (zero-padded when `toString(16)` gives one digit) |
| Colors.ToHex | inky.js:246 | `n.toString(16)` is a non-empty string of lower-case hex digits denoting n, one digit exactly when n < 16 and two for 16..255 |
| Colors.ToColorString | inky.js:262-265 | `"#"` followed by six lower-case hex digits whose pairs denote r, g and b of the colour |
| Colors.NameOf | inky.js:279-305 | the names the switch recognises; gray is never one of them, and no name begins with `#` |
| Colors.NamedColor | inky.js:282-304 | every named colour constant is opaque (alpha 255) |
| Colors.ToColorStruct | inky.js:277-316 | the decoded colour always has alpha 255 |
| Colors.ColorStringRoundTrip | inky.js:262-316 | `toColorStruct(toColorString(c))` recovers c's red, green and blue with alpha 255 |
| Colors.HexColorRoundTrip | inky.js:307-313 | `toColorString(toColorStruct(s))` for a `#rrggbb` string gives back the same six digits in lower case |
| Colors.DecodeHexColor | inky.js:307-313 | a `#rrggbb` string is not a colour name and decodes digit pair by digit pair with alpha 255 |
| Colors.GrayFallback | inky.js:315 | a string that is neither a listed name nor a seven-character `#` form gives gray |
| Colors.ByteHexOfDigits | inky.js:244-252 | byteHex of the value of two hex digits gives those digits in lower case |
| Recognition.KeyFor | inky.js:719-725 | for one candidate: None exactly when no entry lists it; otherwise the key of the first entry that lists it |
| Recognition.KeyForCandidates | inky.js:718-726 | for one segment: None exactly when no candidate has a key; otherwise the key of the first candidate that has one |
| Recognition.CheckForValidRecognitionResults | inky.js:714-729 | null exactly when no segment yields a key; otherwise the key from the first segment that yields one |
| Recognition.NoMatchIffNull | inky.js:714-729 | the search returns null if and only if no candidate of any segment equals any variant of any key |
| Recognition.FoundKeyIsFirstMatch | inky.js:714-729 | a returned key belongs to a match (segment i, candidate j, entry k) with no earlier (segment, candidate) matching anything and no entry before k listing candidate j |
| Recognition.DocumentedExample | inky.js:845-847 | with the sample dictionary of the configuration comment ("X": x, X, %, T, t; "O": o, O, 0, Q), a segment read as "%" gives "X" and one read as "0" gives "O" |
| Recognition.DocumentedExampleMisses | inky.js:845-847 | with the same dictionary, candidates "y" then "Q" give "O" through the later candidate, and "y" alone gives null |
| Ink.ForwardIntermediatePoints | inky.js:478-481 | the count-down loop issues exactly the forwarded updates, oldest point first |
| Ink.ForwardedUpdateAt | inky.js:478-481 | one update per intermediate point; the k-th carries the point k places from the end of the array |
| Ink.ForwardedPointsPermute | ink-canvas.js:333-336 | forwarding neither adds, drops nor duplicates a point (multiset equality) |
| Ink.SelectAllThenDeleteIsEmpty | inky.js:790-798 | `selectAllStrokes` followed by `deleteSelected` leaves no strokes |
| Ink.NothingUnselectedLeft | inky.js:794 | `deleteSelected` on a fully selected stroke list leaves nothing |
| Ink.DeselectThenDeleteKeepsAll | inky.js:433-434 | after the zero-length `selectWithLine` clears the selection, `deleteSelected` deletes nothing |
| Ink.Unselected | inky.js:794 | the strokes left by `deleteSelected` are exactly the unselected ones |
| Ink.Translated | ink-canvas.js:414 | a stroke moved by `moveSelected` keeps its colour, width, selection flag and segment count; the shift of each point is stated by the function itself |
| Ink.MovedThereAndBack | ink-canvas.js:414 | moving the selection by (dx, dy) and then by (-dx, -dy) restores every stroke |
| Inky.Configure | inky.js:872-896 | with no configuration only the font size is reset to "4rem"; otherwise the dictionary and callback are taken as given; a truthy handler, a non-zero duration and a truthy autoconversion flag are used and a falsy one keeps the earlier value; a non-empty font size is used and an empty one gives "4rem"; the font size is never empty and a non-zero duration stays non-zero |
| Inky.ConfigureIdempotent | inky.js:872-896 | configuring twice with the same object is configuring once |
| Inky.DefaultsWithoutConfiguration | inky.js:872-896 | without configuration: no dictionary, a 1000 ms clear delay, no autoconversion, font size "4rem" |
| Inky.Initialized | inky.js:913-943 | after initialisation the session invariant holds, the mode is inking with an empty slot, no pointer is tracked and the defaults are black at width 2 |
| Inky.WithDefaults | inky.js:404-413 | `setDefaults` gives an opaque default colour |
| Inky.StrokeDrawsLength | inky.js:560-567 | `renderAllStrokes` issues one `renderStroke` per stroke |
| Inky.StrokeDrawsAppend | inky.js:560-567 | rendering a list of strokes is rendering its first part, then its second |
| Inky.StrokeDrawsAt | inky.js:560-567 | stroke k's draw, in its own colour and width, comes after those of the strokes before it and before those after it |
| Inky.ResultNotesAt | inky.js:688-691 | without a dictionary one notification per segment, the i-th listing segment i's candidates |
| Inky.ClearPreservesInv | inky.js:790-835 | `clear` and `resetCanvas` keep the session invariant (decodable styles, timer ids handed out and positive) |
| Inky.PointerDownPreservesInv | inky.js:425-457 | pointer-down keeps the session invariant |
| Inky.PointerMovesPreserveInv | inky.js:466-545 | move, up and out keep the session invariant |
| Inky.TextRecognizedPreservesInv | inky.js:663-680 | the recognised-key branch keeps the session invariant |
| Inky.RecognitionPreservesInv | inky.js:656-692 | the whole recognition continuation keeps the invariant; every queued id is one `setTimeout` handed out |
| Inky.KeyLookedUpPreservesInv | inky.js:662-687 | the dictionary branch keeps the session invariant |
| Inky.TimerPreservesInv | inky.js:686 | a firing clear timer keeps the session invariant |
| Inky.SaveModeKeepsFirst | inky.js:341-347 | a second `saveMode` before a restore leaves the first saved values; a full slot is never overwritten |
| Inky.RestoreEmptyIsNoOp | inky.js:355-362 | `restoreMode` on an empty slot changes nothing |
| Inky.TempEraseThenRestore | inky.js:355-391 | `tempEraseMode` then `restoreMode` gives back exactly the state before erasing when the slot was empty; with a full slot, the earlier saved values are restored |
| Inky.InkModeResets | inky.js:370-376 | `inkMode` empties the slot, sets inking and takes the defaults from the current style and line width |
| Inky.DisabledIgnoresPointers | inky.js:425-545 | while the canvas is disabled, down, move, up and out change nothing |
| Inky.OtherPointerIgnored | inky.js:466-545 | move, up and out from a pointer other than `penID` change nothing |
| Inky.PointerDownTracksPointer | inky.js:430-451 | pointer-down cancels the queued clear first; with button 0 `penID` becomes the event's pointer, otherwise it is kept |
| Inky.MoveForwardsOldestFirst | inky.js:471-481 | a tracked move appends one line to the canvas log, keeps the earlier ink-manager calls and appends one update per intermediate point, oldest first, changing nothing else |
| Inky.StrokeEndReleasesPointer | inky.js:496-545 | up and out from the tracked pointer reset `penID` to -1, take the ink manager's strokes and start recognition with no clear queued |
| Inky.EraserRoundTrip | inky.js:439-445 | a pen-eraser press followed by an ordinary press restores the style and mode in force before, with the slot empty |
| Inky.ClearEmptiesCanvas | inky.js:790-798 | after `clear` there are no strokes, the mode is inking with an empty slot, the only recorded ink-manager call is `deleteSelected` (no recognition; `setDefaultDrawingAttributes` from `inkMode` is the `defaults` field), and timers are untouched |
| Inky.ResetEnables | inky.js:831-835 | `resetCanvas` leaves the canvas enabled, the overlay hidden and no strokes |
| Inky.ResetClearQueueCancels | inky.js:635-640 | after `resetClearQueue` nothing is queued and the queued timer is no longer pending; with nothing queued it changes nothing |
| Inky.NoMatchKeepsEarlierClear | inky.js:683-686 | a no-match result while a clear is queued leaves both timers pending, because `clearTimeout()` passes no id |
| Inky.TwoNoMatchesTwoClears | inky.js:683-686 | two no-match continuations in a row leave two distinct clear timers pending |
| Inky.AcceptedSymbolConverts | inky.js:664-680 | a found key with autoconversion and an accepting (or no) callback shows the key, disables input, clears the strokes and reports the key |
| Inky.RejectedSymbolClears | inky.js:666-672 | a found key the callback rejects clears the canvas at once, leaves no clear queued and reports nothing |
| Inky.NoDictionaryReports | inky.js:688-691 | without a dictionary each segment's candidates are reported in order and strokes and timers are unchanged |
| Inky.AutoCanvas.constructor | inky.js:871-943 | the settings are `initializeInk`'s handling of its configuration and the state is the initialised session |
| Inky.AutoCanvas.ClearMode | inky.js:329-333 | empties the saved slot |
| Inky.AutoCanvas.SaveMode | inky.js:341-347 | moves the session by `WithSavedMode` |
| Inky.AutoCanvas.RestoreMode | inky.js:355-362 | moves the session by `RestoredMode` |
| Inky.AutoCanvas.SetDefaults | inky.js:404-413 | moves the session by `WithDefaults` |
| Inky.AutoCanvas.InkMode | inky.js:370-376 | moves the session by `InkModeSet` |
| Inky.AutoCanvas.TempEraseMode | inky.js:385-391 | moves the session by `TempEraseSet` |
| Inky.AutoCanvas.ResetClearQueue | inky.js:635-640 | moves the session by `ClearQueueReset` |
| Inky.AutoCanvas.HandlePointerDown | inky.js:425-457 | moves the session by `PointerDown` |
| Inky.AutoCanvas.StartStroke | inky.js:431-452 | moves the session by `StrokeStarted` |
| Inky.AutoCanvas.ClearSelection | inky.js:433-434 | moves the session by `SelectionCleared`: every stroke is deselected and the zero-length `selectWithLine` is recorded |
| Inky.AutoCanvas.BeginPath | inky.js:447-451 | moves the session by `PathBegun`: the path begins at the event's point, `processPointerDown` is recorded and `penID` is the event's pointer |
| Inky.AutoCanvas.HandlePointerMove | inky.js:466-487 | moves the session by `PointerMove` |
| Inky.AutoCanvas.HandlePointerUp | inky.js:496-516 | moves the session by `StrokeEnded` |
| Inky.AutoCanvas.HandlePointerOut | inky.js:527-545 | moves the session by `StrokeEnded`, the same state as pointer-up |
| Inky.AutoCanvas.RenderAllStrokes | inky.js:556-572 | clears the ink canvas, draws every stroke in order, and runs `find` unless `dontFind` |
| Inky.AutoCanvas.DrawCalls | inky.js:560-567 | the loop issues exactly `StrokeDraws(strokes)` |
| Inky.AutoCanvas.SelectAllStrokes | inky.js:622-627 | sets every stroke's `selected` flag and changes nothing else |
| Inky.AutoCanvas.Find | inky.js:651-655 | cancels the queued clear and starts recognition |
| Inky.AutoCanvas.OnRecognitionResults | inky.js:656-692 | moves the session by `Recognized` |
| Inky.AutoCanvas.LookUpKey | inky.js:662-687 | moves the session by `KeyLookedUp` |
| Inky.AutoCanvas.OnRecognizedText | inky.js:663-680 | moves the session by `TextRecognized` |
| Inky.AutoCanvas.RejectText | inky.js:666-672 | clears, then resets the clear queue |
| Inky.AutoCanvas.ConvertText | inky.js:675-679 | shows the overlay, disables input, then clears |
| Inky.AutoCanvas.QueueClear | inky.js:683-686 | a fresh timer id becomes pending and queued; nothing is cancelled |
| Inky.AutoCanvas.ReportCandidates | inky.js:688-691 | appends one notification per segment |
| Inky.AutoCanvas.CandidateNotes | inky.js:688-691 | the loop produces exactly `ResultNotes(results)` |
| Inky.AutoCanvas.OnClearTimer | inky.js:686 | a pending timer firing clears the canvas; a cancelled one changes nothing |
| Inky.AutoCanvas.Clear | inky.js:790-805 | moves the session by `Cleared` |
| Inky.AutoCanvas.SetCanvasEnabled | inky.js:812-814 | sets `canvasEnabled` and nothing else |
| Inky.AutoCanvas.GetCanvasEnabled | inky.js:822-824 | returns `canvasEnabled` |
| Inky.AutoCanvas.ResetCanvas | inky.js:831-835 | moves the session by `CanvasReset` |
| InkCanvas.WithStyle | ink-canvas.js:207 | assigning a context's `strokeStyle` sets that context's style and leaves the other context's style unchanged |
| InkCanvas.Initialized | ink-canvas.js:554-600 | after initialisation the invariant holds, the ink context is current, inking with an empty slot, no pointer tracked, no selection rect, defaults black at width 2 |
| InkCanvas.WithDefaults | ink-canvas.js:265-275 | `setDefaults` forces the default colour's alpha to 255 |
| InkCanvas.AnySelected | ink-canvas.js:39-50 | true if and only if some stroke is selected |
| InkCanvas.SaveModeKeepsFirst | ink-canvas.js:191-200 | `saveMode` records context, style, cursor and mode only into an empty slot; a second save changes nothing |
| InkCanvas.RestoreModeRestores | ink-canvas.js:202-212 | `restoreMode` restores the context, its style, the cursor and the mode and empties the slot; on an empty slot it changes nothing |
| InkCanvas.TempEraseThenRestore | ink-canvas.js:202-255 | `tempEraseMode` then `restoreMode` gives back the state before, except that the selection canvas stays transparent when the ink context was current |
| InkCanvas.ModeSettersClearSlot | ink-canvas.js:221-246 | `inkMode`, `selectMode`, `eraseMode` empty the slot and select inking/ink context, selecting/selection context, erasing/selection context with the erase cursor |
| InkCanvas.InkModeDefaults | ink-canvas.js:221-275 | `inkMode`'s defaults are the ink context's decoded colour with alpha 255 at width 2 |
| InkCanvas.PointerDownOnlyForPenOrLeftMouse | ink-canvas.js:288-317 | only a pen, or a mouse with button 0, starts a stroke and takes `penID`; a touch pointer only joins the tap gesture; anything else changes nothing |
| InkCanvas.EraserRoundTrip | ink-canvas.js:299-305 | a pen-eraser press then an ordinary press returns to the context, style, cursor and mode before, with the slot empty |
| InkCanvas.OtherPointerIgnored | ink-canvas.js:324-385 | move, up and out from a pointer other than `penID` change nothing |
| InkCanvas.StrokeEndReleasesPointer | ink-canvas.js:346-385 | up and out reset `penID` to -1 and take the ink manager's strokes; in select mode up places the box on the returned rect, otherwise the rect is kept |
| InkCanvas.MoveForwardsOldestFirst | ink-canvas.js:324-337 | a tracked move appends one line in the current context, keeps the earlier ink-manager calls and appends one update per intermediate point, oldest first, changing nothing else |
| InkCanvas.TapDeselects | ink-canvas.js:387-395 | a tap with nothing selected changes nothing; with a selection it leaves every stroke unselected |
| InkCanvas.GestureShiftsExactly | ink-canvas.js:405-417 | the gesture shifts the rect and the box's left/top by exactly the translation and moves the selected strokes by the same offset |
| InkCanvas.GestureWithoutRect | ink-canvas.js:408 | before any rect was detached the gesture throws and changes nothing |
| InkCanvas.GestureThereAndBack | ink-canvas.js:405-417 | a gesture by (dx, dy) then (-dx, -dy) puts the rect and the strokes back, in exact real arithmetic |
| InkCanvas.AnchorAndDetach | ink-canvas.js:72-89 | `anchorSelection` makes the box zero-sized at (0, 0) and keeps the rect; `detachSelection` puts the box exactly on the rect |
| InkCanvas.RenderedDrawsAppend | ink-canvas.js:427-444 | the draws come in stroke order: rendering a list is rendering its first part, then its second |
| InkCanvas.RenderedDrawsCount | ink-canvas.js:427-444 | each selected stroke is drawn twice and each unselected stroke once |
| InkCanvas.RenderedDrawsAt | ink-canvas.js:427-444 | stroke k's draws (colour at width×2 then white at width−1 when selected, else colour at width) sit between those of the strokes before and after it |
| InkCanvas.ModeStepsPreserveInv | ink-canvas.js:183-255 | every mode step keeps every style `toColorStruct` may read decodable |
| InkCanvas.HandlersPreserveInv | ink-canvas.js:288-417 | every event handler keeps the invariant |
| InkCanvas.InkCanvas.constructor | ink-canvas.js:545-600 | the state is the initialised canvas |
| InkCanvas.InkCanvas.ClearMode | ink-canvas.js:183-189 | empties the saved slot |
| InkCanvas.InkCanvas.SaveMode | ink-canvas.js:191-200 | moves the canvas by `WithSavedMode` |
| InkCanvas.InkCanvas.RestoreMode | ink-canvas.js:202-212 | moves the canvas by `RestoredMode` |
| InkCanvas.InkCanvas.InkMode | ink-canvas.js:221-228 | moves the canvas by `InkModeSet` |
| InkCanvas.InkCanvas.SelectMode | ink-canvas.js:230-237 | moves the canvas by `SelectModeSet` |
| InkCanvas.InkCanvas.EraseMode | ink-canvas.js:239-246 | moves the canvas by `EraseModeSet` |
| InkCanvas.InkCanvas.TempEraseMode | ink-canvas.js:248-255 | moves the canvas by `TempEraseSet` |
| InkCanvas.InkCanvas.SetDefaults | ink-canvas.js:265-275 | moves the canvas by `WithDefaults` |
| InkCanvas.InkCanvas.AnchorSelection | ink-canvas.js:72-78 | moves the canvas by `Anchored` |
| InkCanvas.InkCanvas.DetachSelection | ink-canvas.js:82-89 | moves the canvas by `Detached` |
| InkCanvas.InkCanvas.HandlePointerDown | ink-canvas.js:288-322 | moves the canvas by `PointerDown` |
| InkCanvas.InkCanvas.StartStroke | ink-canvas.js:291-312 | moves the canvas by `StrokeStarted` |
| InkCanvas.InkCanvas.ClearSelection | ink-canvas.js:292-295 | moves the canvas by `SelectionCleared`: the selection box is anchored, every stroke is deselected and the zero-length `selectWithLine` is recorded |
| InkCanvas.InkCanvas.BeginPath | ink-canvas.js:307-311 | moves the canvas by `PathBegun`: the path begins at the event's point in the current context, `processPointerDown` is recorded and `penID` is the event's pointer |
| InkCanvas.InkCanvas.HandlePointerMove | ink-canvas.js:324-344 | moves the canvas by `PointerMove` |
| InkCanvas.InkCanvas.HandlePointerUp | ink-canvas.js:346-366 | moves the canvas by `PointerUp` |
| InkCanvas.InkCanvas.HandlePointerOut | ink-canvas.js:370-385 | moves the canvas by `PointerOut` |
| InkCanvas.InkCanvas.HandleTap | ink-canvas.js:387-395 | moves the canvas by `Tapped` |
| InkCanvas.InkCanvas.AnyStrokeSelected | ink-canvas.js:39-50 | the scan returns exactly `AnySelected(strokes)` |
| InkCanvas.InkCanvas.HandleSelectionBoxPointerDown | ink-canvas.js:397-403 | adds the pointer to the box's gesture and changes nothing else |
| InkCanvas.InkCanvas.HandleSelectionBoxGestureChange | ink-canvas.js:405-417 | throws exactly when the box has no rect, then changing nothing; otherwise moves the canvas by `GestureChanged` |
| InkCanvas.InkCanvas.MoveSelection | ink-canvas.js:408-414 | moves the canvas by `SelectionMoved` |
| InkCanvas.InkCanvas.RenderAllStrokes | ink-canvas.js:422-447 | clears both canvases, draws the strokes and starts recognition |
| InkCanvas.InkCanvas.RenderCalls | ink-canvas.js:427-444 | the loop issues exactly `RenderedDraws(strokes)` |
| InkCanvas.InkCanvas.OnRecognitionResults | ink-canvas.js:502-506 | records `updateRecognitionResults` and changes nothing else |

## Left out

- DOM and WinJS setup: canvas and overlay creation, `MSGesture` objects, listener registration and the `WinJS.UI.processAll` promise chain (inky.js:899-951, ink-canvas.js:545-609). The constructors stand for the state these leave.
- The Windows ink manager, recogniser and 2D contexts are not modelled. Their stroke-changing and recognition calls are recorded in `inkCalls` and the drawing commands in `canvasLog`. `setDefaultDrawingAttributes` and the `mode` writes are the `defaults` and `mode` fields, and `getStrokes()` reads `strokes`. `setRecognizerByName` (inky.js:761-781, called during initialisation) and its `getRecognizers`/`setDefaultRecognizer` calls are not modelled; when it fails the source only sends a notification (inky.js:939-941). The strokes and rectangle after `processPointerUp`, the recognition results and the callback's answer are parameters.
- The effects of `deleteSelected`, `selectWithLine` with a zero-length line and `moveSelected` follow their documented meaning: drop the selected strokes, clear the selection, translate the selected strokes.
- Real time and asynchrony: `setTimeout` is a fresh id, and a timer firing is the method `OnClearTimer`. Interleaving of overlapping recognitions is modelled only as two continuations run in sequence.
- Bezier geometry and floating point: coordinates are exact reals. They are passed through unchanged, except where the gesture handler adds the translation to the box (ink-canvas.js:408-409) and `moveSelected` shifts the strokes; those sums are exact, not rounded like JavaScript doubles. `renderStroke` is one `StrokePath` command holding the stroke's segments, style and width.
- Canvas `strokeStyle` normalisation: a style is kept as the string last assigned. `selPattern` is `null` in the source, and assigning it is modelled as storing the string "null".
- `selBox.style` pixel strings are modelled as the numbers they are built from.
- Toasts, `Debug.writeln`, `sendNotification` text formatting and the rethrowing default `onError`. Notifications are kept as data, and the error handlers only as flags in `Settings`. The one exception modelled is the gesture handler reading an absent `selBox.rect`.
- `displayTextOverlay` and `hideTextOverlay` as DOM calls: the overlay is its text and a shown flag.
- `find`'s error continuation.
- The state before `initializeInk` has run.
- docs/api.js is not part of this model.
- Colors.ToColorStruct: requires that a seven-character `#` string has hexadecimal digits only, because `parseInt`'s partial parsing of other digits is not modelled.
- Colors.NamedColor: the `Windows.UI.Colors` constants are given the CSS named-colour values; only their full alpha is relied on.
- Recognition.CheckForValidRecognitionResults: the dictionary is a sequence of entries in the order `for (key in …)` visits them; JavaScript's property enumeration order is not modelled.
- InkCanvas.GestureThereAndBack: the round trip holds in exact real arithmetic only; with JavaScript doubles, adding dx and then -dx need not give back the coordinate (0.1 + 0.2 - 0.2 is not 0.1).
- Ink.MovedThereAndBack: the same holds for moving the strokes there and back; it is exact in reals, not in doubles.
- Inky.Configure: a handler, the duration and the font size are modelled by their truthiness (a flag, 0 for absent, "" for absent), not as functions and values of any type.
