# Gesture handler control logic

This project models the control logic of the Unity component `GestureHandlerQueue`. The component does three things:

- It captures pointer strokes frame by frame.
- When the pointer is released, it hands the captured points to a point-cloud recognizer and gates the result on a confidence threshold and the expected gesture.
- It keeps a row of "gesture holders" that show the player the gestures to draw next. Holder 0 is the gesture the player must draw now.

The model has three modules:

- `PDollar` (`pdollar.dfy`) holds the recognizer's interface types: `Point`, `Template` and `Classification`. The recognizer itself is an uninterpreted `Classifier` function value.
- `GestureQueue` (`gesture_queue.dfy`) models the holder row:
  - gesture objects are identified by creation index, and each carries a name and a local scale;
  - `Advance` is the holder-by-holder reference definition of one shift;
  - `CreateNewGesture` is the front-to-back shift loop, proved equal to `Advance`;
  - `ResetGestures` refills the whole row.
- `GestureHandler` (`gesture_handler.dfy`) models the frame callback as a pure `Tick(env, handler, input)`:
  - `ReadPointer` covers reading the pointer, including finalizing on release;
  - `Draw` covers opening a stroke and recording a point;
  - `CompleteGesture` and `CheckGesture` cover classifying, gating and clearing.

The central queue invariant is `GestureQueue.Ready`. It says the holders show the most recently created objects in creation order. With two or more holders, holder 0 has scale 1.0 and the other holders but the last have scale 0.7. The last holder, which is holder 0 when there is only one, keeps its prefab scale. `ResetGestures` establishes `Ready` from any row with at least one holder, whatever the row held before. `Start` uses it to set up the handler, and `Advance`, `Tick` and `Run` preserve it.

Some behaviour of the code is worth spelling out, because the model keeps it as written:

- The last holder receives a new instance of one fixed prefab (line 140). The gesture name that instance shows is chosen by a component that is not part of this model. `Env.nameOf(n)` supplies the name of the n-th created object.
- The shift loop covers holders 0 to n - 2 (line 131), where n is the number of holders.
- A holder takes its successor's gesture only when the successor holds one; otherwise it keeps its own (lines 133-138). Holder 0 is emptied first, because its gesture is destroyed (lines 126-128).
- The draw-area test applies to the last pointer position read (line 74). That position persists across frames. A pointer held inside the area records a point with the current stroke id even when no stroke was opened (lines 93-94). This happens after a press outside the area, or after a finalize has reset the id to -1. A later release does not finalize such points (line 68): they stay in the buffer and become part of the next candidate.
- A press inside the area always opens a new stroke and increments the stroke id, whether or not a stroke is already open (lines 75-79).

## Model

| member | source | states |
|---|---|---|
| GestureHandler.Tick | Assets/Scripts/GestureHandlerQueue.cs:52-100 | A paused frame changes nothing. A press inside the draw area opens stroke `strokeId + 1`, sets `isDrawing` and records `(x, -y, strokeId + 1)`. A held pointer inside the area without a press records `(x, -y, strokeId)` and leaves `isDrawing` as it was. A held pointer outside the area records nothing and changes neither the stroke id nor the drawing flag nor the row. A release while drawing always finalizes: drawing ends, the buffer empties, `strokeId` becomes -1, so the next press inside the area opens stroke 0; the row changes exactly when the gate accepts, and then by exactly one advance. A release while not drawing changes nothing. The row stays ready, the stroke-id invariant is kept, and with physical input an open stroke always has points. |
| GestureHandler.ReadPointer | Assets/Scripts/GestureHandlerQueue.cs:58-72 | A held pointer moves the cursor to its position and changes nothing else. Releasing an open stroke closes it and finalizes it through the gate. The buffer empties, the stroke id rewinds to -1 and the cursor stays put. The row changes exactly when the classification of the buffer passes the gate, and then by exactly one advance. Releasing with no open stroke changes nothing. |
| GestureHandler.Draw | Assets/Scripts/GestureHandlerQueue.cs:74-99 | Outside the draw area nothing changes. Inside it, a press sets `isDrawing` and adds one to `strokeId`, and without a press both stay as they were. A held pointer appends exactly one point, `(x, -y, strokeId)`, with the stroke id after the press. The stroke-id invariant is kept: ids stay at least -1, stay at most the current id, never decrease along the buffer, and are real ids while a stroke is open. |
| GestureHandler.CompleteGesture | Assets/Scripts/GestureHandlerQueue.cs:146-156 | Finalizing always empties the buffer and sets the stroke id to -1, accepted or not. The row changes exactly when the classification of the buffer passes the gate against the front gesture's name, and then by exactly one advance that creates the next object. |
| GestureHandler.ClearDrawing | Assets/Scripts/GestureHandlerQueue.cs:190-193 | The buffer is empty, the stroke id is -1, and the drawing flag and cursor are unchanged. The cleared session meets the stroke-id invariant exactly when no stroke is open, which is why the release path closes the stroke first. |
| GestureHandler.CheckGesture | Assets/Scripts/GestureHandlerQueue.cs:162-185 | The row is left exactly as it was unless the gate `Accepts` holds: the score is strictly above the threshold and the class equals the front gesture's name. When both hold, it takes exactly one advance. Readiness is kept. |
| GestureHandler.Run | Assets/Scripts/GestureHandlerQueue.cs:52-100 | Over any sequence of frames the row stays ready, the stroke-id invariant holds, the creation log of gesture objects only grows, and with physical input an open stroke always has points. |
| GestureHandler.Start | Assets/Scripts/GestureHandlerQueue.cs:39-50 | Start-up fills the row with one new object per holder, in creation order, each named by the environment for its creation index, and begins with the empty session (stroke id -1, not drawing, cursor at the origin). The result meets every frame's precondition: the row is ready and the session invariants hold. |
| GestureHandler.PausedRunIsIdle | Assets/Scripts/GestureHandlerQueue.cs:52-56 | Any number of paused frames leaves the capture session and the row untouched. |
| GestureQueue.Advance | Assets/Scripts/GestureHandlerQueue.cs:125-140 | One advance keeps the number of holders and creates exactly one new object. The new object has the given name and its prefab scale and goes into the last holder. Existing objects keep their names, and every holder still refers to a created object. |
| GestureQueue.CreateNewGesture | Assets/Scripts/GestureHandlerQueue.cs:122-141 | The front-to-back shift loop equals the holder-by-holder definition. Holder 0 is emptied. Holder i < n - 1 takes holder i + 1's gesture when there is one and otherwise keeps its own. A moved gesture gets scale 1.0 in holder 0 and 0.7 elsewhere. The tail gets the new object. The source needs at least one holder. |
| GestureQueue.ScaleAfterLastMove | Assets/Scripts/GestureHandlerQueue.cs:133-137 | A gesture keeps the scale of the holder it was last moved into by the shift loop. |
| GestureQueue.AdvanceExtendsSuffix | Assets/Scripts/GestureHandlerQueue.cs:131-140 | If the last k holders show the newest objects in creation order at display scale, one advance makes that true of the last k + 1. |
| GestureQueue.AdvanceReady | Assets/Scripts/GestureHandlerQueue.cs:126-140 | On a ready row, an advance is a clean shift: the result is `slots[1..] + [new object]`. The evicted front gesture appears in no holder afterwards, and the row stays ready. |
| GestureQueue.ResetGestures | Assets/Scripts/GestureHandlerQueue.cs:111-116 | After one advance per holder, holder j shows the j-th object created by this reset, in creation order. No earlier gesture remains, even if some holders started empty. Each new object has the name supplied for it, and the row is ready. |

## Left out

- The recognizer (resampling, centroid translation, scaling, greedy cloud matching, scoring) is not part of this model. It belongs to the `PDollarGestureRecognizer` library, and `Env.classify` stands in for it. Its behaviour on an empty candidate is unknown, so the model treats it as total.
- Loading the training set from XML resources happens at start-up and is asset I/O through the recognizer library. The model takes the templates as `Env.templates`.
- Rendering is not modelled: line renderers, vertex counts, camera projection, anchoring and re-parenting of gesture objects, theme colours and the debug message. "Instantiate" becomes appending to the creation list, and "destroy" becomes emptying holder 0.
- Destroyed objects are not tracked. Emptying holder 0 is exact on a ready row, where the front object is in no other holder. On a row where the same object sits in holders 0 and 1, such as `[Holding(0), Holding(0), Holding(1)]`, `Advance` moves the destroyed object back into holder 0. In the engine it is gone after that frame. Start-up makes every row ready, so no reachable row has this shape.
- The threshold is `Env.threshold`. The component's default is 0.3 (line 11), and the scene may override it.
- `CheckGesture` moves the player and the animals in auto mode and spawns a hand object. These are game side effects outside the gesture logic.
- The mobile and desktop input branches both reduce to one `Input` of pause flag, held, pressed and position. On mobile, "held" is the touch count for the cursor and the mouse button for recording, which the engine keeps in step.
- `Rect.Contains` float geometry and the screen-size draw rectangle are replaced by the abstract predicate `Env.inArea`. Coordinates, scores and the threshold are reals, not 32-bit floats.
- `GestureHandler.Tick` requires a ready row. Start-up runs `ResetGestures` before any frame, which establishes readiness. On an unready row the source can dereference an empty front holder, and the model does not represent that exception.
- The front gesture's name is read from the object in holder 0. The source reads it from the component found under holder 0's transform, and the two coincide on a ready row.
- `AnimalManager.cs` is not part of this model. It is a float spawn-rate timer driven by the engine clock, with random spawn positions.
