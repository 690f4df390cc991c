/**
  The per-frame control logic of the gesture handler: stroke capture, the
  hand-off of a finished gesture to the recognizer, the decision gate and the
  advance of the gesture row. The engine's frame callback becomes `Tick`, a
  pure function of the handler state and one frame of input.
 */
module GestureHandler {
  import opened PDollar
  import opened GestureQueue

  /** A screen position. */
  datatype Position = Position(x: real, y: real)

  /** One frame of input: the pause flag, whether the pointer is held, whether
      it went down this frame, and where it is. */
  datatype Input = Input(paused: bool, held: bool, pressed: bool, position: Position)

  /** The capture state: the point buffer, the current stroke id, whether a
      stroke is open, and the last pointer position read (kept across frames). */
  datatype Session = Session(points: seq<Point>, strokeId: int, isDrawing: bool, cursor: Position)

  /** What the handler is given rather than computes: the draw area, the
      recognizer and its training set, the acceptance threshold, and the name
      the n-th created gesture object picks for itself. */
  datatype Env = Env(
    inArea: Position -> bool,
    classify: Classifier,
    templates: seq<Template>,
    threshold: real,
    nameOf: nat -> string)

  /** The whole handler state. */
  datatype Handler = Handler(session: Session, queue: Queue)

  /** The session the handler starts with. */
  const InitialSession: Session := Session([], -1, false, Position(0.0, 0.0))

  /** The point recorded for a pointer at p in stroke id: y is flipped. */
  function Sample(p: Position, id: int): Point {
    Point(p.x, -p.y, id)
  }

  /** The decision gate: a classification is accepted when its score is
      strictly above the threshold and its class is the expected gesture. */
  predicate Accepts(result: Classification, expected: string, threshold: real) {
    result.score > threshold && result.gestureClass == expected
  }

  /** Stroke ids never go below -1, an open stroke has a real id, and the
      buffer's ids are bounded by the current id and never decrease. */
  predicate SessionInvariant(s: Session) {
    && s.strokeId >= -1
    && (s.isDrawing ==> s.strokeId >= 0)
    && (forall i :: 0 <= i < |s.points| ==> -1 <= s.points[i].strokeId <= s.strokeId)
    && (forall i, j :: 0 <= i < j < |s.points| ==> s.points[i].strokeId <= s.points[j].strokeId)
  }

  /** Input a real pointer can produce: it cannot go down without being held. */
  predicate Physical(input: Input) {
    input.pressed ==> input.held
  }

  /** An open stroke has recorded at least one point, so finalizing it never
      hands the recognizer an empty candidate. */
  predicate DrawingHasPoints(s: Session) {
    s.isDrawing ==> |s.points| > 0
  }

  /** Empties the point buffer and rewinds the stroke id so the next press opens stroke 0. */
  function ClearDrawing(s: Session): (r: Session)
    ensures r.points == [] && r.strokeId == -1
    ensures r.isDrawing == s.isDrawing && r.cursor == s.cursor
    ensures SessionInvariant(r) <==> !s.isDrawing
  {
    s.(strokeId := -1, points := [])
  }

  /** Checks a classification against the front gesture. Only an accepted
      classification changes the row, and then by exactly one advance whose
      new object is named by the environment. */
  function CheckGesture(env: Env, result: Classification, q: Queue): (r: Queue)
    requires Ready(q)
    ensures Ready(r)
    ensures r == q <==> !Accepts(result, FrontName(q), env.threshold)
    ensures r != q ==> r == Advance(q, env.nameOf(|q.objects|))
  {
    if Accepts(result, FrontName(q), env.threshold) then
      AdvanceReady(q, env.nameOf(|q.objects|));
      Advance(q, env.nameOf(|q.objects|))
    else q
  }

  /** A finished gesture: classify the buffer, gate the result, clear the buffer. */
  function CompleteGesture(env: Env, h: Handler): (r: Handler)
    requires Ready(h.queue)
    ensures Ready(r.queue)
    ensures r.session.points == [] && r.session.strokeId == -1
    ensures r.session.isDrawing == h.session.isDrawing && r.session.cursor == h.session.cursor
    ensures r.queue == h.queue <==>
      !Accepts(env.classify(h.session.points, env.templates), FrontName(h.queue), env.threshold)
    ensures r.queue != h.queue ==> r.queue == Advance(h.queue, env.nameOf(|h.queue.objects|))
  {
    var result := env.classify(h.session.points, env.templates);
    Handler(ClearDrawing(h.session), CheckGesture(env, result, h.queue))
  }

  /** Reading the pointer: a held pointer moves the cursor; a pointer that is
      not held closes an open stroke and finalizes the gesture. */
  function ReadPointer(env: Env, h: Handler, input: Input): (r: Handler)
    requires Ready(h.queue)
    ensures Ready(r.queue)
    ensures input.held ==> r == h.(session := h.session.(cursor := input.position))
    // Releasing an open stroke finalizes it through the gate.
    ensures !input.held && h.session.isDrawing ==>
      && !r.session.isDrawing
      && r.session.points == []
      && r.session.strokeId == -1
      && r.session.cursor == h.session.cursor
      && (r.queue == h.queue <==>
          !Accepts(env.classify(h.session.points, env.templates), FrontName(h.queue), env.threshold))
      && (r.queue != h.queue ==> r.queue == Advance(h.queue, env.nameOf(|h.queue.objects|)))
    ensures !input.held && !h.session.isDrawing ==> r == h
  {
    if input.held then h.(session := h.session.(cursor := input.position))
    else if h.session.isDrawing then CompleteGesture(env, h.(session := h.session.(isDrawing := false)))
    else h
  }

  /** Drawing at the cursor: inside the draw area a press opens a new stroke,
      and a held pointer records one point in the current stroke. */
  function Draw(env: Env, s: Session, input: Input): (r: Session)
    ensures r.cursor == s.cursor
    ensures !env.inArea(s.cursor) ==> r == s
    ensures env.inArea(s.cursor) && input.pressed ==> r.isDrawing && r.strokeId == s.strokeId + 1
    ensures env.inArea(s.cursor) && !input.pressed ==> r.isDrawing == s.isDrawing && r.strokeId == s.strokeId
    ensures env.inArea(s.cursor) ==>
      r.points == s.points + (if input.held then [Sample(s.cursor, r.strokeId)] else [])
    ensures SessionInvariant(s) ==> SessionInvariant(r)
  {
    if !env.inArea(s.cursor) then s
    else
      var open := if input.pressed then s.(isDrawing := true, strokeId := s.strokeId + 1) else s;
      if input.held then open.(points := open.points + [Sample(open.cursor, open.strokeId)])
      else open
  }

  /** One frame. While paused nothing changes. Otherwise the pointer is read
      (a release while drawing finalizes the gesture) and then, at the cursor,
      a press opens a stroke and a held pointer records a point. */
  function Tick(env: Env, h: Handler, input: Input): (r: Handler)
    requires Ready(h.queue)
    ensures Ready(r.queue)
    ensures SessionInvariant(h.session) ==> SessionInvariant(r.session)
    ensures Physical(input) && DrawingHasPoints(h.session) ==> DrawingHasPoints(r.session)
    ensures input.paused ==> r == h
    // A press inside the area opens stroke strokeId + 1 and records its first point.
    ensures !input.paused && input.held && input.pressed && env.inArea(input.position) ==>
      && r.queue == h.queue
      && r.session.isDrawing
      && r.session.strokeId == h.session.strokeId + 1
      && r.session.points == h.session.points + [Sample(input.position, h.session.strokeId + 1)]
    // A pointer held inside the area without a press records a point in the
    // current stroke, whether or not a stroke is open.
    ensures !input.paused && input.held && !input.pressed && env.inArea(input.position) ==>
      && r.queue == h.queue
      && r.session.isDrawing == h.session.isDrawing
      && r.session.strokeId == h.session.strokeId
      && r.session.points == h.session.points + [Sample(input.position, h.session.strokeId)]
    // A pointer held outside the area records nothing and changes no stroke state.
    ensures !input.paused && input.held && !env.inArea(input.position) ==>
      r == h.(session := h.session.(cursor := input.position))
    // A release while drawing always finalizes, accepted or not.
    ensures !input.paused && !input.held && !input.pressed && h.session.isDrawing ==>
      && !r.session.isDrawing
      && r.session.points == []
      && r.session.strokeId == -1
      && (r.queue == h.queue <==>
          !Accepts(env.classify(h.session.points, env.templates), FrontName(h.queue), env.threshold))
      && (r.queue != h.queue ==> r.queue == Advance(h.queue, env.nameOf(|h.queue.objects|)))
    // A release while not drawing changes nothing.
    ensures !input.paused && !input.held && !input.pressed && !h.session.isDrawing ==> r == h
  {
    if input.paused then h
    else
      var read := ReadPointer(env, h, input);
      read.(session := Draw(env, read.session, input))
  }

  /** Start-up: fill the row with the first gesture objects, named as the
      environment names every created object, and begin with an empty
      session. The result meets every frame's precondition and invariants. */
  method Start(env: Env, q: Queue) returns (h: Handler)
    requires |q.slots| >= 1
    requires WellFormed(q)
    ensures h.session == InitialSession
    ensures Ready(h.queue)
    ensures SessionInvariant(h.session) && DrawingHasPoints(h.session)
    ensures |h.queue.slots| == |q.slots| && |h.queue.objects| == |q.objects| + |q.slots|
    ensures forall j :: 0 <= j < |q.slots| ==> h.queue.slots[j] == Holding(|q.objects| + j)
    ensures forall k :: |q.objects| <= k < |h.queue.objects| ==> h.queue.objects[k].name == env.nameOf(k)
  {
    var names := seq(|q.slots|, j requires 0 <= j < |q.slots| => env.nameOf(|q.objects| + j));
    var row := ResetGestures(q, names);
    h := Handler(InitialSession, row);
    forall k | |q.objects| <= k < |h.queue.objects|
      ensures h.queue.objects[k].name == env.nameOf(k)
    {
      assert names[k - |q.objects|] == env.nameOf(k);
    }
  }

  /** A run of frames keeps the row ready and the session invariant, and
      the creation log of gesture objects only grows. */
  function Run(env: Env, h: Handler, inputs: seq<Input>): (r: Handler)
    requires Ready(h.queue)
    ensures Ready(r.queue)
    ensures SessionInvariant(h.session) ==> SessionInvariant(r.session)
    ensures |r.queue.objects| >= |h.queue.objects|
    ensures (forall i :: 0 <= i < |inputs| ==> Physical(inputs[i])) && DrawingHasPoints(h.session) ==>
      DrawingHasPoints(r.session)
    decreases |inputs|
  {
    if inputs == [] then h else Run(env, Tick(env, h, inputs[0]), inputs[1..])
  }

  /** A run of paused frames changes nothing. */
  lemma {:induction false} PausedRunIsIdle(env: Env, h: Handler, inputs: seq<Input>)
    requires Ready(h.queue)
    requires forall i :: 0 <= i < |inputs| ==> inputs[i].paused
    ensures Run(env, h, inputs) == h
    decreases |inputs|
  {
    if inputs != [] {
      PausedRunIsIdle(env, h, inputs[1..]);
    }
  }
}
