// The drag-to-orbit controller of the Mandelbulb page as a state machine over
// pointer events: a button press starts a drag, a release ends it, and every
// pointer move during a drag nudges the camera and redraws the frame.

module Orbit {

  /** The camera position the page keeps before normalising it onto the orbit sphere. */
  datatype Camera = Camera(x: real, y: real, z: real)

  /** What the handlers read and write: the drag flag, the camera, and (ghost, for
      reasoning) how many frames have been drawn so far. */
  datatype State = State(dragging: bool, camera: Camera, draws: nat)

  /** A pointer event on the canvas. A move carries the pointer's client position and
      the canvas's top-left corner as the bounding rectangle gives it at that moment. */
  datatype Event =
    | MouseDown
    | MouseUp
    | MouseMove(clientX: real, clientY: real, rectLeft: real, rectTop: real)

  /** The state once the page has loaded: not dragging, camera at (0, 0, 1), and the
      initial frame drawn. */
  const Start: State := State(false, Camera(0.0, 0.0, 1.0), 1)

  /** How a canvas-local coordinate v compares with the canvas extent w, read off the
      ratio v / w the handler computes. */
  lemma Ratio(v: real, w: real)
    requires w > 0.0
    ensures 0.0 <= v <= w ==> 0.0 <= v / w <= 1.0
    ensures v / w == 0.5 <==> v == w / 2.0
    ensures v / w < 0.5 <==> v < w / 2.0
  {
    var q := v / w;
    assert q * w == v;
    assert 0.5 * w == w / 2.0;
    assert (1.0 - q) * w == w - v;
    if q < 0.5 {
      assert q * w < 0.5 * w;
      assert v < w / 2.0;
    } else if q > 0.5 {
      assert q * w > 0.5 * w;
      assert v > w / 2.0;
      if v <= w {
        MulBelow(1.0 - q, w);
      }
    } else {
      assert v == w / 2.0;
    }
  }

  /** Dividing v by w gives the q with q * w == v. */
  lemma DivExact(v: real, w: real, q: real)
    requires w > 0.0 && q * w == v
    ensures v / w == q
  {
    assert (v / w) * w == v;
    assert (v / w - q) * w == 0.0;
  }

  /** A product with a positive factor keeps the sign of the other factor. */
  lemma MulBelow(a: real, w: real)
    requires w > 0.0 && a * w >= 0.0
    ensures a >= 0.0
  {
  }

  /** The horizontal camera nudge for a pointer at canvas-local x (inverted: the left
      edge gives +1, the right edge -1, the centre 0). */
  function DeltaX(localX: real, width: real): (d: real)
    requires width > 0.0
    ensures 0.0 <= localX <= width ==> -1.0 <= d <= 1.0
    ensures d == 0.0 <==> localX == width / 2.0
    ensures d > 0.0 <==> localX < width / 2.0
  {
    Ratio(localX, width);
    (0.5 - localX / width) * 2.0
  }

  /** The vertical camera nudge for a pointer at canvas-local y (the top edge gives -1,
      the bottom edge +1, the centre 0). */
  function DeltaY(localY: real, height: real): (d: real)
    requires height > 0.0
    ensures 0.0 <= localY <= height ==> -1.0 <= d <= 1.0
    ensures d == 0.0 <==> localY == height / 2.0
    ensures d > 0.0 <==> localY > height / 2.0
  {
    Ratio(localY, height);
    (localY / height - 0.5) * 2.0
  }

  /** The pointer of a move lies on the canvas. */
  predicate OnCanvas(e: Event, width: real, height: real)
    requires e.MouseMove?
  {
    0.0 <= e.clientX - e.rectLeft <= width && 0.0 <= e.clientY - e.rectTop <= height
  }

  /** The drag flag after an event: a press sets it, a release clears it, a move keeps it. */
  function NextDragging(dragging: bool, e: Event): bool
  {
    match e
    case MouseDown => true
    case MouseUp => false
    case MouseMove(_, _, _, _) => dragging
  }

  /** Whether an event is a move that the page acts on: one that arrives while dragging. */
  predicate Accepted(dragging: bool, e: Event)
  {
    dragging && e.MouseMove?
  }

  /** One event handler, on a canvas of the given size. */
  function Step(s: State, e: Event, width: real, height: real): (t: State)
    requires width > 0.0 && height > 0.0
    ensures t.dragging == NextDragging(s.dragging, e)
    ensures t.draws == s.draws + (if Accepted(s.dragging, e) then 1 else 0)
    ensures t.camera.z == s.camera.z + (t.draws - s.draws) as real
    ensures !Accepted(s.dragging, e) ==> t.camera == s.camera
    ensures Accepted(s.dragging, e) && OnCanvas(e, width, height) ==>
      -1.0 <= t.camera.x - s.camera.x <= 1.0 && -1.0 <= t.camera.y - s.camera.y <= 1.0
  {
    match e
    case MouseDown => s.(dragging := true)
    case MouseUp => s.(dragging := false)
    case MouseMove(clientX, clientY, rectLeft, rectTop) =>
      if !s.dragging then s
      else
        var c := s.camera;
        var dx := DeltaX(clientX - rectLeft, width);
        var dy := DeltaY(clientY - rectTop, height);
        State(true, Camera(c.x + dx, c.y + dy, c.z + 1.0), s.draws + 1)
  }

  /** The state after handling the events in order. */
  function Run(s: State, es: seq<Event>, width: real, height: real): State
    requires width > 0.0 && height > 0.0
    decreases |es|
  {
    if es == [] then s else Run(Step(s, es[0], width, height), es[1..], width, height)
  }

  /** The drag flag after the events, from the flag alone. */
  function DraggingAfter(dragging: bool, es: seq<Event>): bool
    decreases |es|
  {
    if es == [] then dragging else DraggingAfter(NextDragging(dragging, es[0]), es[1..])
  }

  /** How many of the events are accepted moves, from the drag flag alone. */
  function AcceptedMoves(dragging: bool, es: seq<Event>): nat
    decreases |es|
  {
    if es == [] then 0
    else (if Accepted(dragging, es[0]) then 1 else 0) + AcceptedMoves(NextDragging(dragging, es[0]), es[1..])
  }

  // ---------------------------------------------------------------------------
  // Properties of the controller

  /** Pressing twice is pressing once; releasing twice is releasing once. */
  lemma ButtonsIdempotent(s: State, width: real, height: real)
    requires width > 0.0 && height > 0.0
    ensures Step(Step(s, MouseDown, width, height), MouseDown, width, height) == Step(s, MouseDown, width, height)
    ensures Step(Step(s, MouseUp, width, height), MouseUp, width, height) == Step(s, MouseUp, width, height)
  {
  }

  /** Over any event sequence, the frame count and the camera's z grow by exactly
      the number of accepted moves, and the drag flag depends on the buttons alone. */
  lemma {:induction false} RunCounts(s: State, es: seq<Event>, width: real, height: real)
    requires width > 0.0 && height > 0.0
    ensures Run(s, es, width, height).dragging == DraggingAfter(s.dragging, es)
    ensures Run(s, es, width, height).draws == s.draws + AcceptedMoves(s.dragging, es)
    ensures Run(s, es, width, height).camera.z == s.camera.z + AcceptedMoves(s.dragging, es) as real
    decreases |es|
  {
    if es != [] {
      RunCounts(Step(s, es[0], width, height), es[1..], width, height);
    }
  }

  /** From the loaded page, after n accepted moves the camera's z is 1 + n and
      1 + n frames have been drawn, so the camera vector handed to normalisation
      is never zero. */
  lemma FromStart(es: seq<Event>, width: real, height: real)
    requires width > 0.0 && height > 0.0
    ensures var t := Run(Start, es, width, height);
      var n := AcceptedMoves(false, es);
      t.draws == 1 + n && t.camera.z == 1.0 + n as real &&
      t.camera.z >= 1.0 && t.camera != Camera(0.0, 0.0, 0.0)
  {
    RunCounts(Start, es, width, height);
  }

  /** A press followed by a move with the pointer a quarter of the way across the
      canvas and at mid height shifts the camera by exactly +0.5 in x, 0 in y and
      +1 in z, and draws one frame. */
  lemma PressThenMove(s: State, rectLeft: real, rectTop: real, width: real, height: real)
    requires width > 0.0 && height > 0.0
    ensures var t := Run(s, [MouseDown, MouseMove(rectLeft + width / 4.0, rectTop + height / 2.0, rectLeft, rectTop)], width, height);
      t.dragging && t.draws == s.draws + 1 &&
      t.camera == Camera(s.camera.x + 0.5, s.camera.y, s.camera.z + 1.0)
  {
    var es := [MouseDown, MouseMove(rectLeft + width / 4.0, rectTop + height / 2.0, rectLeft, rectTop)];
    var s1 := Step(s, MouseDown, width, height);
    var s2 := Step(s1, es[1], width, height);
    assert es[1..] == [es[1]] && [es[1]][1..] == [];
    assert Run(s, es, width, height) == Run(s1, [es[1]], width, height) == s2;
    assert (rectLeft + width / 4.0) - rectLeft == width / 4.0;
    DivExact(width / 4.0, width, 0.25);
    assert (rectTop + height / 2.0) - rectTop == height / 2.0;
  }

  /** Presses and releases alone never move the camera or draw a frame. */
  lemma {:induction false} ButtonsOnly(s: State, es: seq<Event>, width: real, height: real)
    requires width > 0.0 && height > 0.0
    requires forall i :: 0 <= i < |es| ==> !es[i].MouseMove?
    ensures Run(s, es, width, height).camera == s.camera
    ensures Run(s, es, width, height).draws == s.draws
    decreases |es|
  {
    if es != [] {
      ButtonsOnly(Step(s, es[0], width, height), es[1..], width, height);
    }
  }

  /** Moves while no button is held leave the whole state as it was. */
  lemma {:induction false} IdleMoves(s: State, es: seq<Event>, width: real, height: real)
    requires width > 0.0 && height > 0.0
    requires !s.dragging && forall i :: 0 <= i < |es| ==> es[i].MouseMove?
    ensures Run(s, es, width, height) == s
    decreases |es|
  {
    if es != [] {
      IdleMoves(Step(s, es[0], width, height), es[1..], width, height);
    }
  }
}
