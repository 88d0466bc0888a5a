// The Mandelbulb page itself: the vertex list it builds once, and the mutable
// drag flag and camera its pointer handlers update.

module Mandelbulb {
  import Lattice
  import Orbit

  class Page {
    /** The flat x, y, z list of the point lattice, built once at load. */
    const vertices: seq<int>
    var dragging: bool
    var camX: real
    var camY: real
    var camZ: real
    /** Frames drawn so far (the initial one and one per accepted move). */
    ghost var draws: nat

    /** The handler state as the controller model sees it. */
    ghost function Snapshot(): Orbit.State
      reads this
    {
      Orbit.State(dragging, Orbit.Camera(camX, camY, camZ), draws)
    }

    /** The lattice is the page's, and the camera has moved one unit towards +z
        for every frame drawn, so it sits at z >= 1. */
    ghost predicate Valid()
      reads this
    {
      vertices == Lattice.Grid(-50, 2, 50) && camZ == draws as real && draws >= 1
    }

    /** Page load: build the lattice, start with no drag and the camera at (0, 0, 1),
        and draw the first frame. */
    constructor ()
      ensures Valid() && Snapshot() == Orbit.Start
    {
      var v := Lattice.Generate(-50, 2, 50);
      vertices := v;
      dragging := false;
      camX, camY, camZ := 0.0, 0.0, 1.0;
      draws := 1;
    }

    /** The number of points every frame draws: a third of the vertex list. */
    function PointCount(): (c: nat)
      reads this
      requires Valid()
      ensures 3 * c == |vertices| && c == 125000
    {
      Lattice.PageLattice();
      |vertices| / 3
    }

    /** Button pressed on the canvas: a drag starts; nothing else changes. */
    method MouseDown()
      requires Valid()
      modifies this
      ensures Valid()
      ensures Snapshot() == old(Snapshot()).(dragging := true)
    {
      dragging := true;
    }

    /** Button released on the canvas: the drag ends; nothing else changes. */
    method MouseUp()
      requires Valid()
      modifies this
      ensures Valid()
      ensures Snapshot() == old(Snapshot()).(dragging := false)
    {
      dragging := false;
    }

    /** Pointer moved over the canvas whose top-left corner is at (rectLeft, rectTop)
        and whose size is width by height. Outside a drag nothing happens; during one
        the camera is nudged by the pointer's offset from the canvas centre, moved one
        unit towards +z, and a frame of `drawn` points is drawn. */
    method MouseMove(clientX: real, clientY: real, rectLeft: real, rectTop: real, width: real, height: real)
      returns (drawn: nat)
      requires Valid() && width > 0.0 && height > 0.0
      modifies this
      ensures Valid()
      ensures Snapshot() == Orbit.Step(old(Snapshot()), Orbit.MouseMove(clientX, clientY, rectLeft, rectTop), width, height)
      ensures camZ >= 1.0
      ensures drawn == if old(dragging) then PointCount() else 0
    {
      if !dragging {
        return 0;
      }
      var x := clientX - rectLeft;
      var y := clientY - rectTop;
      camX := camX + Orbit.DeltaX(x, width);
      camY := camY + Orbit.DeltaY(y, height);
      camZ := camZ + 1.0;
      draws := draws + 1;
      drawn := |vertices| / 3;
    }
  }
}
