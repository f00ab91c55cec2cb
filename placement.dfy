/** Where a new voxel goes: the hit point is pushed one unit out along the face normal,
    snapped to the centre of the 50-unit grid cell it lands in, and kept only if that centre
    lies in the build volume (display.js, `_addCube`). */
module Placement {
  import opened Wrappers

  /** A coordinate triple as three.js holds it (hit points, face normals). */
  datatype Vec3 = Vec3(x: real, y: real, z: real)

  /** An integral position: a snapped voxel centre or a grid vertex. */
  datatype Point3 = Point3(x: int, y: int, z: int)

  /** The snap uses these literals, not the display's `step`. */
  const Cell: int := 50
  const HalfCell: int := 25

  /** `c` is the centre of the grid cell that contains `v`: cells are the half-open
      intervals [50m, 50m + 50), centred at 50m + 25. */
  ghost predicate IsCentreOf(c: int, v: real)
  {
    (c - HalfCell) % Cell == 0 && (c - HalfCell) as real <= v < (c + HalfCell) as real
  }

  /** `floor(v / 50) * 50 + 25` on one axis. */
  function Snap(v: real): (c: int)
    ensures IsCentreOf(c, v)
  {
    var m := (v / Cell as real).Floor;
    assert m as real <= v / 50.0 < m as real + 1.0;
    m * Cell + HalfCell
  }

  /** The cell containing a value is unique, so `Snap` is the one centre a coordinate can have. */
  lemma SnapUnique(c: int, v: real)
    ensures IsCentreOf(c, v) <==> c == Snap(v)
  {
    if IsCentreOf(c, v) {
      var m := (c - HalfCell) / Cell;
      assert c == m * 50 + 25;
      assert m as real * 50.0 <= v < m as real * 50.0 + 50.0;
      assert m as real <= v / 50.0 < m as real + 1.0;
      assert (v / 50.0).Floor == m;
    }
  }

  function Add(p: Vec3, n: Vec3): Vec3
  {
    Vec3(p.x + n.x, p.y + n.y, p.z + n.z)
  }

  /** `position.copy(point).add(normal).divideScalar(50).floor().multiplyScalar(50).addScalar(25)` */
  function SnapPosition(point: Vec3, normal: Vec3): Point3
  {
    var v := Add(point, normal);
    Point3(Snap(v.x), Snap(v.y), Snap(v.z))
  }

  /** The rejection test of `_addCube`, in the source's order. There is no upper bound on y. */
  predicate OutsideVolume(pos: Point3, size: int)
  {
    pos.y < 0 || pos.x > size || pos.z > size || pos.z < -size || pos.x < -size
  }

  /** The position `_addCube` gives the new voxel, or `None` when it returns early. */
  function Place(point: Vec3, normal: Vec3, size: int): Option<Point3>
  {
    var pos := SnapPosition(point, normal);
    if OutsideVolume(pos, size) then None else Some(pos)
  }

  /** Independent description of an accepted position: the centre of the cell holding
      point + normal on every axis, on or above the ground and within `size` horizontally. */
  ghost predicate Admissible(c: Point3, v: Vec3, size: int)
  {
    IsCentreOf(c.x, v.x) && IsCentreOf(c.y, v.y) && IsCentreOf(c.z, v.z) &&
    0 <= c.y && -size <= c.x <= size && -size <= c.z <= size
  }

  /** `Place` accepts exactly the admissible centre. */
  lemma PlaceCharacterised(point: Vec3, normal: Vec3, size: int, c: Point3)
    ensures Place(point, normal, size) == Some(c) <==> Admissible(c, Add(point, normal), size)
  {
    var v := Add(point, normal);
    SnapUnique(c.x, v.x);
    SnapUnique(c.y, v.y);
    SnapUnique(c.z, v.z);
  }

  /** An accepted voxel never sits below the first layer: its centre is at y >= 25. */
  lemma {:induction false} PlacedAboveGround(point: Vec3, normal: Vec3, size: int)
    requires Place(point, normal, size).Some?
    ensures Place(point, normal, size).value.y >= HalfCell
    ensures (Place(point, normal, size).value.y - HalfCell) % Cell == 0
  {
    var c := Place(point, normal, size).value;
    assert IsCentreOf(c.y, Add(point, normal).y);
    var m := (c.y - HalfCell) / Cell;
    assert c.y == m * Cell + HalfCell;
  }

  /** There is no ceiling: a ray that hits anything above the origin column at any height
      still places a voxel (for a volume at least one cell wide). */
  lemma NoCeiling(h: real, size: int)
    requires 0.0 <= h && HalfCell <= size
    ensures Place(Vec3(0.0, h, 0.0), Vec3(0.0, 1.0, 0.0), size).Some?
  {
    SnapUnique(HalfCell, 0.0);
    var c := Snap(h + 1.0);
    assert c as real + 25.0 > h + 1.0;
  }

  /** Clicking the ground plane (y = 0, normal pointing up) places in the first layer. */
  lemma GroundHitFirstLayer(px: real, pz: real)
    ensures SnapPosition(Vec3(px, 0.0, pz), Vec3(0.0, 1.0, 0.0)).y == HalfCell
  {
    SnapUnique(HalfCell, 1.0);
  }

  /** Clicking the face of an existing voxel of edge 50 (`step == 50`, what the view passes)
      places into the neighbouring cell along the face normal: for an axis where the voxel's
      centre is `c` and the normal is +1 or -1, the hit point lies on the face at c +- 25 and
      the new centre is c +- 50. */
  lemma SnapAcrossFace(c: int, d: int)
    requires (c - HalfCell) % Cell == 0
    requires d == 1 || d == -1
    ensures Snap((c + HalfCell * d + d) as real) == c + Cell * d
  {
    SnapUnique(c + Cell * d, (c + HalfCell * d + d) as real);
  }

  /** ... and on the two axes in the plane of the face, a hit point inside the face keeps
      the voxel's centre. */
  lemma SnapWithinFace(c: int, v: real)
    requires (c - HalfCell) % Cell == 0
    requires (c - HalfCell) as real <= v < (c + HalfCell) as real
    ensures Snap(v) == c
  {
    SnapUnique(c, v);
  }

  /** Stacking, for voxels of edge 50 (`step == 50`): a click on the top face of the voxel
      centred at `c` puts the new voxel straight above it. */
  lemma StackOnTop(c: Point3, px: real, pz: real)
    requires (c.x - HalfCell) % Cell == 0 && (c.y - HalfCell) % Cell == 0 && (c.z - HalfCell) % Cell == 0
    requires (c.x - HalfCell) as real <= px < (c.x + HalfCell) as real
    requires (c.z - HalfCell) as real <= pz < (c.z + HalfCell) as real
    ensures SnapPosition(Vec3(px, (c.y + HalfCell) as real, pz), Vec3(0.0, 1.0, 0.0))
            == Point3(c.x, c.y + Cell, c.z)
  {
    SnapWithinFace(c.x, px);
    SnapWithinFace(c.z, pz);
    SnapAcrossFace(c.y, 1);
    assert (c.y + HalfCell) as real + 1.0 == (c.y + HalfCell * 1 + 1) as real;
  }

  /** The snap ignores the voxel edge: with edge 20 (`step == 20`) the voxel centred at
      (25, 25, 25) has its top face at y = 35, and a click there snaps back into the same
      cell, so the new voxel gets the same centre as the one clicked. */
  lemma StackWithSmallEdge(px: real, pz: real)
    requires 0.0 <= px < 50.0 && 0.0 <= pz < 50.0
    ensures SnapPosition(Vec3(px, 35.0, pz), Vec3(0.0, 1.0, 0.0)) == Point3(25, 25, 25)
  {
    SnapWithinFace(25, px);
    SnapWithinFace(25, pz);
    SnapWithinFace(25, 36.0);
  }

  /** Point (10, 0, 10) with normal (0, 1, 0) gives the voxel centre (25, 25, 25). */
  lemma AddScenario()
    ensures Place(Vec3(10.0, 0.0, 10.0), Vec3(0.0, 1.0, 0.0), 500) == Some(Point3(25, 25, 25))
  {
    SnapUnique(25, 10.0);
    SnapUnique(25, 1.0);
  }

  /** Point (510, 0, 0) with normal (1, 0, 0) snaps to x = 525, beyond a size of 500. */
  lemma RejectScenario()
    ensures SnapPosition(Vec3(510.0, 0.0, 0.0), Vec3(1.0, 0.0, 0.0)).x == 525
    ensures Place(Vec3(510.0, 0.0, 0.0), Vec3(1.0, 0.0, 0.0), 500) == None
  {
    var v := Add(Vec3(510.0, 0.0, 0.0), Vec3(1.0, 0.0, 0.0));
    assert v.x == 511.0;
    SnapUnique(525, 511.0);
    assert SnapPosition(Vec3(510.0, 0.0, 0.0), Vec3(1.0, 0.0, 0.0)).x == 525;
  }
}
