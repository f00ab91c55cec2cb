/** The editing core of the `Display` class (display.js): the pick list `objects` with the
    invisible ground plane at its head, adding and deleting voxels, the tap/drag counter and
    the ground grid. Rendering, the scene graph and ray casting are not part of the model: the
    result of a ray cast is an input (`Option<Hit>`). */
module Widget {
  import opened Wrappers
  import opened Placement
  import Gesture
  import ObjectList
  import Grid

  /** A CSS colour string such as "#f00". */
  type Color = string

  const DefaultSize: int := 500
  const DefaultStep: int := 50
  /** The ground plane is a 1000 x 1000 square, whatever `size` is. */
  const PlaneWidth: int := 1000

  /** What a mesh in the pick list is. */
  datatype MeshKind =
    | GroundPlane(width: int)
    | Cube(edge: int, color: Color, position: Point3)

  /** A three.js mesh: compared by identity, as `indexOf` and `!=` do. */
  class Mesh {
    const kind: MeshKind

    constructor (kind: MeshKind)
      ensures this.kind == kind
    {
      this.kind := kind;
    }
  }

  /** The view state the display reads when a click happens: the selected colour and the
      erase flag (spelt `earse` in the view). */
  class ViewModel {
    var color: Color
    var earse: bool

    constructor (color: Color, earse: bool)
      ensures this.color == color && this.earse == earse
    {
      this.color := color;
      this.earse := earse;
    }
  }

  /** The nearest intersection of a ray cast: hit point, face normal and the mesh hit. */
  datatype Hit = Hit(point: Vec3, normal: Vec3, obj: Mesh)

  /** JavaScript's `arg || fallback` on a number that may be missing (`None`): 0 is falsy. */
  function OrDefault(arg: Option<int>, fallback: int): (r: int)
    ensures r == fallback || Some(r) == arg
    ensures fallback != 0 ==> r != 0
    ensures arg.Some? && arg.value != 0 ==> r == arg.value
  {
    if arg.Some? && arg.value != 0 then arg.value else fallback
  }

  class Display {
    const vm: ViewModel
    /** Half the width of the build volume and of the grid. */
    const size: int
    /** Grid spacing and voxel edge. */
    const step: int
    /** The pick list: what ray casts are tested against. */
    var objects: seq<Mesh>
    /** Touch moves since the last one-finger touch start. */
    var dragging: int
    /** The invisible ground plane; `null` until `Init`. */
    var plane: Mesh?
    /** The vertices of the ground grid's line segments. */
    var grid: seq<Point3>

    /** The pick list once initialised: the ground plane first, then voxels of edge `step`,
        no mesh twice. */
    ghost predicate Valid()
      reads this
    {
      ValidPickList(objects)
    }

    ghost predicate ValidPickList(s: seq<Mesh>)
      reads this
    {
      plane != null && |s| >= 1 && s[0] == plane &&
      plane.kind == GroundPlane(PlaneWidth) &&
      ObjectList.Distinct(s) &&
      forall k :: 1 <= k < |s| ==> s[k].kind.Cube? && s[k].kind.edge == step
    }

    /** `new Display(size, step, vm)`. */
    constructor (size: Option<int>, step: Option<int>, vm: ViewModel)
      ensures this.vm == vm
      ensures this.size == OrDefault(size, DefaultSize) && this.step == OrDefault(step, DefaultStep)
      ensures objects == [] && dragging == 0 && plane == null && grid == []
    {
      this.vm := vm;
      this.size := OrDefault(size, DefaultSize);
      this.step := OrDefault(step, DefaultStep);
      objects := [];
      dragging := 0;
      plane := null;
      grid := [];
    }

    /** The parts of `init` that touch the model: the grid and the ground plane. With a
        negative step and `size >= 0` the `for` loop of `_initGrid` never ends. */
    method Init()
      requires step > 0
      modifies this`grid, this`plane, this`objects
      ensures grid == Grid.Lines(-size, size, step)
      ensures plane != null && fresh(plane) && plane.kind == GroundPlane(PlaneWidth)
      ensures objects == old(objects) + [plane]
      ensures old(objects) == [] ==> Valid()
    {
      grid := InitGrid();
      InitRaycaster();
    }

    /** `_initGrid`: four vertices per value of `i` from `-size` to `size` in steps of `step`. */
    method InitGrid() returns (vertices: seq<Point3>)
      requires step > 0
      ensures vertices == Grid.Lines(-size, size, step)
    {
      vertices := [];
      var i := -size;
      while i <= size
        invariant vertices + Grid.Lines(i, size, step) == Grid.Lines(-size, size, step)
        decreases size - i
      {
        vertices := vertices + [Point3(-size, 0, i)];
        vertices := vertices + [Point3(size, 0, i)];
        vertices := vertices + [Point3(i, 0, -size)];
        vertices := vertices + [Point3(i, 0, size)];
        i := i + step;
      }
    }

    /** `_initRaycaster`: creates the ground plane and pushes it onto the pick list. */
    method InitRaycaster()
      modifies this`plane, this`objects
      ensures plane != null && fresh(plane) && plane.kind == GroundPlane(PlaneWidth)
      ensures objects == old(objects) + [plane]
      ensures old(objects) == [] ==> Valid()
    {
      var p := new Mesh(GroundPlane(PlaneWidth));
      plane := p;
      objects := objects + [p];
    }

    /** `_onTouchStart`: one finger down resets the counter, more fingers leave it. */
    method OnTouchStart(touches: nat)
      modifies this`dragging
      ensures dragging == Gesture.Next(old(dragging), Gesture.TouchStart(touches))
    {
      if touches == 1 {
        dragging := 0;
      }
    }

    /** `_onTouchMove`. */
    method OnTouchMove()
      modifies this`dragging
      ensures dragging == Gesture.Next(old(dragging), Gesture.TouchMove)
    {
      dragging := dragging + 1;
    }

    /** The voxel `_addCube` pushes for `h`, or no change when the snapped position is outside
        the build volume. */
    twostate predicate CubeAdded(h: Hit)
      reads this, vm
    {
      match Place(h.point, h.normal, size)
      case None => objects == old(objects)
      case Some(pos) =>
        |objects| == |old(objects)| + 1 && objects[..|old(objects)|] == old(objects) &&
        fresh(objects[|old(objects)|]) &&
        objects[|old(objects)|].kind == Cube(step, old(vm.color), pos)
    }

    /** The pick list `_delCube` leaves for `h`: the plane is never removed; any other mesh
        goes through `splice(indexOf(obj), 1)`. */
    twostate predicate CubeDeleted(h: Hit)
      reads this
    {
      objects == if h.obj == old(plane) then old(objects) else ObjectList.RemoveObject(old(objects), h.obj)
    }

    /** What `_click` does with the result of the ray cast. */
    twostate predicate Clicked(hit: Option<Hit>)
      reads this, vm
    {
      match hit
      case None => objects == old(objects)
      case Some(h) => if old(vm.earse) then CubeDeleted(h) else CubeAdded(h)
    }

    /** `_addCube`. */
    method AddCube(hit: Option<Hit>)
      modifies this`objects
      ensures hit.None? ==> objects == old(objects)
      ensures hit.Some? ==> CubeAdded(hit.value)
      ensures old(Valid()) ==> Valid()
    {
      if hit.Some? {
        var h := hit.value;
        var position := SnapPosition(h.point, h.normal);
        if OutsideVolume(position, size) {
          return;
        }
        var voxel := new Mesh(Cube(step, vm.color, position));
        objects := objects + [voxel];
      }
    }

    /** `_delCube`. When the hit mesh is not the plane and is in the list it is taken out and
        nothing else moves; the plane stays at the head as long as the hit mesh comes from the
        list. */
    method DelCube(hit: Option<Hit>)
      modifies this`objects
      ensures hit.None? ==> objects == old(objects)
      ensures hit.Some? ==> CubeDeleted(hit.value)
      ensures hit.Some? && hit.value.obj == plane ==> objects == old(objects)
      ensures hit.Some? && hit.value.obj != plane && hit.value.obj in old(objects) ==>
                |objects| == |old(objects)| - 1 &&
                multiset(objects) + multiset{hit.value.obj} == multiset(old(objects))
      ensures old(Valid()) && hit.Some? && hit.value.obj in old(objects) ==>
                Valid() && (hit.value.obj != plane ==> hit.value.obj !in objects)
    {
      if hit.Some? {
        var h := hit.value;
        if h.obj != plane {
          ghost var before := objects;
          ghost var wasValid := ValidPickList(before);
          objects := ObjectList.SpliceOne(objects, ObjectList.IndexOf(objects, h.obj));
          assert objects == ObjectList.RemoveObject(before, h.obj);
          if h.obj in before {
            ObjectList.RemovePresent(before, h.obj);
            if wasValid {
              DeleteKeepsPickList(before, h.obj);
            }
          }
        }
      }
    }

    /** Deleting a voxel of a valid pick list leaves a valid pick list without it. */
    lemma DeleteKeepsPickList(s: seq<Mesh>, o: Mesh)
      requires ValidPickList(s) && o in s && o != plane
      ensures ValidPickList(ObjectList.RemoveObject(s, o))
      ensures o !in ObjectList.RemoveObject(s, o)
    {
      var r := ObjectList.RemoveObject(s, o);
      var i := ObjectList.IndexOf(s, o);
      ObjectList.RemoveKeepsHead(s, o);
      ObjectList.RemovedIsGone(s, o);
      assert r == s[..i] + s[i + 1..];
      forall k | 1 <= k < |r|
        ensures r[k].kind.Cube? && r[k].kind.edge == step
      {
        assert r[k] == if k < i then s[k] else s[k + 1];
      }
    }

    /** `_click`: nothing without a hit, otherwise delete in erase mode and add otherwise.
        Hits come from a ray cast against `objects`, so the hit mesh is in the list. */
    method Click(hit: Option<Hit>)
      requires hit.Some? ==> hit.value.obj in objects
      modifies this`objects
      ensures Clicked(hit)
      ensures old(Valid()) ==> Valid()
    {
      if hit.Some? {
        if vm.earse {
          DelCube(hit);
        } else {
          AddCube(hit);
        }
      }
    }

    /** `_onTouchEnd`: a click when no finger remains and fewer than three moves were counted.
        `hit` is what the ray cast at the released touch would return. */
    method OnTouchEnd(remaining: nat, hit: Option<Hit>) returns (clicked: bool)
      requires hit.Some? ==> hit.value.obj in objects
      modifies this`objects
      ensures clicked == Gesture.FiresClick(dragging, Gesture.TouchEnd(remaining))
      ensures clicked ==> Clicked(hit)
      ensures !clicked ==> objects == old(objects)
      ensures old(Valid()) ==> Valid()
    {
      clicked := remaining == 0 && dragging < Gesture.TapThreshold;
      if clicked {
        Click(hit);
      }
    }
  }

  /** An editing session as the view drives it: a tap on the ground plane adds a voxel at
      (25, 25, 25) in the selected colour; in erase mode a tap on that voxel removes it again,
      leaving the plane alone. */
  method EditSession()
  {
    var vm := new ViewModel("#f00", false);
    var d := new Display(Some(500), Some(50), vm);
    d.Init();
    var plane := d.plane;
    assert d.objects == [plane];

    d.OnTouchStart(1);
    d.OnTouchMove();
    d.OnTouchMove();
    AddScenario();
    var clicked := d.OnTouchEnd(0, Some(Hit(Vec3(10.0, 0.0, 10.0), Vec3(0.0, 1.0, 0.0), plane)));
    assert clicked;
    assert |d.objects| == 2 && d.objects[0] == plane;
    var voxel := d.objects[1];
    assert voxel.kind == Cube(50, "#f00", Point3(25, 25, 25));

    vm.earse := true;
    d.OnTouchStart(1);
    clicked := d.OnTouchEnd(0, Some(Hit(Vec3(30.0, 50.0, 30.0), Vec3(0.0, 1.0, 0.0), voxel)));
    assert clicked;
    assert d.objects == [plane];
  }
}
