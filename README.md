# Voxel editor display: a Dafny model

This project models the editing core of the `Display` class of a browser voxel editor
(`src/module/widget/display/display.js`). A user taps the ground plane or the face of a voxel:
a tap adds a voxel in the neighbouring grid cell, or in erase mode removes the voxel tapped.
The model covers:

- **Placement** (`Placement`): the hit point plus the face normal, snapped on each axis to
  `floor(v / 50) * 50 + 25`. The result is accepted unless `y < 0`, `|x| > size` or `|z| > size`.
  The snap uses the literals 50 and 25, not the display's `step`. The voxel's edge does use `step`.
  The code has no upper bound on `y`, and the model has none either.
- **The pick list** (`Widget.Display.objects`, with `ObjectList` for JavaScript's `indexOf` and
  `splice`). It is empty after construction. `Init` pushes the invisible ground plane, `AddCube`
  appends a voxel, and `DelCube` splices out the hit mesh unless it is the plane. The invariant
  `Valid` says the plane stays at index 0, every other entry is a voxel of edge `step`, and no
  mesh appears twice. Every add and every delete of a listed mesh preserves it.
- **Tap or drag** (`Gesture` as the specification, `Widget.Display.OnTouch*` as the handlers).
  A one-finger touch start resets the `_dragging` counter. Every move increments it. A touch end
  clicks when no finger remains and the counter is below 3. A click deletes in erase mode and adds
  otherwise, and does nothing without a hit.
- **The ground grid** (`Grid`, `Widget.Display.InitGrid`). The `_initGrid` loop steps from
  `-size` to `size` by `step` and pushes four vertices per step.

Coordinates are exact `real`s; positions and grid vertices are `int`s. A ray cast's result is an
input of type `Option<Hit>`: a hit point, a face normal and the mesh hit. Meshes are objects of
class `Mesh`, compared by identity as `indexOf` and `!=` compare them.

The code has no vertical limit on placement (`Placement.NoCeiling`).

`Widget.EditSession` walks through one editing session using only the handlers' contracts. A one-finger tap with two moves on the ground plane adds a voxel at (25, 25, 25) in the selected colour. In erase mode, a tap on that voxel removes it, and the pick list holds only the plane again.

## Model

| member | source | states |
|---|---|---|
| Placement.Snap | src/module/widget/display/display.js:160 | the snapped coordinate is the centre of the 50-wide cell holding the input: `c - 25` is a multiple of 50 and `c - 25 <= v < c + 25` |
| Placement.SnapUnique | src/module/widget/display/display.js:160 | a coordinate has only one such centre, so any `c` meeting the cell condition is the snap (both directions) |
| Placement.PlaceCharacterised | src/module/widget/display/display.js:159-169 | `_addCube` accepts position `c` iff `c` is the cell centre of point + normal on every axis and `y >= 0`, `-size <= x, z <= size` |
| Placement.PlacedAboveGround | src/module/widget/display/display.js:160-162 | an accepted voxel's centre has `y >= 25` and `y - 25` a multiple of 50 |
| Placement.NoCeiling | src/module/widget/display/display.js:161-167 | no height is rejected: a hit at any height above the origin column places a voxel |
| Placement.GroundHitFirstLayer | src/module/widget/display/display.js:159-160 | a hit on the ground plane (y = 0, normal up) places in the first layer, y = 25 |
| Placement.SnapAcrossFace | src/module/widget/display/display.js:159-160 | for voxels of edge 50 (`step == 50`, what the view passes at display.js:206), a hit on the face of a voxel centred at `c` along a normal of +1 or -1 lands in the neighbouring cell `c +- 50` |
| Placement.SnapWithinFace | src/module/widget/display/display.js:159-160 | on the axes in the face's plane, a point inside the voxel's cell keeps the voxel's centre |
| Placement.StackOnTop | src/module/widget/display/display.js:159-160 | for voxels of edge 50 (`step == 50`), a hit on a voxel's top face places the new voxel directly above it |
| Placement.StackWithSmallEdge | src/module/widget/display/display.js:152-160 | the snap ignores the voxel edge: with edge 20 a hit on the top face (y = 35) of the voxel centred at (25, 25, 25) snaps back to that same centre, so the new voxel gets the same centre as the one clicked |
| Placement.AddScenario | src/module/widget/display/display.js:159-169 | point (10, 0, 10) with normal (0, 1, 0) and size 500 gives the centre (25, 25, 25) |
| Placement.RejectScenario | src/module/widget/display/display.js:159-169 | point (510, 0, 0) with normal (1, 0, 0) snaps to x = 525 and is rejected for size 500 |
| Gesture.MovesCount | src/module/widget/display/display.js:128-130 | each move adds exactly one to the counter, and moves never click |
| Gesture.RunAppend | src/module/widget/display/display.js:110-136 | the counter and the number of clicks compose over consecutive runs of events |
| Gesture.TapIffFewMoves | src/module/widget/display/display.js:110-136 | one-finger start, `k` moves, release: exactly one click when `k < 3`, none otherwise |
| Gesture.TwoFingerGesture | src/module/widget/display/display.js:110-136 | a second finger does not reset the counter: a two-finger gesture clicks once, on the last release, iff fewer than 3 moves happened in all |
| Gesture.NoClickWhileTouching | src/module/widget/display/display.js:111 | no click happens while some finger stays down |
| Gesture.CounterNonNegative | src/module/widget/display/display.js:6 | from the constructor's 0 the counter never becomes negative |
| ObjectList.IndexOf | src/module/widget/display/display.js:179 | `indexOf` gives -1 iff the object is absent, else an index holding it with no earlier occurrence |
| ObjectList.RemovePresent | src/module/widget/display/display.js:179 | `splice(indexOf(o), 1)` on a present `o` shortens the list by one, and reinserting `o` at its index restores the list, so the others keep their order; the multiset loses exactly `o` |
| ObjectList.RemovedIsGone | src/module/widget/display/display.js:179 | in a list without repeats the removed object is gone and the list still has no repeats |
| ObjectList.RemoveKeepsHead | src/module/widget/display/display.js:177-179 | removing a present object other than the head keeps the head |
| ObjectList.RemoveAbsentDropsLast | src/module/widget/display/display.js:179 | for an absent object `indexOf` is -1 and `splice(-1, 1)` drops the last entry |
| Grid.LinesLength | src/module/widget/display/display.js:43-48 | the loop runs `(size - i) / step + 1` times from `i` (0 when `i > size`) and pushes 4 vertices each time |
| Grid.GridSize | src/module/widget/display/display.js:41-48 | the grid has `4 * (2 * size / step + 1)` vertices for size >= 0 |
| Grid.LinesOnGround | src/module/widget/display/display.js:43-48 | every vertex has y = 0 and x, z within `[-size, size]` |
| Grid.GridClosed | src/module/widget/display/display.js:43-48 | when `step` divides `2 * size`, the last iteration runs at `i == size`, drawing the far border |
| Widget.OrDefault | src/module/widget/display/display.js:3-4 | the or-default of `size` and `step`: a missing or zero argument gives the fallback, so the result is never 0 when the fallback is not |
| Widget.Display.constructor | src/module/widget/display/display.js:1-7 | size and step default to 500 and 50; the pick list is empty and the counter is 0 |
| Widget.Display.Init | src/module/widget/display/display.js:11-22 | builds the grid and pushes the plane; a fresh display becomes `Valid` |
| Widget.Display.InitGrid | src/module/widget/display/display.js:40-48 | the loop's vertices are exactly `Grid.Lines(-size, size, step)` |
| Widget.Display.InitRaycaster | src/module/widget/display/display.js:54-65 | a new 1000 x 1000 ground plane is appended to the pick list |
| Widget.Display.OnTouchStart | src/module/widget/display/display.js:132-136 | the counter becomes `Gesture.Next` of a start: 0 iff exactly one touch is active, otherwise unchanged |
| Widget.Display.OnTouchMove | src/module/widget/display/display.js:128-130 | the counter grows by exactly one |
| Widget.Display.OnTouchEnd | src/module/widget/display/display.js:110-115 | clicks iff no touch remains and the counter is below 3; otherwise the pick list is unchanged; `Valid` is preserved |
| Widget.Display.Click | src/module/widget/display/display.js:117-126 | no hit: no change; erase mode: the effect of `_delCube`; otherwise the effect of `_addCube`; `Valid` is preserved |
| Widget.Display.AddCube | src/module/widget/display/display.js:150-173 | a rejected position leaves the list unchanged; an accepted one appends exactly one fresh voxel at the end with edge `step`, the selected colour and the snapped position, earlier entries unchanged |
| Widget.Display.DelCube | src/module/widget/display/display.js:175-182 | the plane is never removed; a listed voxel is removed, the length drops by one and the multiset loses exactly it; `Valid` is kept and the voxel is gone when the hit mesh is listed |
| Widget.Display.DeleteKeepsPickList | src/module/widget/display/display.js:177-179 | deleting a listed voxel keeps the plane at index 0, every other entry a voxel, and no repeats |

## Left out

- Camera, controls, scene, lights and renderer set-up (`_initCamera`, `_initControls`, `_initScene`, `_initLight`, `_initRender`, `render`): these only call the 3D library.
- Ray casting (`_getIntersect`): the device-coordinate arithmetic is floating point and the intersection is a library call. The hit is an input. `Click` and `OnTouchEnd` require that a hit mesh is in the pick list, which holds because the source casts against `this.objects`.
- `_bind`, `_bindEvents` and `_onWindowResize`: event plumbing, `preventDefault`, the re-render after every handler, and window-size reads.
- The coordinates of `event.changedTouches[0]`: they only feed the ray cast.
- `scene.add` and `scene.remove`, and the material, geometry and texture objects, including the shared cube texture. A voxel keeps only its edge, colour and position.
- The view component (palette data, the `ready` hook, the WebGL capability stub). `ViewModel` keeps only `color` and `earse`.
- Floating point: coordinates are exact reals, so rounding in `divideScalar` and `add` is not modelled.
- Non-integer `size` or `step` arguments (fractions, `NaN`, strings): `OrDefault` models an integer or a missing argument.
- Widget.Display.Init: requires a positive `step`. With a negative step and `size >= 0` the grid loop of the source never ends; with `size < 0` it never runs.
- Widget.Display.DelCube: `Valid` is only promised when the hit mesh is in the list. For an absent mesh, `splice(-1, 1)` drops the last entry (`ObjectList.RemoveAbsentDropsLast`), which could be the plane.
