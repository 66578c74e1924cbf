# Raytracing playground: selection and scene bookkeeping

A model of the bookkeeping in `src/js/Playground.js`, the only logic the playground owns
beside calls into three.js. It covers:

- **scene objects** (`SceneObjects`). A construction either throws when the geometry is
  `undefined` or yields an object with a solid colour and a wire colour. A falsy colour
  (`undefined` or `0`) falls back to `0x009999` or `0x000000`. Objects are references with a
  `root` node and two part nodes, a mesh and a wire.
- **the selection** (`Selections.Selection`). This class holds the list of selected objects,
  the children of its three.js group and the group's visibility. Its methods are `add`,
  `remove`, `clear` and `update`.
- **the scene** (`Scenes.Scene`). This class holds the object list and one selection, with
  `add`, `remove`, `clear`, `update` and the hit test `raycastSceneObject`.
- **the viewport's click decision** (`Viewports.Viewport.SelectSceneObject`).

`ArrayOps` gives the JavaScript array primitives the code uses as functions on sequences:
`indexOf`, `push` behind a membership test, and `splice(index)`. It also holds `RemovedOne`,
the corrected removal `splice(index, 1)`, which the code never calls. Its `Without` stands for three.js
`Object3D.remove` on a node's child list. The selection group's children go through it when a
root is detached, or when a root is added to another parent.

three.js objects are opaque references: `Node` for an `Object3D`, `Geometry` for a geometry.
`null` stands for `undefined`. The group's children are a sequence of root nodes. Re-parenting
a root under the group (`group.add` followed by `SceneUtils.attach`) leaves that root last
among the children. Detaching it (`SceneUtils.detach`) takes it out. So does adding it to the
three.js scene (`Scene.add`), because a node added to a parent first leaves its old parent.

In the following places the code behaves differently from a first reading, and in two of them
differently from its own comments. The model follows the code:

- The selection's `remove` calls `splice(index)` with no count. This drops the removed object
  and every object selected after it. Only the removed object's root is detached, so the roots of the dropped
  objects stay in the group (`TruncatedRootsStayAttached`). They are outlined while something is
  still selected, and hidden with the group once the list is empty.
- `clear` runs `remove(objects[0])` as many times as there were objects. The first call
  empties the list and the later calls remove `undefined`. On an empty selection no call runs
  and `update` is skipped.
- `raycastSceneObject` is commented "keep the closest intersection which corresponds to
  SceneObject". But it compares each hit node with each object's `root` by exact equality. It
  does not walk up the parent chain. A hit on an object's mesh or wire therefore never picks
  that object (`PartHitsPickNothing`). three.js reports only geometry-bearing nodes as hits, never a bare
  `Object3D` root.
- On a miss, `selectSceneObject` leaves the selection as it is.
- `Scene.remove` is commented "remove it from selection if it's selected" and "remove from
  objects if it's in". It calls itself on `object.root` and then on `undefined`. It then throws a
  TypeError, so the scene's own list is never changed. Only the removal from the selection
  takes effect.

## Model

| member | source | states |
|---|---|---|
| SceneObjects.ColorOr | src/js/Playground.js:10-16 | a truthy colour argument is used; `undefined` or `0` gives the default |
| SceneObjects.ZeroSolidColorIsReplaced | src/js/Playground.js:11 | a solid colour of 0 becomes `0x009999`; a wire colour of 0 or `undefined` gives `0x000000` |
| SceneObjects.SceneObject.constructor | src/js/Playground.js:17-23 | keeps geometry and colours; mesh, wire and root are fresh, distinct nodes |
| SceneObjects.NewSceneObject | src/js/Playground.js:7-24 | fails with "'geometry' not provided." exactly when the geometry is `undefined`; otherwise a fresh object with the colour defaults applied, whose root, mesh and wire are fresh, distinct nodes |
| ArrayOps.IndexOf | src/js/Playground.js:60 | -1 exactly when the element is absent; otherwise a position that holds it, with no earlier occurrence |
| ArrayOps.Added | src/js/Playground.js:49-50 | the element is present afterwards; an existing element leaves the list unchanged; otherwise it is appended at the end; no duplicate is created |
| ArrayOps.Removed | src/js/Playground.js:60-62 | the element is absent afterwards; the result is a prefix of the list; an absent element leaves the list unchanged; otherwise the list is cut exactly at the element's first position |
| ArrayOps.RemovedOne | src/js/Playground.js:62 | intended removal: the multiset loses one copy of the element; an absent element leaves the list unchanged |
| ArrayOps.Without | src/js/Playground.js:63 | detaching a node: the node is gone and every other child is kept |
| ArrayOps.AddedIsIdempotent | src/js/Playground.js:47-56 | adding an element twice is the same as adding it once |
| ArrayOps.RemovedUndoesAdded | src/js/Playground.js:47-67 | removing a freshly appended element restores the list |
| ArrayOps.RemovedAt | src/js/Playground.js:60-62 | in a list without duplicates, removing the element at `i` leaves the first `i` elements |
| ArrayOps.RemovedFirstEmpties | src/js/Playground.js:69-74 | removing the first element empties the list |
| ArrayOps.RemovedDropsFollowers | src/js/Playground.js:62 | from `[a, b]`, removing `a` gives `[]`; one-element removal would give `[b]` |
| ArrayOps.RemovedOneIsSetDifference | src/js/Playground.js:62 | without duplicates, one-element removal is set difference |
| Selections.ClearedChildren | src/js/Playground.js:69-74 | after clear, the first object's root is detached, and any later object's root that was attached and differs from it stays attached |
| Selections.TruncatedRootsStayAttached | src/js/Playground.js:58-67 | with distinct attached roots, removing the object at `i` keeps the first `i` objects; every later object leaves the list but its root stays in the group |
| Selections.Selection.constructor | src/js/Playground.js:36-45 | an empty list, no attached roots, and a group that starts visible |
| Selections.Selection.Update | src/js/Playground.js:77-80 | visible iff at least one object is selected |
| Selections.Selection.Add | src/js/Playground.js:47-56 | the list becomes `Added` of the old list; a new object's root is moved last among the group's children; visibility tracks non-emptiness; no duplicates are introduced |
| Selections.Selection.Remove | src/js/Playground.js:58-67 | the list becomes `Removed` of the old list, its first `i` elements for a member found at `i`; a non-member or `undefined` changes nothing; only that member's root is detached; later objects leave the list while their roots stay |
| Selections.Selection.Clear | src/js/Playground.js:69-74 | the list is empty; the children are `ClearedChildren`; hidden if anything was selected, visibility untouched if nothing was |
| Scenes.FindByRoot | src/js/Playground.js:143-145 | the first object whose root is exactly the node, or none when no root equals it |
| Scenes.PickFrom | src/js/Playground.js:140-152 | the earliest hit equal to some root, with no earlier hit equal to any root, and the first object with that root; none iff no hit equals any root |
| Scenes.Picked | src/js/Playground.js:134-153 | none iff no hit equals any object's root; otherwise the object whose root equals the earliest hit that matches any root (no earlier hit matches), and no earlier object has that root |
| Scenes.PartHitsPickNothing | src/js/Playground.js:143-145 | hits on meshes and wires alone pick nothing |
| Scenes.Scene.constructor | src/js/Playground.js:88-94 | an empty object list and a fresh, empty, hidden selection |
| Scenes.Scene.Update | src/js/Playground.js:105-107 | the selection's visibility is refreshed |
| Scenes.Scene.Add | src/js/Playground.js:110-113 | the object is appended without any duplicate check; its root leaves the selection group's children |
| Scenes.Scene.Remove | src/js/Playground.js:116-126 | the selection loses the object as `Selection.Remove` does; then a TypeError is thrown and the scene's list is unchanged |
| Scenes.Scene.Clear | src/js/Playground.js:129-132 | both the scene's list and the selection's list are empty; a valid selection stays valid and ends hidden |
| Scenes.Scene.RaycastSceneObject | src/js/Playground.js:134-153 | returns the picked object, or `undefined` exactly when no hit equals any root |
| Viewports.Viewport.constructor | src/js/Playground.js:156-158 | the viewport refers to its scene |
| Viewports.Viewport.SelectSceneObject | src/js/Playground.js:242-254 | on a hit the selection is exactly `[hit]`, visible and valid; on a miss the selection is untouched |

## Findings

| source | as written | input that shows it | evidently intended | confidence | as-written member | corrected member |
|---|---|---|---|---|---|---|
| src/js/Playground.js:62 | `splice(index)` truncates the list at the removed object | selection `[a, b]`, `remove(a)` leaves `[]`, the group is hidden, and `b`'s root stays in it | `splice(index, 1)`: only the removed object leaves, `[b]` | high (not executed) | ArrayOps.RemovedDropsFollowers | ArrayOps.RemovedOne |

The `Selection` class keeps the truncating removal, because that is how the program behaves.
`RemovedOne` is the intended definition. `RemovedOneIsSetDifference` proves that it behaves
as set difference.

## Left out

- The selection's `center` and `Object3DCenter` (src/js/PlaygroundUtils.js) are left out. They
  are vector arithmetic on three.js objects.
- All three.js work is left out: materials, meshes, edge geometry, world-transform arithmetic in
  `SceneUtils.attach`/`detach`, and the ray–geometry intersection of `Raycaster`. The hit list
  the raycaster returns is an input to `RaycastSceneObject` and `SelectSceneObject`.
- The three.js scene's own child list is not modelled. This includes `scene.add(object.root)`,
  the grid helper and the selection group. Only the selection group's children are modelled,
  including the roots that `Scene.add` takes out of the group.
- `generalProperties` (the background colour) is left out.
- Viewport wiring is left out: `resize`, `animate` and its frame scheduling, `updateOutlinePass`,
  `attachToDOM`, `callbackClick`, the click-to-device-coordinate arithmetic, and the
  `window.onload` setup. They are I/O, DOM, frames and floating point.
- Selections.Selection.Add: takes a non-null object. With `undefined` the code pushes
  `undefined` and then throws on `undefined.root`, and that path is not modelled.
- SceneObjects.NewSceneObject: a `null` geometry is not modelled. It passes the `=== undefined`
  test in the code.
- SceneObjects.ColorOr: only `undefined` and numbers are modelled as colour arguments. Other
  falsy values (`false`, `""`, `NaN`) are not.
- Scenes.Scene.Add: takes a non-null object. With `undefined` the code pushes `undefined` and
  then throws on `undefined.root`, and that path is not modelled.
