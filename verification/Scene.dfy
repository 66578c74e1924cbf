/**
 * A playground scene (src/js/Playground.js, PLAYGROUND.Scene): the list of scene objects, the
 * selection, and hit-testing of a ray against the objects' roots.
 */
module Scenes {
  import opened Wrappers
  import opened SceneObjects
  import opened ArrayOps
  import opened Selections

  /**
   * `objs.find(element => element.root == node)`, as the index of the element found: the first
   * object whose root is exactly the node.
   */
  function FindByRoot(objs: seq<SceneObject>, node: Node): (r: Option<nat>)
    ensures r.None? ==> forall j | 0 <= j < |objs| :: objs[j].root != node
    ensures r.Some? ==> r.value < |objs| && objs[r.value].root == node
    ensures r.Some? ==> forall j | 0 <= j < r.value :: objs[j].root != node
  {
    if objs == [] then None
    else if objs[0].root == node then Some(0)
    else match FindByRoot(objs[1..], node)
      case None => None
      case Some(j) => Some(j + 1)
  }

  /** Where a ray picked a scene object: the position of the hit and of the object. */
  datatype Pick = Pick(hit: nat, index: nat)

  /**
   * The hit-test over the hits from position `from` on, nearest first: the first hit whose node
   * is some object's root, and the first object with that root.
   */
  function PickFrom(objs: seq<SceneObject>, hits: seq<Node>, from: nat): (r: Option<Pick>)
    requires from <= |hits|
    decreases |hits| - from
    ensures r.None? ==>
              forall k, j | from <= k < |hits| && 0 <= j < |objs| :: objs[j].root != hits[k]
    ensures r.Some? ==>
              from <= r.value.hit < |hits| && r.value.index < |objs| &&
              objs[r.value.index].root == hits[r.value.hit]
    ensures r.Some? ==>
              forall k, j | from <= k < r.value.hit && 0 <= j < |objs| :: objs[j].root != hits[k]
    ensures r.Some? ==> forall j | 0 <= j < r.value.index :: objs[j].root != hits[r.value.hit]
  {
    if from == |hits| then None
    else match FindByRoot(objs, hits[from])
      case Some(j) => Some(Pick(from, j))
      case None => PickFrom(objs, hits, from + 1)
  }

  /** The object a ray with these hits picks, if any. */
  function Picked(objs: seq<SceneObject>, hits: seq<Node>): (r: Option<SceneObject>)
    ensures r.None? <==> forall k, j | 0 <= k < |hits| && 0 <= j < |objs| :: objs[j].root != hits[k]
    ensures r.Some? ==> r.value in objs && r.value.root in hits
    ensures r.Some? ==>
              exists k | 0 <= k < |hits| ::
                r.value.root == hits[k] &&
                forall k', j | 0 <= k' < k && 0 <= j < |objs| :: objs[j].root != hits[k']
    ensures r.Some? ==>
              exists i | 0 <= i < |objs| ::
                objs[i] == r.value && forall j | 0 <= j < i :: objs[j].root != r.value.root
  {
    match PickFrom(objs, hits, 0)
    case None => None
    case Some(p) =>
      assert objs[p.index].root == hits[p.hit];
      Some(objs[p.index])
  }

  /**
   * A hit on an object's mesh or wire never matches: the comparison is with roots only. When
   * no hit node is any object's root, nothing is picked.
   */
  lemma PartHitsPickNothing(objs: seq<SceneObject>, hits: seq<Node>)
    requires forall k | 0 <= k < |hits| :: exists o | o in objs :: hits[k] == o.mesh || hits[k] == o.wire
    requires forall o, p | o in objs && p in objs :: o.root != p.mesh && o.root != p.wire
    ensures Picked(objs, hits).None?
  {
  }

  class Scene {
    /** The scene objects, in insertion order. */
    var objects: seq<SceneObject>
    const selection: Selection

    /** An empty scene whose selection has been updated once, so it starts hidden. */
    constructor ()
      ensures objects == []
      ensures fresh(selection)
      ensures selection.objects == [] && selection.children == []
      ensures selection.Valid() && !selection.visible
    {
      objects := [];
      selection := new Selection();
      new;
      selection.Update();
    }

    /** `update`: refresh the selection. */
    method Update()
      modifies selection`visible
      ensures selection.visible == (|selection.objects| > 0)
      ensures old(selection.Valid()) ==> selection.Valid()
    {
      selection.Update();
    }

    /**
     * `add`: push the object, with no check for duplicates, and add its root to the three.js
     * scene. Adding a node first takes it out of its current parent, so a root that sits in the
     * selection group (selected, or left there by a truncating `remove`) leaves the group.
     */
    method Add(obj: SceneObject)
      modifies this`objects, selection`children
      ensures objects == old(objects) + [obj]
      ensures selection.children == Without(old(selection.children), obj.root)
      ensures obj.root !in selection.children
    {
      objects := objects + [obj];
      selection.children := Without(selection.children, obj.root);
    }

    /**
     * `remove`: the object is removed from the selection; then the method calls itself on
     * `object.root` and, from there, on `undefined`, whose `root` throws a TypeError before the
     * scene's own list is touched. `null` stands for `undefined`.
     */
    method Remove(obj: SceneObject?) returns (r: Result<(), string>)
      modifies selection`objects, selection`children, selection`visible
      ensures r == Failure(TypeErrorMessage)
      ensures selection.objects == Removed(old(selection.objects), obj)
      ensures selection.children ==
                if obj in old(selection.objects) then Without(old(selection.children), obj.root)
                else old(selection.children)
      ensures selection.visible == (|selection.objects| > 0)
      ensures old(selection.Valid()) ==> selection.Valid()
    {
      selection.Remove(obj);
      if obj != null {
        // The nested calls on `obj.root` and on `undefined` find nothing in the selection.
        selection.Remove(null);
      }
      return Failure(TypeErrorMessage);
    }

    /** `clear`: clear the selection, then forget every scene object. */
    method Clear()
      modifies this`objects, selection`objects, selection`children, selection`visible
      ensures objects == [] && selection.objects == []
      ensures selection.children == ClearedChildren(old(selection.objects), old(selection.children))
      ensures old(selection.Valid()) ==> selection.Valid() && !selection.visible
    {
      selection.Clear();
      objects := [];
    }

    /**
     * `raycastSceneObject`: the ray tracing itself is the renderer's and is replaced by its
     * result, the nodes hit, nearest first. Returns the object `Picked` names, `null` for
     * `undefined`.
     */
    method RaycastSceneObject(hits: seq<Node>) returns (r: SceneObject?)
      ensures r == null <==> Picked(objects, hits).None?
      ensures r != null ==> r == Picked(objects, hits).value
      ensures r != null ==> r in objects
    {
      for i := 0 to |hits|
        invariant PickFrom(objects, hits, i) == PickFrom(objects, hits, 0)
      {
        var found := FindByRoot(objects, hits[i]);
        if found.Some? {
          return objects[found.value];
        }
      }
      return null;
    }
  }

  /**
   * What the self-recursive `remove` ends with. The code only fixes that a TypeError is thrown;
   * the wording is one engine's and stands for any TypeError message.
   */
  const TypeErrorMessage: string := "TypeError: Cannot read property 'root' of undefined"
}
