/**
 * The selection of a playground scene (src/js/Playground.js, `this.selection` inside
 * PLAYGROUND.Scene): the list of selected scene objects, the three.js group their roots are
 * attached to, and the group's visibility.
 */
module Selections {
  import opened SceneObjects
  import opened ArrayOps

  /**
   * The group's children after `clear` on `objects`: the first `remove` detaches the first
   * object's root and truncates the list, so no later root is ever detached.
   */
  function ClearedChildren(objects: seq<SceneObject>, children: seq<Node>): (r: seq<Node>)
    ensures objects == [] ==> r == children
    ensures objects != [] ==> objects[0].root !in r
    ensures forall n :: n in r ==> n in children
    ensures forall k | 0 < k < |objects| ::
              objects[k].root != objects[0].root && objects[k].root in children ==> objects[k].root in r
  {
    if objects == [] then children else Without(children, objects[0].root)
  }

  /**
   * When every selected root is attached and roots are distinct, removing the object at `i`
   * keeps the first `i` objects, and every object after `i` leaves the list while its root
   * stays attached to the group.
   */
  lemma TruncatedRootsStayAttached(objects: seq<SceneObject>, children: seq<Node>, i: nat)
    requires i < |objects|
    requires forall j, k | 0 <= j < k < |objects| :: objects[j].root != objects[k].root
    requires forall o | o in objects :: o.root in children
    ensures Removed(objects, objects[i]) == objects[..i]
    ensures forall k | i < k < |objects| ::
              objects[k] !in Removed(objects, objects[i]) && objects[k].root in Without(children, objects[i].root)
  {
  }

  class Selection {
    /** The selected scene objects, in selection order. */
    var objects: seq<SceneObject>
    /** The children of the three.js selection group: the roots attached to it. */
    var children: seq<Node>
    /** `group.visible`. */
    var visible: bool

    /** The invariant `update` and the membership test keep: no duplicates, visible iff non-empty. */
    ghost predicate Valid()
      reads this
    {
      Unique(objects) && visible == (|objects| > 0)
    }

    /** An empty list and a fresh three.js group, which starts out visible. */
    constructor ()
      ensures objects == [] && children == [] && visible
    {
      objects := [];
      children := [];
      visible := true;
    }

    /** `update`: the group is shown exactly when something is selected. */
    method Update()
      modifies this`visible
      ensures visible == (|objects| > 0)
      ensures old(Unique(objects)) ==> Valid()
    {
      visible := |objects| > 0;
    }

    /**
     * `add`: append the object unless it is already selected, and re-parent its root under the
     * group (`group.add` then `SceneUtils.attach` leave it last among the group's children).
     */
    method Add(obj: SceneObject)
      modifies this`objects, this`children, this`visible
      ensures objects == Added(old(objects), obj)
      ensures obj in old(objects) ==> objects == old(objects) && children == old(children)
      ensures obj !in old(objects) ==>
                objects == old(objects) + [obj] &&
                children == Without(old(children), obj.root) + [obj.root]
      ensures visible == (|objects| > 0)
      ensures old(Unique(objects)) ==> Valid()
    {
      if IndexOf(objects, obj) == -1 {
        objects := objects + [obj];
        children := Without(children, obj.root) + [obj.root];
      }
      Update();
    }

    /**
     * `remove`: when the object is selected at index `i`, `splice(i)` keeps only the first `i`
     * objects, and only the removed object's root is detached from the group. `null` stands for
     * `undefined`, which is never found.
     */
    method Remove(obj: SceneObject?)
      modifies this`objects, this`children, this`visible
      ensures objects == Removed(old(objects), obj)
      ensures obj !in old(objects) ==> objects == old(objects) && children == old(children)
      ensures obj in old(objects) ==>
                objects == old(objects)[..IndexOf(old(objects), obj)] &&
                children == Without(old(children), obj.root)
      ensures obj in old(objects) && old(Unique(objects)) ==>
                forall k | IndexOf(old(objects), obj) < k < |old(objects)| ::
                  old(objects)[k].root != obj.root && old(objects)[k].root in old(children) ==>
                    old(objects)[k] !in objects && old(objects)[k].root in children
      ensures visible == (|objects| > 0)
      ensures old(Unique(objects)) ==> Valid()
    {
      var index := IndexOf(objects, obj);
      if index != -1 {
        objects := objects[..index];
        children := Without(children, obj.root);
      }
      Update();
    }

    /**
     * `clear`: `n = objects.length` calls of `remove(objects[0])`. The first call empties the
     * list; the others remove `undefined`. When the list is already empty nothing runs, not
     * even `update`, so the visibility is left as it was.
     */
    method Clear()
      modifies this`objects, this`children, this`visible
      ensures objects == []
      ensures children == ClearedChildren(old(objects), old(children))
      ensures old(objects) != [] ==> !visible
      ensures old(objects) == [] ==> visible == old(visible)
      ensures old(Valid()) ==> Valid()
    {
      var n := |objects|;
      for i := 0 to n
        invariant i == 0 ==> objects == old(objects) && children == old(children) && visible == old(visible)
        invariant 0 < i ==> objects == [] && !visible
        invariant 0 < i ==> children == ClearedChildren(old(objects), old(children))
      {
        if i == 0 {
          RemovedFirstEmpties(objects);
        }
        Remove(if |objects| > 0 then objects[0] else null);
      }
    }
  }
}
