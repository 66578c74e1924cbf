/**
 * The click-to-select decision of the playground viewport (src/js/Playground.js,
 * PLAYGROUND.Viewport). Camera, renderer, post-processing and the transform widget are the
 * rendering library's and are not modelled.
 */
module Viewports {
  import opened SceneObjects
  import opened ArrayOps
  import opened Selections
  import opened Scenes

  class Viewport {
    const scene: Scene

    constructor (scene: Scene)
      ensures this.scene == scene
    {
      this.scene := scene;
    }

    /**
     * `selectSceneObject`: the click position is turned into a ray by the camera, and the ray's
     * hits, nearest first, are the input here. On a hit the selection is cleared and the hit
     * object added, so it becomes the only selected object; on a miss nothing changes.
     */
    method SelectSceneObject(hits: seq<Node>)
      modifies scene.selection`objects, scene.selection`children, scene.selection`visible
      ensures Picked(scene.objects, hits).None? ==>
                scene.selection.objects == old(scene.selection.objects) &&
                scene.selection.children == old(scene.selection.children) &&
                scene.selection.visible == old(scene.selection.visible)
      ensures Picked(scene.objects, hits).Some? ==>
                var hit := Picked(scene.objects, hits).value;
                scene.selection.objects == [hit] &&
                scene.selection.visible &&
                scene.selection.Valid() &&
                scene.selection.children ==
                  Without(ClearedChildren(old(scene.selection.objects), old(scene.selection.children)), hit.root)
                  + [hit.root]
    {
      var sceneObject := scene.RaycastSceneObject(hits);
      if sceneObject != null {
        scene.selection.Clear();
        scene.selection.Add(sceneObject);
      }
    }
  }
}
