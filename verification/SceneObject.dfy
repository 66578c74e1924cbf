/** Scene objects of the playground (src/js/Playground.js, PLAYGROUND.SceneObject). */
module SceneObjects {
  import opened Wrappers

  /** An opaque three.js scene-graph node (an Object3D, Mesh or LineSegments). */
  class Node {
    constructor () { }
  }

  /** An opaque three.js geometry. */
  class Geometry {
    constructor () { }
  }

  /** A colour argument as JavaScript passes it: left out (`undefined`) or a number. */
  datatype ColorArg = Undefined | Number(value: int)

  /** JavaScript truthiness of a colour argument: `undefined` and `0` are falsy. */
  predicate Truthy(c: ColorArg) {
    c.Number? && c.value != 0
  }

  const DefaultSolidColor: int := 0x009999
  const DefaultWireColor: int := 0x000000

  /** The message the constructor throws when no geometry is given. */
  const GeometryMissing: string := "'geometry' not provided."

  /** `c ? c : default`: a truthy argument is kept, a falsy one gives way to the default. */
  function ColorOr(c: ColorArg, default: int): (r: int)
    ensures Truthy(c) ==> r == c.value
    ensures !Truthy(c) ==> r == default
  {
    if Truthy(c) then c.value else default
  }

  /** Worked example of the falsy `0`: a solid colour of 0 is replaced by the default teal. */
  lemma ZeroSolidColorIsReplaced()
    ensures ColorOr(Number(0), DefaultSolidColor) == 0x009999
    ensures ColorOr(Number(0), DefaultWireColor) == 0
    ensures ColorOr(Undefined, DefaultWireColor) == 0
  {
  }

  /**
   * A visible entity: a solid mesh and a wireframe of the same geometry, both children of one
   * root node. The object's identity is its reference; `root` is what hit-testing compares.
   */
  class SceneObject {
    const geometry: Geometry
    const solidColor: int
    const wireColor: int
    const mesh: Node
    const wire: Node
    const root: Node

    constructor (geometry: Geometry, solidColor: int, wireColor: int)
      ensures this.geometry == geometry
      ensures this.solidColor == solidColor && this.wireColor == wireColor
      ensures fresh(mesh) && fresh(wire) && fresh(root)
      ensures root != mesh && root != wire && mesh != wire
    {
      this.geometry := geometry;
      this.solidColor := solidColor;
      this.wireColor := wireColor;
      mesh := new Node();
      wire := new Node();
      root := new Node();
    }
  }

  /**
   * `new PLAYGROUND.SceneObject(geometry, solidColor, wireColor)`: throws when the geometry is
   * `undefined`, otherwise builds the object with falsy colours replaced by the defaults.
   */
  method NewSceneObject(geometry: Option<Geometry>, solidColor: ColorArg, wireColor: ColorArg)
    returns (r: Result<SceneObject, string>)
    ensures r.Failure? <==> geometry.None?
    ensures r.Failure? ==> r.error == GeometryMissing
    ensures r.Success? ==> fresh(r.value) && fresh(r.value.root)
    ensures r.Success? ==> fresh(r.value.mesh) && fresh(r.value.wire)
    ensures r.Success? ==>
              r.value.root != r.value.mesh && r.value.root != r.value.wire && r.value.mesh != r.value.wire
    ensures r.Success? ==> r.value.geometry == geometry.value
    ensures r.Success? ==> r.value.solidColor == ColorOr(solidColor, DefaultSolidColor)
    ensures r.Success? ==> r.value.wireColor == ColorOr(wireColor, DefaultWireColor)
  {
    if geometry.None? {
      return Failure(GeometryMissing);
    }
    var o := new SceneObject(geometry.value,
                             ColorOr(solidColor, DefaultSolidColor),
                             ColorOr(wireColor, DefaultWireColor));
    return Success(o);
  }
}
