/**
 * The scene of src/scene/scene.cpp: an append-only list of hittables. The
 * element type is a parameter so that the same list serves the cube of
 * quads and the scene of primitives.
 */
module Scenes {

  class Scene<T> {
    var hittables: seq<T>

    /** A new scene holds no hittable. */
    constructor ()
      ensures hittables == []
    {
      hittables := [];
    }

    /** `add_hittable`: `push_back` onto the list. */
    method AddHittable(obj: T)
      modifies this
      ensures hittables == old(hittables) + [obj]
    {
      hittables := hittables + [obj];
    }

    /** `get_hittables`: a copy of the list, in insertion order; the scene is unchanged. */
    method GetHittables() returns (list: seq<T>)
      ensures list == hittables
    {
      list := hittables;
    }
  }
}
