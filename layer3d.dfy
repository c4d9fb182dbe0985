/** graphics::Layer3D (sombra-engine Layer3D.cpp): the renderables and lights drawn
    by a 3D layer. Both are lists of non-owning pointers; adding null is ignored, and
    removing takes out every occurrence. Renderables and lights are referred to by
    address. The render pass itself is left out. */
module Layers3D {
  import opened Wrappers
  import opened SeqUtils

  /** The address of a Renderable3D. */
  type RenderableId = nat
  /** The address of an ILight. */
  type LightId = nat

  class Layer3D {
    var renderable3Ds: seq<RenderableId>
    var lights: seq<LightId>

    constructor ()
      ensures renderable3Ds == [] && lights == []
    {
      renderable3Ds := [];
      lights := [];
    }

    /** addRenderable3D: a null pointer is ignored, any other is appended. */
    method AddRenderable3D(renderable3D: Option<RenderableId>)
      modifies this
      ensures renderable3Ds == if renderable3D.None? then old(renderable3Ds) else old(renderable3Ds) + [renderable3D.value]
      ensures lights == old(lights)
    {
      if renderable3D.Some? {
        renderable3Ds := renderable3Ds + [renderable3D.value];
      }
    }

    /** removeRenderable3D: every occurrence goes, the others keep their order. */
    method RemoveRenderable3D(renderable3D: RenderableId)
      modifies this
      ensures renderable3Ds == RemoveAll(old(renderable3Ds), renderable3D)
      ensures renderable3D !in renderable3Ds
      ensures multiset(renderable3Ds) == multiset(old(renderable3Ds))[renderable3D := 0]
      ensures lights == old(lights)
    {
      RemoveAllCounts(renderable3Ds, renderable3D);
      renderable3Ds := RemoveAll(renderable3Ds, renderable3D);
    }

    /** addLight: a null pointer is ignored, any other is appended. */
    method AddLight(light: Option<LightId>)
      modifies this
      ensures lights == if light.None? then old(lights) else old(lights) + [light.value]
      ensures renderable3Ds == old(renderable3Ds)
    {
      if light.Some? {
        lights := lights + [light.value];
      }
    }

    /** removeLight: every occurrence goes, the others keep their order. */
    method RemoveLight(light: LightId)
      modifies this
      ensures lights == RemoveAll(old(lights), light)
      ensures light !in lights
      ensures multiset(lights) == multiset(old(lights))[light := 0]
      ensures renderable3Ds == old(renderable3Ds)
    {
      RemoveAllCounts(lights, light);
      lights := RemoveAll(lights, light);
    }
  }
}
