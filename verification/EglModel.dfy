/**
 The part of EGL 1.4 that `EGLWindow` drives, for one display and one thread: which surfaces and
 contexts exist, which pair is current, and which are marked for deletion.
 */
module EglModel {
  import opened Options
  import opened ConfigSearch

  datatype Binding = Binding(surface: nat, context: nat)

  datatype Egl = Egl(
    initialized: bool,
    surfaces: set<nat>,
    contexts: set<nat>,
    current: Option<Binding>,
    doomedSurfaces: set<nat>,
    doomedContexts: set<nat>,
    next: nat,
    // what has been asked for so far
    madeSurfaces: set<nat>,
    madeContexts: set<nat>,
    surfaceDestroys: multiset<nat>,
    contextDestroys: multiset<nat>)
  {
    /** A new surface under the next unused handle. */
    function CreateSurface(): Egl {
      this.(surfaces := surfaces + {next}, madeSurfaces := madeSurfaces + {next}, next := next + 1)
    }

    function CreateContext(): Egl {
      this.(contexts := contexts + {next}, madeContexts := madeContexts + {next}, next := next + 1)
    }

    /** Section 3.5.5: a surface that is current is only marked, and goes when it stops being current. */
    function DestroySurface(s: nat): Egl {
      var e := this.(surfaceDestroys := surfaceDestroys + multiset{s});
      if current.Some? && current.value.surface == s
      then e.(doomedSurfaces := doomedSurfaces + {s})
      else e.(surfaces := surfaces - {s})
    }

    /** Section 3.7.2, likewise for contexts. */
    function DestroyContext(c: nat): Egl {
      var e := this.(contextDestroys := contextDestroys + multiset{c});
      if current.Some? && current.value.context == c
      then e.(doomedContexts := doomedContexts + {c})
      else e.(contexts := contexts - {c})
    }

    /** Section 3.7.3: nothing is current any more, so whatever was marked is deleted. */
    function Release(): Egl {
      this.(current := None, surfaces := surfaces - doomedSurfaces, contexts := contexts - doomedContexts,
            doomedSurfaces := {}, doomedContexts := {})
    }

    function MakeCurrent(s: nat, c: nat): Egl {
      Release().(current := Some(Binding(s, c)))
    }

    /** Section 3.2: marks everything; what is current stays until it is released. */
    function Terminate(): Egl {
      if current.Some? then
        this.(initialized := false,
              surfaces := surfaces * {current.value.surface}, contexts := contexts * {current.value.context},
              doomedSurfaces := surfaces * {current.value.surface},
              doomedContexts := contexts * {current.value.context})
      else
        this.(initialized := false, surfaces := {}, contexts := {}, doomedSurfaces := {}, doomedContexts := {})
    }

    /** Handles are distinct from all that follow, and only existing objects are current or marked. */
    ghost predicate Valid() {
      && (forall h :: h in madeSurfaces || h in madeContexts ==> h < next)
      && surfaces <= madeSurfaces && contexts <= madeContexts
      && doomedSurfaces <= surfaces && doomedContexts <= contexts
    }
  }

  const EMPTY := Egl(false, {}, {}, None, {}, {}, 1, {}, {}, multiset{}, multiset{})
}
