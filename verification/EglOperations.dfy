/**
 What the operations of `EGLWindow` in util/EGLWindow.cpp do to its display, surface and context
 handles: two phases of initialisation, and `destroyGL` on every failing exit.  The answers of EGL
 are inputs.
 */
module EglOperations {
  import opened Options
  import opened ConfigSearch
  import opened EglModel

  /** The settings that decide whether a phase can succeed, apart from the sizes. */
  datatype Settings = Settings(
    presentPath: int, multisample: bool, componentType: int,
    clientMajorVersion: int, webGLCompatibility: bool, robustAccess: bool, bindGeneratesResource: bool,
    clientArraysEnabled: bool, programCacheSet: bool)

  /** What EGL answers during `initializeDisplayAndSurface`; extension strings enter as booleans. */
  datatype DisplayAnswers = DisplayAnswers(
    hasPresentPath: bool, display: bool, initialize: bool, major: int, minor: int,
    hasPixelFormatFloat: bool, configs: seq<Config>, surface: bool)

  datatype ContextAnswers = ContextAnswers(
    hasKHRCreateContext: bool, hasWebGLCompatibility: bool, hasRobustness: bool, hasBindGeneratesResource: bool,
    hasClientArrays: bool, hasProgramCacheControl: bool, bindAPI: bool, context: bool, makeCurrent: bool)

  /** The members that change, with the environment; `aborted` is set when an `assert` of destroyGL fails. */
  datatype State = State(
    settings: Settings, display: bool, surface: Option<nat>, context: Option<nat>,
    config: Option<Config>, sizes: Sizes, major: int, minor: int,
    egl: Egl, aborted: bool)

  predicate IsGLInitialized(s: State) {
    s.surface.Some? && s.context.Some? && s.display
  }

  // ----- what each operation does to the state

  predicate AssertsHold(s: State) {
    (s.surface.Some? || s.context.Some?) ==> s.display
  }

  function AfterDestroy(s: State): State {
    if !AssertsHold(s) then s.(aborted := true)
    else
      var e1 := if s.surface.Some? then s.egl.DestroySurface(s.surface.value) else s.egl;
      var e2 := if s.context.Some? then e1.DestroyContext(s.context.value) else e1;
      var e3 := if s.display then e2.Release().Terminate() else e2;
      s.(display := false, surface := None, context := None, egl := e3)
  }

  /** The configuration chosen for the wanted sizes, if the component type is supported and one matches. */
  ghost function SelectedConfig(st: Settings, z: Sizes, a: DisplayAnswers): Option<Config> {
    if !a.hasPixelFormatFloat && st.componentType != EGL_COLOR_COMPONENT_TYPE_FIXED_EXT then None
    else FirstMatch(a.configs, ConfigAttributes(z, st.multisample, a.hasPixelFormatFloat, st.componentType))
  }

  ghost function AfterInitDisplay(s: State, a: DisplayAnswers): (State, bool) {
    if s.settings.presentPath != EGL_DONT_CARE && !a.hasPresentPath then (AfterDestroy(s), false)
    else
      var s1 := s.(display := a.display);
      if !a.display || !a.initialize then (AfterDestroy(s1), false)
      else
        var s2 := s1.(egl := s1.egl.(initialized := true), major := a.major, minor := a.minor);
        var found := SelectedConfig(s.settings, s.sizes, a);
        if found.None? then (AfterDestroy(s2), false)
        else
          var s3 := s2.(config := found, sizes := ReadBack(found.value, s.sizes));
          if a.surface then (s3.(surface := Some(s3.egl.next), egl := s3.egl.CreateSurface()), true)
          else (AfterDestroy(s3.(surface := None)), false)
  }

  /** No setting asks for something the display does not offer. */
  predicate ContextSupported(s: State, a: ContextAnswers) {
    var st := s.settings;
    && (st.clientMajorVersion > 2 ==> s.major > 1 || s.minor >= 5 || a.hasKHRCreateContext)
    && (st.webGLCompatibility ==> a.hasWebGLCompatibility)
    && (st.robustAccess ==> a.hasRobustness)
    && (!st.bindGeneratesResource ==> a.hasBindGeneratesResource)
    && (!st.clientArraysEnabled ==> a.hasClientArrays)
    && (st.programCacheSet ==> a.hasProgramCacheControl)
  }

  /** `eglCreateContext` needs an initialised display. */
  predicate ContextCreated(s: State, a: ContextAnswers) {
    a.context && s.display && s.egl.initialized
  }

  function AfterInitContext(s: State, a: ContextAnswers): (State, bool) {
    if !ContextSupported(s, a) || !a.bindAPI then (AfterDestroy(s), false)
    else if !ContextCreated(s, a) then (AfterDestroy(s.(context := None)), false)
    else
      var s1 := s.(context := Some(s.egl.next), egl := s.egl.CreateContext());
      if a.makeCurrent && s1.surface.Some? then
        (s1.(egl := s1.egl.MakeCurrent(s1.surface.value, s1.context.value)), true)
      else (AfterDestroy(s1), false)
  }

  ghost function AfterInitGL(s: State, a: DisplayAnswers, b: ContextAnswers): (State, bool) {
    var (t, ok) := AfterInitDisplay(s, a);
    if !ok then (t, false) else AfterInitContext(t, b)
  }

  function AfterMakeCurrent(s: State, answer: bool): State {
    if answer && IsGLInitialized(s) then s.(egl := s.egl.MakeCurrent(s.surface.value, s.context.value)) else s
  }

  /** The setters; the client version and the platform parameters have none. */
  function AfterSet(s: State, st: Settings, z: Sizes): State {
    s.(settings := st.(clientMajorVersion := s.settings.clientMajorVersion, presentPath := s.settings.presentPath),
       sizes := z)
  }

  /** A new window on an EGL implementation that nobody has used. */
  function NewWindow(st: Settings): State {
    State(st, false, None, None, None, Sizes(-1, -1, -1, -1, -1, -1, -1), 0, 0, EMPTY, false)
  }
}
