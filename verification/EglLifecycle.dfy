/** What holds over every run of an `EGLWindow`, whatever EGL answers. */
module EglLifecycle {
  import opened Options
  import opened ConfigSearch
  import opened EglModel
  import opened EglOperations

  function Held(h: Option<nat>): set<nat> {
    if h.Some? then {h.value} else {}
  }

  ghost predicate Released(s: State) {
    !s.display && s.surface.None? && s.context.None?
  }

  /** Everything is initialised, and the held pair is current. */
  ghost predicate Current(s: State) {
    IsGLInitialized(s) && s.egl.current == Some(Binding(s.surface.value, s.context.value))
  }

  /** Everything asked for has been destroyed once, except what is still held. */
  ghost predicate Accounted(made: set<nat>, destroys: multiset<nat>, held: Option<nat>) {
    multiset(made) == destroys + multiset(Held(held))
  }

  /** Between operations: the handles are exactly the objects that exist, and none is marked for deletion. */
  ghost predicate Inv(s: State) {
    && !s.aborted && s.egl.Valid()
    && (s.display <==> s.surface.Some?) && (s.context.Some? ==> s.surface.Some?)
    && s.egl.initialized == s.display
    && s.egl.surfaces == Held(s.surface) && s.egl.contexts == Held(s.context)
    && s.egl.doomedSurfaces == {} && s.egl.doomedContexts == {}
    && (s.egl.current.Some? ==> Current(s))
    && Accounted(s.egl.madeSurfaces, s.egl.surfaceDestroys, s.surface)
    && Accounted(s.egl.madeContexts, s.egl.contextDestroys, s.context)
  }

  /** Nothing exists, nothing is current, nothing waits for deletion. */
  ghost predicate Quiet(e: Egl) {
    && !e.initialized && e.current.None? && e.surfaces == {} && e.contexts == {}
    && e.doomedSurfaces == {} && e.doomedContexts == {}
  }

  /** Each handle ever handed out was destroyed exactly once, and no other. */
  ghost predicate DestroyedOnce(e: Egl) {
    && (forall h :: e.surfaceDestroys[h] == if h in e.madeSurfaces then 1 else 0)
    && (forall h :: e.contextDestroys[h] == if h in e.madeContexts then 1 else 0)
  }

  /** Released, with nothing left in EGL and everything destroyed once. */
  ghost predicate Gone(s: State) {
    Released(s) && Quiet(s.egl) && DestroyedOnce(s.egl)
  }

  // ----- destroyGL

  /** From any state with a display, even one that lost handles: everything is gone afterwards. */
  lemma DestroyQuiets(s: State)
    requires s.egl.Valid() && s.display
    ensures Released(AfterDestroy(s)) && Quiet(AfterDestroy(s).egl) && AfterDestroy(s).aborted == s.aborted
  {
  }

  /** `destroyGL` touches the handles only. */
  lemma DestroyKeepsSettings(s: State)
    ensures var t := AfterDestroy(s);
      && t.settings == s.settings && t.config == s.config && t.sizes == s.sizes
      && t.major == s.major && t.minor == s.minor
  {
  }

  lemma DestroyIdempotent(s: State)
    ensures AfterDestroy(AfterDestroy(s)) == AfterDestroy(s)
  {
  }

  lemma DestroyKeepsInv(s: State)
    requires Inv(s)
    ensures Inv(AfterDestroy(s)) && Gone(AfterDestroy(s))
    ensures AfterDestroy(s).sizes == s.sizes
  {
    ReleasedGone(AfterDestroy(s));
  }

  /** In a released state between operations every handle has been destroyed exactly once. */
  lemma ReleasedGone(s: State)
    requires Inv(s) && Released(s)
    ensures Gone(s)
  {
    var e := s.egl;
    assert multiset(Held(None)) == multiset{};
    forall h ensures e.surfaceDestroys[h] == (if h in e.madeSurfaces then 1 else 0)
             ensures e.contextDestroys[h] == (if h in e.madeContexts then 1 else 0) {
      assert multiset(e.madeSurfaces)[h] == if h in e.madeSurfaces then 1 else 0;
      assert multiset(e.madeContexts)[h] == if h in e.madeContexts then 1 else 0;
    }
  }

  // ----- the two phases

  ghost predicate DisplaySucceeds(s: State, a: DisplayAnswers) {
    && (s.settings.presentPath == EGL_DONT_CARE || a.hasPresentPath)
    && a.display && a.initialize && SelectedConfig(s.settings, s.sizes, a).Some? && a.surface
  }

  lemma InitDisplayOutcome(s: State, a: DisplayAnswers)
    requires Inv(s) && Released(s)
    ensures var (t, ok) := AfterInitDisplay(s, a);
      && Inv(t) && t.context.None? && (ok <==> DisplaySucceeds(s, a))
      && (if ok then t.surface.Some? else Released(t))
  {
    hide SelectedConfig, ReadBack;
    AddHeld(s.egl.madeSurfaces, s.egl.surfaceDestroys, s.egl.next);
  }

  /**
   The first phase succeeds exactly when nothing required is missing and some configuration suits.
   It selects the first one that does, and takes over its sizes and the version of the display.
   */
  lemma InitDisplayMeans(s: State, a: DisplayAnswers)
    ensures var st := s.settings;
      AfterInitDisplay(s, a).1 <==>
        && (st.presentPath != EGL_DONT_CARE ==> a.hasPresentPath)
        && a.display && a.initialize && a.surface
        && (st.componentType != EGL_COLOR_COMPONENT_TYPE_FIXED_EXT ==> a.hasPixelFormatFloat)
        && exists c :: c in a.configs && Suits(c, s.sizes, st.multisample, a.hasPixelFormatFloat, st.componentType)
    ensures var (t, ok) := AfterInitDisplay(s, a); var st := s.settings;
      ok ==>
        && t.major == a.major && t.minor == a.minor
        && t.config.Some? && SizesFromConfig(t.config.value, s.sizes, t.sizes)
        && exists i: nat ::
             && FirstSuitable(a.configs, s.sizes, st.multisample, a.hasPixelFormatFloat, st.componentType, i)
             && t.config == Some(a.configs[i])
    ensures var t := AfterInitDisplay(s, a).0;
      && t.settings == s.settings
      && (|| (t.config == s.config && t.sizes == s.sizes)
          || (t.config.Some? && SizesFromConfig(t.config.value, s.sizes, t.sizes)))
  {
    hide ReadBack, Suits, SizesFromConfig, FirstMatch;
    var st := s.settings;
    FirstMatchSuits(a.configs, s.sizes, st.multisample, a.hasPixelFormatFloat, st.componentType);
    var found := SelectedConfig(st, s.sizes, a);
    if found.Some? {
      ReadBackMeans(found.value, s.sizes);
    }
  }

  lemma AddHeld(made: set<nat>, destroys: multiset<nat>, h: nat)
    requires Accounted(made, destroys, None) && h !in made
    ensures Accounted(made + {h}, destroys, Some(h))
  {
    assert multiset(made + {h}) == multiset(made) + multiset{h};
  }

  ghost predicate ContextSucceeds(s: State, b: ContextAnswers) {
    ContextSupported(s, b) && b.bindAPI && ContextCreated(s, b) && b.makeCurrent && s.surface.Some?
  }

  /** The second phase fails exactly for one of these reasons. */
  lemma InitContextRefuses(s: State, b: ContextAnswers)
    ensures var st := s.settings;
      !AfterInitContext(s, b).1 <==>
        || (st.clientMajorVersion > 2 && s.major <= 1 && s.minor < 5 && !b.hasKHRCreateContext)
        || (st.webGLCompatibility && !b.hasWebGLCompatibility)
        || (st.robustAccess && !b.hasRobustness)
        || (!st.bindGeneratesResource && !b.hasBindGeneratesResource)
        || (!st.clientArraysEnabled && !b.hasClientArrays)
        || (st.programCacheSet && !b.hasProgramCacheControl)
        || !b.bindAPI || !b.context || !s.display || !s.egl.initialized
        || !b.makeCurrent || s.surface.None?
  {
    hide AfterDestroy;
  }

  /** Both phases together, from any state: what has to be there, and what may not be asked for in vain. */
  lemma InitGLMeans(s: State, a: DisplayAnswers, b: ContextAnswers)
    ensures var st := s.settings;
      AfterInitGL(s, a, b).1 <==>
        && (st.presentPath != EGL_DONT_CARE ==> a.hasPresentPath)
        && a.display && a.initialize && a.surface
        && (st.componentType != EGL_COLOR_COMPONENT_TYPE_FIXED_EXT ==> a.hasPixelFormatFloat)
        && (exists c :: c in a.configs && Suits(c, s.sizes, st.multisample, a.hasPixelFormatFloat, st.componentType))
        && (st.clientMajorVersion > 2 ==> a.major > 1 || a.minor >= 5 || b.hasKHRCreateContext)
        && (st.webGLCompatibility ==> b.hasWebGLCompatibility)
        && (st.robustAccess ==> b.hasRobustness)
        && (st.bindGeneratesResource || b.hasBindGeneratesResource)
        && (st.clientArraysEnabled || b.hasClientArrays)
        && (st.programCacheSet ==> b.hasProgramCacheControl)
        && b.bindAPI && b.context && b.makeCurrent
  {
    hide Suits, SizesFromConfig, FirstSuitable, AfterInitContext, AfterDestroy, SelectedConfig, ReadBack;
    InitDisplayMeans(s, a);
    var (t, ok) := AfterInitDisplay(s, a);
    if ok {
      InitContextRefuses(t, b);
      assert t.display && t.egl.initialized && t.surface.Some?;
    }
  }

  lemma InitContextOutcome(s: State, b: ContextAnswers)
    requires Inv(s) && s.context.None?
    ensures var (t, ok) := AfterInitContext(s, b);
      && Inv(t) && (ok <==> ContextSucceeds(s, b))
      && (if ok then Current(t) else Released(t))
  {
    AddHeld(s.egl.madeContexts, s.egl.contextDestroys, s.egl.next);
    DestroyKeepsInv(s);
    if ContextCreated(s, b) {
      var s1 := s.(context := Some(s.egl.next), egl := s.egl.CreateContext());
      assert Inv(s1);
      DestroyKeepsInv(s1);
    }
  }

  /**
   From the released state `initializeGL` is all or nothing: true exactly when every answer of both
   phases was good, and then everything is initialised and current; otherwise everything is released.
   */
  lemma AllOrNothing(s: State, a: DisplayAnswers, b: ContextAnswers)
    requires Inv(s) && Released(s)
    ensures var (t, ok) := AfterInitGL(s, a, b);
      && Inv(t)
      && (ok <==> DisplaySucceeds(s, a) && ContextSucceeds(AfterInitDisplay(s, a).0, b))
      && (if ok then Current(t) else Gone(t))
  {
    hide AfterInitDisplay, AfterInitContext, Inv, Gone;
    InitDisplayOutcome(s, a);
    var (d, ok) := AfterInitDisplay(s, a);
    if ok {
      InitContextOutcome(d, b);
    }
    var (t, all) := AfterInitGL(s, a, b);
    if !all {
      ReleasedGone(t);
    }
  }

  /** `makeCurrent` binds the held pair exactly when both are held and EGL agrees. */
  lemma MakeCurrentOutcome(s: State, answer: bool)
    requires Inv(s)
    ensures var t := AfterMakeCurrent(s, answer);
      && Inv(t)
      && (if answer && IsGLInitialized(s) then Current(t) else t == s)
  {
  }

  // ----- which calls are safe in which state

  /**
   Initialising the display is safe exactly from the released state: only then does the invariant
   survive all answers of EGL, and only then can no assert of `destroyGL` fail.
   */
  lemma InitDisplaySafeIff(s: State)
    requires Inv(s)
    ensures (forall a :: Inv(AfterInitDisplay(s, a).0)) <==> Released(s)
    ensures (forall a :: !AfterInitDisplay(s, a).0.aborted) <==> Released(s)
  {
    if Released(s) {
      forall a ensures Inv(AfterInitDisplay(s, a).0) {
        InitDisplayOutcome(s, a);
      }
    } else {
      var noDisplay := DisplayAnswers(true, false, false, 0, 0, false, [], false);
      assert AfterInitDisplay(s, noDisplay).0.aborted;
    }
  }

  /** The context held before still exists, but its handle is gone. */
  ghost predicate LosesContext(s: State, b: ContextAnswers) {
    var t := AfterInitContext(s, b).0;
    s.context.Some? && s.context.value in t.egl.contexts && t.context != s.context
  }

  /**
   Initialising the context keeps the invariant, whatever EGL answers, exactly when none is held.
   If one is held, it is lost exactly when the answers let the initialisation succeed.
   */
  lemma InitContextSafeIff(s: State)
    requires Inv(s)
    ensures (forall b :: Inv(AfterInitContext(s, b).0)) <==> s.context.None?
    ensures forall b :: LosesContext(s, b) <==> s.context.Some? && ContextSucceeds(s, b)
    ensures (exists b :: LosesContext(s, b)) <==> s.context.Some?
  {
    if s.context.None? {
      forall b ensures Inv(AfterInitContext(s, b).0) {
        InitContextOutcome(s, b);
      }
    } else {
      forall b ensures LosesContext(s, b) <==> ContextSucceeds(s, b) {
        ContextLost(s, b);
      }
      var good := ContextAnswers(true, true, true, true, true, true, true, true, true);
      assert ContextSucceeds(s, good);
      assert LosesContext(s, good) && !Inv(AfterInitContext(s, good).0);
    }
  }

  lemma ContextLost(s: State, b: ContextAnswers)
    requires Inv(s) && s.context.Some?
    ensures LosesContext(s, b) <==> ContextSucceeds(s, b)
  {
    if !ContextSucceeds(s, b) {
      if ContextSupported(s, b) && b.bindAPI {
        var s1 := if ContextCreated(s, b) then s.(context := Some(s.egl.next), egl := s.egl.CreateContext())
                  else s.(context := None);
        DestroyQuiets(s1);
      } else {
        DestroyQuiets(s);
      }
    }
  }

  // ----- whole runs

  datatype Step =
    | InitGL(a: DisplayAnswers, b: ContextAnswers)
    | InitDisplay(a: DisplayAnswers)
    | InitContext(b: ContextAnswers)
    | MakeCurrent(answer: bool)
    | Swap
    | Set(settings: Settings, sizes: Sizes)
    | Destroy

  ghost function Do(s: State, step: Step): State {
    match step
    case InitGL(a, b) => AfterInitGL(s, a, b).0
    case InitDisplay(a) => AfterInitDisplay(s, a).0
    case InitContext(b) => AfterInitContext(s, b).0
    case MakeCurrent(answer) => AfterMakeCurrent(s, answer)
    case Swap => s
    case Set(st, z) => AfterSet(s, st, z)
    case Destroy => AfterDestroy(s)
  }

  ghost predicate Legal(s: State, step: Step) {
    match step
    case InitGL(_, _) => Released(s)
    case InitDisplay(_) => Released(s)
    case InitContext(_) => s.context.None?
    case _ => true
  }

  ghost function Run(s: State, steps: seq<Step>): State
    decreases |steps|
  {
    if steps == [] then s else Run(Do(s, steps[0]), steps[1..])
  }

  ghost predicate LegalRun(s: State, steps: seq<Step>)
    decreases |steps|
  {
    steps != [] ==> Legal(s, steps[0]) && LegalRun(Do(s, steps[0]), steps[1..])
  }

  lemma StepKeepsInv(s: State, step: Step)
    requires Inv(s) && Legal(s, step)
    ensures Inv(Do(s, step))
  {
    match step
    case InitGL(a, b) => AllOrNothing(s, a, b);
    case InitDisplay(a) => InitDisplayOutcome(s, a);
    case InitContext(b) => InitContextOutcome(s, b);
    case MakeCurrent(answer) => MakeCurrentOutcome(s, answer);
    case Swap =>
    case Set(_, _) =>
    case Destroy => DestroyKeepsInv(s);
  }

  /**
   Over every legal run with any answers, and with the settings changed at any time, the asserts
   never fail, and releasing at the end leaves nothing current or pending, with every surface and
   context destroyed exactly once.
   */
  lemma {:induction false} RunSafe(s: State, steps: seq<Step>)
    requires Inv(s) && LegalRun(s, steps)
    ensures var t := Run(s, steps);
      && Inv(t) && AssertsHold(t) && !t.aborted
      && Gone(AfterDestroy(t))
    decreases |steps|
  {
    hide Do, Legal, Gone;
    if steps == [] {
      DestroyKeepsInv(s);
    } else {
      StepKeepsInv(s, steps[0]);
      RunSafe(Do(s, steps[0]), steps[1..]);
    }
  }

  // ----- the chosen configuration is stable

  /** Initialising, releasing and initialising again on the same configurations selects the same one. */
  lemma ReinitialiseSelectsSame(s: State, a: DisplayAnswers)
    requires Inv(s) && Released(s) && AfterInitDisplay(s, a).1
    ensures var t := AfterInitDisplay(s, a).0;
      var (again, ok) := AfterInitDisplay(AfterDestroy(t), a);
      ok && again.config == t.config && again.sizes == t.sizes
  {
    var t := AfterInitDisplay(s, a).0;
    var list := ConfigAttributes(s.sizes, s.settings.multisample, a.hasPixelFormatFloat, s.settings.componentType);
    FirstMatchMeans(a.configs, list);
    var i: nat :| IsFirstMatch(a.configs, list, i) && t.config == Some(a.configs[i]);
    hide Matches, ConfigAttributes, IsFirstMatch, FirstMatch;
    ReadBackSelectsSame(a.configs, s.sizes, s.settings.multisample, a.hasPixelFormatFloat, s.settings.componentType, i);
    var again := ConfigAttributes(t.sizes, s.settings.multisample, a.hasPixelFormatFloat, s.settings.componentType);
    FirstMatchAt(a.configs, again, i);
  }
}
