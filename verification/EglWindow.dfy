/** The class `EGLWindow` of util/EGLWindow.cpp, with what its operations guarantee. */
module EglWindow {
  import opened Options
  import opened ConfigSearch
  import opened EglModel
  import opened EglOperations
  import opened EglLifecycle

  class EGLWindow {
    var settings: Settings
    var mDisplay: bool
    var mSurface: Option<nat>
    var mContext: Option<nat>
    var mConfig: Option<Config>
    var mSizes: Sizes
    var mEGLMajorVersion: int
    var mEGLMinorVersion: int
    var egl: Egl
    var aborted: bool

    ghost function View(): State
      reads this
    {
      State(settings, mDisplay, mSurface, mContext, mConfig, mSizes, mEGLMajorVersion, mEGLMinorVersion, egl, aborted)
    }

    constructor (st: Settings, e: Egl)
      ensures View() == NewWindow(st).(egl := e)
      ensures e == EMPTY ==> Inv(View()) && Released(View())
    {
      settings := st;
      mDisplay, mSurface, mContext, mConfig := false, None, None, None;
      mSizes := Sizes(-1, -1, -1, -1, -1, -1, -1);
      mEGLMajorVersion, mEGLMinorVersion := 0, 0;
      egl, aborted := e, false;
    }

    /** Any of the setters, at any time. */
    method Configure(st: Settings, z: Sizes)
      modifies this`settings, this`mSizes
      ensures View() == AfterSet(old(View()), st, z)
      ensures mSizes == z && settings.multisample == st.multisample && settings.componentType == st.componentType
      ensures settings.webGLCompatibility == st.webGLCompatibility && settings.robustAccess == st.robustAccess
      ensures settings.bindGeneratesResource == st.bindGeneratesResource
      ensures settings.clientArraysEnabled == st.clientArraysEnabled && settings.programCacheSet == st.programCacheSet
      ensures settings.clientMajorVersion == old(settings.clientMajorVersion)
      ensures settings.presentPath == old(settings.presentPath)
      ensures old(Inv(View())) ==> Inv(View())
    {
      settings := st.(clientMajorVersion := settings.clientMajorVersion, presentPath := settings.presentPath);
      mSizes := z;
    }

    method DestroyGL()
      modifies this
      ensures View() == AfterDestroy(old(View()))
      ensures unchanged(`settings, `mConfig, `mSizes, `mEGLMajorVersion, `mEGLMinorVersion)
      ensures old(Inv(View())) ==> Inv(View()) && Gone(View())
    {
      hide Inv, Released, Gone;
      if Inv(View()) {
        DestroyKeepsInv(View());
      }
      if mSurface.Some? {
        if !mDisplay {
          aborted := true;
          return;
        }
        egl := egl.DestroySurface(mSurface.value);
        mSurface := None;
      }
      if mContext.Some? {
        if !mDisplay {
          aborted := true;
          return;
        }
        egl := egl.DestroyContext(mContext.value);
        mContext := None;
      }
      if mDisplay {
        egl := egl.Release();
        egl := egl.Terminate();
        mDisplay := false;
      }
    }

    /** The part between `eglInitialize` and `eglCreateWindowSurface`. */
    method SelectConfig(a: DisplayAnswers) returns (ok: bool)
      modifies this`mConfig, this`mSizes
      ensures ok <==> SelectedConfig(settings, old(mSizes), a).Some?
      ensures mConfig == if ok then SelectedConfig(settings, old(mSizes), a) else old(mConfig)
      ensures mSizes == if ok then ReadBack(mConfig.value, old(mSizes)) else old(mSizes)
    {
      hide ConfigAttributes, ReadBack, FirstMatch, Matches, EndsAt;
      var configAttributes :=
        ConfigAttributes(mSizes, settings.multisample, a.hasPixelFormatFloat, settings.componentType);
      if !a.hasPixelFormatFloat && settings.componentType != EGL_COLOR_COMPONENT_TYPE_FIXED_EXT {
        return false;
      }
      AttributesMean(Config(0, map[]), mSizes, settings.multisample, a.hasPixelFormatFloat, settings.componentType);
      var found := FindEGLConfig(a.configs, configAttributes);
      if found.None? {
        return false;
      }
      mConfig := found;
      mSizes := ReadBack(mConfig.value, mSizes);
      return true;
    }

    /** The part up to `eglInitialize`. */
    method OpenDisplay(a: DisplayAnswers) returns (ok: bool)
      modifies this
      ensures var s := old(View());
        var refused := settings.presentPath != EGL_DONT_CARE && !a.hasPresentPath;
        && ok == (!refused && a.display && a.initialize)
        && View() ==
             if ok then s.(display := true, egl := s.egl.(initialized := true), major := a.major, minor := a.minor)
             else AfterDestroy(if refused then s else s.(display := a.display))
      ensures settings == old(settings)
    {
      hide AfterDestroy, Inv, Released, Gone;
      if settings.presentPath != EGL_DONT_CARE {
        if !a.hasPresentPath {
          DestroyGL();
          return false;
        }
      }
      mDisplay := a.display;
      if !mDisplay {
        DestroyGL();
        return false;
      }
      if !a.initialize {
        DestroyGL();
        return false;
      }
      egl := egl.(initialized := true);
      mEGLMajorVersion, mEGLMinorVersion := a.major, a.minor;
      return true;
    }

    method InitializeDisplayAndSurface(a: DisplayAnswers) returns (ok: bool)
      modifies this
      ensures (View(), ok) == AfterInitDisplay(old(View()), a)
      ensures ok <==>
                && (settings.presentPath != EGL_DONT_CARE ==> a.hasPresentPath)
                && a.display && a.initialize && a.surface
                && (settings.componentType != EGL_COLOR_COMPONENT_TYPE_FIXED_EXT ==> a.hasPixelFormatFloat)
                && exists c :: c in a.configs
                     && Suits(c, old(mSizes), settings.multisample, a.hasPixelFormatFloat, settings.componentType)
      ensures ok ==> mConfig.Some? && SizesFromConfig(mConfig.value, old(mSizes), mSizes)
      ensures settings == old(settings)
      ensures old(Inv(View()) && Released(View())) ==>
                Inv(View()) && View().context.None? && (if ok then View().surface.Some? else Released(View()))
    {
      hide Inv, Released, Gone, AfterDestroy, SelectedConfig, ReadBack, DisplaySucceeds;
      hide Suits, SizesFromConfig, FirstSuitable;
      InitDisplayMeans(View(), a);
      if Inv(View()) && Released(View()) {
        InitDisplayOutcome(View(), a);
      }
      var open := OpenDisplay(a);
      if !open {
        return false;
      }
      var selected := SelectConfig(a);
      if !selected {
        DestroyGL();
        return false;
      }
      if a.surface {
        mSurface := Some(egl.next);
        egl := egl.CreateSurface();
      } else {
        mSurface := None;
        DestroyGL();
        return false;
      }
      return true;
    }

    /** The part of `initializeContext` before `eglBindAPI`. */
    method CheckContextSupport(a: ContextAnswers) returns (ok: bool)
      modifies this
      ensures ok <==> ContextSupported(old(View()), a)
      ensures View() == if ok then old(View()) else AfterDestroy(old(View()))
      ensures unchanged(`settings, `mConfig, `mSizes, `mEGLMajorVersion, `mEGLMinorVersion)
    {
      hide AfterDestroy, Inv;
      if settings.clientMajorVersion > 2 && !(mEGLMajorVersion > 1 || mEGLMinorVersion >= 5) && !a.hasKHRCreateContext {
        DestroyGL();
        return false;
      }
      if settings.webGLCompatibility && !a.hasWebGLCompatibility {
        DestroyGL();
        return false;
      }
      if settings.robustAccess && !a.hasRobustness {
        DestroyGL();
        return false;
      }
      if !settings.bindGeneratesResource && !a.hasBindGeneratesResource {
        DestroyGL();
        return false;
      }
      if !settings.clientArraysEnabled && !a.hasClientArrays {
        DestroyGL();
        return false;
      }
      if settings.programCacheSet && !a.hasProgramCacheControl {
        DestroyGL();
        return false;
      }
      return true;
    }

    /** The part of `initializeContext` from `eglBindAPI` on. */
    method CreateContext(a: ContextAnswers) returns (ok: bool)
      requires ContextSupported(View(), a)
      modifies this
      ensures (View(), ok) == AfterInitContext(old(View()), a)
      ensures unchanged(`settings, `mConfig, `mSizes, `mEGLMajorVersion, `mEGLMinorVersion)
    {
      hide AfterDestroy, Inv, Gone, ContextSupported;
      if !a.bindAPI {
        DestroyGL();
        return false;
      }
      if a.context && mDisplay && egl.initialized {
        mContext := Some(egl.next);
        egl := egl.CreateContext();
      } else {
        mContext := None;
        DestroyGL();
        return false;
      }
      if a.makeCurrent && mSurface.Some? {
        egl := egl.MakeCurrent(mSurface.value, mContext.value);
      } else {
        DestroyGL();
        return false;
      }
      return true;
    }

    method InitializeContext(a: ContextAnswers) returns (ok: bool)
      modifies this
      ensures (View(), ok) == AfterInitContext(old(View()), a)
      ensures !ok <==>
                || (settings.clientMajorVersion > 2 && mEGLMajorVersion <= 1 && mEGLMinorVersion < 5
                    && !a.hasKHRCreateContext)
                || (settings.webGLCompatibility && !a.hasWebGLCompatibility)
                || (settings.robustAccess && !a.hasRobustness)
                || (!settings.bindGeneratesResource && !a.hasBindGeneratesResource)
                || (!settings.clientArraysEnabled && !a.hasClientArrays)
                || (settings.programCacheSet && !a.hasProgramCacheControl)
                || !a.bindAPI || !a.context || !old(mDisplay) || !old(egl.initialized)
                || !a.makeCurrent || old(mSurface).None?
      ensures unchanged(`settings, `mConfig, `mSizes, `mEGLMajorVersion, `mEGLMinorVersion)
      ensures old(Inv(View()) && mContext.None?) ==> Inv(View()) && (if ok then Current(View()) else Released(View()))
    {
      hide Inv, Released, Gone, AfterDestroy, ContextSucceeds, Current, ContextSupported;
      InitContextRefuses(View(), a);
      if Inv(View()) && mContext.None? {
        InitContextOutcome(View(), a);
      }
      var supported := CheckContextSupport(a);
      if !supported {
        return false;
      }
      ok := CreateContext(a);
    }

    method InitializeGL(a: DisplayAnswers, b: ContextAnswers) returns (ok: bool)
      modifies this
      ensures (View(), ok) == AfterInitGL(old(View()), a, b)
      ensures ok <==>
                && (settings.presentPath != EGL_DONT_CARE ==> a.hasPresentPath)
                && a.display && a.initialize && a.surface
                && (settings.componentType != EGL_COLOR_COMPONENT_TYPE_FIXED_EXT ==> a.hasPixelFormatFloat)
                && (exists c :: c in a.configs
                      && Suits(c, old(mSizes), settings.multisample, a.hasPixelFormatFloat, settings.componentType))
                && (settings.clientMajorVersion > 2 ==> a.major > 1 || a.minor >= 5 || b.hasKHRCreateContext)
                && (settings.webGLCompatibility ==> b.hasWebGLCompatibility)
                && (settings.robustAccess ==> b.hasRobustness)
                && (settings.bindGeneratesResource || b.hasBindGeneratesResource)
                && (settings.clientArraysEnabled || b.hasClientArrays)
                && (settings.programCacheSet ==> b.hasProgramCacheControl)
                && b.bindAPI && b.context && b.makeCurrent
      ensures ok ==> mConfig.Some? && SizesFromConfig(mConfig.value, old(mSizes), mSizes)
      ensures old(Inv(View()) && Released(View())) ==>
                && Inv(View())
                && (ok <==> old(DisplaySucceeds(View(), a)) && ContextSucceeds(AfterInitDisplay(old(View()), a).0, b))
                && (if ok then Current(View()) else Gone(View()))
    {
      hide Inv, Released, Gone, AfterInitDisplay, AfterInitContext, DisplaySucceeds, ContextSucceeds;
      hide Suits, SizesFromConfig;
      InitGLMeans(View(), a, b);
      if Inv(View()) && Released(View()) {
        AllOrNothing(View(), a, b);
      }
      ok := InitializeDisplayAndSurface(a);
      if !ok {
        return false;
      }
      ok := InitializeContext(b);
    }

    method MakeCurrent(answer: bool)
      modifies this
      ensures View() == AfterMakeCurrent(old(View()), answer)
      ensures old(Inv(View())) ==>
                && Inv(View())
                && (if answer && IsGLInitialized(View()) then Current(View()) else egl.current == old(egl.current))
    {
      hide Inv;
      if Inv(View()) {
        MakeCurrentOutcome(View(), answer);
      }
      if answer && mSurface.Some? && mContext.Some? && mDisplay {
        egl := egl.MakeCurrent(mSurface.value, mContext.value);
      }
    }
  }

  // ----- EGLPlatformParameters

  datatype PlatformParameters = PlatformParameters(
    renderer: int, majorVersion: int, minorVersion: int, deviceType: int, presentPath: int)

  predicate Less(a: PlatformParameters, b: PlatformParameters) {
    if a.renderer != b.renderer then a.renderer < b.renderer
    else if a.majorVersion != b.majorVersion then a.majorVersion < b.majorVersion
    else if a.minorVersion != b.minorVersion then a.minorVersion < b.minorVersion
    else if a.deviceType != b.deviceType then a.deviceType < b.deviceType
    else a.presentPath < b.presentPath
  }

  /** The fields in the order in which they decide. */
  function Fields(a: PlatformParameters): seq<int> {
    [a.renderer, a.majorVersion, a.minorVersion, a.deviceType, a.presentPath]
  }

  /** `operator<` is lexicographic, a strict total order that agrees with `operator==`. */
  lemma LessIsStrictTotalOrder(a: PlatformParameters, b: PlatformParameters, c: PlatformParameters)
    ensures Less(a, b) <==> exists i :: 0 <= i < 5 && Fields(a)[..i] == Fields(b)[..i] && Fields(a)[i] < Fields(b)[i]
    ensures !Less(a, a)
    ensures Less(a, b) && Less(b, c) ==> Less(a, c)
    ensures a == b <==> !Less(a, b) && !Less(b, a)
  {
    LessIsLexicographic(a, b);
  }

  lemma LessIsLexicographic(a: PlatformParameters, b: PlatformParameters)
    ensures Less(a, b) <==> exists i :: 0 <= i < 5 && Fields(a)[..i] == Fields(b)[..i] && Fields(a)[i] < Fields(b)[i]
  {
    var p, q := Fields(a), Fields(b);
    var k := if p[0] != q[0] then 0 else if p[1] != q[1] then 1 else if p[2] != q[2] then 2
             else if p[3] != q[3] then 3 else 4;
    assert p[..k] == q[..k];
    forall i | k < i < 5 ensures p[..i] != q[..i] {
      assert k < 4 ==> p[..i][k] != q[..i][k];
    }
  }
}
