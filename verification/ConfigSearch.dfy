/** `EGLWindow::FindEGLConfig`, the attribute list built for it, and the sizes read back from its result. */
module ConfigSearch {
  import opened Options

  const EGL_NONE := 0x3038
  const EGL_DONT_CARE := -1
  const EGL_RED_SIZE := 0x3024
  const EGL_GREEN_SIZE := 0x3023
  const EGL_BLUE_SIZE := 0x3022
  const EGL_ALPHA_SIZE := 0x3021
  const EGL_DEPTH_SIZE := 0x3025
  const EGL_STENCIL_SIZE := 0x3026
  const EGL_SAMPLE_BUFFERS := 0x3032
  const EGL_SAMPLES := 0x3031
  const EGL_COLOR_COMPONENT_TYPE_EXT := 0x3339
  const EGL_COLOR_COMPONENT_TYPE_FIXED_EXT := 0x333A

  /** A configuration with the attributes it knows; section 3.4.1 of EGL 1.4. */
  datatype Config = Config(id: nat, attribs: map<int, int>)

  /** What a variable holds after `eglGetConfigAttrib` into it: a failing query leaves it alone. */
  function Query(c: Config, attribute: int, before: int): int {
    if attribute in c.attribs then c.attribs[attribute] else before
  }

  /** The list is terminated: EGL_NONE stands at the even place n and at no even place before it. */
  ghost predicate EndsAt(list: seq<int>, n: nat) {
    && n % 2 == 0 && n < |list| && list[n] == EGL_NONE
    && forall k :: 0 <= k < n && k % 2 == 0 ==> list[k] != EGL_NONE
  }

  ghost predicate PairMatches(c: Config, attribute: int, value: int) {
    value == EGL_DONT_CARE || Query(c, attribute, EGL_DONT_CARE) == value
  }

  ghost predicate MatchesUpTo(c: Config, list: seq<int>, n: nat)
    requires n <= |list| && n % 2 == 0
  {
    forall k :: 0 <= k < n && k % 2 == 0 ==> PairMatches(c, list[k], list[k + 1])
  }

  ghost predicate Matches(c: Config, list: seq<int>) {
    exists n: nat :: EndsAt(list, n) && MatchesUpTo(c, list, n)
  }

  ghost predicate IsFirstMatch(configs: seq<Config>, list: seq<int>, i: nat) {
    && i < |configs| && Matches(configs[i], list)
    && forall j :: 0 <= j < i ==> !Matches(configs[j], list)
  }

  /** The first matching configuration, if there is one. */
  ghost function FirstMatch(configs: seq<Config>, list: seq<int>): Option<Config> {
    if configs == [] then None
    else if Matches(configs[0], list) then Some(configs[0])
    else FirstMatch(configs[1..], list)
  }

  lemma {:induction false} FirstMatchAt(configs: seq<Config>, list: seq<int>, i: nat)
    requires IsFirstMatch(configs, list, i)
    ensures FirstMatch(configs, list) == Some(configs[i])
  {
    hide Matches;
    if i == 0 {
    } else {
      assert !Matches(configs[0], list);
      FirstMatchAt(configs[1..], list, i - 1);
    }
  }

  lemma {:induction false} FirstMatchMeans(configs: seq<Config>, list: seq<int>)
    ensures FirstMatch(configs, list).None? <==> forall i :: 0 <= i < |configs| ==> !Matches(configs[i], list)
    ensures FirstMatch(configs, list).Some? ==>
      exists i: nat :: IsFirstMatch(configs, list, i) && FirstMatch(configs, list).value == configs[i]
  {
    hide Matches;
    if configs == [] {
    } else if Matches(configs[0], list) {
      assert IsFirstMatch(configs, list, 0);
    } else {
      FirstMatchMeans(configs[1..], list);
      forall i | 0 <= i < |configs| && Matches(configs[i], list) ensures Matches(configs[1..][i - 1], list) {
      }
      forall i | 0 <= i < |configs| - 1 ensures configs[1..][i] == configs[i + 1] {
      }
      if i: nat :| IsFirstMatch(configs[1..], list, i) {
        assert IsFirstMatch(configs, list, i + 1);
      }
    }
  }

  lemma EndUnique(list: seq<int>, n: nat, m: nat)
    requires EndsAt(list, n) && EndsAt(list, m)
    ensures n == m
  {
  }

  /** The inner loop: whether a configuration matches every pair of the list. */
  method MatchConfig(c: Config, list: seq<int>) returns (matchFound: bool)
    requires exists n: nat :: EndsAt(list, n)
    ensures matchFound <==> Matches(c, list)
  {
    ghost var n: nat :| EndsAt(list, n);
    matchFound := true;
    var k := 0;
    while list[k] != EGL_NONE
      invariant 0 <= k <= n && k % 2 == 0 && matchFound
      invariant MatchesUpTo(c, list, k)
      decreases n - k
    {
      if list[k + 1] != EGL_DONT_CARE {
        var actualValue := Query(c, list[k], EGL_DONT_CARE);
        if list[k + 1] != actualValue {
          matchFound := false;
          break;
        }
      }
      k := k + 2;
    }
    MatchDecided(c, list, n, k, matchFound);
  }

  /** The lowest-index configuration that matches every pair, if there is one. */
  method FindEGLConfig(configs: seq<Config>, list: seq<int>) returns (r: Option<Config>)
    requires exists n: nat :: EndsAt(list, n)
    ensures r.None? <==> forall i :: 0 <= i < |configs| ==> !Matches(configs[i], list)
    ensures r.Some? ==> exists i: nat :: IsFirstMatch(configs, list, i) && r.value == configs[i]
    ensures r == FirstMatch(configs, list)
  {
    FirstMatchMeans(configs, list);
    hide Matches, FirstMatch;
    for i := 0 to |configs|
      invariant forall j :: 0 <= j < i ==> !Matches(configs[j], list)
    {
      var matchFound := MatchConfig(configs[i], list);
      if matchFound {
        FirstMatchAt(configs, list, i);
        return Some(configs[i]);
      }
    }
    return None;
  }

  lemma MatchDecided(c: Config, list: seq<int>, n: nat, k: nat, matchFound: bool)
    requires EndsAt(list, n) && k <= n && k % 2 == 0
    requires matchFound ==> k == n && MatchesUpTo(c, list, n)
    requires !matchFound ==> k < n && !PairMatches(c, list[k], list[k + 1])
    ensures matchFound <==> Matches(c, list)
  {
    if Matches(c, list) {
      var m: nat :| EndsAt(list, m) && MatchesUpTo(c, list, m);
      EndUnique(list, n, m);
    }
  }

  // ----- the list built by initializeDisplayAndSurface

  datatype Sizes = Sizes(red: int, green: int, blue: int, alpha: int, depth: int, stencil: int, samples: int)

  function Wanted(bits: int): int { if bits >= 0 then bits else EGL_DONT_CARE }

  function ConfigAttributes(z: Sizes, multisample: bool, hasPixelFormatFloat: bool, componentType: int): seq<int> {
    var sizes := [EGL_RED_SIZE, Wanted(z.red), EGL_GREEN_SIZE, Wanted(z.green), EGL_BLUE_SIZE, Wanted(z.blue),
                  EGL_ALPHA_SIZE, Wanted(z.alpha), EGL_DEPTH_SIZE, Wanted(z.depth), EGL_STENCIL_SIZE, Wanted(z.stencil),
                  EGL_SAMPLE_BUFFERS, if multisample then 1 else 0, EGL_SAMPLES, Wanted(z.samples)];
    if hasPixelFormatFloat then sizes + [EGL_COLOR_COMPONENT_TYPE_EXT, componentType, EGL_NONE] else sizes + [EGL_NONE]
  }

  /** The members after the seven `eglGetConfigAttrib` calls. */
  function ReadBack(c: Config, z: Sizes): Sizes {
    Sizes(Query(c, EGL_RED_SIZE, z.red), Query(c, EGL_GREEN_SIZE, z.green), Query(c, EGL_BLUE_SIZE, z.blue),
          Query(c, EGL_ALPHA_SIZE, z.alpha), Query(c, EGL_DEPTH_SIZE, z.depth), Query(c, EGL_STENCIL_SIZE, z.stencil),
          Query(c, EGL_SAMPLES, z.samples))
  }

  ghost predicate SizesMatch(c: Config, z: Sizes) {
    && PairMatches(c, EGL_RED_SIZE, Wanted(z.red)) && PairMatches(c, EGL_GREEN_SIZE, Wanted(z.green))
    && PairMatches(c, EGL_BLUE_SIZE, Wanted(z.blue)) && PairMatches(c, EGL_ALPHA_SIZE, Wanted(z.alpha))
    && PairMatches(c, EGL_DEPTH_SIZE, Wanted(z.depth)) && PairMatches(c, EGL_STENCIL_SIZE, Wanted(z.stencil))
    && PairMatches(c, EGL_SAMPLES, Wanted(z.samples))
  }

  ghost predicate OthersMatch(c: Config, multisample: bool, hasPixelFormatFloat: bool, componentType: int) {
    && PairMatches(c, EGL_SAMPLE_BUFFERS, if multisample then 1 else 0)
    && (hasPixelFormatFloat ==> PairMatches(c, EGL_COLOR_COMPONENT_TYPE_EXT, componentType))
  }

  lemma NothingToMatch(c: Config, list: seq<int>)
    ensures MatchesUpTo(c, list, 0)
  {
  }

  lemma MatchesStep(c: Config, list: seq<int>, k: nat)
    requires k + 2 <= |list| && k % 2 == 0
    ensures MatchesUpTo(c, list, k + 2) <==> MatchesUpTo(c, list, k) && PairMatches(c, list[k], list[k + 1])
  {
  }

  lemma AttributesListed(z: Sizes, multisample: bool, hasPixelFormatFloat: bool, componentType: int, n: nat)
    requires n == if hasPixelFormatFloat then 18 else 16
    ensures var list := ConfigAttributes(z, multisample, hasPixelFormatFloat, componentType);
      && |list| == n + 1 && EndsAt(list, n)
      && list[0] == EGL_RED_SIZE && list[1] == Wanted(z.red)
      && list[2] == EGL_GREEN_SIZE && list[3] == Wanted(z.green)
      && list[4] == EGL_BLUE_SIZE && list[5] == Wanted(z.blue)
      && list[6] == EGL_ALPHA_SIZE && list[7] == Wanted(z.alpha)
      && list[8] == EGL_DEPTH_SIZE && list[9] == Wanted(z.depth)
      && list[10] == EGL_STENCIL_SIZE && list[11] == Wanted(z.stencil)
      && list[12] == EGL_SAMPLE_BUFFERS && list[13] == (if multisample then 1 else 0)
      && list[14] == EGL_SAMPLES && list[15] == Wanted(z.samples)
      && (hasPixelFormatFloat ==> list[16] == EGL_COLOR_COMPONENT_TYPE_EXT && list[17] == componentType)
  {
  }

  lemma MatchesEight(c: Config, list: seq<int>)
    requires |list| >= 16
    ensures MatchesUpTo(c, list, 16)
       <==> && PairMatches(c, list[0], list[1]) && PairMatches(c, list[2], list[3])
            && PairMatches(c, list[4], list[5]) && PairMatches(c, list[6], list[7])
            && PairMatches(c, list[8], list[9]) && PairMatches(c, list[10], list[11])
            && PairMatches(c, list[12], list[13]) && PairMatches(c, list[14], list[15])
  {
    hide PairMatches, MatchesUpTo;
    NothingToMatch(c, list);
    MatchesStep(c, list, 0);
    MatchesStep(c, list, 2);
    MatchesStep(c, list, 4);
    MatchesStep(c, list, 6);
    MatchesStep(c, list, 8);
    MatchesStep(c, list, 10);
    MatchesStep(c, list, 12);
    MatchesStep(c, list, 14);
  }

  /** The list is terminated and asks for exactly the sizes, the sample buffers and the component type. */
  lemma AttributesMean(c: Config, z: Sizes, multisample: bool, hasPixelFormatFloat: bool, componentType: int)
    ensures exists n: nat :: EndsAt(ConfigAttributes(z, multisample, hasPixelFormatFloat, componentType), n)
    ensures Matches(c, ConfigAttributes(z, multisample, hasPixelFormatFloat, componentType))
       <==> SizesMatch(c, z) && OthersMatch(c, multisample, hasPixelFormatFloat, componentType)
  {
    hide ConfigAttributes, PairMatches, Wanted, MatchesUpTo;
    var list := ConfigAttributes(z, multisample, hasPixelFormatFloat, componentType);
    var n := if hasPixelFormatFloat then 18 else 16;
    AttributesListed(z, multisample, hasPixelFormatFloat, componentType, n);
    MatchesEight(c, list);
    if hasPixelFormatFloat {
      MatchesStep(c, list, 16);
    }
    if Matches(c, list) {
      var m: nat :| EndsAt(list, m) && MatchesUpTo(c, list, m);
      EndUnique(list, n, m);
    }
  }

  /** Nothing was asked for, or the configuration has exactly that much. */
  ghost predicate HasSize(c: Config, attribute: int, asked: int) {
    asked >= 0 ==> attribute in c.attribs && c.attribs[attribute] == asked
  }

  /** What the caller asked for, said about the configuration alone. */
  ghost predicate Suits(c: Config, z: Sizes, multisample: bool, hasPixelFormatFloat: bool, componentType: int) {
    && HasSize(c, EGL_RED_SIZE, z.red) && HasSize(c, EGL_GREEN_SIZE, z.green) && HasSize(c, EGL_BLUE_SIZE, z.blue)
    && HasSize(c, EGL_ALPHA_SIZE, z.alpha) && HasSize(c, EGL_DEPTH_SIZE, z.depth)
    && HasSize(c, EGL_STENCIL_SIZE, z.stencil) && HasSize(c, EGL_SAMPLES, z.samples)
    && HasSize(c, EGL_SAMPLE_BUFFERS, if multisample then 1 else 0)
    && (hasPixelFormatFloat && componentType != EGL_DONT_CARE ==>
          EGL_COLOR_COMPONENT_TYPE_EXT in c.attribs && c.attribs[EGL_COLOR_COMPONENT_TYPE_EXT] == componentType)
  }

  lemma WantedMeans(c: Config, attribute: int, asked: int)
    ensures PairMatches(c, attribute, Wanted(asked)) <==> HasSize(c, attribute, asked)
  {
  }

  lemma OthersMean(c: Config, multisample: bool, hasPixelFormatFloat: bool, componentType: int)
    ensures OthersMatch(c, multisample, hasPixelFormatFloat, componentType)
       <==> && HasSize(c, EGL_SAMPLE_BUFFERS, if multisample then 1 else 0)
            && (hasPixelFormatFloat && componentType != EGL_DONT_CARE ==>
                  EGL_COLOR_COMPONENT_TYPE_EXT in c.attribs && c.attribs[EGL_COLOR_COMPONENT_TYPE_EXT] == componentType)
  {
  }

  /** The list built from the members matches exactly the configurations that suit them. */
  lemma MatchesIffSuits(c: Config, z: Sizes, multisample: bool, hasPixelFormatFloat: bool, componentType: int)
    ensures Matches(c, ConfigAttributes(z, multisample, hasPixelFormatFloat, componentType))
       <==> Suits(c, z, multisample, hasPixelFormatFloat, componentType)
  {
    hide Matches, ConfigAttributes, PairMatches, Wanted, HasSize, OthersMatch;
    AttributesMean(c, z, multisample, hasPixelFormatFloat, componentType);
    OthersMean(c, multisample, hasPixelFormatFloat, componentType);
    WantedMeans(c, EGL_RED_SIZE, z.red);
    WantedMeans(c, EGL_GREEN_SIZE, z.green);
    WantedMeans(c, EGL_BLUE_SIZE, z.blue);
    WantedMeans(c, EGL_ALPHA_SIZE, z.alpha);
    WantedMeans(c, EGL_DEPTH_SIZE, z.depth);
    WantedMeans(c, EGL_STENCIL_SIZE, z.stencil);
    WantedMeans(c, EGL_SAMPLES, z.samples);
  }

  /** The first configuration that suits, if there is one. */
  lemma FirstMatchSuits(configs: seq<Config>, z: Sizes, multisample: bool, hasPixelFormatFloat: bool,
                        componentType: int)
    ensures var r := FirstMatch(configs, ConfigAttributes(z, multisample, hasPixelFormatFloat, componentType));
      && (r.Some? <==> exists c :: c in configs && Suits(c, z, multisample, hasPixelFormatFloat, componentType))
      && (r.Some? ==> exists i: nat :: FirstSuitable(configs, z, multisample, hasPixelFormatFloat, componentType, i)
                                       && r.value == configs[i])
  {
    hide Matches, ConfigAttributes, Suits, FirstMatch;
    var list := ConfigAttributes(z, multisample, hasPixelFormatFloat, componentType);
    forall c ensures Matches(c, list) <==> Suits(c, z, multisample, hasPixelFormatFloat, componentType) {
      MatchesIffSuits(c, z, multisample, hasPixelFormatFloat, componentType);
    }
    FirstMatchMeans(configs, list);
    if i: nat :| IsFirstMatch(configs, list, i) && FirstMatch(configs, list) == Some(configs[i]) {
      assert FirstSuitable(configs, z, multisample, hasPixelFormatFloat, componentType, i);
    }
  }

  ghost predicate FirstSuitable(configs: seq<Config>, z: Sizes, multisample: bool, hasPixelFormatFloat: bool,
                                componentType: int, i: nat) {
    && i < |configs| && Suits(configs[i], z, multisample, hasPixelFormatFloat, componentType)
    && forall j :: 0 <= j < i ==> !Suits(configs[j], z, multisample, hasPixelFormatFloat, componentType)
  }

  /** The configuration's own size if it knows the attribute; otherwise the size stays as it was. */
  ghost predicate FromConfig(c: Config, attribute: int, before: int, after: int) {
    after == if attribute in c.attribs then c.attribs[attribute] else before
  }

  ghost predicate SizesFromConfig(c: Config, before: Sizes, after: Sizes) {
    && FromConfig(c, EGL_RED_SIZE, before.red, after.red)
    && FromConfig(c, EGL_GREEN_SIZE, before.green, after.green)
    && FromConfig(c, EGL_BLUE_SIZE, before.blue, after.blue)
    && FromConfig(c, EGL_ALPHA_SIZE, before.alpha, after.alpha)
    && FromConfig(c, EGL_DEPTH_SIZE, before.depth, after.depth)
    && FromConfig(c, EGL_STENCIL_SIZE, before.stencil, after.stencil)
    && FromConfig(c, EGL_SAMPLES, before.samples, after.samples)
  }

  lemma ReadBackMeans(c: Config, z: Sizes)
    ensures SizesFromConfig(c, z, ReadBack(c, z))
  {
  }

  ghost predicate Kept(asked: int, got: int) { asked >= 0 ==> got == asked }

  /** Each of the seven sizes becomes the configuration's; a size that was asked for is the size read back. */
  lemma RequestedSizesSurvive(c: Config, z: Sizes, multisample: bool, hasPixelFormatFloat: bool, componentType: int)
    requires Matches(c, ConfigAttributes(z, multisample, hasPixelFormatFloat, componentType))
    ensures SizesFromConfig(c, z, ReadBack(c, z))
    ensures var got := ReadBack(c, z);
      && Kept(z.red, got.red) && Kept(z.green, got.green) && Kept(z.blue, got.blue) && Kept(z.alpha, got.alpha)
      && Kept(z.depth, got.depth) && Kept(z.stencil, got.stencil) && Kept(z.samples, got.samples)
  {
    AttributesMean(c, z, multisample, hasPixelFormatFloat, componentType);
  }

  lemma ReadBackIsStricter(c: Config, d: Config, z: Sizes)
    requires SizesMatch(c, z)
    ensures SizesMatch(c, ReadBack(c, z))
    ensures SizesMatch(d, ReadBack(c, z)) ==> SizesMatch(d, z)
  {
  }

  /** Asking again, with the sizes read back, on the same list of configurations selects the same one. */
  lemma ReadBackSelectsSame(configs: seq<Config>, z: Sizes, multisample: bool, hasPixelFormatFloat: bool,
                            componentType: int, i: nat)
    requires IsFirstMatch(configs, ConfigAttributes(z, multisample, hasPixelFormatFloat, componentType), i)
    ensures IsFirstMatch(configs,
              ConfigAttributes(ReadBack(configs[i], z), multisample, hasPixelFormatFloat, componentType), i)
  {
    var c := configs[i];
    var again := ReadBack(c, z);
    hide Matches, ConfigAttributes, SizesMatch, ReadBack, OthersMatch;
    AttributesMean(c, z, multisample, hasPixelFormatFloat, componentType);
    AttributesMean(c, again, multisample, hasPixelFormatFloat, componentType);
    ReadBackIsStricter(c, c, z);
    forall j | 0 <= j < i
      ensures !Matches(configs[j], ConfigAttributes(again, multisample, hasPixelFormatFloat, componentType))
    {
      AttributesMean(configs[j], z, multisample, hasPixelFormatFloat, componentType);
      AttributesMean(configs[j], again, multisample, hasPixelFormatFloat, componentType);
      ReadBackIsStricter(c, configs[j], z);
    }
  }
}
