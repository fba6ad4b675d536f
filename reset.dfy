/**
 * The preset builder of src/index.ts: the options and their defaults, the
 * `future` and `experimental` flag objects, the core plugins it switches
 * off, the theme, and the plugin callback that warns about overridden flag
 * objects and re-adds the utilities of the switched-off core plugins.
 */
module Reset {
  import opened Wrappers
  import DefaultTheme

  // ---------------------------------------------------------------------------
  // Options
  // ---------------------------------------------------------------------------

  /** The options object: every key may be left out (JavaScript `undefined`). */
  datatype Options = Options(
    hoverOnlyWhenSupported: Option<bool>,
    optimizeUniversalDefaults: Option<bool>,
    disableDeprecated: Option<bool>)

  /** `makeReset()` and `makeReset({})`. */
  const NoOptions := Options(None, None, None)

  /** The options after destructuring with their defaults. */
  datatype Settings = Settings(hoverOnlyWhenSupported: bool, optimizeUniversalDefaults: bool, disableDeprecated: bool)

  function OrDefault(b: Option<bool>, default: bool): bool
  {
    match b
    case None => default
    case Some(x) => x
  }

  /** Defaults: hoverOnlyWhenSupported off, the other two on; a given value wins. */
  function Resolve(o: Options): (s: Settings)
    ensures s.hoverOnlyWhenSupported <==> o.hoverOnlyWhenSupported == Some(true)
    ensures s.optimizeUniversalDefaults <==> o.optimizeUniversalDefaults != Some(false)
    ensures s.disableDeprecated <==> o.disableDeprecated != Some(false)
  {
    Settings(
      OrDefault(o.hoverOnlyWhenSupported, false),
      OrDefault(o.optimizeUniversalDefaults, true),
      OrDefault(o.disableDeprecated, true))
  }

  // ---------------------------------------------------------------------------
  // The configuration record
  // ---------------------------------------------------------------------------

  /**
   * A `future` flags object. Its identity matters: the callback compares the
   * object Tailwind ends up with against the one the builder made.
   */
  class FutureConfig {
    const hoverOnlyWhenSupported: bool
    const respectDefaultRingColorOpacity: bool
    const disableColorOpacityUtilitiesByDefault: bool
    const relativeContentPathsByDefault: bool

    constructor(hover: bool, respectRing: bool, disableColorOpacity: bool, relativeContent: bool)
      ensures hoverOnlyWhenSupported == hover && respectDefaultRingColorOpacity == respectRing
      ensures disableColorOpacityUtilitiesByDefault == disableColorOpacity
      ensures relativeContentPathsByDefault == relativeContent
    {
      hoverOnlyWhenSupported := hover;
      respectDefaultRingColorOpacity := respectRing;
      disableColorOpacityUtilitiesByDefault := disableColorOpacity;
      relativeContentPathsByDefault := relativeContent;
    }
  }

  /** An `experimental` flags object, compared by identity like `future`. */
  class ExperimentalConfig {
    const optimizeUniversalDefaults: bool

    constructor(optimize: bool)
      ensures optimizeUniversalDefaults == optimize
    {
      optimizeUniversalDefaults := optimize;
    }
  }

  /** The core plugins Tailwind marks deprecated, which the preset switches off. */
  const DeprecatedPlugins: set<string> := {"flexShrink", "flexGrow", "boxDecorationBreak", "textOverflow"}

  /** `corePlugins`: the deprecated plugins set to false, or nothing at all. */
  function CorePlugins(disableDeprecated: bool): (m: map<string, bool>)
    ensures disableDeprecated ==> m.Keys == DeprecatedPlugins && forall k :: k in m ==> !m[k]
    ensures !disableDeprecated ==> m == map[]
  {
    if disableDeprecated then
      map["flexShrink" := false, "flexGrow" := false, "boxDecorationBreak" := false, "textOverflow" := false]
    else map[]
  }

  /** `theme.extend`: the same four DEFAULT values whatever the options. */
  const ThemeExtend: map<string, map<string, string>> := map[
    "borderColor" := map["DEFAULT" := "currentColor"],
    "ringColor" := map["DEFAULT" := "currentColor"],
    "ringWidth" := map["DEFAULT" := "1px"],
    "ringOpacity" := map["DEFAULT" := "1"]]

  datatype Theme = Theme(screens: seq<DefaultTheme.ScreenEntry>, extend: map<string, map<string, string>>)

  /**
   * The two plugins: the restoration callback, with the values its closure
   * captures, and the container-queries plugin, which is foreign code.
   */
  datatype Plugin =
    | RestoreDeprecated(future: FutureConfig, experimental: ExperimentalConfig, disableDeprecated: bool)
    | ContainerQueries

  datatype PresetConfig = PresetConfig(
    future: FutureConfig,
    experimental: ExperimentalConfig,
    corePlugins: map<string, bool>,
    theme: Theme,
    plugins: seq<Plugin>)

  /**
   * `makeReset(options)`. `tailwindScreens` is Tailwind's own default screens
   * table, which the preset converts to rem once.
   */
  method MakeReset(options: Options, tailwindScreens: Option<seq<DefaultTheme.ScreenEntry>>)
    returns (c: PresetConfig)
    ensures fresh(c.future) && fresh(c.experimental)
    ensures c.future.hoverOnlyWhenSupported == Resolve(options).hoverOnlyWhenSupported
    ensures c.future.respectDefaultRingColorOpacity && c.future.disableColorOpacityUtilitiesByDefault
    ensures c.future.relativeContentPathsByDefault
    ensures c.experimental.optimizeUniversalDefaults == Resolve(options).optimizeUniversalDefaults
    ensures c.corePlugins == CorePlugins(Resolve(options).disableDeprecated)
    ensures c.theme == Theme(DefaultTheme.Screens(tailwindScreens), ThemeExtend)
    ensures c.plugins == [RestoreDeprecated(c.future, c.experimental, Resolve(options).disableDeprecated), ContainerQueries]
  {
    var s := Resolve(options);
    var future := new FutureConfig(s.hoverOnlyWhenSupported, true, true, true);
    var experimental := new ExperimentalConfig(s.optimizeUniversalDefaults);
    c := PresetConfig(
      future,
      experimental,
      CorePlugins(s.disableDeprecated),
      Theme(DefaultTheme.Screens(tailwindScreens), ThemeExtend),
      [RestoreDeprecated(future, experimental, s.disableDeprecated), ContainerQueries]);
  }

  /** The default export: the configuration `makeReset()` builds. */
  method DefaultReset(tailwindScreens: Option<seq<DefaultTheme.ScreenEntry>>) returns (c: PresetConfig)
    ensures fresh(c.future) && fresh(c.experimental)
    ensures !c.future.hoverOnlyWhenSupported && c.experimental.optimizeUniversalDefaults
    ensures c.future.respectDefaultRingColorOpacity && c.future.disableColorOpacityUtilitiesByDefault
    ensures c.future.relativeContentPathsByDefault
    ensures c.corePlugins.Keys == DeprecatedPlugins && forall k :: k in c.corePlugins ==> !c.corePlugins[k]
    ensures c.theme == Theme(DefaultTheme.Screens(tailwindScreens), ThemeExtend)
    ensures c.plugins == [RestoreDeprecated(c.future, c.experimental, true), ContainerQueries]
  {
    c := MakeReset(NoOptions, tailwindScreens);
  }

  // ---------------------------------------------------------------------------
  // The plugin callback
  // ---------------------------------------------------------------------------

  /** What `theme(key)` returns: an uninterpreted value from Tailwind's theme. */
  datatype ThemeValue = ThemeValue(id: nat)

  datatype Declaration = Declaration(property: string, value: string)

  datatype Rule = Rule(selector: string, declarations: seq<Declaration>)

  /**
   * What the callback hands to Tailwind: a warning, a `matchUtilities` call
   * for one utility whose value `val` becomes the declaration `property: val`,
   * or an `addUtilities` call with fixed rules.
   */
  datatype Effect =
    | Warning(section: Section)
    | MatchUtility(name: string, property: string, values: Option<ThemeValue>)
    | AddUtilities(rules: seq<Rule>)

  /** The two configuration sections whose objects the callback checks. */
  datatype Section = Future | Experimental

  /** The text a warning prints (without its terminal colours). */
  function OverrideMessage(section: Section): string
  {
    "tw-reset was overridden by the " + (if section == Future then "future" else "experimental")
      + " options in your Tailwind config file. Please pass these options to the preset instead."
  }

  /** The four utility groups the callback can re-add, in the order it tries them. */
  datatype Group = Shrink | Grow | BoxDecoration | TextOverflow

  const Groups: seq<Group> := [Shrink, Grow, BoxDecoration, TextOverflow]

  /** The core plugin whose being switched off makes the group come back. */
  function CorePlugin(g: Group): string
  {
    match g
    case Shrink => "flexShrink"
    case Grow => "flexGrow"
    case BoxDecoration => "boxDecorationBreak"
    case TextOverflow => "textOverflow"
  }

  /** `theme(key)`: the configured value, or undefined when the key is absent. */
  function ThemeLookup(theme: map<string, ThemeValue>, key: string): (r: Option<ThemeValue>)
    ensures r.Some? <==> key in theme
    ensures r.Some? ==> r.value == theme[key]
  {
    if key in theme then Some(theme[key]) else None
  }

  /** The utilities a group re-adds, with their exact declarations. */
  function GroupEffect(g: Group, theme: map<string, ThemeValue>): (e: Effect)
    ensures !e.Warning?
  {
    match g
    case Shrink => MatchUtility("shrink", "flex-shrink", ThemeLookup(theme, "flexShrink"))
    case Grow => MatchUtility("grow", "flex-grow", ThemeLookup(theme, "flexGrow"))
    case BoxDecoration => AddUtilities([
      Rule(".box-decoration-slice", [Declaration("box-decoration-break", "slice")]),
      Rule(".box-decoration-clone", [Declaration("box-decoration-break", "clone")])])
    case TextOverflow => AddUtilities([
      Rule(".truncate", [Declaration("overflow", "hidden"), Declaration("text-overflow", "ellipsis"),
                         Declaration("white-space", "nowrap")]),
      Rule(".text-ellipsis", [Declaration("text-overflow", "ellipsis")]),
      Rule(".text-clip", [Declaration("text-overflow", "clip")])])
  }

  function GroupEffects(gs: seq<Group>, theme: map<string, ThemeValue>): (r: seq<Effect>)
    ensures |r| == |gs| && forall i :: 0 <= i < |gs| ==> r[i] == GroupEffect(gs[i], theme)
  {
    if gs == [] then [] else [GroupEffect(gs[0], theme)] + GroupEffects(gs[1..], theme)
  }

  /** `a` is `b` with some elements left out. */
  predicate Subsequence<T(==)>(a: seq<T>, b: seq<T>)
    decreases |b|
  {
    a == [] || (b != [] && ((a[0] == b[0] && Subsequence(a[1..], b[1..])) || Subsequence(a, b[1..])))
  }

  /** The groups of `gs` whose core plugin is not enabled, tried one after another. */
  function Restored(gs: seq<Group>, enabled: set<string>): (r: seq<Group>)
    ensures forall g :: g in r <==> g in gs && CorePlugin(g) !in enabled
    ensures Subsequence(r, gs) && |r| <= |gs|
  {
    if gs == [] then []
    else
      var rest := Restored(gs[1..], enabled);
      if CorePlugin(gs[0]) !in enabled then [gs[0]] + rest else rest
  }

  lemma RestoredCons(g: Group, gs: seq<Group>, enabled: set<string>)
    ensures Restored([g] + gs, enabled) ==
      (if CorePlugin(g) !in enabled then [g] else []) + Restored(gs, enabled)
  {
    assert ([g] + gs)[1..] == gs;
  }

  function Kept(g: Group, enabled: set<string>): seq<Group>
  {
    if CorePlugin(g) !in enabled then [g] else []
  }

  lemma RestoredLast(enabled: set<string>)
    ensures Restored([TextOverflow], enabled) == Kept(TextOverflow, enabled)
  {
    RestoredCons(TextOverflow, [], enabled);
    assert [TextOverflow] == [TextOverflow] + [];
  }

  lemma RestoredLastTwo(enabled: set<string>)
    ensures Restored([BoxDecoration, TextOverflow], enabled) == Kept(BoxDecoration, enabled) + Kept(TextOverflow, enabled)
  {
    RestoredLast(enabled);
    RestoredCons(BoxDecoration, [TextOverflow], enabled);
    assert [BoxDecoration, TextOverflow] == [BoxDecoration] + [TextOverflow];
  }

  lemma RestoredLastThree(enabled: set<string>)
    ensures Restored([Grow, BoxDecoration, TextOverflow], enabled) ==
      Kept(Grow, enabled) + (Kept(BoxDecoration, enabled) + Kept(TextOverflow, enabled))
  {
    RestoredLastTwo(enabled);
    RestoredCons(Grow, [BoxDecoration, TextOverflow], enabled);
    assert [Grow, BoxDecoration, TextOverflow] == [Grow] + [BoxDecoration, TextOverflow];
  }

  /** The four groups in the callback's fixed order, each kept when its plugin is off. */
  lemma RestoredGroups(enabled: set<string>)
    ensures Restored(Groups, enabled) ==
      Kept(Shrink, enabled) + (Kept(Grow, enabled) + (Kept(BoxDecoration, enabled) + Kept(TextOverflow, enabled)))
  {
    RestoredLastThree(enabled);
    RestoredCons(Shrink, [Grow, BoxDecoration, TextOverflow], enabled);
    assert Groups == [Shrink] + [Grow, BoxDecoration, TextOverflow];
  }

  function WarningCount(futureOverridden: bool, experimentalOverridden: bool): nat
  {
    (if futureOverridden then 1 else 0) + (if experimentalOverridden then 1 else 0)
  }

  /** One warning per overridden section, `future` first. */
  function OverrideWarnings(futureOverridden: bool, experimentalOverridden: bool): (w: seq<Effect>)
    ensures |w| == WarningCount(futureOverridden, experimentalOverridden)
    ensures forall i :: 0 <= i < |w| ==> w[i].Warning?
    ensures futureOverridden ==> w[0] == Warning(Future)
    ensures experimentalOverridden ==> w[|w| - 1] == Warning(Experimental)
  {
    (if futureOverridden then [Warning(Future)] else [])
      + (if experimentalOverridden then [Warning(Experimental)] else [])
  }

  /** The utilities the callback re-adds: none unless `disableDeprecated`. */
  function RestoredEffects(disableDeprecated: bool, enabled: set<string>, theme: map<string, ThemeValue>): seq<Effect>
  {
    GroupEffects(if disableDeprecated then Restored(Groups, enabled) else [], theme)
  }

  /**
   * Everything the callback does, given whether the final `future` and
   * `experimental` objects are not the builder's, the captured
   * `disableDeprecated`, the enabled core plugins and the theme.
   */
  function CallbackEffects(futureOverridden: bool, experimentalOverridden: bool, disableDeprecated: bool,
                           enabled: set<string>, theme: map<string, ThemeValue>): (r: seq<Effect>)
    ensures WarningCount(futureOverridden, experimentalOverridden) <= |r|
    ensures |r| <= WarningCount(futureOverridden, experimentalOverridden) + |Groups|
  {
    OverrideWarnings(futureOverridden, experimentalOverridden) + RestoredEffects(disableDeprecated, enabled, theme)
  }

  /**
   * The callback warns once for each overridden section, `future` first, and
   * all its warnings come before any utility.
   */
  lemma CallbackWarnings(futureOverridden: bool, experimentalOverridden: bool, disableDeprecated: bool,
                         enabled: set<string>, theme: map<string, ThemeValue>)
    ensures var r := CallbackEffects(futureOverridden, experimentalOverridden, disableDeprecated, enabled, theme);
      var w := WarningCount(futureOverridden, experimentalOverridden);
      w <= |r| && (forall i :: 0 <= i < |r| ==> (r[i].Warning? <==> i < w)) &&
      (futureOverridden ==> r[0] == Warning(Future)) &&
      (experimentalOverridden ==> r[w - 1] == Warning(Experimental))
  {
    var warnings := OverrideWarnings(futureOverridden, experimentalOverridden);
    var restored := RestoredEffects(disableDeprecated, enabled, theme);
    var r := warnings + restored;
    forall i | 0 <= i < |r| ensures r[i].Warning? <==> i < |warnings| {
      if i < |warnings| { assert r[i] == warnings[i]; } else { assert r[i] == restored[i - |warnings|]; }
    }
  }

  /** Without `disableDeprecated` the callback only warns. */
  lemma CallbackWithoutRestoring(futureOverridden: bool, experimentalOverridden: bool,
                                 enabled: set<string>, theme: map<string, ThemeValue>)
    ensures CallbackEffects(futureOverridden, experimentalOverridden, false, enabled, theme) ==
      OverrideWarnings(futureOverridden, experimentalOverridden)
  {
    assert RestoredEffects(false, enabled, theme) == [];
  }

  lemma GroupEffectInjective(g: Group, h: Group, theme: map<string, ThemeValue>)
    requires GroupEffect(g, theme) == GroupEffect(h, theme)
    ensures g == h
  {
  }

  /**
   * A group's utilities are re-added if and only if `disableDeprecated` is
   * set and its core plugin is reported disabled; warnings never stop this.
   */
  lemma CallbackRestores(futureOverridden: bool, experimentalOverridden: bool, disableDeprecated: bool,
                         enabled: set<string>, theme: map<string, ThemeValue>, g: Group)
    ensures GroupEffect(g, theme) in CallbackEffects(futureOverridden, experimentalOverridden, disableDeprecated, enabled, theme)
      <==> disableDeprecated && CorePlugin(g) !in enabled
  {
    var warnings := OverrideWarnings(futureOverridden, experimentalOverridden);
    var gs := if disableDeprecated then Restored(Groups, enabled) else [];
    var restored := GroupEffects(gs, theme);
    assert CallbackEffects(futureOverridden, experimentalOverridden, disableDeprecated, enabled, theme) == warnings + restored;
    assert GroupEffect(g, theme) !in warnings;
    assert g in Groups by { assert g == Groups[0] || g == Groups[1] || g == Groups[2] || g == Groups[3]; }
    if GroupEffect(g, theme) in restored {
      var i :| 0 <= i < |restored| && restored[i] == GroupEffect(g, theme);
      GroupEffectInjective(gs[i], g, theme);
    }
    if disableDeprecated && CorePlugin(g) !in enabled {
      var k :| 0 <= k < |gs| && gs[k] == g;
      assert restored[k] == GroupEffect(g, theme);
    }
  }

  lemma {:induction false} SubsequenceOfEffects(a: seq<Group>, b: seq<Group>, theme: map<string, ThemeValue>)
    requires Subsequence(a, b)
    ensures Subsequence(GroupEffects(a, theme), GroupEffects(b, theme))
    decreases |b|
  {
    if a != [] {
      assert b != [];
      assert GroupEffects(b, theme)[1..] == GroupEffects(b[1..], theme);
      if a[0] == b[0] && Subsequence(a[1..], b[1..]) {
        SubsequenceOfEffects(a[1..], b[1..], theme);
        assert GroupEffects(a, theme)[1..] == GroupEffects(a[1..], theme);
      } else {
        SubsequenceOfEffects(a, b[1..], theme);
      }
    }
  }

  /** The re-added utilities follow the fixed order shrink, grow, box-decoration, text-overflow. */
  lemma CallbackOrder(futureOverridden: bool, experimentalOverridden: bool, disableDeprecated: bool,
                      enabled: set<string>, theme: map<string, ThemeValue>)
    ensures var r := CallbackEffects(futureOverridden, experimentalOverridden, disableDeprecated, enabled, theme);
      var w := WarningCount(futureOverridden, experimentalOverridden);
      w <= |r| && Subsequence(r[w..], GroupEffects(Groups, theme))
  {
    var warnings := OverrideWarnings(futureOverridden, experimentalOverridden);
    var gs := if disableDeprecated then Restored(Groups, enabled) else [];
    var r := warnings + GroupEffects(gs, theme);
    assert r[|warnings|..] == GroupEffects(gs, theme);
    SubsequenceOfEffects(gs, Groups, theme);
  }

  /** With no overridden section and nothing to restore, the callback does nothing. */
  lemma CallbackQuiet(disableDeprecated: bool, enabled: set<string>, theme: map<string, ThemeValue>)
    requires !disableDeprecated || DeprecatedPlugins <= enabled
    ensures CallbackEffects(false, false, disableDeprecated, enabled, theme) == []
  {
    if disableDeprecated {
      RestoredGroups(enabled);
      assert RestoredEffects(true, enabled, theme) == GroupEffects([], theme);
    }
  }

  /** The sections a run of effects warns about, in order. */
  function WarnedSections(effects: seq<Effect>): (ss: seq<Section>)
    ensures |ss| <= |effects|
  {
    if effects == [] then []
    else (if effects[0].Warning? then [effects[0].section] else []) + WarnedSections(effects[1..])
  }

  /** What `console.warn` prints for a run of effects: one message per warning, in order. */
  function Messages(effects: seq<Effect>): (m: seq<string>)
    ensures |m| == |WarnedSections(effects)|
    ensures forall i :: 0 <= i < |m| ==> m[i] == OverrideMessage(WarnedSections(effects)[i])
  {
    var ss := WarnedSections(effects);
    seq(|ss|, i requires 0 <= i < |ss| => OverrideMessage(ss[i]))
  }

  lemma {:induction false} SectionsAppend(a: seq<Effect>, b: seq<Effect>)
    ensures WarnedSections(a + b) == WarnedSections(a) + WarnedSections(b)
    decreases |a|
  {
    if a == [] {
      assert a + b == b;
    } else {
      assert (a + b)[0] == a[0] && (a + b)[1..] == a[1..] + b;
      SectionsAppend(a[1..], b);
    }
  }

  /** Re-added utilities print nothing. */
  lemma {:induction false} GroupEffectsSilent(gs: seq<Group>, theme: map<string, ThemeValue>)
    ensures WarnedSections(GroupEffects(gs, theme)) == []
    decreases |gs|
  {
    if gs != [] {
      var r := GroupEffects(gs, theme);
      assert r[1..] == GroupEffects(gs[1..], theme);
      GroupEffectsSilent(gs[1..], theme);
    }
  }

  /**
   * The callback warns about `future` first when that object was replaced,
   * then about `experimental` when that one was, and prints nothing for the
   * re-added utilities; `Messages` turns these sections into the printed text.
   */
  lemma CallbackMessages(futureOverridden: bool, experimentalOverridden: bool, disableDeprecated: bool,
                         enabled: set<string>, theme: map<string, ThemeValue>)
    ensures WarnedSections(CallbackEffects(futureOverridden, experimentalOverridden, disableDeprecated, enabled, theme))
      == (if futureOverridden then [Future] else []) + (if experimentalOverridden then [Experimental] else [])
  {
    var fw: seq<Effect> := if futureOverridden then [Warning(Future)] else [];
    var ew: seq<Effect> := if experimentalOverridden then [Warning(Experimental)] else [];
    var gs := if disableDeprecated then Restored(Groups, enabled) else [];
    assert OverrideWarnings(futureOverridden, experimentalOverridden) == fw + ew;
    SectionsAppend(fw + ew, GroupEffects(gs, theme));
    GroupEffectsSilent(gs, theme);
    SectionsAppend(fw, ew);
    assert WarnedSections(fw) == (if futureOverridden then [Future] else []) by {
      if futureOverridden { assert fw[1..] == []; }
    }
    assert WarnedSections(ew) == (if experimentalOverridden then [Experimental] else []) by {
      if experimentalOverridden { assert ew[1..] == []; }
    }
  }

  /**
   * The text the callback prints: one message per replaced object, the
   * `future` message first when that object was replaced and the
   * `experimental` message last when that one was.
   */
  lemma CallbackPrints(futureOverridden: bool, experimentalOverridden: bool, disableDeprecated: bool,
                       enabled: set<string>, theme: map<string, ThemeValue>)
    ensures var m := Messages(CallbackEffects(futureOverridden, experimentalOverridden, disableDeprecated, enabled, theme));
      |m| == WarningCount(futureOverridden, experimentalOverridden) &&
      (futureOverridden ==> m[0] == OverrideMessage(Future)) &&
      (experimentalOverridden ==> m[|m| - 1] == OverrideMessage(Experimental))
  {
    var r := CallbackEffects(futureOverridden, experimentalOverridden, disableDeprecated, enabled, theme);
    CallbackMessages(futureOverridden, experimentalOverridden, disableDeprecated, enabled, theme);
    var ws := WarnedSections(r);
    assert futureOverridden ==> ws[0] == Future;
    assert experimentalOverridden ==> ws[|ws| - 1] == Experimental;
  }

  /**
   * The host side of a plugin call: what `config('future')`,
   * `config('experimental')`, `corePlugins(name)` and `theme(key)` report, and
   * the log of what the plugin hands back.
   */
  class PluginApi {
    const configFuture: object?
    const configExperimental: object?
    const enabledCorePlugins: set<string>
    const theme: map<string, ThemeValue>
    var log: seq<Effect>

    constructor(future: object?, experimental: object?, enabled: set<string>, theme: map<string, ThemeValue>)
      ensures configFuture == future && configExperimental == experimental
      ensures enabledCorePlugins == enabled && this.theme == theme && log == []
    {
      configFuture := future;
      configExperimental := experimental;
      enabledCorePlugins := enabled;
      this.theme := theme;
      log := [];
    }

    /** `console.warn` of the override message for `section`. */
    method Warn(section: Section)
      modifies this
      ensures log == old(log) + [Warning(section)]
    {
      log := log + [Warning(section)];
    }

    method MatchUtilities(name: string, property: string, values: Option<ThemeValue>)
      modifies this
      ensures log == old(log) + [MatchUtility(name, property, values)]
    {
      log := log + [MatchUtility(name, property, values)];
    }

    method AddUtilities(rules: seq<Rule>)
      modifies this
      ensures log == old(log) + [Effect.AddUtilities(rules)]
    {
      log := log + [Effect.AddUtilities(rules)];
    }
  }

  lemma {:induction false} GroupEffectsAppend(a: seq<Group>, b: seq<Group>, theme: map<string, ThemeValue>)
    ensures GroupEffects(a + b, theme) == GroupEffects(a, theme) + GroupEffects(b, theme)
  {
    if a != [] {
      assert (a + b)[1..] == a[1..] + b;
      GroupEffectsAppend(a[1..], b, theme);
    }
  }

  lemma ConcatAssoc(a: seq<Effect>, b: seq<Effect>, c: seq<Effect>)
    ensures a + b + c == a + (b + c)
  {
  }

  /** One guarded step of the callback: re-add `g` when its core plugin is off. */
  method RestoreGroup(g: Group, api: PluginApi)
    modifies api
    ensures api.log == old(api.log) + GroupEffects(Kept(g, api.enabledCorePlugins), api.theme)
  {
    if CorePlugin(g) !in api.enabledCorePlugins {
      match g
      case Shrink => api.MatchUtilities("shrink", "flex-shrink", ThemeLookup(api.theme, "flexShrink"));
      case Grow => api.MatchUtilities("grow", "flex-grow", ThemeLookup(api.theme, "flexGrow"));
      case BoxDecoration => api.AddUtilities([
        Rule(".box-decoration-slice", [Declaration("box-decoration-break", "slice")]),
        Rule(".box-decoration-clone", [Declaration("box-decoration-break", "clone")])]);
      case TextOverflow => api.AddUtilities([
        Rule(".truncate", [Declaration("overflow", "hidden"), Declaration("text-overflow", "ellipsis"),
                           Declaration("white-space", "nowrap")]),
        Rule(".text-ellipsis", [Declaration("text-overflow", "ellipsis")]),
        Rule(".text-clip", [Declaration("text-overflow", "clip")])]);
    }
  }

  /**
   * The callback of the RestoreDeprecated plugin, run against `api`, with the
   * values its closure captured.
   */
  method RunCallback(future: FutureConfig, experimental: ExperimentalConfig, disableDeprecated: bool, api: PluginApi)
    modifies api
    ensures api.log == old(api.log) + CallbackEffects(api.configFuture != future, api.configExperimental != experimental,
                                                       disableDeprecated, api.enabledCorePlugins, api.theme)
  {
    ghost var warned := OverrideWarnings(api.configFuture != future, api.configExperimental != experimental);
    if api.configFuture != future {
      api.Warn(Future);
    }
    if api.configExperimental != experimental {
      api.Warn(Experimental);
    }
    assert api.log == old(api.log) + warned;
    if !disableDeprecated {
      CallbackWithoutRestoring(api.configFuture != future, api.configExperimental != experimental,
                               api.enabledCorePlugins, api.theme);
      return;
    }
    ghost var e := api.enabledCorePlugins;
    ghost var theme := api.theme;
    ghost var e1, e2, e3, e4 := GroupEffects(Kept(Shrink, e), theme), GroupEffects(Kept(Grow, e), theme),
      GroupEffects(Kept(BoxDecoration, e), theme), GroupEffects(Kept(TextOverflow, e), theme);
    RestoreGroup(Shrink, api);
    RestoreGroup(Grow, api);
    RestoreGroup(BoxDecoration, api);
    RestoreGroup(TextOverflow, api);
    RestoredGroups(e);
    GroupEffectsAppend(Kept(BoxDecoration, e), Kept(TextOverflow, e), theme);
    GroupEffectsAppend(Kept(Grow, e), Kept(BoxDecoration, e) + Kept(TextOverflow, e), theme);
    GroupEffectsAppend(Kept(Shrink, e), Kept(Grow, e) + (Kept(BoxDecoration, e) + Kept(TextOverflow, e)), theme);
    assert RestoredEffects(true, e, theme) == e1 + (e2 + (e3 + e4));
    ghost var all := CallbackEffects(api.configFuture != future, api.configExperimental != experimental, true, e, theme);
    assert all == warned + (e1 + (e2 + (e3 + e4)));
    ghost var o := old(api.log);
    ConcatAssoc(o + warned + e1 + e2, e3, e4);
    ConcatAssoc(o + warned + e1, e2, e3 + e4);
    ConcatAssoc(o + warned, e1, e2 + (e3 + e4));
    ConcatAssoc(o, warned, e1 + (e2 + (e3 + e4)));
  }
}
