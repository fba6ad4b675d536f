# tw-reset in Dafny

tw-reset is a Tailwind CSS preset. This project models its two source
files and proves properties of the model.

- `src/defaultTheme.ts` builds the preset's `screens` table from Tailwind's
  default breakpoints. The recogniser is a regular expression taken from
  Tailwind: optional surrounding whitespace, an optional sign, a decimal
  number with an optional fraction and an optional exponent, then `px`. Its
  capture goes through JavaScript's `parseInt`, which keeps only the signed
  integer part `n` of the number. So every length the pattern accepts becomes
  `<n / 16>rem` (`1.5px` becomes `0.0625rem`). A value whose number has no
  integer part (`.5px`) is kept unchanged.
- `src/index.ts` has two parts.
  - `makeReset` resolves three options against their defaults and returns
    the preset object: `future`, `experimental`, `corePlugins`, `theme` and
    two plugins.
  - The first plugin is a callback. It warns when the user's config replaced
    the preset's `future` or `experimental` object, compared by reference.
    When `disableDeprecated` is on, it re-adds four groups of utilities whose
    core plugins the preset switched off, skipping any group whose core
    plugin is enabled.

Files:

| file | contents |
|---|---|
| `wrappers.dfy` | `Option` |
| `chars.dfy` | character classes the regular expression uses (`\s`, digits, the number characters) and maximal runs over them |
| `numerals.dfy` | decimal digit strings, the exact decimal text of `N / 16`, and a decimal parser used to state its round trip |
| `default_theme.dfy` | the recogniser, `parseInt`, the per-value converter and the mapping over the screens table |
| `reset.dfy` | options, the preset object, the plugin API as a class with an effect log, and the callback |

Modelling choices:

- **The regular expression** is a hand-written scanner, `MatchLength`. It is
  proved equal to a declarative predicate, `LengthPattern`, that follows the
  regular expression group by group.
- **`parseInt`** on the capture is an optional sign followed by the longest
  run of leading digits. When no digit follows the optional sign (`.5`,
  `-.5`, `+.5`), the result is NaN, modelled as `None`.
- **The rem text** is the exact decimal of `N / 16`: an integer part,
  followed by up to four fraction digits without trailing zeros. For
  `-0px`, `parseInt` gives `-0`, and JavaScript prints `-0 / 16` as `0`.
  The model also gives `0rem`.
- **Screen values** that are not strings are an opaque `Other(id)`. They pass
  through unchanged, and so does every string that the regular expression
  rejects or that `parseInt` turns into NaN.
- **The screens table** is a sequence of name/value entries, so `mapObj`'s
  key order is the sequence order. An absent table (`?? {}`) gives the empty
  sequence. Tailwind's default table is a parameter, because it lives in
  another package.
- **Object identity**: `future` and `experimental` are classes. A fresh
  object is made on each `makeReset` call, and the callback compares
  references, as `!==` does.
- **The plugin API**: `addUtilities`, `matchUtilities` and `console.warn`
  become methods of `PluginApi`, which append an `Effect` to `log`. `config`,
  `corePlugins` and `theme` are constant fields of the same object. A
  warning records which section was overridden; `OverrideMessage` gives its
  text, and `Messages` gives the message text each `warn` call receives
  over a run of effects.

## Model

| member | source | states |
|---|---|---|
| `DefaultTheme.MatchLength` | src/defaultTheme.ts:14 | `bp.match(lengthRegExp)?.[1]`: a capture is a non-empty number that the scanner accepts, with room for `px` after it; `MatchLengthIffPattern` gives the exact language |
| `DefaultTheme.MatchLengthIffPattern` | src/defaultTheme.ts:6 | the scanner returns capture `g` exactly when the string is whitespace, `g` as a number in the regular expression's grammar, `px`, whitespace |
| `DefaultTheme.ParseInt` | src/defaultTheme.ts:15 | `parseInt` fails (NaN) exactly when no digit follows the optional sign |
| `DefaultTheme.ParseIntPrefix` | src/defaultTheme.ts:15 | `parseInt` of a sign, digits `ds` and any non-digit tail is the signed value of `ds` |
| `DefaultTheme.ConvertText` | src/defaultTheme.ts:14-17 | a converted value always ends in `rem` |
| `DefaultTheme.ConvertScreen` | src/defaultTheme.ts:13-17 | non-string values are returned unchanged; a string is replaced by its rem text when there is one, otherwise kept |
| `DefaultTheme.ConvertUnmatched` | src/defaultTheme.ts:14-16 | a string the regular expression rejects is not converted (the capture falls back to `''`, which is NaN) |
| `DefaultTheme.ConvertWithoutIntegerDigits` | src/defaultTheme.ts:14-16 | a matched length with no digit before its point (`.5px`, `-.5px`) is not converted |
| `DefaultTheme.ConvertIntegerPrefix` | src/defaultTheme.ts:14-17 | a matched length converts to the decimal of its signed leading integer divided by 16, followed by `rem` |
| `DefaultTheme.ConvertRoundTrip` | src/defaultTheme.ts:14-17 | every converted value comes from a matched length whose integer `N` parses; the text before `rem`, read back as a decimal, times 16 equals `N` |
| `DefaultTheme.ConvertIgnoresSurroundingWhitespace` | src/defaultTheme.ts:6 | padding a value with whitespace on either side does not change its conversion |
| `DefaultTheme.ConvertIgnoresFraction` | src/defaultTheme.ts:6-15 | `D.Fpx` converts exactly as `Dpx`, because `parseInt` stops at the point |
| `DefaultTheme.ConvertIgnoresExponent` | src/defaultTheme.ts:6-15 | `D` followed by `e` or `E`, an optional `+` or `-`, exponent digits and `px` converts exactly as `Dpx`, because `parseInt` stops at the exponent mark |
| `DefaultTheme.ConvertPixels` | src/defaultTheme.ts:14-17 | any non-empty digit string followed by `px` converts to the sixteenths of its value followed by `rem` |
| `DefaultTheme.ConvertWholeRem` | src/defaultTheme.ts:17 | a pixel count divisible by 16 converts to a whole number of rem with no fraction |
| `DefaultTheme.ScreenInRem` | src/defaultTheme.ts:13-17 | a screen value `<16k>px` becomes `<k>rem` |
| `DefaultTheme.PxText` | tests/index.test.ts:192 | the value `Px(640)` used for the breakpoints is the text `640px`, and `Rem(40)` is `40rem` |
| `DefaultTheme.DefaultBreakpointsInRem` | tests/index.test.ts:182-217 | Tailwind's default breakpoints 640, 768, 1024, 1280 and 1536 px become 40, 48, 64, 80 and 96 rem |
| `DefaultTheme.FractionExample` | src/defaultTheme.ts:15-17 | `1.5px` converts as `1px`, to `0.0625rem` |
| `DefaultTheme.ExponentExample` | src/defaultTheme.ts:15-17 | `2e3px` converts as `2px` |
| `DefaultTheme.OneSixteenth` | src/defaultTheme.ts:17 | one pixel is `0.0625` rem |
| `DefaultTheme.TwoSixteenths` | src/defaultTheme.ts:17 | two pixels are `0.125` rem, with the trailing zero dropped |
| `DefaultTheme.PointFiveUnchanged` | src/defaultTheme.ts:14-16 | `.5px` is left as it is |
| `DefaultTheme.NegativePointFiveUnchanged` | src/defaultTheme.ts:14-16 | `-.5px` is left as it is |
| `DefaultTheme.RemUnchanged` | src/defaultTheme.ts:14-16 | `40rem` is left as it is |
| `DefaultTheme.NonLengthsUnchanged` | src/defaultTheme.ts:14-16 | `px`, `abc` and the empty string are left as they are |
| `DefaultTheme.ConvertScreens` | src/defaultTheme.ts:12-17 | the converted table has the same length, the same names in the same order, and each value converted |
| `DefaultTheme.Screens` | src/defaultTheme.ts:12 | an absent default table gives an empty table; otherwise each entry is converted in place |
| `Numerals.NatText` | src/defaultTheme.ts:17 | the decimal text of a natural number is all digits, denotes that number and has no leading zero |
| `Numerals.Sixteenths` | src/defaultTheme.ts:17 | the text of `N / 16` starts with `-` exactly when `N` is negative |
| `Numerals.SixteenthsRoundTrip` | src/defaultTheme.ts:17 | the text of `N / 16` reads back as a decimal `m·10^-s` with `s <= 4` and `16·m = N·10^s`; it has fraction digits (`s > 0`) exactly when 16 does not divide `N`, and then its last digit is not zero |
| `Numerals.SixteenthsIntegerPart` | src/defaultTheme.ts:17 | after the optional sign, the leading digit run of the text of `N / 16` is non-empty and is exactly the plain decimal text of the whole part of the absolute value of `N` divided by 16, so it has no leading zero |
| `Numerals.SixteenthsPoint` | src/defaultTheme.ts:17 | the text of `N / 16` contains a point exactly when 16 does not divide `N` |
| `Numerals.WholeSixteenths` | src/defaultTheme.ts:17 | for a natural `a` divisible by 16, the text of `a / 16` is the plain integer text of the quotient |
| `Numerals.SignedWholeSixteenths` | src/defaultTheme.ts:17 | for any integer `n` divisible by 16, the text of `n / 16` is a minus sign when `n` is negative followed by the plain integer text of the quotient's magnitude, with no point |
| `Reset.Resolve` | src/index.ts:23-27 | `hoverOnlyWhenSupported` is on only when given as true; `optimizeUniversalDefaults` and `disableDeprecated` are on unless given as false |
| `Reset.FutureConfig.constructor` | src/index.ts:29-34 | the four `future` flags hold the values given |
| `Reset.ExperimentalConfig.constructor` | src/index.ts:35-37 | the `experimental` flag holds the value given |
| `Reset.CorePlugins` | src/index.ts:42-51 | with `disableDeprecated` on, exactly the four deprecated core plugins are switched off; otherwise the map is empty |
| `Reset.MakeReset` | src/index.ts:23-141 | the preset has fresh `future` and `experimental` objects with the resolved flags, the three fixed `future` flags true, the core plugin map, the converted screens with the fixed `extend` theme, and the plugins callback then container queries |
| `Reset.DefaultReset` | src/index.ts:143 | the default export is the preset for no options: hover off, universal defaults optimized, the four deprecated core plugins switched off, and a callback that restores them |
| `Reset.ThemeLookup` | src/index.ts:101-114 | `theme(key)` gives the configured value when the key is present and is undefined otherwise |
| `Reset.GroupEffect` | src/index.ts:93-135 | re-adding a group never produces a warning |
| `Reset.GroupEffects` | src/index.ts:93-135 | one effect per group, in the groups' order |
| `Reset.Restored` | src/index.ts:93-135 | a group is re-added exactly when its core plugin is not enabled, and the re-added groups keep their fixed order |
| `Reset.RestoredGroups` | src/index.ts:93-135 | the re-added groups are shrink, grow, box-decoration and text-overflow in that order, each present when its core plugin is disabled |
| `Reset.OverrideMessage` | src/index.ts:76-83 | the message text passed to `warn` for the `future` or `experimental` section, without its colour codes; `Messages` applies it to every warning |
| `Reset.WarnedSections` | src/index.ts:75-84 | the sections a run of effects warns about, never more than the effects |
| `Reset.Messages` | src/index.ts:21-84 | the message text each `warn` call receives over a run of effects: one `OverrideMessage` per warning, in order |
| `Reset.CallbackMessages` | src/index.ts:75-135 | the callback warns with the `future` message first when that object was replaced, then the `experimental` message when that one was, and nothing for the re-added utilities |
| `Reset.CallbackPrints` | src/index.ts:75-84 | the callback passes `warn` one message per replaced object: the `future` text first when that object was replaced, the `experimental` text last when that one was |
| `Reset.OverrideWarnings` | src/index.ts:75-84 | one warning per overridden object, the `future` one first and the `experimental` one last |
| `Reset.CallbackEffects` | src/index.ts:75-135 | everything the callback does: at least one effect per replaced object, and at most that number plus one registration per utility group |
| `Reset.CallbackWarnings` | src/index.ts:75-135 | the callback's effects are warnings exactly in the leading positions, one per overridden object, `future` before `experimental` |
| `Reset.CallbackWithoutRestoring` | src/index.ts:86 | with `disableDeprecated` off, the callback only warns |
| `Reset.CallbackRestores` | src/index.ts:86-135 | a group's utilities are registered exactly when `disableDeprecated` is on and the group's core plugin is not enabled |
| `Reset.CallbackOrder` | src/index.ts:93-135 | after the warnings, the registrations appear in the order shrink, grow, box-decoration, text-overflow |
| `Reset.CallbackQuiet` | src/index.ts:75-135 | when nothing is overridden and nothing is re-added, the callback does nothing |
| `Reset.GroupEffectInjective` | src/index.ts:93-135 | distinct groups register distinct utilities |
| `Reset.PluginApi.constructor` | src/index.ts:71 | the plugin API holds the given config objects, enabled core plugins and theme, and an empty log |
| `Reset.PluginApi.Warn` | src/index.ts:21 | a warning is appended to the log and nothing else changes |
| `Reset.PluginApi.MatchUtilities` | src/index.ts:94-103 | a utility matched against theme values is appended to the log |
| `Reset.PluginApi.AddUtilities` | src/index.ts:120-123 | a set of fixed rules is appended to the log |
| `Reset.RestoreGroup` | src/index.ts:93-135 | one group's `if` appends that group's registration exactly when its core plugin is disabled |
| `Reset.RunCallback` | src/index.ts:71-136 | running the callback appends exactly the warnings for the objects that are not the preset's own, followed by the registrations of the re-added groups |

## Left out

- Sixteenths: states the exact decimal of `N / 16`. JavaScript prints the double `N / 16` by its shortest round-trip form, which agrees with the exact decimal for `|N| < 10^10`. Above 2^53, `parseInt` itself rounds. With more than about 308 integer digits, `parseInt` returns `Infinity`, which is not NaN, so the source writes `Infinityrem` where the model writes an exact decimal. Floating point is not modelled.
- ParseInt: models `parseInt` only on strings the regular expression captures. Its handling of leading whitespace and `0x` prefixes cannot arise on such a capture.
- Reset.PluginApi.Warn: records the section that was overridden. The `console.warn` output is I/O and is not modelled: neither the bold yellow `warn` label and the `-` separator that `warn` prints before each message, nor the `picocolors` colouring inside it. `OverrideMessage` gives only the message text, without colour codes.
- The internals of `tailwindcss/plugin`, `@tailwindcss/container-queries`, `map-obj` and `tailwindcss/defaultTheme` are other packages. The plugins are tags in `Plugin`. The values of `theme('flexShrink')` and `theme('flexGrow')` are opaque `ThemeValue`s looked up in the API's theme map.
- Reset.DefaultReset: `Object.assign(makeReset, makeReset())` also makes the export callable as `makeReset`. The model covers the object part, since `MakeReset` is the function.
- The screens table is a sequence. The model does not impose JavaScript's key uniqueness, and the conversion never changes a key.
- Tailwind's own default screens table is a parameter rather than a constant. Its five breakpoints are stated one width at a time in `DefaultTheme.DefaultBreakpointsInRem`.
- How Tailwind merges presets with the user's config (which decides whether `config('future')` is the preset's object) lies outside this model. The callback takes the objects it sees as inputs.
- `tests/run.ts` and `prettier.config.js` are tooling and are not part of this model.
