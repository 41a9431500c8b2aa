# Responsive layout and accessibility helpers of a React Native teaching app

This project models, in Dafny, the deterministic helpers of a React Native
demo application:

- **Breakpoint classification** (`LayoutHooks`, `layout_hooks.dfy`): the
  `useResponsiveLayout` hook classifies a window as phone (< 600 dp), tablet
  (≥ 600 dp) or large tablet (≥ 900 dp), and as portrait (height > width) or
  landscape. From that it derives the padding, the gap, the grid-column count,
  the master/detail column widths and the content size inside the safe-area
  insets. The sibling hooks `useIsTablet`, `useOrientation` and
  `useSafeAreaLayout` are modelled too. The window size and the insets, which
  the app reads from the framework, are explicit parameters.
- **Layout components** (`LayoutComponents`, `layout_components.dfy`):
  - `MasterDetailLayout` decides between one column (detail only) and two
    columns side by side.
  - `GridLayout` splits its children into rows of a fixed column count with
    nested loops. It pads the last row with spacers, and every child except
    those in the last column gets a right margin equal to the gap. It is
    modelled as a method with the same nested loops, proved equal to the
    specification function `GridRows`. The grid's properties are proved as
    lemmas about `GridRows`.
- **Accessibility helpers** (`Accessibility`, `accessibility.dfy`):
  - the `#RRGGBB` / `RRGGBB` colour parser `hexToRgb`;
  - `getContrastRatio`, whose result is 0 whenever a colour fails to parse;
  - the 48-point touch-target test;
  - the builders for screen-reader labels, hints and properties.

  The parser is proved against an encoder, `FormatHex`, in both directions.
  Every colour written in any case, with or without `#`, parses back to
  itself. Every accepted string is the lower-case form of its colour's
  notation up to letter case.

All dimensions are `real` (JavaScript numbers). Children and rendered content
are opaque values of a type parameter `T`.

## Model

| member | source | states |
|---|---|---|
| `LayoutHooks.Layout` | learning-react-native-app/hooks/use-responsive-layout.ts:22-50 | `isTablet` iff width ≥ 600 and `isLargeTablet` iff width ≥ 900, so large tablet implies tablet. Exactly one of portrait and landscape holds, and portrait iff height > width. The master column is `Math.min(0.35 × width, 400)`: it is at most both bounds and equal to one of them. Master + detail = screen width. For a non-negative width the master column is no wider than the detail column. The insets are returned unchanged, and content size plus the insets gives the window size. |
| `LayoutHooks.ResponsivePadding` | learning-react-native-app/hooks/use-responsive-layout.ts:55-59 | The padding is always 16, 20 or 24. |
| `LayoutHooks.ResponsiveGap` | learning-react-native-app/hooks/use-responsive-layout.ts:64-68 | The gap is always 8, 12 or 16. |
| `LayoutHooks.GridColumns` | learning-react-native-app/hooks/use-responsive-layout.ts:80-85 | The grid-column count is always in 1..3, for any layout record. |
| `LayoutHooks.IsTablet` | learning-react-native-app/hooks/use-responsive-layout.ts:99-102 | `useIsTablet` holds iff the width is in the tablet or large-tablet class (≥ 600 dp). |
| `LayoutHooks.OrientationOf` | learning-react-native-app/hooks/use-responsive-layout.ts:107-110 | `useOrientation` is portrait iff height > width, so a square window is landscape. |
| `LayoutHooks.SafeAreaLayout` | learning-react-native-app/hooks/use-responsive-layout.ts:115-127 | The available size plus the left/right (top/bottom) insets is the window width (height). The insets are passed through. |
| `LayoutHooks.PaddingByDeviceClass` | learning-react-native-app/hooks/use-responsive-layout.ts:55-59 | Padding is 24 on a large tablet, 20 on a tablet and 16 on a phone. |
| `LayoutHooks.GapByDeviceClass` | learning-react-native-app/hooks/use-responsive-layout.ts:64-68 | Gap is 16 on a large tablet, 12 on a tablet and 8 on a phone. |
| `LayoutHooks.PaddingAndGapMonotone` | learning-react-native-app/hooks/use-responsive-layout.ts:55-68 | A wider window never gets less padding or a smaller gap. |
| `LayoutHooks.GridColumnsByDevice` | learning-react-native-app/hooks/use-responsive-layout.ts:80-85 | 1 column on phones, 2 on portrait tablets below 900 dp, 3 on landscape tablets and on every large tablet. |
| `LayoutHooks.GridColumnsMonotone` | learning-react-native-app/hooks/use-responsive-layout.ts:80-85 | At a fixed height, a wider window never has fewer columns. At a fixed width, a taller window never has more. |
| `LayoutHooks.IsTabletAgrees` | learning-react-native-app/hooks/use-responsive-layout.ts:99-102 | `useIsTablet` gives the same answer as the `isTablet` flag for the same width. |
| `LayoutHooks.OrientationAgrees` | learning-react-native-app/hooks/use-responsive-layout.ts:107-110 | `useOrientation` is portrait iff `isPortrait`, and landscape iff `isLandscape`. A square window is landscape. |
| `LayoutHooks.SafeAreaAgrees` | learning-react-native-app/hooks/use-responsive-layout.ts:119-120 | `useSafeAreaLayout`'s available width and height equal the content width and height of `useResponsiveLayout`. |
| `LayoutHooks.MasterDetailWidths` | learning-react-native-app/hooks/use-responsive-layout.ts:33-34 | On a tablet the master column is 210 to 400 dp. It is exactly 35% of the width below 8000/7 dp, and 400 dp from there on. The detail column is at least 390 dp and always wider than the master column. |
| `LayoutComponents.MasterDetailLayout` | learning-react-native-app/components/responsive-layout.tsx:42-72 | Both columns are rendered iff the device is a tablet and `showMasterDetail` is not false (it defaults to true). Otherwise only the detail content is rendered. The detail content is always the one given. The columns take the layout's widths, and the padding is the responsive padding. |
| `LayoutComponents.MasterDetailFillsWidth` | learning-react-native-app/components/responsive-layout.tsx:52-71 | For a window's own layout there are two columns iff width ≥ 600 and `showMasterDetail` is not false. They then fill the screen width, with the master column at most 400 dp and narrower than the detail column. |
| `LayoutComponents.EffectiveColumns` | learning-react-native-app/components/responsive-layout.tsx:85 | The column count is the caller's when non-zero, and `getGridColumns()` when absent or zero. It is never 0, and it is ≥ 1 unless the caller passes a negative count. |
| `LayoutComponents.EffectiveColumnsForWindow` | learning-react-native-app/components/responsive-layout.tsx:85 | For a window's layout, the column count is ≥ 1 for any absent or non-negative caller count, and at most 3 when it comes from the device. |
| `LayoutComponents.RowCount` | learning-react-native-app/components/responsive-layout.tsx:89 | The loop bound `Math.ceil(children.length / columns)`. It is 0 for no children or a negative column count. Otherwise it is between 1 and n. |
| `LayoutComponents.GridRows` | learning-react-native-app/components/responsive-layout.tsx:90-108 | The rows the nested loops build: `RowCount` rows, each of exactly `columns` cells. |
| `LayoutComponents.GridLayout` | learning-react-native-app/components/responsive-layout.tsx:83-119 | The nested loops build exactly `GridRows` for the effective column count and the gap (default 8). The container padding is the responsive padding. |
| `LayoutComponents.RowCountIsCeiling` | learning-react-native-app/components/responsive-layout.tsx:89 | The row count is ceil(n / columns): rows × columns ≥ n, and (rows − 1) × columns < n. Zero children give zero rows, and fewer than `columns` cells are left over. |
| `LayoutComponents.GridShape` | learning-react-native-app/components/responsive-layout.tsx:92-108 | There are ceil(n / columns) rows. Every row has exactly `columns` cells, so there are rows × columns cells in all. |
| `LayoutComponents.GridCellPlacement` | learning-react-native-app/components/responsive-layout.tsx:94-105 | Cell (row, col) is keyed by index row × columns + col. It holds that child iff the index is < n, otherwise it is a spacer. A child's right margin is the gap, except in the last column, where it is 0. |
| `LayoutComponents.FlattenedGrid` | learning-react-native-app/components/responsive-layout.tsx:95-105 | In the flattened grid, position p is keyed p. It holds child p for every p < n and a spacer at every later position. |
| `LayoutComponents.GridPreservesChildren` | learning-react-native-app/components/responsive-layout.tsx:95-101 | Flattening the rows and dropping the spacers gives back the children in their original order, each exactly once. |
| `LayoutComponents.SpacersOnlyInLastRow` | learning-react-native-app/components/responsive-layout.tsx:102-105 | Spacers occur only in the last row, and there are fewer of them than columns. |
| `LayoutComponents.EmptyGrids` | learning-react-native-app/components/responsive-layout.tsx:89-92 | Zero children produce no rows. A negative column count also produces no rows, so none of the children is shown. |
| `Accessibility.ParseHexPair` | learning-react-native-app/hooks/use-accessibility-features.ts:109-111 | The base-16 value of a two-digit group is at most 255. |
| `Accessibility.MatchHexColor` | learning-react-native-app/hooks/use-accessibility-features.ts:106 | The pattern matches iff the input is six hex digits, or `#` followed by six hex digits, in either case. A match yields the input's last six characters, and the input is those digits with or without one leading `#`. |
| `Accessibility.HexToRgb` | learning-react-native-app/hooks/use-accessibility-features.ts:105-114 | The parser succeeds iff the input is six hex digits, or `#` followed by six hex digits, in either case. On success every component is in 0..255. |
| `Accessibility.HexRoundTrip` | learning-react-native-app/hooks/use-accessibility-features.ts:105-114 | Every colour with components in 0..255, written with or without `#` and in lower or upper case, parses back to itself. |
| `Accessibility.HexParseCanonical` | learning-react-native-app/hooks/use-accessibility-features.ts:106-113 | Every accepted string, lower-cased, is the lower-case notation of the parsed colour. So each component is the base-16 value of its pair, and nothing else is accepted. |
| `Accessibility.HexCaseInsensitive` | learning-react-native-app/hooks/use-accessibility-features.ts:106 | Changing the letter case of the input does not change the parse result. |
| `Accessibility.HexHashOptional` | learning-react-native-app/hooks/use-accessibility-features.ts:106 | Adding a leading `#` to a string that does not start with one does not change the parse result. |
| `Accessibility.ContrastRatio` | learning-react-native-app/hooks/use-accessibility-features.ts:87-100 | The ratio is 0 whenever either colour fails to parse. When both parse it is ≥ 1, for any non-negative luminance. |
| `Accessibility.ContrastSymmetric` | learning-react-native-app/hooks/use-accessibility-features.ts:96-99 | The ratio does not depend on the order of the two colours. |
| `Accessibility.ContrastWithItself` | learning-react-native-app/hooks/use-accessibility-features.ts:96-99 | A parsable colour against itself has ratio exactly 1. |
| `Accessibility.IsTouchTargetValid` | learning-react-native-app/hooks/use-accessibility-features.ts:52-54 | A target is valid iff its smaller side is at least 48 points. |
| `Accessibility.TouchTargetMonotone` | learning-react-native-app/hooks/use-accessibility-features.ts:52-54 | A target is valid iff its smaller side is ≥ 48. Enlarging a valid target keeps it valid. |
| `Accessibility.AccessibleLabel` | learning-react-native-app/hooks/use-accessibility-features.ts:26-31 | The label starts with the text. It equals the text iff the action is absent or empty, and otherwise the rest is `", "` followed by the action. |
| `Accessibility.AccessibilityHint` | learning-react-native-app/hooks/use-accessibility-features.ts:45-47 | The hint is the action followed by `". Double tap to activate."`. |
| `Accessibility.HintInjective` | learning-react-native-app/hooks/use-accessibility-features.ts:45-47 | Distinct actions give distinct hints. |
| `Accessibility.GetAccessibilityProps` | learning-react-native-app/hooks/use-accessibility-features.ts:133-143 | Role, label and hint are copied into the result unchanged. An absent label or hint stays absent. |

## Left out

- Window dimensions, safe-area insets, `useMemo`/`useCallback` and `Dimensions.get` (`getScreenDimensions`) are framework calls. Width, height and insets are parameters instead.
- Floating point: widths are exact reals. `screenWidth * 0.35` and `screenWidth - masterWidth` are exact here, while JavaScript rounds them. NaN and infinite dimensions are not modelled.
- Font scaling (`getResponsiveFontSize`, the `scale` field) and `ResponsiveContainer`'s `maxWidth` of 90% of the screen width: float styling only.
- `MIN_TOUCH_TARGET_SIZE` (48) in the responsive hook is used only by `AccessibleButton`'s size table, which is left out.
- `EffectiveColumns`: only integer counts are modelled. A fractional `columnCount` (such as 1.5), NaN and `Infinity` are not. NaN is falsy, so `||` falls back to `getGridColumns()`. `Infinity` gives `Math.ceil(n / Infinity) = 0` rows, so nothing is shown.
- `ContrastRatio`: the relative-luminance computation of WCAG 2.1 (`getLuminance`, with `Math.pow`) is a parameter, assumed non-negative. Only the parse-failure branch and the lighter/darker ratio are modelled. The WCAG thresholds `CONTRAST_RATIOS` are constants that no modelled operation uses.
- `createAccessibilityActions` is an identity type cast, and `ACCESSIBLE_ROLES` is a constant table. Neither is modelled.
- `HexCaseInsensitive`: case changes are ASCII only. JavaScript's `toLowerCase` also maps non-ASCII letters, which can never be hex digits either way.
- Rendering: views, keys as strings (`empty-${index}` is modelled as the spacer's numeric key), flex styles and the grid container's styling beyond its padding and gap.
- The lifecycle countdown/retry/persistence screen, the snackbar context, the master-detail list screen, the demo and navigation screens, the error boundary and the accessible button's size and variant tables. They are timer-, network-, storage- and rendering-driven UI and are not part of this model.
