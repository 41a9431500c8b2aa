/**
 * The responsive-layout hooks: breakpoint classification of a window, the
 * layout flags derived from it, and the padding, gap and grid-column counts
 * chosen per device class. Window size and safe-area insets, which the app
 * reads from the host framework, are explicit parameters here.
 */
module LayoutHooks {
  import opened Wrappers

  /** Width (dp) from which a device counts as a tablet. */
  const TabletBreakpoint: real := 600.0
  /** Width (dp) from which a device counts as a large tablet. */
  const LargeTabletBreakpoint: real := 900.0
  /** Share of the screen width given to the master column, and its cap (dp). */
  const MasterColumnFactor: real := 0.35
  const MasterColumnMaxWidth: real := 400.0

  datatype Window = Window(width: real, height: real)

  datatype Insets = Insets(top: real, right: real, bottom: real, left: real)

  /** The memoised layout record the hook returns (font scale left out). */
  datatype LayoutInfo = LayoutInfo(
    screenWidth: real,
    screenHeight: real,
    isTablet: bool,
    isLargeTablet: bool,
    isPortrait: bool,
    isLandscape: bool,
    masterDetailColumnWidth: real,
    detailColumnWidth: real,
    insets: Insets,
    contentWidth: real,
    contentHeight: real)

  /** The three device classes the breakpoints separate. */
  datatype DeviceClass = Phone | Tablet | LargeTablet

  datatype Orientation = Portrait | Landscape

  datatype SafeArea = SafeArea(availableWidth: real, availableHeight: real, insets: Insets)

  /** Reference classification of a width into the tiers that the breakpoints describe. */
  function DeviceClassOf(width: real): DeviceClass {
    if width < TabletBreakpoint then Phone
    else if width < LargeTabletBreakpoint then Tablet
    else LargeTablet
  }

  /** The `layoutInfo` record computed by `useResponsiveLayout`. */
  function Layout(window: Window, insets: Insets): (info: LayoutInfo)
    ensures info.screenWidth == window.width && info.screenHeight == window.height
    ensures info.isTablet <==> DeviceClassOf(window.width) != Phone
    ensures info.isLargeTablet <==> DeviceClassOf(window.width) == LargeTablet
    ensures info.isLargeTablet ==> info.isTablet
    ensures info.isPortrait != info.isLandscape
    ensures info.isPortrait <==> window.height > window.width
    ensures info.masterDetailColumnWidth <= MasterColumnMaxWidth
    ensures info.masterDetailColumnWidth <= window.width * MasterColumnFactor
    ensures info.masterDetailColumnWidth == window.width * MasterColumnFactor
         || info.masterDetailColumnWidth == MasterColumnMaxWidth
    ensures info.masterDetailColumnWidth + info.detailColumnWidth == window.width
    ensures window.width >= 0.0 ==>
      0.0 <= info.masterDetailColumnWidth <= info.detailColumnWidth
    ensures info.insets == insets
    ensures info.contentWidth + insets.left + insets.right == window.width
    ensures info.contentHeight + insets.top + insets.bottom == window.height
  {
    var isPortrait := window.height > window.width;
    var master := Min(window.width * MasterColumnFactor, MasterColumnMaxWidth);
    LayoutInfo(
      window.width,
      window.height,
      window.width >= TabletBreakpoint,
      window.width >= LargeTabletBreakpoint,
      isPortrait,
      !isPortrait,
      master,
      window.width - master,
      insets,
      window.width - insets.left - insets.right,
      window.height - insets.top - insets.bottom)
  }

  /** `getResponsivePadding`. */
  function ResponsivePadding(info: LayoutInfo): (p: real)
    ensures p == 16.0 || p == 20.0 || p == 24.0
  {
    if info.isLargeTablet then 24.0
    else if info.isTablet then 20.0
    else 16.0
  }

  /** `getResponsiveGap`. */
  function ResponsiveGap(info: LayoutInfo): (g: real)
    ensures g == 8.0 || g == 12.0 || g == 16.0
  {
    if info.isLargeTablet then 16.0
    else if info.isTablet then 12.0
    else 8.0
  }

  /** `getGridColumns`. */
  function GridColumns(info: LayoutInfo): (c: int)
    ensures 1 <= c <= 3
  {
    if info.isLargeTablet then 3
    else if info.isTablet && info.isPortrait then 2
    else if info.isTablet && info.isLandscape then 3
    else 1
  }

  /** `useIsTablet`. */
  function IsTablet(width: real): (tablet: bool)
    ensures tablet <==> DeviceClassOf(width) != Phone
  {
    width >= TabletBreakpoint
  }

  /** `useOrientation`. */
  function OrientationOf(window: Window): (o: Orientation)
    ensures o == Portrait <==> window.height > window.width
    ensures window.width == window.height ==> o == Landscape
  {
    if window.height > window.width then Portrait else Landscape
  }

  /** `useSafeAreaLayout`. */
  function SafeAreaLayout(window: Window, insets: Insets): (area: SafeArea)
    ensures area.availableWidth + insets.left + insets.right == window.width
    ensures area.availableHeight + insets.top + insets.bottom == window.height
    ensures area.insets == insets
  {
    SafeArea(window.width - insets.left - insets.right,
             window.height - insets.top - insets.bottom,
             insets)
  }

  // ---------------------------------------------------------------------
  // Properties relating the hooks to the device classes and to each other
  // ---------------------------------------------------------------------

  /** Padding is 24, 20 or 16 dp on a large tablet, a tablet or a phone. */
  lemma PaddingByDeviceClass(window: Window, insets: Insets)
    ensures ResponsivePadding(Layout(window, insets)) ==
      match DeviceClassOf(window.width)
      case LargeTablet => 24.0
      case Tablet => 20.0
      case Phone => 16.0
  {
  }

  /** Gap is 16, 12 or 8 dp on a large tablet, a tablet or a phone. */
  lemma GapByDeviceClass(window: Window, insets: Insets)
    ensures ResponsiveGap(Layout(window, insets)) ==
      match DeviceClassOf(window.width)
      case LargeTablet => 16.0
      case Tablet => 12.0
      case Phone => 8.0
  {
  }

  /** A wider window never gets less padding nor a smaller gap. */
  lemma PaddingAndGapMonotone(w1: Window, i1: Insets, w2: Window, i2: Insets)
    requires w1.width <= w2.width
    ensures ResponsivePadding(Layout(w1, i1)) <= ResponsivePadding(Layout(w2, i2))
    ensures ResponsiveGap(Layout(w1, i1)) <= ResponsiveGap(Layout(w2, i2))
  {
  }

  /** One column on phones, two on portrait tablets narrower than the
      large-tablet breakpoint, three on landscape tablets and large tablets. */
  lemma GridColumnsByDevice(window: Window, insets: Insets)
    ensures var c := GridColumns(Layout(window, insets));
      && (DeviceClassOf(window.width) == Phone ==> c == 1)
      && (DeviceClassOf(window.width) == Tablet && window.height > window.width ==> c == 2)
      && (DeviceClassOf(window.width) == Tablet && window.height <= window.width ==> c == 3)
      && (DeviceClassOf(window.width) == LargeTablet ==> c == 3)
  {
  }

  /** At a fixed height, widening the window never removes a grid column;
      at a fixed width, making it taller never adds one. */
  lemma GridColumnsMonotone(w1: Window, w2: Window, insets: Insets)
    ensures w1.height == w2.height && w1.width <= w2.width ==>
      GridColumns(Layout(w1, insets)) <= GridColumns(Layout(w2, insets))
    ensures w1.width == w2.width && w1.height <= w2.height ==>
      GridColumns(Layout(w1, insets)) >= GridColumns(Layout(w2, insets))
  {
  }

  /** `useIsTablet` agrees with the `isTablet` flag of `useResponsiveLayout`. */
  lemma IsTabletAgrees(window: Window, insets: Insets)
    ensures IsTablet(window.width) == Layout(window, insets).isTablet
  {
  }

  /** `useOrientation` agrees with the `isPortrait` flag: a square window is landscape. */
  lemma OrientationAgrees(window: Window, insets: Insets)
    ensures OrientationOf(window) == Portrait <==> Layout(window, insets).isPortrait
    ensures OrientationOf(window) == Landscape <==> Layout(window, insets).isLandscape
    ensures window.width == window.height ==> OrientationOf(window) == Landscape
  {
  }

  /** The content size of `useResponsiveLayout` is the available size of `useSafeAreaLayout`. */
  lemma SafeAreaAgrees(window: Window, insets: Insets)
    ensures SafeAreaLayout(window, insets).availableWidth == Layout(window, insets).contentWidth
    ensures SafeAreaLayout(window, insets).availableHeight == Layout(window, insets).contentHeight
  {
  }

  /** On a tablet the master column takes 35% of the width up to 400 dp, and
      the detail column is the rest, so the detail column is always the wider. */
  lemma MasterDetailWidths(window: Window, insets: Insets)
    requires window.width >= TabletBreakpoint
    ensures var info := Layout(window, insets);
      && 210.0 <= info.masterDetailColumnWidth <= MasterColumnMaxWidth
      && info.detailColumnWidth >= 390.0
      && info.detailColumnWidth > info.masterDetailColumnWidth
      && (window.width < 8000.0 / 7.0 ==> info.masterDetailColumnWidth == window.width * MasterColumnFactor)
      && (window.width >= 8000.0 / 7.0 ==> info.masterDetailColumnWidth == MasterColumnMaxWidth)
  {
  }
}
