/** The `useResponsive` hook (`useResponsive.ts`): named Tailwind-style
    breakpoints, the below/above/between tests against the window width, and
    the device and size flags built from them. */
module Responsive {
  import opened Options
  import TopSelling

  datatype Breakpoint = Xs | Sm | Md | Lg | Xl | Xxl

  /** A breakpoint table; `Breakpoints` is the one the hook uses. */
  datatype Table = Table(xs: int, sm: int, md: int, lg: int, xl: int, xxl: int) {
    function Px(b: Breakpoint): int {
      match b
      case Xs => xs
      case Sm => sm
      case Md => md
      case Lg => lg
      case Xl => xl
      case Xxl => xxl
    }
  }

  const Breakpoints := Table(480, 640, 768, 1024, 1280, 1536)

  /** The position of a breakpoint in the table. */
  function Rank(b: Breakpoint): nat {
    match b
    case Xs => 0
    case Sm => 1
    case Md => 2
    case Lg => 3
    case Xl => 4
    case Xxl => 5
  }

  /** The table is strictly increasing, so the breakpoints' order is their width order. */
  lemma BreakpointsIncrease(a: Breakpoint, b: Breakpoint)
    ensures Rank(a) < Rank(b) <==> Breakpoints.Px(a) < Breakpoints.Px(b)
  {
  }

  predicate Below(t: Table, width: int, b: Breakpoint) {
    width < t.Px(b)
  }

  predicate Above(t: Table, width: int, b: Breakpoint) {
    width >= t.Px(b)
  }

  predicate Between(t: Table, width: int, lo: Breakpoint, hi: Breakpoint) {
    width >= t.Px(lo) && width < t.Px(hi)
  }

  /** `above` is the complement of `below`, `between` is their conjunction,
      and a range whose lower end is not below its upper end holds no width. */
  lemma TestsAgree(width: int, lo: Breakpoint, hi: Breakpoint)
    ensures Above(Breakpoints, width, lo) <==> !Below(Breakpoints, width, lo)
    ensures Between(Breakpoints, width, lo, hi) <==> Above(Breakpoints, width, lo) && Below(Breakpoints, width, hi)
    ensures Rank(hi) <= Rank(lo) ==> !Between(Breakpoints, width, lo, hi)
  {
    BreakpointsIncrease(lo, hi);
    BreakpointsIncrease(hi, lo);
  }

  datatype Flags = Flags(
    isMobile: bool, isTablet: bool, isDesktop: bool,
    isXs: bool, isSm: bool, isMd: bool, isLg: bool, isXl: bool, is2xl: bool)

  /** The flags for a width under a table. */
  function FlagsWith(t: Table, width: int): Flags {
    Flags(
      Below(t, width, Sm),
      Between(t, width, Sm, Lg),
      Above(t, width, Lg),
      Below(t, width, Sm),
      Between(t, width, Sm, Md),
      Between(t, width, Md, Lg),
      Between(t, width, Lg, Xl),
      Between(t, width, Xl, Xxl),
      Above(t, width, Xxl))
  }

  /** The hook's result for a window width. */
  function FlagsFor(width: int): (f: Flags)
    ensures f.isMobile <==> width < 640
    ensures f.isTablet <==> 640 <= width < 1024
    ensures f.isDesktop <==> width >= 1024
    ensures f.is2xl <==> width >= 1536
  {
    FlagsWith(Breakpoints, width)
  }

  /** The width the hook starts from: the window's, or 0 when there is no window. */
  function InitialWidth(innerWidth: Option<int>): (w: int)
    ensures innerWidth.None? ==> w == 0
    ensures innerWidth.Some? ==> w == innerWidth.value
    ensures innerWidth.None? ==> FlagsFor(w).isMobile && FlagsFor(w).isXs
    ensures innerWidth.None? ==> TopSelling.ItemsPerView(w) == 1
  {
    innerWidth.GetOr(0)
  }

  /** Without a window the hook reports a phone. */
  lemma NoWindowIsMobile()
    ensures FlagsFor(InitialWidth(None)).isMobile && FlagsFor(InitialWidth(None)).isXs
  {
  }

  /** Exactly one device flag holds for every width. */
  lemma OneDeviceFlag(width: int)
    ensures var f := FlagsFor(width);
      (if f.isMobile then 1 else 0) + (if f.isTablet then 1 else 0) + (if f.isDesktop then 1 else 0) == 1
  {
  }

  /** Exactly one size flag holds for every width, and the device flags are
      unions of them: tablet is sm or md, desktop is lg, xl or 2xl. */
  lemma OneSizeFlag(width: int)
    ensures var f := FlagsFor(width);
      (if f.isXs then 1 else 0) + (if f.isSm then 1 else 0) + (if f.isMd then 1 else 0)
      + (if f.isLg then 1 else 0) + (if f.isXl then 1 else 0) + (if f.is2xl then 1 else 0) == 1
    ensures var f := FlagsFor(width);
      && (f.isTablet <==> f.isSm || f.isMd)
      && (f.isDesktop <==> f.isLg || f.isXl || f.is2xl)
  {
  }

  /** `isXs` is `below('sm')`, the same test as `isMobile`: the `xs` entry
      (480 px) is never consulted, so changing it changes no flag. */
  lemma XsEntryUnused(width: int, xs: int)
    ensures FlagsWith(Breakpoints.(xs := xs), width) == FlagsFor(width)
    ensures FlagsFor(width).isXs == FlagsFor(width).isMobile
  {
  }

  /** The carousel's own width thresholds agree with the hook's device flags. */
  lemma CarouselMatchesDeviceFlags(width: int)
    ensures TopSelling.ItemsPerView(width) == 1 <==> FlagsFor(width).isMobile
    ensures TopSelling.ItemsPerView(width) == 2 <==> FlagsFor(width).isTablet
    ensures TopSelling.ItemsPerView(width) == 3 <==> FlagsFor(width).isDesktop
  {
  }
}
