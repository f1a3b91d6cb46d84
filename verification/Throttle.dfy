/**
 Dirty-page throttling: four thresholds, scaled down with the write bandwidth by
 fixed-point ratios with ten fractional bits.
 */
module Throttle {

  const PAGE_SIZE: nat := 4096
  const ONE: nat := 1024   // 1 << HMDFS_LIMIT_SHIFT

  /** hmdfs_ratio_thresh */
  function RatioThresh(ratio: nat, thresh: nat): (r: nat)
    ensures r >= 1
  {
    var v := ratio * thresh / ONE;
    if v == 0 then 1 else v
  }

  /** hmdfs_thresh_ratio */
  function ThreshRatio(base: nat, thresh: nat): (r: nat)
    requires thresh > 0
    ensures r >= 1
  {
    var v := base * ONE / thresh;
    if v == 0 then 1 else v
  }

  /** The four limits: of the file system and of a file, and where background writeback starts. */
  datatype Limits = Limits(fs: nat, file: nat, fsBg: nat, fileBg: nat)

  /** bg <= thresh and file <= fs, all positive */
  predicate Ordered(l: Limits) {
    1 <= l.fileBg <= l.file <= l.fs && 1 <= l.fsBg <= l.fs
  }

  predicate Below(a: Limits, b: Limits) {
    a.fs <= b.fs && a.file <= b.file && a.fsBg <= b.fsBg && a.fileBg <= b.fileBg
  }

  function Pages(bytes: nat): nat {
    (bytes + PAGE_SIZE - 1) / PAGE_SIZE
  }

  /** hmdfs_calculate_dirty_thresh: byte limits rounded up to pages */
  function InPages(bytes: Limits): Limits {
    Limits(Pages(bytes.fs), Pages(bytes.file), Pages(bytes.fsBg), Pages(bytes.fileBg))
  }

  lemma InPagesOrdered(bytes: Limits)
    requires Ordered(bytes)
    ensures Ordered(InPages(bytes))
  {
  }

  /** A scaled share never exceeds the whole. */
  lemma ShareBelowWhole(base: nat, whole: nat, t: nat)
    requires 0 < base <= whole && t > 0
    ensures RatioThresh(ThreshRatio(base, whole), t) <= t
  {
    var r := ThreshRatio(base, whole);
    assert base * ONE <= whole * ONE;
    assert base * ONE / whole <= ONE by {
      DivideLe(base * ONE, whole, ONE);
    }
    assert r * t <= ONE * t;
    DivideLe(r * t, ONE, t);
  }

  lemma DivideLe(a: nat, d: nat, q: nat)
    requires d > 0 && a <= q * d
    ensures a / d <= q
  {
    var k := a / d;
    assert k * d <= a;
    if q + 1 <= k {
      MultiplyLe(q + 1, k, d);
      assert false;
    }
  }

  lemma MultiplyLe(a: nat, b: nat, d: nat)
    requires a <= b
    ensures a * d <= b * d
  {
  }

  /** A share of less than the whole stays within its configured value if the pair is within a factor of about 1024. */
  lemma ShareBelowBaseAt(base: nat, whole: nat, t: nat)
    requires 0 < base <= whole <= ONE * (base + 1) && 0 < t < whole
    ensures RatioThresh(ThreshRatio(base, whole), t) <= base
  {
    var v := base * ONE / whole;
    if v == 0 {
      assert t < ONE * (base + 1);
    } else {
      assert v * whole <= base * ONE;
      assert v * t <= v * whole;
      DivideLe(v * t, ONE, base);
    }
  }

  /** struct hmdfs_writeback: the configured limits in pages, their ratios, and the last scaled ones. */
  datatype Config = Config(limits: Limits, bwFs: nat, bwFile: nat, auto: bool)

  function FsBgRatio(c: Config): nat
    requires c.limits.fs > 0
  {
    ThreshRatio(c.limits.fsBg, c.limits.fs)
  }

  function FileBgRatio(c: Config): nat
    requires c.limits.file > 0
  {
    ThreshRatio(c.limits.fileBg, c.limits.file)
  }

  function FsFileRatio(c: Config): nat
    requires c.limits.fs > 0
  {
    ThreshRatio(c.limits.file, c.limits.fs)
  }

  /** hmdfs_init_dirty_limit */
  function InitLimit(c: Config): Limits
    requires c.limits.fs > 0 && c.limits.file > 0
  {
    if !c.auto then c.limits
    else
      var low := c.bwFs < c.limits.fs;
      var lowFile := c.bwFile < c.limits.file;
      Limits(if low then c.bwFs else c.limits.fs,
             if lowFile then c.bwFile else c.limits.file,
             if low then RatioThresh(FsBgRatio(c), c.bwFs) else c.limits.fsBg,
             if lowFile then RatioThresh(FileBgRatio(c), c.bwFile) else c.limits.fileBg)
  }

  /** hmdfs_update_dirty_limit for a bandwidth that allows `thresh` pages in the time limit */
  function Scaled(c: Config, thresh: nat): Limits
    requires c.limits.fs > 0 && c.limits.file > 0
  {
    if thresh >= c.limits.fs then c.limits
    else
      var file := RatioThresh(FsFileRatio(c), thresh);
      Limits(thresh, file, RatioThresh(FsBgRatio(c), thresh), RatioThresh(FileBgRatio(c), file))
  }

  /** The control block of one throttled writer, and the shared state it reads and saves to. */
  class DirtyControl {
    var limits: Limits
    var bwFs: nat
    var bwFile: nat
    var auto: bool
    var control: Limits

    function View(): Config
      reads this
    {
      Config(limits, bwFs, bwFile, auto)
    }

    /** hmdfs_calculate_dirty_thresh and what hmdfs_init_writeback makes of it */
    constructor (bytes: Limits)
      requires Ordered(bytes)
      ensures limits == control == InPages(bytes) && bwFs == limits.fs && bwFile == limits.file && auto
    {
      limits := InPages(bytes);
      bwFs, bwFile, auto := Pages(bytes.fs), Pages(bytes.file), true;
      control := InPages(bytes);
    }

    method InitDirtyLimit()
      requires limits.fs > 0 && limits.file > 0
      modifies this`control
      ensures control == InitLimit(View())
    {
      control := limits;
      if !auto {
        return;
      }
      if bwFs < control.fs {
        control := control.(fs := bwFs);
        control := control.(fsBg := RatioThresh(ThreshRatio(limits.fsBg, limits.fs), control.fs));
      }
      if bwFile < control.file {
        control := control.(file := bwFile);
        control := control.(fileBg := RatioThresh(ThreshRatio(limits.fileBg, limits.file), control.file));
      }
    }

    method UpdateDirtyLimit(thresh: nat)
      requires limits.fs > 0 && limits.file > 0
      modifies this`control, this`bwFs, this`bwFile
      ensures !auto ==> control == old(control) && bwFs == old(bwFs) && bwFile == old(bwFile)
      ensures auto ==> control == Scaled(old(View()), thresh) && bwFs == control.fs && bwFile == control.file
    {
      if !auto {
        return;
      }
      if thresh >= limits.fs {
        control := limits;
      } else {
        var file := RatioThresh(ThreshRatio(limits.file, limits.fs), thresh);
        control := Limits(thresh, file, RatioThresh(ThreshRatio(limits.fsBg, limits.fs), thresh),
                          RatioThresh(ThreshRatio(limits.fileBg, limits.file), file));
      }
      bwFs, bwFile := control.fs, control.file;
    }
  }

  // ----- every run -----

  datatype Event =
    | Init                      // a writer starts: thresholds from the last bandwidth
    | Update(thresh: nat)       // the bandwidth was measured
    | Configure(bytes: Limits)  // the byte limits were changed
    | SetAuto(auto: bool)

  datatype State = State(config: Config, control: Limits)

  predicate Enabled(e: Event) {
    match e
    case Update(thresh) => thresh > 0
    case Configure(bytes) => Ordered(bytes)
    case _ => true
  }

  function Step(s: State, e: Event): State
    requires s.config.limits.fs > 0 && s.config.limits.file > 0
  {
    match e
    case Init => s.(control := InitLimit(s.config))
    case Update(thresh) =>
      if !s.config.auto then s
      else
        var l := Scaled(s.config, thresh);
        s.(control := l, config := s.config.(bwFs := l.fs, bwFile := l.file))
    case Configure(bytes) => s.(config := s.config.(limits := InPages(bytes)))
    case SetAuto(auto) => s.(config := s.config.(auto := auto))
  }

  /** Whatever happened, the configuration is ordered, and so are the thresholds of every writer. */
  predicate Inv(s: State) {
    Ordered(s.config.limits) && 1 <= s.config.bwFile <= s.config.bwFs && Ordered(s.control)
  }

  lemma ScaledOrdered(c: Config, thresh: nat)
    requires Ordered(c.limits) && thresh > 0
    ensures Ordered(Scaled(c, thresh))
  {
    if thresh < c.limits.fs {
      var file := RatioThresh(FsFileRatio(c), thresh);
      ShareBelowWhole(c.limits.file, c.limits.fs, thresh);
      ShareBelowWhole(c.limits.fsBg, c.limits.fs, thresh);
      ShareBelowWhole(c.limits.fileBg, c.limits.file, file);
    }
  }

  lemma InitOrdered(c: Config)
    requires Ordered(c.limits) && 1 <= c.bwFile <= c.bwFs
    ensures Ordered(InitLimit(c))
  {
    ShareBelowWhole(c.limits.fsBg, c.limits.fs, c.bwFs);
    ShareBelowWhole(c.limits.fileBg, c.limits.file, c.bwFile);
  }

  lemma StepInv(s: State, e: Event)
    requires Inv(s) && Enabled(e)
    ensures Inv(Step(s, e))
  {
    if e.Init? {
      InitOrdered(s.config);
    } else if e.Update? {
      ScaledOrdered(s.config, e.thresh);
    } else if e.Configure? {
      InPagesOrdered(e.bytes);
    }
  }

  /** hmdfs_init_writeback: the last bandwidth thresholds start as the configured ones. */
  function Initial(bytes: Limits): State {
    var l := InPages(bytes);
    State(Config(l, l.fs, l.file, true), l)
  }

  lemma InitialInv(bytes: Limits)
    requires Ordered(bytes)
    ensures Inv(Initial(bytes))
  {
    InPagesOrdered(bytes);
  }

  function Run(s: State, events: seq<Event>): State
    requires Inv(s) && forall k :: 0 <= k < |events| ==> Enabled(events[k])
    decreases |events|
  {
    if events == [] then s
    else
      StepInv(s, events[0]);
      Run(Step(s, events[0]), events[1..])
  }

  /**
   Over every run, for any measured bandwidths and any ordered configurations: 1 <= file_bg <= file <=
   fs and fs_bg <= fs.
   */
  lemma {:induction false} RunOrdered(s: State, events: seq<Event>)
    requires Inv(s) && forall k :: 0 <= k < |events| ==> Enabled(events[k])
    ensures Inv(Run(s, events))
    decreases |events|
  {
    if events != [] {
      StepInv(s, events[0]);
      RunOrdered(Step(s, events[0]), events[1..]);
    }
  }

  /**
   The configured values that scaling cannot exceed: each pair within the factor that the ten
   fractional bits can express; and where the file share of some bandwidth reaches the whole file
   limit, the background share of that limit must not exceed its own.
   */
  predicate Expressible(l: Limits) {
    && l.fs <= ONE * (l.fsBg + 1)
    && l.fs <= ONE * (l.file + 1)
    && l.file <= ONE * (l.fileBg + 1)
    && (l.fs > ONE * l.file ==> l.file < ONE * (l.fileBg + 1))
  }

  lemma ScaledBelow(c: Config, thresh: nat)
    requires Ordered(c.limits) && Expressible(c.limits) && thresh > 0
    ensures Below(Scaled(c, thresh), c.limits)
  {
    var l := c.limits;
    if thresh < l.fs {
      var file := RatioThresh(FsFileRatio(c), thresh);
      ShareBelowBaseAt(l.file, l.fs, thresh);
      ShareBelowBaseAt(l.fsBg, l.fs, thresh);
      if file < l.file {
        ShareBelowBaseAt(l.fileBg, l.file, file);
      } else {
        WholeFileShare(l.file, l.fs, thresh);
        WholeShare(l.fileBg, l.file);
      }
    }
  }

  /**
   The file share of a smaller bandwidth is the whole file limit only if that limit is 1 or not
   expressible by a ratio.
   */
  lemma WholeFileShare(file: nat, fs: nat, thresh: nat)
    requires 0 < file <= fs && 0 < thresh < fs && RatioThresh(ThreshRatio(file, fs), thresh) == file
    ensures file == 1 || fs > ONE * file
  {
    if fs <= ONE * file {
      var v := file * ONE / fs;
      SmallerShare(file * ONE, fs, thresh);
      DivideLess(v * thresh, ONE, file);
    }
  }

  lemma SmallerShare(a: nat, d: nat, t: nat)
    requires 0 < t < d <= a
    ensures a / d >= 1 && (a / d) * t < a
  {
    var v := a / d;
    MultiplyLe(t, d - 1, v);
    assert (d - 1) * v == d * v - v;
  }

  lemma DivideLess(a: nat, d: nat, q: nat)
    requires d > 0 && a < q * d
    ensures a / d < q
  {
    var k := a / d;
    assert k * d <= a;
    if q <= k {
      MultiplyLe(q, k, d);
      assert false;
    }
  }

  lemma InitBelow(c: Config)
    requires Ordered(c.limits) && Expressible(c.limits) && 1 <= c.bwFile && 1 <= c.bwFs
    ensures Below(InitLimit(c), c.limits)
  {
    if c.bwFs < c.limits.fs {
      ShareBelowBaseAt(c.limits.fsBg, c.limits.fs, c.bwFs);
    }
    if c.bwFile < c.limits.file {
      ShareBelowBaseAt(c.limits.fileBg, c.limits.file, c.bwFile);
    }
  }

  lemma WholeShare(base: nat, whole: nat)
    requires 0 < base <= whole < ONE * (base + 1)
    ensures RatioThresh(ThreshRatio(base, whole), whole) <= base
  {
    var v := base * ONE / whole;
    if v > 0 {
      assert v * whole <= base * ONE;
      DivideLe(v * whole, ONE, base);
    }
  }

  // ----- when a threshold exceeds its configured value -----

  ghost predicate ValidRun(bytes: Limits, events: seq<Event>) {
    Ordered(bytes) && forall k :: 0 <= k < |events| ==> Enabled(events[k])
  }

  ghost function After(bytes: Limits, events: seq<Event>): (s: State)
    requires ValidRun(bytes, events)
    ensures Inv(s)
  {
    InitialInv(bytes);
    RunOrdered(Initial(bytes), events);
    Run(Initial(bytes), events)
  }

  /** After this run, `e` computes thresholds under the configured limits `l`. */
  ghost predicate Computes(bytes: Limits, events: seq<Event>, e: Event, l: Limits) {
    && ValidRun(bytes, events) && Enabled(e)
    && var s := After(bytes, events);
       s.config.limits == l && (e.Init? || (e.Update? && s.config.auto))
  }

  ghost predicate Kept(bytes: Limits, events: seq<Event>, e: Event, l: Limits)
    requires Computes(bytes, events, e, l)
  {
    Below(Step(After(bytes, events), e).control, l)
  }

  function InBytes(l: Limits): Limits {
    Limits(l.fs * PAGE_SIZE, l.file * PAGE_SIZE, l.fsBg * PAGE_SIZE, l.fileBg * PAGE_SIZE)
  }

  lemma WholePages(l: Limits)
    requires Ordered(l)
    ensures Ordered(InBytes(l)) && InPages(InBytes(l)) == l
  {
  }

  /** With a pair too far apart, the bandwidth just below the limit exceeds it. */
  lemma ExceedsAt(base: nat, whole: nat, t: nat)
    requires 0 < base && t > 0 && t <= whole && ONE * (base + 1) <= t && base * ONE < whole
    ensures RatioThresh(ThreshRatio(base, whole), t) > base
  {
    assert base * ONE / whole == 0;
    assert ThreshRatio(base, whole) == 1;
    assert t / ONE >= base + 1;
  }

  lemma RunOne(s: State, e: Event)
    requires Inv(s) && Enabled(e)
    ensures Run(s, [e]) == Step(s, e)
  {
    StepInv(s, e);
    assert [e][1..] == [];
    assert Run(Step(s, e), []) == Step(s, e);
  }

  /** For limits that are not expressible, a run that ends in too high a threshold */
  lemma Excess(l: Limits) returns (bytes: Limits, events: seq<Event>, e: Event)
    requires Ordered(l) && !Expressible(l)
    ensures Computes(bytes, events, e, l) && !Kept(bytes, events, e, l)
  {
    WholePages(l);
    if l.file > ONE * (l.fileBg + 1) {
      var before := Limits(l.fs, l.file - 1, 1, 1);
      WholePages(before);
      bytes, events, e := InBytes(before), [Configure(InBytes(l))], Init;
      InitialInv(bytes);
      RunOne(Initial(bytes), events[0]);
      ExceedsAt(l.fileBg, l.file, l.file - 1);
    } else {
      bytes, events := InBytes(l), [];
      if l.fs > ONE * (l.fsBg + 1) {
        e := Update(l.fs - 1);
        ExceedsAt(l.fsBg, l.fs, l.fs - 1);
      } else if l.fs > ONE * (l.file + 1) {
        e := Update(l.fs - 1);
        ExceedsAt(l.file, l.fs, l.fs - 1);
      } else {
        e := Update(ONE * l.file);
        WholeFileReached(l);
        ExceedsAt(l.fileBg, l.file, l.file);
      }
    }
  }

  lemma WholeFileReached(l: Limits)
    requires Ordered(l) && l.fs > ONE * l.file
    ensures RatioThresh(ThreshRatio(l.file, l.fs), ONE * l.file) == l.file
  {
    assert l.file * ONE / l.fs == 0;
  }

  /**
   No threshold computed after any run, whatever the bandwidths and earlier configurations, exceeds
   its configured value if and only if the configured values are expressible.
   */
  lemma RunBelowIff(l: Limits)
    requires Ordered(l)
    ensures (forall bytes, events, e :: Computes(bytes, events, e, l) ==> Kept(bytes, events, e, l)) <==> Expressible(l)
  {
    if Expressible(l) {
      forall bytes, events, e | Computes(bytes, events, e, l) ensures Kept(bytes, events, e, l) {
        var c := After(bytes, events).config;
        if e.Init? {
          InitBelow(c);
        } else {
          ScaledBelow(c, e.thresh);
        }
      }
    } else {
      var bytes, events, e := Excess(l);
      assert Computes(bytes, events, e, l) && !Kept(bytes, events, e, l);
    }
  }

  // ----- what scaling means -----

  function Min(a: nat, b: nat): nat {
    if a < b then a else b
  }

  /** Enough bandwidth gives the configured limits; less gives a whole that is the bandwidth's own. */
  lemma AmpleIsConfigured(c: Config, thresh: nat)
    requires Ordered(c.limits)
    ensures Scaled(c, thresh).fs == Min(thresh, c.limits.fs)
    ensures thresh >= c.limits.fs ==> Scaled(c, thresh) == c.limits
    ensures InitLimit(c).fs == if c.auto then Min(c.bwFs, c.limits.fs) else c.limits.fs
    ensures InitLimit(c).file == if c.auto then Min(c.bwFile, c.limits.file) else c.limits.file
    ensures !c.auto || (c.bwFs >= c.limits.fs && c.bwFile >= c.limits.file) ==> InitLimit(c) == c.limits
  {
  }

  lemma RatioMonotone(r: nat, t: nat, u: nat)
    requires t <= u
    ensures RatioThresh(r, t) <= RatioThresh(r, u)
  {
    MultiplyLe(t, u, r);
    DivideMonotone(r * t, r * u, ONE);
  }

  lemma DivideMonotone(a: nat, b: nat, d: nat)
    requires d > 0 && a <= b
    ensures a / d <= b / d
  {
    var q := b / d;
    assert b < (q + 1) * d;
    DivideLess(a, d, q + 1);
  }

  /** More bandwidth never lowers a threshold. */
  lemma ScaledMonotone(c: Config, t: nat, u: nat)
    requires Ordered(c.limits) && Expressible(c.limits) && 0 < t <= u
    ensures Below(Scaled(c, t), Scaled(c, u))
  {
    if u >= c.limits.fs {
      ScaledBelow(c, t);
    } else {
      RatioMonotone(FsFileRatio(c), t, u);
      RatioMonotone(FsBgRatio(c), t, u);
      RatioMonotone(FileBgRatio(c), RatioThresh(FsFileRatio(c), t), RatioThresh(FsFileRatio(c), u));
    }
  }

  /**
   A share is what the configured proportion makes of the bandwidth, rounded down, and off by less than
   one page and a 1024th of the bandwidth.
   */
  predicate Proportional(base: nat, whole: nat, t: nat, s: nat) {
    && (s == 1 || s * whole <= base * t)
    && ONE * (base * t) < ONE * ((s + 1) * whole) + whole * t
  }

  /** The configured pairs that ten fractional bits tell from nothing */
  predicate WithinRatio(l: Limits) {
    l.fs <= ONE * l.fsBg && l.fs <= ONE * l.file && l.file <= ONE * l.fileBg
  }

  /** Scaled limits keep the configured proportions: of file to file system, and of background to foreground. */
  lemma ScaledProportional(c: Config, thresh: nat)
    requires Ordered(c.limits) && WithinRatio(c.limits) && 0 < thresh < c.limits.fs
    ensures var l, s := c.limits, Scaled(c, thresh);
            && Proportional(l.file, l.fs, thresh, s.file) && Proportional(l.fsBg, l.fs, thresh, s.fsBg)
            && Proportional(l.fileBg, l.file, s.file, s.fileBg)
  {
    ShareClose(c.limits.file, c.limits.fs, thresh);
    ShareClose(c.limits.fsBg, c.limits.fs, thresh);
    ShareClose(c.limits.fileBg, c.limits.file, Scaled(c, thresh).file);
  }

  /** So do the limits a writer starts with. */
  lemma InitProportional(c: Config)
    requires Ordered(c.limits) && WithinRatio(c.limits) && c.auto && c.bwFs > 0 && c.bwFile > 0
    ensures var l, s := c.limits, InitLimit(c);
            && (c.bwFs < l.fs ==> Proportional(l.fsBg, l.fs, c.bwFs, s.fsBg))
            && (c.bwFile < l.file ==> Proportional(l.fileBg, l.file, c.bwFile, s.fileBg))
            && (c.bwFs >= l.fs ==> s.fsBg == l.fsBg) && (c.bwFile >= l.file ==> s.fileBg == l.fileBg)
  {
    ShareClose(c.limits.fsBg, c.limits.fs, c.bwFs);
    ShareClose(c.limits.fileBg, c.limits.file, c.bwFile);
  }

  lemma ShareClose(base: nat, whole: nat, t: nat)
    requires 0 < base <= whole <= ONE * base && t > 0
    ensures Proportional(base, whole, t, RatioThresh(ThreshRatio(base, whole), t))
  {
    var v := base * ONE / whole;
    RatioBounds(base, whole);
    var s := RatioThresh(v, t);
    QuotientBounds(v * t, s);
    ShareUpper(base, whole, t, v, s);
    ShareLower(base, whole, t, v, s);
  }

  lemma RatioBounds(base: nat, whole: nat)
    requires 0 < base <= whole <= ONE * base
    ensures var v := base * ONE / whole;
            v >= 1 && ThreshRatio(base, whole) == v && v * whole <= base * ONE < (v + 1) * whole
  {
    var v := base * ONE / whole;
    assert v * whole <= base * ONE < (v + 1) * whole;
    assert v == 0 ==> (v + 1) * whole == whole;
  }

  lemma QuotientBounds(x: nat, s: nat)
    requires s == if x / ONE == 0 then 1 else x / ONE
    ensures (s == 1 || s * ONE <= x) && x < (s + 1) * ONE
  {
  }

  lemma ShareUpper(base: nat, whole: nat, t: nat, v: nat, s: nat)
    requires v * whole <= base * ONE && (s == 1 || s * ONE <= v * t)
    ensures s == 1 || s * whole <= base * t
  {
    if s != 1 {
      MultiplyLe(s * ONE, v * t, whole);
      MultiplyLe(v * whole, base * ONE, t);
      assert (s * ONE) * whole == ONE * (s * whole);
      assert (v * t) * whole == (v * whole) * t;
      assert (base * ONE) * t == ONE * (base * t);
    }
  }

  lemma ShareLower(base: nat, whole: nat, t: nat, v: nat, s: nat)
    requires whole > 0 && t > 0 && base * ONE < (v + 1) * whole && v * t < (s + 1) * ONE
    ensures ONE * (base * t) < ONE * ((s + 1) * whole) + whole * t
  {
    MultiplyLe(base * ONE + 1, (v + 1) * whole, t);
    MultiplyLe(v * t, (s + 1) * ONE, whole);
    assert (base * ONE + 1) * t == ONE * (base * t) + t;
    assert ((v + 1) * whole) * t == (v * t) * whole + whole * t;
    assert ((s + 1) * ONE) * whole == ONE * ((s + 1) * whole);
  }
}
