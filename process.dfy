/** `process_file`: how the arguments for one input video are checked and
    completed before its frames are captured. This covers the output path,
    the conflicting-option errors, the sampling mode (evenly spaced, a
    fixed interval, or manual timestamps), the grid shape deduced from the
    sample count, the sample, group and selection counts, and the sheet
    width for actual-size cells. Each file works on its own copy of the
    arguments, so `ProcessFile` takes them as a value and returns the
    completed copy. The file system and the media probe are inputs. */
module Process {
  import opened Common
  import Duration
  import Timestamps
  import Media
  import Layout

  const MISSING_FILE: string := "file does not exist"
  const INTERVAL_AND_MANUAL: string := "Cannot use --interval and --manual at the same time."
  const WIDTH_AND_ACTUAL_SIZE: string := "Cannot use --width and --actual-size at the same time."
  const ZERO_GRID: string := "Row or column of size zero is only supported with --interval or --manual."
  const NO_MANUAL_TIMESTAMPS: string := "no manual timestamps less than input duration."

  /** The arguments `process_file` reads and completes, grouped by what
      they decide: where the sheet goes, how frames are sampled, and how
      the sheet is laid out. */
  datatype Args = Args(files: FileOptions, sampling: Sampling, sheet: SheetOptions)

  datatype FileOptions = FileOptions(
    outputPath: Option<string>, imageFormat: string, ignoreErrors: bool, noOverwrite: bool)

  /** `interval` is in whole seconds. */
  datatype Sampling = Sampling(
    interval: Option<nat>, manualTimestamps: seq<string>,
    delayPercent: Option<real>, startDelayPercent: real, endDelayPercent: real,
    numGroups: Option<nat>, numSamples: Option<nat>, numSelected: Option<nat>, grid: Grid)

  datatype SheetOptions = SheetOptions(
    vcsWidth: nat, actualSize: bool,
    metadataMargin: nat, metadataHorizontalMargin: nat, metadataVerticalMargin: nat,
    gridSpacing: Option<nat>, gridHorizontalSpacing: nat, gridVerticalSpacing: nat)

  /** What the media probe reports that `process_file` uses. */
  datatype Attributes = Attributes(durationSeconds: real, dimensions: Media.Dimensions)

  // ------------------------------------------------------------ output path

  predicate StartsWith(s: string, prefix: string) {
    |prefix| <= |s| && s[..|prefix|] == prefix
  }

  predicate EndsWith(s: string, suffix: string) {
    |suffix| <= |s| && s[|s| - |suffix|..] == suffix
  }

  /** `Path::join` of a file name onto a directory: one '/' between them
      unless the directory is empty or already ends with one. */
  function JoinPath(dir: string, name: string): (r: string)
    ensures StartsWith(r, dir) && EndsWith(r, name)
    ensures |r| == |dir| + |name| + (if dir == [] || dir[|dir| - 1] == '/' then 0 else 1)
    ensures |r| > |dir| + |name| ==> r[|dir|] == '/'
  {
    if dir == [] || dir[|dir| - 1] == '/' then dir + name else dir + "/" + name
  }

  /** Where the sheet is written: beside the video with the image format
      appended, inside the output directory under the video's file name,
      or at the output path itself when it is not a directory. */
  function OutputPath(path: string, fileName: string, outputPath: Option<string>,
                      outputIsDir: bool, imageFormat: string): (r: string)
    ensures outputPath.None? ==> r == path + "." + imageFormat
    ensures outputPath.Some? && outputIsDir ==> r == JoinPath(outputPath.value, fileName) + "." + imageFormat
    ensures outputPath.Some? && outputIsDir ==>
      StartsWith(r, outputPath.value) && EndsWith(r, fileName + "." + imageFormat)
    ensures outputPath.Some? && !outputIsDir ==> r == outputPath.value
  {
    match outputPath
    case None => path + "." + imageFormat
    case Some(o) => if outputIsDir then JoinPath(o, fileName) + "." + imageFormat else o
  }

  // --------------------------------------------------------- sample counts

  /** `(selected / secs as f32) as u32`: the whole number of intervals in
      the selected duration, with Rust's saturating cast. A zero interval
      divides to infinity (the largest count), or to NaN (zero) when no
      time is left. */
  function IntervalSampleCount(selected: real, secs: nat): (r: nat)
    ensures r <= U32_MAX
    ensures 0 < secs && 0.0 <= selected < ((U32_MAX + 1) * secs) as real ==>
      (r * secs) as real <= selected < ((r + 1) * secs) as real
    ensures selected <= 0.0 ==> r == 0
  {
    if secs == 0 then (if selected > 0.0 then U32_MAX else 0)
    else if selected < 0.0 then 0
    else
      var q := selected / secs as real;
      FloorScaled(selected, secs);
      CountFits(q.Floor, secs, selected);
      if q.Floor > U32_MAX then U32_MAX else q.Floor
  }

  /** The floor of `x / d`, times `d`, is at most `x` and within `d` of it. */
  lemma FloorScaled(x: real, d: nat)
    requires d > 0 && x >= 0.0
    ensures var f := (x / (d as real)).Floor;
      f >= 0 && (f * d) as real <= x < ((f + 1) * d) as real
  {
    var dr := d as real;
    var q := x / dr;
    var f := q.Floor;
    assert x == q * dr;
    if q < 0.0 {
      RealMulLt(q, 0.0, dr);
    }
    assert f as real <= q < f as real + 1.0;
    assert f as real * dr <= q * dr by { RealMulLe(f as real, q, dr); }
    assert q < (f + 1) as real;
    RealMulLt(q, (f + 1) as real, dr);
    IntMulToReal(f, d);
    IntMulToReal(f + 1, d);
    calc {
      x;
      == q * dr;
      < (f + 1) as real * dr;
      == ((f + 1) * d) as real;
    }
  }

  /** A count whose `d`-multiple is below the largest `u32` plus one times `d` fits in a `u32`. */
  lemma CountFits(f: nat, d: nat, x: real)
    requires d > 0 && (f * d) as real <= x
    ensures x < ((U32_MAX + 1) * d) as real ==> f <= U32_MAX
  {
    if x < ((U32_MAX + 1) * d) as real {
      assert d * f < d * (U32_MAX + 1);
      Layout.MulLess(d, f, U32_MAX + 1);
    }
  }

  lemma IntMulToReal(a: int, b: int)
    ensures (a * b) as real == a as real * b as real
  {
  }

  lemma RealMulLe(a: real, b: real, c: real)
    requires a <= b && c >= 0.0
    ensures a * c <= b * c
  {
  }

  lemma RealMulLt(a: real, b: real, c: real)
    requires a < b && c > 0.0
    ensures a * c < b * c
  {
  }

  function CeilSqrtFrom(n: nat, s: nat): (r: nat)
    requires s == 0 || (s - 1) * (s - 1) < n
    ensures n <= r * r && (r == 0 || (r - 1) * (r - 1) < n)
    decreases n - s
  {
    if n <= s * s then s
    else
      assert s <= s * s;
      CeilSqrtFrom(n, s + 1)
  }

  /** `(n as f32).sqrt().ceil() as u32`: the side of the smallest square
      holding `n` cells. */
  function CeilSqrt(n: nat): (r: nat)
    ensures n <= r * r && (r == 0 || (r - 1) * (r - 1) < n)
  {
    CeilSqrtFrom(n, 0)
  }

  /** The manual timestamps before the end of the video, in their order.
      `None` where the program panics: a timestamp that does not parse. */
  function KeepBefore(stamps: seq<string>, duration: real): (r: Option<seq<string>>)
    ensures r.Some? <==> forall i | 0 <= i < |stamps| :: Duration.PrettyToSeconds(stamps[i]).Some?
    ensures r.Some? ==> |r.value| <= |stamps|
    ensures r.Some? ==> forall t | t in r.value ::
      t in stamps && Duration.PrettyToSeconds(t).Some? && Duration.PrettyToSeconds(t).value < duration
    ensures r.Some? ==> forall i | 0 <= i < |stamps| && Duration.PrettyToSeconds(stamps[i]).value < duration ::
      stamps[i] in r.value
  {
    if stamps == [] then Some([])
    else
      var first, rest := Duration.PrettyToSeconds(stamps[0]), KeepBefore(stamps[1..], duration);
      if first.None? || rest.None? then None
      else if first.value < duration then Some([stamps[0]] + rest.value)
      else rest
  }

  /** Whether a manual timestamp reads as a time before `duration`. */
  predicate ReadsBefore(t: string, duration: real) {
    Duration.PrettyToSeconds(t).Some? && Duration.PrettyToSeconds(t).value < duration
  }

  /** `a` is `b` with some elements dropped and the rest in their order. */
  predicate IsSubsequence(a: seq<string>, b: seq<string>)
    decreases |b|
  {
    if a == [] then true
    else if b == [] then false
    else (a[0] == b[0] && IsSubsequence(a[1..], b[1..])) || IsSubsequence(a, b[1..])
  }

  /** `KeepBefore` is the order-keeping filter: its result is a
      subsequence of the stamps holding every occurrence of each stamp
      before the end of the video and no other stamp. */
  lemma {:induction false} KeepBeforeIsFilter(stamps: seq<string>, duration: real)
    requires KeepBefore(stamps, duration).Some?
    ensures var kept := KeepBefore(stamps, duration).value;
      && IsSubsequence(kept, stamps)
      && forall t :: multiset(kept)[t] == if ReadsBefore(t, duration) then multiset(stamps)[t] else 0
  {
    KeepBeforeInOrder(stamps, duration);
    KeepBeforeCounts(stamps, duration);
  }

  lemma {:induction false} KeepBeforeInOrder(stamps: seq<string>, duration: real)
    requires KeepBefore(stamps, duration).Some?
    ensures IsSubsequence(KeepBefore(stamps, duration).value, stamps)
  {
    if stamps != [] {
      var rest := KeepBefore(stamps[1..], duration).value;
      KeepBeforeInOrder(stamps[1..], duration);
      if ReadsBefore(stamps[0], duration) {
        var kept := [stamps[0]] + rest;
        assert kept[0] == stamps[0] && kept[1..] == rest;
      } else if rest != [] {
        assert IsSubsequence(rest, stamps);
      }
    }
  }

  lemma {:induction false} KeepBeforeCounts(stamps: seq<string>, duration: real)
    requires KeepBefore(stamps, duration).Some?
    ensures var kept := KeepBefore(stamps, duration).value;
      forall t :: multiset(kept)[t] == if ReadsBefore(t, duration) then multiset(stamps)[t] else 0
  {
    if stamps != [] {
      var rest := KeepBefore(stamps[1..], duration).value;
      KeepBeforeCounts(stamps[1..], duration);
      assert stamps == [stamps[0]] + stamps[1..];
      assert multiset(stamps) == multiset{stamps[0]} + multiset(stamps[1..]);
      if ReadsBefore(stamps[0], duration) {
        assert multiset([stamps[0]] + rest) == multiset{stamps[0]} + multiset(rest);
      }
    }
  }

  // ---------------------------------------------------------- grid shape

  /** Lines 175-192 as written: a default or empty grid becomes the
      smallest square holding the samples; with the rows fixed the columns
      are the samples per row; with the columns fixed the rows are the
      samples per column, but the columns are set to the (zero) rows. */
  function DeduceGridAsWritten(grid: Grid, samples: nat): Grid {
    if grid == DEFAULT_GRID_SIZE || (grid.x == 0 && grid.y == 0) then Grid(CeilSqrt(samples), CeilSqrt(samples))
    else if grid.x == 0 then Grid(samples / grid.y, grid.y)
    else if grid.y == 0 then Grid(grid.y, samples / grid.x)
    else grid
  }

  /** The grid for a fixed number of samples: a default or empty grid
      becomes the smallest square holding them; a grid with one side fixed
      keeps it and gets as many whole rows or columns as the samples fill;
      any other grid stays. */
  function DeduceGrid(grid: Grid, samples: nat): Grid {
    if grid == DEFAULT_GRID_SIZE || (grid.x == 0 && grid.y == 0) then Grid(CeilSqrt(samples), CeilSqrt(samples))
    else if grid.x == 0 then Grid(samples / grid.y, grid.y)
    else if grid.y == 0 then Grid(grid.x, samples / grid.x)
    else grid
  }

  /** The deduced grid: a default or empty grid becomes the smallest
      square holding the samples; a fixed side is kept and the other is the
      number of whole rows or columns the samples fill; any other grid stays. */
  lemma DeduceGridShape(grid: Grid, samples: nat)
    ensures var r := DeduceGrid(grid, samples);
      && (grid == DEFAULT_GRID_SIZE || grid == Grid(0, 0) ==>
            r.x == r.y && samples <= r.x * r.y && (r.x == 0 || (r.x - 1) * (r.x - 1) < samples))
      && (grid.x == 0 && grid.y > 0 ==> r.y == grid.y && r.y * r.x <= samples < r.y * r.x + r.y)
      && (grid.y == 0 && grid.x > 0 ==> r.x == grid.x && r.x * r.y <= samples < r.x * r.y + r.x)
      && (grid.x > 0 && grid.y > 0 && grid != DEFAULT_GRID_SIZE ==> r == grid)
  {
    if grid.x == 0 && grid.y > 0 {
      DivBounds(samples, grid.y);
    } else if grid.y == 0 && grid.x > 0 {
      DivBounds(samples, grid.x);
    }
  }

  /** As written, a grid with fixed columns and zero rows loses its columns:
      three columns for nine samples become no columns of three rows, and
      `grid_desired_size` then divides by the zero columns, where three by
      three is meant. */
  lemma FixedColumnsLostAsWritten(grid: Grid, samples: nat)
    requires grid.x > 0 && grid.y == 0
    ensures DeduceGridAsWritten(grid, samples).x == 0
    ensures forall width, hMargin :: !Layout.CellWidthDefined(DeduceGridAsWritten(grid, samples), width, hMargin)
    ensures forall width, hMargin :: Layout.CellWidthDefined(DeduceGrid(grid, samples), width, hMargin)
              <==> Layout.CellWidthDefined(grid, width, hMargin)
    ensures DeduceGrid(grid, samples).x == grid.x
    ensures DeduceGridAsWritten(Grid(3, 0), 9) == Grid(0, 3) && DeduceGrid(Grid(3, 0), 9) == Grid(3, 3)
  {
    Layout.DivModOf(9, 3, 3, 0);
  }

  /** The two deductions differ exactly on a grid with fixed columns and
      no rows; the pipeline below uses the corrected one, so every other
      grid is deduced as the code does. */
  lemma DeduceGridAgrees(grid: Grid, samples: nat)
    ensures DeduceGridAsWritten(grid, samples) != DeduceGrid(grid, samples) <==> grid.x > 0 && grid.y == 0
  {
  }

  // ------------------------------------------------------- reconciliation

  datatype Counts = Counts(samples: nat, groups: nat, selected: nat)

  /** Lines 195-222 without a fixed sample count: the grid's cells are the
      selection; the samples default to it; the groups and then the samples
      are raised to it; and if the samples are still fewer than the groups
      both fall back to the selection. The result always has at least as
      many samples as groups and at least as many groups as selected
      frames, and keeps a request that already had that order. */
  function Reconcile(selected: nat, samples: Option<nat>, groups: nat): (c: Counts)
    ensures c.selected == selected
    ensures c.samples >= c.groups >= c.selected
    ensures samples.Some? && samples.value >= groups >= selected ==> c == Counts(samples.value, groups, selected)
    ensures c.groups == selected || c.groups == groups
  {
    var samples := if samples.Some? then samples.value else selected;
    var groups := if selected > groups then selected else groups;
    var samples := if selected > samples then selected else samples;
    if samples < selected || samples < groups then Counts(selected, selected, selected)
    else Counts(samples, groups, selected)
  }

  /** The sheet width that makes every cell as wide as the video:
      `columns` display widths and the gaps between them. */
  function ActualWidth(columns: nat, displayWidth: nat, hs: nat): nat
    requires columns >= 1
  {
    columns * displayWidth + (columns - 1) * hs
  }

  /** With the actual-size width, every cell is exactly the display width. */
  lemma ActualSizeCells(grid: Grid, dims: Media.Dimensions, hs: nat)
    requires grid.x >= 1 && Layout.Displayable(dims)
    ensures var w := ActualWidth(grid.x, dims.displayWidth.value, hs);
      && Layout.CellWidthDefined(grid, Some(w), Some(hs))
      && Layout.GridDesiredSize(grid, dims, Some(w), Some(hs)).x == dims.displayWidth.value
  {
    var dw := dims.displayWidth.value;
    Layout.DivModOf(grid.x * dw, grid.x, dw, 0);
  }

  // ----------------------------------------------------------- process_file

  /** The sample count of the interval mode: the whole intervals in the
      duration left after both delays. */
  function IntervalSamples(attrs: Attributes, startPercent: real, endPercent: real, secs: nat): nat {
    IntervalSampleCount(
      attrs.durationSeconds - Timestamps.TotalDelay(attrs.durationSeconds, startPercent, endPercent), secs)
  }

  /** Whether the frames are sampled at fixed points: at an interval or at
      manual timestamps. */
  predicate FixedMode(s: Sampling) {
    s.interval.Some? || |s.manualTimestamps| > 0
  }

  /** Lines 109-114: one delay percentage sets both; the groups start at 5. */
  function Prepared(s: Sampling): Sampling {
    var s := if s.delayPercent.Some? then
      s.(startDelayPercent := s.delayPercent.value, endDelayPercent := s.delayPercent.value) else s;
    s.(numGroups := Some(INITIAL_NUM_GROUPS))
  }

  /** Lines 127-130: a metadata margin other than the default sets both. */
  function WithMetadataMargin(o: SheetOptions): SheetOptions {
    if o.metadataMargin != DEFAULT_METADATA_MARGIN then
      o.(metadataHorizontalMargin := o.metadataMargin, metadataVerticalMargin := o.metadataMargin)
    else o
  }

  /** The sampling at one of `process_file`'s returns, with the error it
      returns there, if any. */
  datatype SamplingStep = SamplingStep(err: Option<Error>, sampling: Sampling)

  /** Lines 132-170: without an interval or manual timestamps a grid with
      an empty row or column is rejected; an interval fixes the sample,
      selection and group counts to the intervals that fit; manual
      timestamps are cut to those before the end of the video and fix the
      counts to how many are left, none being an error. */
  function Sampled(s: Sampling, attrs: Attributes): (r: SamplingStep)
    ensures s.numGroups.Some? ==> r.sampling.numGroups.Some?
    ensures r.err.None? && FixedMode(r.sampling) ==> r.sampling.numSamples.Some?
  {
    if !FixedMode(s) && (s.grid.x == 0 || s.grid.y == 0) then SamplingStep(Some(ArgumentError(ZERO_GRID)), s)
    else
      var s := if s.interval.Some? then
        var n := Some(IntervalSamples(attrs, s.startDelayPercent, s.endDelayPercent, s.interval.value));
        s.(numSamples := n, numSelected := n, numGroups := n)
      else s;
      if |s.manualTimestamps| == 0 then SamplingStep(None, s)
      else
        var kept := KeepBefore(s.manualTimestamps, attrs.durationSeconds);
        if kept.None? then SamplingStep(Some(Panic("pretty_to_seconds(ts).unwrap()")), s)
        else if kept.value == [] then SamplingStep(Some(TimestampError(NO_MANUAL_TIMESTAMPS)), s.(manualTimestamps := []))
        else
          var n := Some(|kept.value|);
          SamplingStep(None, s.(manualTimestamps := kept.value, numSamples := n, numSelected := n, numGroups := n))
  }

  /** Lines 172-222: with a fixed sample count the grid is deduced from it;
      the selection is the grid's cells; without a fixed count the sample
      and group counts are reconciled with the selection. */
  function Shaped(s: Sampling): Sampling
    requires FixedMode(s) ==> s.numSamples.Some?
    requires s.numGroups.Some?
  {
    var grid := if FixedMode(s) then DeduceGrid(s.grid, s.numSamples.value) else s.grid;
    var selected := grid.x * grid.y;
    if FixedMode(s) then s.(grid := grid, numSelected := Some(selected))
    else
      var c := Reconcile(selected, s.numSamples, s.numGroups.value);
      s.(grid := grid, numSelected := Some(selected), numSamples := Some(c.samples), numGroups := Some(c.groups))
  }

  /** The sheet options at one of `process_file`'s returns, with the error
      it returns there, if any. */
  datatype SheetStep = SheetStep(err: Option<Error>, sheet: SheetOptions)

  /** Lines 224-233: one grid spacing sets both; for actual-size cells the
      sheet is as wide as `columns` display widths and the gaps between them. */
  function Sized(o: SheetOptions, columns: nat, displayWidth: Option<nat>): SheetStep {
    var o := if o.gridSpacing.Some? then
      o.(gridHorizontalSpacing := o.gridSpacing.value, gridVerticalSpacing := o.gridSpacing.value) else o;
    if !o.actualSize then SheetStep(None, o)
    else if displayWidth.None? then SheetStep(Some(Panic("display_width.unwrap()")), o)
    else if columns == 0 then SheetStep(Some(Panic("x - 1")), o)
    else SheetStep(None, o.(vcsWidth := ActualWidth(columns, displayWidth.value, o.gridHorizontalSpacing)))
  }

  /** What `process_file` returns, the arguments it leaves, and whether it
      goes on to capture and compose the sheet. */
  datatype Outcome = Outcome(result: Result<string>, args: Args, captures: bool)

  /** `process_file` up to the capture, stage by stage. */
  function ProcessOutcome(args: Args, path: string, fileName: string, inputExists: bool,
                          outputIsDir: bool, outputExists: bool, media: Option<Attributes>): (o: Outcome)
    ensures o.args.files == args.files
    ensures o.captures ==> && inputExists && media.Some? && !(args.files.noOverwrite && outputExists)
                           && !(args.sampling.interval.Some? && |args.sampling.manualTimestamps| > 0)
                           && !(args.sheet.vcsWidth != DEFAULT_CONTACT_SHEET_WIDTH && args.sheet.actualSize)
                           && o.result == Ok(OutputPath(path, fileName, args.files.outputPath, outputIsDir, args.files.imageFormat))
    ensures !o.captures ==> o.result.Err? || !inputExists || (args.files.noOverwrite && outputExists)
  {
    var f := args.files;
    var output := OutputPath(path, fileName, f.outputPath, outputIsDir, f.imageFormat);
    if !inputExists then Outcome(if f.ignoreErrors then Ok(path) else Err(IoError(MISSING_FILE)), args, false)
    else if f.noOverwrite && outputExists then Outcome(Ok(output), args, false)
    else if args.sampling.interval.Some? && |args.sampling.manualTimestamps| > 0 then
      Outcome(Err(ArgumentError(INTERVAL_AND_MANUAL)), args, false)
    else if args.sheet.vcsWidth != DEFAULT_CONTACT_SHEET_WIDTH && args.sheet.actualSize then
      Outcome(Err(ArgumentError(WIDTH_AND_ACTUAL_SIZE)), args, false)
    else if media.None? then Outcome(Err(MediaError), args.(sampling := Prepared(args.sampling)), false)
    else
      var sheet := WithMetadataMargin(args.sheet);
      var s := Sampled(Prepared(args.sampling), media.value);
      if s.err.Some? then Outcome(Err(s.err.value), Args(f, s.sampling, sheet), false)
      else
        var sampling := Shaped(s.sampling);
        var z := Sized(sheet, sampling.grid.x, media.value.dimensions.displayWidth);
        if z.err.Some? then Outcome(Err(z.err.value), Args(f, sampling, z.sheet), false)
        else Outcome(Ok(output), Args(f, sampling, z.sheet), true)
  }

  /** When the sheet is made, the counts it is made with are consistent:
      the selection is the grid's cells; without a fixed sample count the
      requested grid stays, has no empty side, and there are at least as
      many samples as groups and groups as selected frames; with one, the
      samples and groups are equal, a default or empty grid becomes a
      square holding every sample and a grid with one fixed side holds no
      more cells than there are samples. */
  lemma CapturedCounts(args: Args, path: string, fileName: string, inputExists: bool,
                       outputIsDir: bool, outputExists: bool, media: Option<Attributes>)
    requires ProcessOutcome(args, path, fileName, inputExists, outputIsDir, outputExists, media).captures
    ensures var s := ProcessOutcome(args, path, fileName, inputExists, outputIsDir, outputExists, media).args.sampling;
      var g := args.sampling.grid;
      && s.numSamples.Some? && s.numGroups.Some? && s.numSelected == Some(s.grid.x * s.grid.y)
      && (!FixedMode(args.sampling) ==>
            && s.grid == g && g.x > 0 && g.y > 0
            && s.numSamples.value >= s.numGroups.value >= s.numSelected.value)
      && (FixedMode(args.sampling) ==>
            && FixedMode(s) && s.numSamples == s.numGroups
            && s.grid == DeduceGrid(g, s.numSamples.value)
            && (g == DEFAULT_GRID_SIZE || g == Grid(0, 0) ==> s.numSamples.value <= s.numSelected.value)
            && ((g.x == 0) != (g.y == 0) ==> s.numSelected.value <= s.numSamples.value))
  {
    var attrs := media.value;
    var st := Sampled(Prepared(args.sampling), attrs);
    if FixedMode(args.sampling) {
      var n := st.sampling.numSamples.value;
      DeduceGridShape(args.sampling.grid, n);
    }
  }

  /** In interval mode the sample count, when the sheet is made, is the
      number of whole intervals after the delays, where one delay
      percentage stands for both. */
  lemma CapturedIntervalSamples(args: Args, path: string, fileName: string, inputExists: bool,
                                outputIsDir: bool, outputExists: bool, media: Option<Attributes>)
    requires args.sampling.interval.Some?
    requires ProcessOutcome(args, path, fileName, inputExists, outputIsDir, outputExists, media).captures
    ensures var s := ProcessOutcome(args, path, fileName, inputExists, outputIsDir, outputExists, media).args.sampling;
      var d := args.sampling.delayPercent;
      var start := if d.Some? then d.value else args.sampling.startDelayPercent;
      var end := if d.Some? then d.value else args.sampling.endDelayPercent;
      s.numSamples == s.numGroups == Some(IntervalSamples(media.value, start, end, args.sampling.interval.value))
  {
  }

  /** With manual timestamps the sheet is made from those before the end of
      the video, in their order, one sample and group each. */
  lemma CapturedManualSamples(args: Args, path: string, fileName: string, inputExists: bool,
                              outputIsDir: bool, outputExists: bool, media: Option<Attributes>)
    requires |args.sampling.manualTimestamps| > 0
    requires ProcessOutcome(args, path, fileName, inputExists, outputIsDir, outputExists, media).captures
    ensures var s := ProcessOutcome(args, path, fileName, inputExists, outputIsDir, outputExists, media).args.sampling;
      var kept := KeepBefore(args.sampling.manualTimestamps, media.value.durationSeconds);
      && kept.Some? && kept.value == s.manualTimestamps && kept.value != []
      && s.numSamples == s.numGroups == Some(|kept.value|)
  {
  }

  /** Manual timestamps that all lie past the end of the video are an
      error, and a grid with an empty side is one without fixed samples. */
  lemma SamplingErrors(args: Args, path: string, fileName: string, outputIsDir: bool, media: Attributes)
    requires !args.files.noOverwrite
    requires args.sheet.vcsWidth == DEFAULT_CONTACT_SHEET_WIDTH || !args.sheet.actualSize
    ensures var o := ProcessOutcome(args, path, fileName, true, outputIsDir, false, Some(media));
      && (!FixedMode(args.sampling) && (args.sampling.grid.x == 0 || args.sampling.grid.y == 0) ==>
            o.result == Err(ArgumentError(ZERO_GRID)))
      && (args.sampling.interval.None? && |args.sampling.manualTimestamps| > 0
          && KeepBefore(args.sampling.manualTimestamps, media.durationSeconds) == Some([]) ==>
            o.result == Err(TimestampError(NO_MANUAL_TIMESTAMPS)))
  {
  }

  /** With actual-size cells, when the sheet is made, its width makes every
      cell exactly as wide as the video is displayed. */
  lemma ActualSizeSheet(args: Args, path: string, fileName: string, inputExists: bool,
                        outputIsDir: bool, outputExists: bool, media: Option<Attributes>)
    requires args.sheet.actualSize
    requires ProcessOutcome(args, path, fileName, inputExists, outputIsDir, outputExists, media).captures
    requires media.Some? && Layout.Displayable(media.value.dimensions)
    ensures var a := ProcessOutcome(args, path, fileName, inputExists, outputIsDir, outputExists, media).args;
      var width := Some(a.sheet.vcsWidth);
      var spacing := Some(a.sheet.gridHorizontalSpacing);
      && Layout.CellWidthDefined(a.sampling.grid, width, spacing)
      && Layout.GridDesiredSize(a.sampling.grid, media.value.dimensions, width, spacing).x
           == media.value.dimensions.displayWidth.value
  {
    var a := ProcessOutcome(args, path, fileName, inputExists, outputIsDir, outputExists, media).args;
    ActualSizeCells(a.sampling.grid, media.value.dimensions, a.sheet.gridHorizontalSpacing);
  }

  /** Lines 109-114, step by step. */
  method PrepareSampling(s: Sampling) returns (next: Sampling)
    ensures next == Prepared(s)
  {
    next := s;
    if next.delayPercent.Some? {
      next := next.(startDelayPercent := next.delayPercent.value, endDelayPercent := next.delayPercent.value);
    }
    next := next.(numGroups := Some(INITIAL_NUM_GROUPS));
  }

  /** Lines 127-130, step by step. */
  method MarginSheet(o: SheetOptions) returns (next: SheetOptions)
    ensures next == WithMetadataMargin(o)
  {
    next := o;
    if next.metadataMargin != DEFAULT_METADATA_MARGIN {
      next := next.(metadataHorizontalMargin := next.metadataMargin, metadataVerticalMargin := next.metadataMargin);
    }
  }

  /** Lines 132-170, step by step. */
  method SampleArgs(s: Sampling, attrs: Attributes) returns (err: Option<Error>, next: Sampling)
    ensures SamplingStep(err, next) == Sampled(s, attrs)
  {
    next, err := s, None;
    if next.interval.None? && |next.manualTimestamps| == 0 && (next.grid.x == 0 || next.grid.y == 0) {
      err := Some(ArgumentError(ZERO_GRID));
      return;
    }
    if next.interval.Some? {
      var totalDelay := Timestamps.TotalDelay(attrs.durationSeconds, next.startDelayPercent, next.endDelayPercent);
      var numSamples := IntervalSampleCount(attrs.durationSeconds - totalDelay, next.interval.value);
      next := next.(numSamples := Some(numSamples), numSelected := Some(numSamples), numGroups := Some(numSamples));
    }
    if |next.manualTimestamps| > 0 {
      var kept := KeepBefore(next.manualTimestamps, attrs.durationSeconds);
      if kept.None? {
        err := Some(Panic("pretty_to_seconds(ts).unwrap()"));
        return;
      }
      next := next.(manualTimestamps := kept.value);
      if |next.manualTimestamps| == 0 {
        err := Some(TimestampError(NO_MANUAL_TIMESTAMPS));
        return;
      }
      var size := |next.manualTimestamps|;
      next := next.(numSamples := Some(size), numSelected := Some(size), numGroups := Some(size));
    }
  }

  /** Lines 172-222, step by step. */
  method ShapeArgs(s: Sampling) returns (next: Sampling)
    requires FixedMode(s) ==> s.numSamples.Some?
    requires s.numGroups.Some?
    ensures next == Shaped(s)
  {
    next := s;
    if next.interval.Some? || |next.manualTimestamps| > 0 {
      next := next.(grid := DeduceGrid(next.grid, next.numSamples.value));
    }
    next := next.(numSelected := Some(next.grid.x * next.grid.y));
    if next.numSamples.None? {
      next := next.(numSamples := next.numSelected);
    }
    if next.numGroups.None? {
      next := next.(numGroups := next.numSelected);
    }
    if next.interval.None? && |next.manualTimestamps| == 0 {
      if next.numSelected.value > next.numGroups.value {
        next := next.(numGroups := next.numSelected);
      }
      if next.numSelected.value > next.numSamples.value {
        next := next.(numSamples := next.numSelected);
      }
      if next.numSamples.value < next.numSelected.value || next.numSamples.value < next.numGroups.value {
        next := next.(numSamples := next.numSelected, numGroups := next.numSelected);
      }
    }
    next := next.(numSelected := Some(next.grid.x * next.grid.y));
  }

  /** Lines 224-233, step by step. */
  method SizeArgs(o: SheetOptions, columns: nat, displayWidth: Option<nat>) returns (err: Option<Error>, next: SheetOptions)
    ensures SheetStep(err, next) == Sized(o, columns, displayWidth)
  {
    next, err := o, None;
    if next.gridSpacing.Some? {
      next := next.(gridHorizontalSpacing := next.gridSpacing.value, gridVerticalSpacing := next.gridSpacing.value);
    }
    if next.actualSize {
      var x := columns;
      if displayWidth.None? {
        err := Some(Panic("display_width.unwrap()"));
        return;
      }
      if x == 0 {
        err := Some(Panic("x - 1"));
        return;
      }
      next := next.(vcsWidth := x * displayWidth.value + (x - 1) * next.gridHorizontalSpacing);
    }
  }

  /** `process_file` up to the capture: changes its copy of the arguments
      step by step and returns at the first error. `inputExists`,
      `outputIsDir` and `outputExists` are the file-system checks; `media`
      is the probe's attributes, `None` when it fails. */
  method ProcessFile(args: Args, path: string, fileName: string, inputExists: bool,
                     outputIsDir: bool, outputExists: bool, media: Option<Attributes>)
    returns (r: Result<string>, next: Args, captures: bool)
    ensures Outcome(r, next, captures)
      == ProcessOutcome(args, path, fileName, inputExists, outputIsDir, outputExists, media)
  {
    next, captures := args, false;
    if !inputExists {
      r := if args.files.ignoreErrors then Ok(path) else Err(IoError(MISSING_FILE));
      return;
    }
    var output := OutputPath(path, fileName, args.files.outputPath, outputIsDir, args.files.imageFormat);
    if args.files.noOverwrite && outputExists {
      r := Ok(output);
      return;
    }
    if args.sampling.interval.Some? && |args.sampling.manualTimestamps| > 0 {
      r := Err(ArgumentError(INTERVAL_AND_MANUAL));
      return;
    }
    if args.sheet.vcsWidth != DEFAULT_CONTACT_SHEET_WIDTH && args.sheet.actualSize {
      r := Err(ArgumentError(WIDTH_AND_ACTUAL_SIZE));
      return;
    }
    var sampling := PrepareSampling(next.sampling);
    next := next.(sampling := sampling);
    if media.None? {
      r := Err(MediaError);
      return;
    }
    var sheet := MarginSheet(next.sheet);
    next := next.(sheet := sheet);
    var err;
    err, sampling := SampleArgs(sampling, media.value);
    next := next.(sampling := sampling);
    if err.Some? {
      r := Err(err.value);
      return;
    }
    sampling := ShapeArgs(sampling);
    err, sheet := SizeArgs(sheet, sampling.grid.x, media.value.dimensions.displayWidth);
    next := next.(sampling := sampling, sheet := sheet);
    if err.Some? {
      r := Err(err.value);
      return;
    }
    r, captures := Ok(output), true;
  }
}
