# vcsr contact-sheet logic in Dafny

vcsr makes a contact sheet from a video. It probes the file, takes captures
at evenly spaced instants (or at an interval, or at manual timestamps), and
cuts the time-sorted captures into chunks, keeping the latest capture of each
chunk. From those it picks the capture with the highest blurriness score and,
when the average colours differ, fills the rest of the selection with the
lowest-scoring captures; when all colours are equal every capture is picked.
It lays the captures out in a grid under or over a metadata header.
This project models the deterministic logic of that pipeline and proves what
it promises:

- `Common`: the error kinds, `Grid`, `Frame` and the default constants.
- `Text`: the decimal printing, zero padding, `u32` parsing and string
  splitting that the duration and argument code relies on.
- `Duration`: `parse_duration`, `pretty_duration` and `pretty_to_seconds`,
  with their round trip.
- `Timestamps`: `total_delay_seconds` and `timestamp_generator`.
- `Sorting`: the stable `sort_by` on frames by a key.
- `Selection`: the time bucketing of `select_sharpest_images` and the greedy
  `select_colour_variety`.
- `Media`: stream lookup, `compute_display_resolution`, `parse_attributes`
  (the `MediaInfo` class), `desired_size`, `avg9x`, `MediaCapture::new` and
  the argument list of `make_capture`.
- `Layout`: `grid_desired_size`, the canvas, header and frame placement of
  `compose_contact_sheet`, `compute_timestamp_position`, `decode_hex` and
  `putalpha`.
- `Process`: the validation and normalisation in `process_file`, with the
  file-system answers and the probe's result passed in as inputs.

Seconds and scores are `real`. Sizes and counts are `nat`. A Rust panic that
depends only on a function's arguments becomes a `requires`. Inside
`process_file`, a panic that depends on state computed along the way becomes
the `Panic` error, so that the function stays total.

The model follows the code in these places:

- `avg9x` with an odd count halves the last value of the slice. It does not
  take the middle value.
- Plain-grid reconciliation ends with samples ≥ groups ≥ selected. It does
  not end with samples ≥ selected ≥ groups.
- `MetadataPosition` has a `Hidden` case, because `compose_contact_sheet`
  matches on one (src/operations.rs:438, 597). The enum at
  src/models.rs:740-743 belongs to an older revision.
- `select_colour_variety` is called with `num_groups`, as at
  src/operations.rs:147, and not with `num_selected`.
- The capture interval is whole seconds, as `as_secs` in src/lib.rs:144
  reads it. The `total_seconds` stub returning 1.0 at src/models.rs:722-726
  is not followed.
- `num_groups` is an `Option`, as src/lib.rs and src/operations.rs use it.

## Model

| member | source | states |
|---|---|---|
| Text.NatToStringValue | src/models.rs:209-215 | a number printed in decimal reads back as itself |
| Text.PadParse | src/models.rs:211-215 | a number zero-padded to a width parses back to the number |
| Text.PadLeft | src/models.rs:211-215 | padding reaches the width, keeps the text as a suffix, and puts only zeros in front |
| Text.ParseDecimal | src/models.rs:246-255 | a field made of unsigned decimal digits parses to its value, and any other field is refused |
| Text.JoinSplit | src/models.rs:234-243 | splitting on a separator and joining the pieces back gives the original string |
| Text.SplitAtSeparator | src/models.rs:234-243 | a separator splits off exactly the piece in front of it |
| Duration.ParseDuration | src/models.rs:259-277 | minutes and seconds are below 60 and milliseconds below 1000 |
| Duration.ParseDurationSum | src/models.rs:259-277 | the clock fields add up to the input truncated to milliseconds, and the centiseconds are the milliseconds over ten |
| Duration.TruncateToMillisBelow | src/models.rs:269-270 | truncation to milliseconds loses less than a millisecond and never rounds up |
| Duration.PrettyDurationFieldWidths | src/models.rs:198-230 | minutes and seconds take two digits, the fraction three, two or none by the flags, and hours appear exactly when at least one |
| Duration.PrettyToSeconds | src/models.rs:232-257 | a duration read from unsigned digit fields is never negative; other spellings are refused |
| Duration.ReadFormatted | src/models.rs:232-257 | a formatted time parses back to its hours, minutes, seconds and fraction |
| Duration.RoundTripMillis | src/models.rs:198-257 | the millisecond form of a non-negative time reads back as the time truncated to milliseconds |
| Duration.CentisFormDoesNotRoundTrip | src/models.rs:219-237 | the two-digit centisecond form reads back as milliseconds: 1.5 s reads back as 1.05 s |
| Duration.NegativeInputWraps | src/models.rs:198-230 | a negative time between -1 h and 0 prints as the time one hour later |
| Timestamps.TotalDelay | src/operations.rs:39-45 | the total of the two floored delays is non-negative and within 2 s below the exact sum of the percentages |
| Timestamps.TimestampGenerator | src/operations.rs:47-66 | exactly `numSamples` stamps, the k-th the start delay plus k+1 intervals printed to milliseconds |
| Timestamps.InstantStep | src/operations.rs:56-63 | each instant is the previous one (the start delay first) plus the capture interval |
| Timestamps.InstantsIncrease | src/operations.rs:56-63 | with a positive interval the instants strictly increase |
| Timestamps.InstantsWithinWindow | src/operations.rs:47-66 | without an interval every instant lies between the start delay and the duration minus the end delay |
| Timestamps.StampsReadBack | src/operations.rs:64 | every non-negative stamp reads back as its instant truncated to milliseconds |
| Sorting.SortByPermutes | src/operations.rs:131 | sorting keeps every frame, as a multiset |
| Sorting.SortBySorted | src/operations.rs:131 | the sorted frames are in non-decreasing key order |
| Sorting.SortByStable | src/operations.rs:131 | frames with equal keys keep their relative order |
| Sorting.SortByEnds | src/operations.rs:153-154 | the first and last sorted frames carry the least and greatest key |
| Selection.TailsCount | src/operations.rs:135-141 | chunking n frames by g gives the least number of chunks that covers them |
| Selection.ChunkTails | src/operations.rs:134-142 | the pushing loop yields the last frame of every chunk of the time-sorted frames |
| Selection.BucketCount | src/operations.rs:133-137 | with at least as many frames as groups, between `numGroups` and `2*numGroups - 1` frames are kept |
| Selection.BucketsInTimeOrder | src/operations.rs:130-148 | the kept frames are input frames, in time order, and the last frame is among them |
| Selection.ColourDistance | src/operations.rs:167-173 | the fold is at most its seed and at most every difference, and equals the seed or one of them |
| Selection.ColourSpanZero | src/operations.rs:152-156 | the colour span is never negative, and is zero exactly when all colours are equal |
| Selection.PopByColourDistance | src/operations.rs:158-180 | every popped frame lands in exactly one list; with a positive threshold only the blurriest frame is selected; with all colours equal all are, blurriest first |
| Selection.BackfillLeastBlurry | src/operations.rs:182-186 | the selected frames come first and the result has exactly `numSelected` frames; the added frames are drawn from the unselected ones, and none of them scores higher than an unselected frame left out |
| Selection.LeastBlurryFirst | src/operations.rs:183-185 | the first `m` frames sorted by blurriness are input frames, and none scores higher than a frame not taken |
| Selection.SelectColourVariety | src/operations.rs:151-189 | the method computes the colour-variety choice |
| Selection.ColourVarietyCount | src/operations.rs:182-186 | exactly `numSelected` frames come back |
| Selection.ColourVarietyFromInput | src/operations.rs:151-189 | the result holds only input frames, none repeated beyond its input count |
| Selection.ColourVarietyFirstIsBlurriest | src/operations.rs:162-165 | the first frame is the blurriest of the input |
| Selection.UniformColourSelectsAll | src/operations.rs:167-178 | with all colours equal every frame is selected |
| Selection.VariedColourBackfillsLeastBlurry | src/operations.rs:174-186 | with a positive span the frames after the first rise in blurriness, and any less blurry input frame is among them |
| Selection.SelectSharpestImages | src/operations.rs:130-149 | returns the time-sorted captures and the colour-variety choice of `numGroups` from their buckets |
| Media.FindVideoStream | src/models.rs:104-110 | a video stream is found exactly when one exists, and it comes from the list |
| Media.FindAudioStream | src/models.rs:112-118 | an audio stream is found exactly when one exists, and it comes from the list |
| Media.ScaleWidth | src/models.rs:138-153 | the display width is the floor of width times `sw/sh` |
| Media.SquarePixelsCopySample | src/models.rs:134-136 | a 1:1 aspect ratio copies the (rotated) sample size to the display size |
| Media.RotationSwapsSample | src/models.rs:125-132 | a rotate tag of 90 gives, for any aspect ratio, the display size of the stream with width and height swapped |
| Media.AnamorphicWidth | src/models.rs:137-166 | other aspect ratios scale the width, keep the height, and fall back to the sample width when the scaled width is zero |
| Media.ScaleWidthZero | src/models.rs:158-160 | the scaled width is zero exactly when width times `sw` is below `sh` |
| Media.DisplayPositive | src/models.rs:120-170 | positive sample sizes give positive display sizes |
| Media.MediaInfo.ComputeDisplayResolution | src/models.rs:120-170 | the fields end up as the display resolution of the first video stream |
| Media.MediaInfo.ParseAttributes | src/models.rs:293-322 | codec, aspect, frame-rate and audio fields are read from the first video and audio streams |
| Media.FrameRateOfFraction | src/models.rs:302-306 | "a/b" gives `a / b` in integer division |
| Media.FrameRateOfInteger | src/models.rs:307-309 | a plain number is its own frame rate |
| Media.DesiredSize | src/models.rs:279-290 | the width is the requested one (1500 by default), the height fits in 32 bits, and a zero display width gives the largest `u32` (or 0 for a NaN height) |
| Media.DesiredSizeAspect | src/models.rs:284-289 | with a non-zero display width the height keeps the display aspect, rounded down, while it fits in 32 bits, and saturates beyond |
| Media.Avg9xEvenIsMedian | src/models.rs:470-479 | an even count gives the mean of the two middle values of the slice |
| Media.Avg9xOddIsHalfOfLast | src/models.rs:480-482 | an odd count gives half the last value of the slice |
| Media.Avg9xEvenFixture | src/models.rs:470-483 | 20 falling values at 100 % give 10.5 |
| Media.Avg9xOddFixture | src/models.rs:470-483 | 20 falling values at 75 % give 3.0 |
| Media.NewMediaCapture | src/models.rs:333-353 | accurate seeking is off and the skip delay is the default unless given |
| Media.CaptureArgsShape | src/models.rs:355-397 | for the guarded variant: one seek (two in accurate mode when the time is not before the skip delay), then input, one frame of the requested size, the filter, and the output path last, "out.jpg" by default |
| Media.CaptureArgsAsWrittenShape | src/models.rs:355-397 | for `make_capture` as written: two seeks, the second the skip delay, exactly in accurate mode, otherwise one seek to the requested time; then input, one frame of the requested size, the filter, and the output path last |
| Media.SizeArgReadsBack | src/models.rs:387 | the size argument splits back into the requested width and height |
| Media.CaptureSeekNotPastTarget | src/models.rs:374-383 | with the commented-out guard, the first seek never lies past the requested time |
| Media.CaptureSeekWrapsAsWritten | src/models.rs:374-383 | as written, accurate mode at 0.5 s seeks to 59:59.500 |
| Layout.GridDesiredSize | src/operations.rs:18-37 | the columns of cells and their gaps fit the sheet width with less than one pixel per column to spare |
| Layout.GridDesiredSizeAspect | src/operations.rs:18-37 | cells keep the display aspect at the cell width, rounded down, while the height fits in 32 bits |
| Layout.LineHeight | src/operations.rs:433-434 | the header line height is the floor of 1.2 times the font size, 0 below one pixel, capped at the u32 maximum |
| Layout.PlaceFrames | src/operations.rs:470-586 | frame i is placed at column `i mod columns` and row `i div columns` of the grid below the header |
| Layout.ComposeContactSheet | src/operations.rs:384-600 | the cell size, header height, canvas size, time order of the frames, every frame's origin and where the metadata goes |
| Layout.CellInsideCanvas | src/operations.rs:396-399 | every cell of the grid lies inside the canvas |
| Layout.CellsClearOfHeader | src/operations.rs:454-471 | with the header on top no cell overlaps it |
| Layout.CellsDisjoint | src/operations.rs:575-586 | two different frames get cells that do not overlap |
| Layout.CanvasWidthNearRequested | src/operations.rs:396-397 | the canvas is at most the requested width plus both outer gaps, and less than one pixel per column narrower |
| Layout.BottomMetadataOverhang | src/operations.rs:592-595 | a bottom header starts one gap below the canvas, so it runs past the image |
| Layout.Offset | src/operations.rs:276-313 | a badge sits at the margin, centred within a pixel, or flush with the far margin |
| Layout.TimestampBadge | src/operations.rs:276-313 | the badge is the text plus padding, inside its cell on the near and far sides, for all nine anchors |
| Layout.DecodeHexShape | src/operations.rs:604-619 | decoding succeeds exactly on six or eight hex digits, and six give alpha 255 |
| Layout.DecodeEncode | src/operations.rs:604-619 | an 8-digit hex colour decodes back to the colour |
| Layout.DecodeEncodeRgb | src/operations.rs:612-614 | a 6-digit hex colour decodes back to the colour with alpha 255 |
| Layout.DecodeHexFixtures | src/operations.rs:604-619 | "ff0000" is opaque red and "ff0000aa" red with alpha 170 |
| Layout.WithAlpha | src/operations.rs:621-629 | every pixel keeps its colour and takes the alpha, and the count is unchanged |
| Layout.WithAlphaTwice | src/operations.rs:621-629 | setting the alpha twice equals setting it once to the later value |
| Layout.RgbaImage.PutAlpha | src/operations.rs:621-629 | the buffer in place becomes every pixel with the new alpha |
| Process.JoinPath | src/lib.rs:76-78 | the joined path starts with the directory and ends with the name, with one '/' between them unless the directory is empty or already ends in one |
| Process.OutputPath | src/lib.rs:68-85 | exactly the input path plus "." and the format; in a directory, the directory joined with the file name, plus "." and the format; or the given path |
| Process.IntervalSampleCount | src/lib.rs:141-148 | the count of whole intervals in the selected duration, saturated to the u32 range and 0 when negative |
| Process.CeilSqrt | src/lib.rs:173 | the least side whose square holds `n` |
| Process.KeepBefore | src/lib.rs:150-160 | exactly the stamps before the duration are kept, in order, and it fails when a stamp does not parse |
| Process.KeepBeforeIsFilter | src/lib.rs:150-160 | the kept stamps are a subsequence of the input, and each stamp is kept as many times as it occurs when it reads before the duration and not at all otherwise |
| Process.DeduceGridShape | src/lib.rs:172-193 | a default or empty grid becomes the least square holding the samples; a fixed side is kept and the other is the whole rows or columns filled |
| Process.DeduceGridAgrees | src/lib.rs:172-193 | the corrected deduction differs from the code exactly on a grid with fixed columns and no rows |
| Process.FixedColumnsLostAsWritten | src/lib.rs:186-191 | as written, fixed columns with zero rows lose their columns: (3, 0) for 9 samples becomes (0, 3), which no sheet width lets `grid_desired_size` divide by, while the corrected grid is as divisible as the one asked for |
| Process.Reconcile | src/lib.rs:195-220 | the selection is kept, samples ≥ groups ≥ selected, and an already ordered request is left as it is |
| Process.ActualSizeCells | src/lib.rs:229-233 | with the actual-size width every cell is exactly the display width |
| Process.Sampled | src/lib.rs:132-170 | groups stay set, and fixed sample counts are set when sampling succeeds |
| Process.ProcessOutcome | src/lib.rs:59-233 | a sheet is made only for an existing file with probe results and no conflicting options, to the derived output path |
| Process.CapturedCounts | src/lib.rs:172-222 | when the sheet is made, the selection is the grid's cells; in plain-grid mode samples ≥ groups ≥ selected on a grid with no empty side; in fixed mode the grid is deduced and holds every sample when square |
| Process.CapturedIntervalSamples | src/lib.rs:109-148 | in interval mode samples and groups are the whole intervals after the delays |
| Process.CapturedManualSamples | src/lib.rs:150-170 | with manual timestamps the kept stamps are those before the end, and there is one sample and group per stamp |
| Process.SamplingErrors | src/lib.rs:132-165 | a zero grid without fixed samples, and manual stamps all past the end, are errors |
| Process.ActualSizeSheet | src/lib.rs:229-233 | with actual-size cells, when the sheet is made, every cell is as wide as the displayed video |
| Process.ProcessFile | src/lib.rs:49-233 | the method's result, arguments and capture decision are those of `ProcessOutcome` |
| Process.PrepareSampling | src/lib.rs:109-114 | one delay percentage, when given, replaces both the start and the end delay, and the group count starts at 5, on its copy of the sampling options |
| Process.MarginSheet | src/lib.rs:127-130 | a non-default metadata margin replaces both the horizontal and the vertical margin, on its copy of the sheet options |
| Process.SampleArgs | src/lib.rs:132-170 | the sampling stage, step by step on its copy, ends in the state and error of `Sampled`, whose counts `CapturedIntervalSamples`, `CapturedManualSamples` and `SamplingErrors` describe |
| Process.ShapeArgs | src/lib.rs:172-222 | the grid and count stage, step by step on its copy, ends in the state of `Shaped`, whose counts `CapturedCounts` and `DeduceGridShape` describe |
| Process.SizeArgs | src/lib.rs:224-233 | the spacing and actual-size stage, step by step on its copy, ends in the state and error of `Sized`, whose cell width `ActualSizeCells` describes |

## Findings

| source | as written | input that shows it | evidently intended | confidence | as-written member | corrected member |
|---|---|---|---|---|---|---|
| src/lib.rs:186-191 | with rows zero and columns fixed, the new grid takes its columns from the old row count (zero) | grid (3, 0) with 9 manual samples gives (0, 3), and `select_sharpest_images` then panics in `grid_desired_size` dividing by `grid.x = 0` (src/operations.rs:34) | keep the columns and fill rows: (3, 3) | high, not executed | Process.FixedColumnsLostAsWritten | Process.DeduceGridShape |
| src/models.rs:374-383 | in accurate mode the seek time minus the skip delay is printed even when negative, and a negative time prints as nearly an hour | a capture at 0.5 s with the default 1 s delay seeks to "59:59.500" | the commented-out guard: fall back to a plain seek when the time is below the delay | medium, not executed | Media.CaptureSeekWrapsAsWritten | Media.CaptureSeekNotPastTarget |

## Left out

- Running ffprobe and ffmpeg, the JSON model of the probe output, and the thread fan-out of captures: the probe results are datatype values, and a capture is its argument list.
- Blurriness and average colour of a capture (FFT and image decoding): frames carry them as given `real` scores.
- Floating point: seconds, percentages and scores are exact `real`, so f32 rounding is not modelled.
- u32 overflow of products in `grid_desired_size`, `compose_contact_sheet`, the actual-size width and the selection count `grid.x * grid.y` (src/lib.rs:195, 222): sizes are unbounded `nat`. Subtractions that would underflow are `requires`.
- Fonts, text measurement and wrapping of the metadata header (`load_font`, `get_text_size`, `max_line_length`, `prepare_metadata_text_lines`, `draw_metadata`): the header's line count and the badge text size are inputs.
- Pixel drawing (shadows, blur, rounded rectangles, image replacement, text): only the coordinates are modelled.
- File-system effects in `process_file`: existence checks and the directory test are boolean inputs; saving, thumbnail copies and temp-file removal are not modelled.
- `grid_from_str`: the `Grid::from_str` it wraps is not part of this model.
- `human_readable_size` and `compute_format`: these are float formatting of probe fields.
- src/main.rs, the command line and argument defaults.
- `decode_hex` works on characters, so it does not model byte slicing of non-ASCII text.
- Text.ParseDecimal: a field is read as unsigned decimal digits. Rust's `f32` parse also takes a sign, a decimal point, an exponent, `inf` and `nan`; fields spelt that way are refused here, so the model panics where the program reads a number.
- Duration.PrettyToSeconds: fields with a sign, a decimal point, an exponent, `inf` or `nan` give `None` here. The program reads them, so "-1:30" is -30 s there; the model's "never negative" holds only because those spellings are refused.
- Process.KeepBefore: a manual timestamp with a signed, fractional, exponent, `inf` or `nan` field is a `Panic` here, where the program reads it and compares it with the duration.
- Media.DesiredSize: the height is the exact floor of height times width over display width; the `f64` rounding of the ratio, which can move the floor by one, is not modelled.
- Process.ProcessOutcome: it deduces a fixed-count grid with the corrected rule (`DeduceGrid`), so a grid with fixed columns and no rows keeps its columns; the code at src/lib.rs:188-191 loses them (`FixedColumnsLostAsWritten`). Every other grid is deduced as the code does (`DeduceGridAgrees`).
- Process.ShapeArgs: it applies the corrected grid deduction; see `Process.ProcessOutcome`.
- Process.CapturedCounts: it describes the counts under the corrected grid deduction; see `Process.ProcessOutcome`.
- Process.ProcessFile: it applies the corrected grid deduction; see `Process.ProcessOutcome`. It stops before the capture. It returns whether the sheet would be made, not the image. It does not construct `MediaCapture::new`, which is `Media.NewMediaCapture`.
- Process.ProcessOutcome: a failing probe (`MediaInfo::new`) and a missing video stream are one `MediaError` input.
- Process.Args: the fields are grouped into output, sampling and sheet records. Options that `process_file` never reads are left out.
- Layout.Offset: a centred badge is within one pixel of the middle, because integer halving of an odd difference can shift it by one. With a badge wider than its cell it can overhang the cell by one pixel.
- Selection.SelectSharpestImages: it requires that the buckets can be selected from. The source panics at src/operations.rs:182 when every bucket frame is selected and they outnumber `num_groups`, for example with all colours equal.
