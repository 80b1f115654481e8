/** The media-information model: stream records as the probe reports them,
    the display-resolution and attribute computations that `MediaInfo`
    performs on itself, the cell-size helper, the blur statistic `avg9x`,
    and the argument list `MediaCapture` hands to the frame extractor. */
module Media {
  import opened Common
  import opened Text
  import opened Duration

  /** Raw sample dimensions and display-corrected dimensions. */
  datatype Dimensions = Dimensions(sampleWidth: Option<nat>, sampleHeight: Option<nat>,
                                   displayWidth: Option<nat>, displayHeight: Option<nat>)

  /** The fields of a probed video stream the model reads. */
  datatype VideoStream = VideoStream(
    width: Option<nat>, height: Option<nat>, rotate: Option<nat>,
    sampleAspectRatio: string, avgFrameRate: Option<string>,
    codecName: Option<string>, codecLongName: Option<string>, displayAspectRatio: Option<string>)

  /** The fields of a probed audio stream the model reads. */
  datatype AudioStream = AudioStream(
    codecName: string, codecLongName: Option<string>, sampleRate: Option<string>, bitRate: Option<string>)

  datatype Stream = Video(video: VideoStream) | Audio(audio: AudioStream)

  /** `find_video_stream`: the first video stream. */
  function FindVideoStream(streams: seq<Stream>): (r: Option<VideoStream>)
    ensures r.Some? <==> exists i | 0 <= i < |streams| :: streams[i].Video?
    ensures r.Some? ==> Video(r.value) in streams
  {
    if streams == [] then None
    else if streams[0].Video? then Some(streams[0].video)
    else
      var r := FindVideoStream(streams[1..]);
      assert forall i | 1 <= i < |streams| :: streams[i] == streams[1..][i - 1];
      r
  }

  /** `find_audio_stream`: the first audio stream. */
  function FindAudioStream(streams: seq<Stream>): (r: Option<AudioStream>)
    ensures r.Some? <==> exists i | 0 <= i < |streams| :: streams[i].Audio?
    ensures r.Some? ==> Audio(r.value) in streams
  {
    if streams == [] then None
    else if streams[0].Audio? then Some(streams[0].audio)
    else
      var r := FindAudioStream(streams[1..]);
      assert forall i | 1 <= i < |streams| :: streams[i] == streams[1..][i - 1];
      r
  }

  /** The sample width and height after the rotation tag: a tag of 90 swaps them. */
  function RotatedSample(v: VideoStream): (Option<nat>, Option<nat>) {
    if v.rotate == Some(90) then (v.height, v.width) else (v.width, v.height)
  }

  /** The sample aspect ratio `sw:sh`: the first two ':'-separated fields
      parsed as `u32`; further fields are ignored. `None` where the program
      panics. */
  function SampleAspect(sar: string): Option<(nat, nat)> {
    var fields := Split(sar, ':');
    if |fields| < 2 then None
    else
      var sw := ParseU32(fields[0]);
      var sh := ParseU32(fields[1]);
      if sw.None? || sh.None? then None else Some((sw.value, sh.value))
  }

  /** What `compute_display_resolution` needs not to panic: a sample aspect
      ratio of "1:1", or one that parses with a non-zero height, a sample
      width, and a corrected width that fits in 32 bits. */
  predicate CanComputeDisplay(v: VideoStream) {
    v.sampleAspectRatio == "1:1" ||
    (var sar := SampleAspect(v.sampleAspectRatio);
     && sar.Some? && sar.value.1 > 0
     && RotatedSample(v).0.Some?
     && RotatedSample(v).0.value * sar.value.0 <= U32_MAX)
  }

  /** A sample width scaled by the sample aspect ratio `sw:sh`, rounded down. */
  function ScaleWidth(width: nat, sw: nat, sh: nat): (r: nat)
    requires sh > 0
    ensures r * sh <= width * sw < (r + 1) * sh
  {
    var p: nat := width * sw;
    p / sh
  }

  /** The dimensions `compute_display_resolution` stores. */
  function DisplayResolution(v: VideoStream): Dimensions
    requires CanComputeDisplay(v)
  {
    var (sw, sh) := RotatedSample(v);
    var (dw, dh) :=
      if v.sampleAspectRatio == "1:1" then (sw, sh)
      else
        var sar := SampleAspect(v.sampleAspectRatio).value;
        (Some(ScaleWidth(sw.value, sar.0, sar.1)), sh);
    var dw' := if dw == Some(0) then sw else dw;
    var dh' := if dh == Some(0) then sh else dh;
    Dimensions(sw, sh, dw', dh')
  }

  /** Square pixels: the display dimensions are the (rotated) sample dimensions,
      except that a zero sample dimension stays zero. */
  lemma SquarePixelsCopySample(v: VideoStream)
    requires v.sampleAspectRatio == "1:1"
    ensures var d := DisplayResolution(v);
      d.displayWidth == d.sampleWidth && d.displayHeight == d.sampleHeight
      && (d.sampleWidth, d.sampleHeight) == RotatedSample(v)
  {
  }

  /** A rotation tag of 90 gives the dimensions of the unrotated stream with
      the sample width and height exchanged. */
  lemma RotationSwapsSample(v: VideoStream)
    requires v.rotate == Some(90) && CanComputeDisplay(v)
    ensures var d := DisplayResolution(v);
      var u := DisplayResolution(v.(rotate := None, width := v.height, height := v.width));
      d == u
  {
  }

  /** With a non-square sample aspect ratio `sw:sh` the display width is
      the sample width scaled by `sw/sh`, rounded down; the height is kept.
      A scaled width of zero falls back to the sample width. */
  lemma AnamorphicWidth(v: VideoStream)
    requires CanComputeDisplay(v) && v.sampleAspectRatio != "1:1"
    ensures var d := DisplayResolution(v);
      var sar := SampleAspect(v.sampleAspectRatio).value;
      var w := d.sampleWidth.value;
      && d.displayHeight == d.sampleHeight
      && (w * sar.0 >= sar.1 ==>
            d.displayWidth.value * sar.1 <= w * sar.0 < (d.displayWidth.value + 1) * sar.1)
      && (w * sar.0 < sar.1 ==> d.displayWidth == d.sampleWidth)
  {
    var sar := SampleAspect(v.sampleAspectRatio).value;
    var w := RotatedSample(v).0.value;
    ScaleWidthZero(w, sar.0, sar.1);
  }

  lemma ScaleWidthZero(width: nat, sw: nat, sh: nat)
    requires sh > 0
    ensures ScaleWidth(width, sw, sh) == 0 <==> width * sw < sh
  {
    var r := ScaleWidth(width, sw, sh);
    if r >= 1 {
      assert r * sh >= sh;
    }
  }

  /** The display dimensions are positive whenever the sample dimensions
      are: the zero fallback never leaves a zero display dimension behind. */
  lemma DisplayPositive(v: VideoStream)
    requires CanComputeDisplay(v)
    requires RotatedSample(v).0.Some? && RotatedSample(v).0.value > 0
    requires RotatedSample(v).1.Some? && RotatedSample(v).1.value > 0
    ensures var d := DisplayResolution(v);
      d.displayWidth.Some? && d.displayWidth.value > 0
      && d.displayHeight.Some? && d.displayHeight.value > 0
  {
  }

  /** The frame rate of `avg_frame_rate`: "a/b" is `a / b` in integer
      division, anything else is parsed whole. `None` where the program
      panics: a field that is not a `u32`, or `b = 0`. */
  function FrameRate(s: string): Option<nat> {
    var splits := Split(s, '/');
    if |splits| == 2 then Quotient(ParseU32(splits[0]), ParseU32(splits[1]))
    else ParseU32(s)
  }

  /** The integer quotient of two parsed fields; `None` when either is
      missing or the divisor is zero. */
  function Quotient(a: Option<nat>, b: Option<nat>): Option<nat> {
    if a.None? || b.None? || b.value == 0 then None else Some(a.value / b.value)
  }

  lemma ParseU32Printed(n: nat)
    requires n <= U32_MAX
    ensures ParseU32(NatToString(n)) == Some(n)
  {
    NatToStringValue(n);
  }

  /** A rate printed as "a/b" reads back as the integer quotient. */
  lemma FrameRateOfFraction(a: nat, b: nat)
    requires a <= U32_MAX && 0 < b <= U32_MAX
    ensures FrameRate(NatToString(a) + "/" + NatToString(b)) == Some(a / b)
  {
    var sa, sb := NatToString(a), NatToString(b);
    DigitsHaveNoSeparator(sa, '/');
    DigitsHaveNoSeparator(sb, '/');
    assert sa + "/" + sb == sa + ['/'] + sb;
    SplitAtSeparator(sa, sb, '/');
    SplitNoSeparator(sb, '/');
    ParseU32Printed(a);
    ParseU32Printed(b);
  }

  /** A rate printed as a plain number reads back as itself. */
  lemma FrameRateOfInteger(n: nat)
    requires n <= U32_MAX
    ensures FrameRate(NatToString(n)) == Some(n)
  {
    DigitsHaveNoSeparator(NatToString(n), '/');
    SplitNoSeparator(NatToString(n), '/');
    ParseU32Printed(n);
  }

  /** What `parse_attributes` needs not to panic: a video stream whose frame
      rate, if present, parses; and, when there is an audio stream, a sample
      rate and a bit rate that parse. */
  predicate CanParseAttributes(streams: seq<Stream>) {
    && FindVideoStream(streams).Some?
    && (var v := FindVideoStream(streams).value;
        v.avgFrameRate.Some? ==> FrameRate(v.avgFrameRate.value).Some?)
    && (var a := FindAudioStream(streams);
        a.Some? ==> && a.value.sampleRate.Some? && ParseU32(a.value.sampleRate.value).Some?
                    && a.value.bitRate.Some? && ParseU32(a.value.bitRate.value).Some?)
  }

  /** The probe result of one input, and the attributes derived from it in place. */
  class MediaInfo {
    const streams: seq<Stream>
    var sampleWidth: Option<nat>
    var sampleHeight: Option<nat>
    var displayWidth: Option<nat>
    var displayHeight: Option<nat>
    var frameRate: nat
    var videoCodec: Option<string>
    var videoCodecLong: Option<string>
    var sampleAspectRatio: Option<string>
    var displayAspectRatio: Option<string>
    var audioCodec: Option<string>
    var audioCodecLong: Option<string>
    var audioSampleRate: Option<nat>
    var audioBitRate: Option<nat>

    constructor (streams: seq<Stream>)
      ensures this.streams == streams
      ensures sampleWidth == sampleHeight == displayWidth == displayHeight == None
      ensures frameRate == 0
      ensures videoCodec == videoCodecLong == sampleAspectRatio == displayAspectRatio == None
      ensures audioCodec == audioCodecLong == None && audioSampleRate == audioBitRate == None
    {
      this.streams := streams;
      sampleWidth, sampleHeight, displayWidth, displayHeight := None, None, None, None;
      frameRate := 0;
      videoCodec, videoCodecLong, sampleAspectRatio, displayAspectRatio := None, None, None, None;
      audioCodec, audioCodecLong, audioSampleRate, audioBitRate := None, None, None, None;
    }

    function Dims(): Dimensions
      reads this
    {
      Dimensions(sampleWidth, sampleHeight, displayWidth, displayHeight)
    }

    /** `compute_display_resolution`: stores the rotated sample dimensions
        and the display dimensions corrected by the sample aspect ratio. */
    method ComputeDisplayResolution()
      requires FindVideoStream(streams).Some? && CanComputeDisplay(FindVideoStream(streams).value)
      modifies this`sampleWidth, this`sampleHeight, this`displayWidth, this`displayHeight
      ensures Dims() == DisplayResolution(FindVideoStream(streams).value)
    {
      var video := FindVideoStream(streams).value;
      sampleWidth := video.width;
      sampleHeight := video.height;
      if video.rotate.Some? {
        if video.rotate.value == 90 {
          sampleWidth, sampleHeight := sampleHeight, sampleWidth;
        }
      }
      var sar := video.sampleAspectRatio;
      if sar == "1:1" {
        displayWidth := sampleWidth;
        displayHeight := sampleHeight;
      } else {
        var fields := Split(sar, ':');
        var sw := ParseU32(fields[0]).value;
        var sh := ParseU32(fields[1]).value;
        var newSampleWidth := ScaleWidth(sampleWidth.value, sw, sh);
        displayWidth := Some(newSampleWidth);
        displayHeight := sampleHeight;
      }
      if displayWidth.Some? {
        if displayWidth.value == 0 {
          displayWidth := sampleWidth;
        }
      }
      if displayHeight.Some? {
        if displayHeight.value == 0 {
          displayHeight := sampleHeight;
        }
      }
    }

    /** `parse_attributes`: copies the codec names and aspect ratios of the
        video stream, parses its frame rate, and copies the audio stream's
        codec and rates when there is one. */
    method ParseAttributes()
      requires CanParseAttributes(streams)
      modifies this`videoCodec, this`videoCodecLong, this`sampleAspectRatio, this`displayAspectRatio,
               this`frameRate, this`audioCodec, this`audioCodecLong, this`audioSampleRate, this`audioBitRate
      ensures var v := FindVideoStream(streams).value;
        && videoCodec == v.codecName && videoCodecLong == v.codecLongName
        && sampleAspectRatio == Some(v.sampleAspectRatio) && displayAspectRatio == v.displayAspectRatio
        && frameRate == (if v.avgFrameRate.Some? then FrameRate(v.avgFrameRate.value).value else old(frameRate))
      ensures var a := FindAudioStream(streams);
        if a.Some? then
          && audioCodec == Some(a.value.codecName) && audioCodecLong == a.value.codecLongName
          && audioSampleRate == ParseU32(a.value.sampleRate.value)
          && audioBitRate == ParseU32(a.value.bitRate.value)
        else
          && audioCodec == old(audioCodec) && audioCodecLong == old(audioCodecLong)
          && audioSampleRate == old(audioSampleRate) && audioBitRate == old(audioBitRate)
    {
      var video := FindVideoStream(streams).value;
      videoCodec := video.codecName;
      videoCodecLong := video.codecLongName;
      sampleAspectRatio := Some(video.sampleAspectRatio);
      displayAspectRatio := video.displayAspectRatio;
      if video.avgFrameRate.Some? {
        var rate := FrameRate(video.avgFrameRate.value).value;
        frameRate := rate;
      }
      var audio := FindAudioStream(streams);
      if audio.Some? {
        audioCodec := Some(audio.value.codecName);
        audioCodecLong := audio.value.codecLongName;
        audioSampleRate := Some(ParseU32(audio.value.sampleRate.value).value);
        audioBitRate := Some(ParseU32(audio.value.bitRate.value).value);
      }
    }
  }

  /** Whether the display aspect gives a cell of width `x` a height that
      `as u32` keeps: a non-zero display width and a height within 32 bits. */
  predicate AspectFits(dims: Dimensions, x: nat)
    requires dims.displayWidth.Some? && dims.displayHeight.Some?
  {
    dims.displayWidth.value > 0 && dims.displayHeight.value * x < (U32_MAX + 1) * dims.displayWidth.value
  }

  /** `desired_size`: a cell of the requested width (1500 when none) whose
      height keeps the display aspect ratio, rounded down, with the
      saturating `as u32` of the `f64` height: a height past 32 bits, or
      the infinite ratio of a zero display width, gives the largest `u32`,
      and the NaN of `0 * inf` or `0 / 0` gives 0. */
  function DesiredSize(dims: Dimensions, width: Option<nat>): (r: Grid)
    requires dims.displayWidth.Some? && dims.displayHeight.Some?
    ensures r.x == (if width.Some? then width.value else DEFAULT_CONTACT_SHEET_WIDTH)
    ensures r.y <= U32_MAX
    ensures dims.displayWidth.value == 0 ==>
      r.y == if dims.displayHeight.value > 0 && r.x > 0 then U32_MAX else 0
  {
    var newWidth := if width.Some? then width.value else DEFAULT_CONTACT_SHEET_WIDTH;
    var dw, dh := dims.displayWidth.value, dims.displayHeight.value;
    if dw == 0 then Grid(newWidth, if dh > 0 && newWidth > 0 then U32_MAX else 0)
    else
      var h := dh * newWidth / dw;
      Grid(newWidth, if h > U32_MAX then U32_MAX else h)
  }

  /** With a non-zero display width the height keeps the display aspect,
      rounded down, while it fits in 32 bits, and is the largest `u32`
      beyond. */
  lemma DesiredSizeAspect(dims: Dimensions, width: Option<nat>)
    requires dims.displayWidth.Some? && dims.displayHeight.Some?
    ensures var r := DesiredSize(dims, width);
      && (AspectFits(dims, r.x) ==>
            r.y * dims.displayWidth.value <= dims.displayHeight.value * r.x < (r.y + 1) * dims.displayWidth.value)
      && (dims.displayWidth.value > 0 && !AspectFits(dims, r.x) ==> r.y == U32_MAX)
  {
    var r := DesiredSize(dims, width);
    var dw, dh := dims.displayWidth.value, dims.displayHeight.value;
    if dw > 0 {
      var a := dh * r.x;
      var h := a / dw;
      QuotientBounds(a, dw, h);
      if AspectFits(dims, r.x) {
        assert a < (U32_MAX + 1) * dw;
        QuotientBelow(a, dw, h, U32_MAX + 1);
      } else {
        assert a >= (U32_MAX + 1) * dw;
        QuotientAbove(a, dw, h, U32_MAX + 1);
      }
    }
  }

  lemma QuotientBounds(a: nat, d: nat, q: nat)
    requires d > 0 && q == a / d
    ensures q * d <= a < (q + 1) * d
  {
  }

  lemma QuotientBelow(a: nat, d: nat, q: nat, m: nat)
    requires d > 0 && q * d <= a < m * d
    ensures q < m
  {
  }

  lemma QuotientAbove(a: nat, d: nat, q: nat, m: nat)
    requires d > 0 && m * d <= a < (q + 1) * d
    ensures q >= m
  {
  }

  /** The length of the slice `avg9x` looks at: `floor(p * len)`, cast to
      an unsigned size (a negative product gives 0). */
  function Avg9xLength(len: nat, percentage: Option<real>): nat {
    var p := if percentage.Some? then percentage.value else 0.05;
    var l := (p * len as real).Floor;
    if l < 0 then 0 else l
  }

  /** `avg9x`: over the first `floor(p * len)` values (p defaults to 0.05),
      the mean of the two middle values for an even count, half the last
      value for an odd count. The program panics for a count of 0 or one
      beyond the input. */
  function Avg9x(matrix: seq<real>, percentage: Option<real>): real
    requires 1 <= Avg9xLength(|matrix|, percentage) <= |matrix|
  {
    var length := Avg9xLength(|matrix|, percentage);
    var subset := matrix[..length];
    if length % 2 == 0 then (subset[length / 2 - 1] + subset[length / 2]) / 2.0
    else subset[length - 1] / 2.0
  }

  predicate NonIncreasing(s: seq<real>) {
    forall i, j | 0 <= i < j < |s| :: s[i] >= s[j]
  }

  /** For an even count over a descending input, `avg9x` is a median of the
      slice: at least half of the slice is at least the result, and at
      least half is at most the result. */
  lemma Avg9xEvenIsMedian(matrix: seq<real>, percentage: Option<real>)
    requires 1 <= Avg9xLength(|matrix|, percentage) <= |matrix|
    requires Avg9xLength(|matrix|, percentage) % 2 == 0 && NonIncreasing(matrix)
    ensures var n := Avg9xLength(|matrix|, percentage);
      var r := Avg9x(matrix, percentage);
      && (forall i | 0 <= i < n / 2 :: matrix[i] >= r)
      && (forall i | n / 2 <= i < n :: matrix[i] <= r)
  {
  }

  /** For an odd count over a descending non-negative input, `avg9x` is not
      a middle value: it is at most half of every value in the slice. */
  lemma Avg9xOddIsHalfOfLast(matrix: seq<real>, percentage: Option<real>)
    requires 1 <= Avg9xLength(|matrix|, percentage) <= |matrix|
    requires Avg9xLength(|matrix|, percentage) % 2 == 1 && NonIncreasing(matrix)
    requires forall i | 0 <= i < |matrix| :: matrix[i] >= 0.0
    ensures var n := Avg9xLength(|matrix|, percentage);
      forall i | 0 <= i < n :: 2.0 * Avg9x(matrix, percentage) <= matrix[i]
  {
  }

  /** The descending list 20, 19, ..., 1. */
  function Countdown(n: nat): (s: seq<real>)
    ensures |s| == n && forall i | 0 <= i < n :: s[i] == (n - i) as real
  {
    seq(n, i => (n - i) as real)
  }

  /** Over 20, 19, ..., 1 with p = 1.0 the count is 20 (even): the mean of
      the values at indexes 9 and 10, 11 and 10. */
  lemma Avg9xEvenFixture()
    ensures Avg9x(Countdown(20), Some(1.0)) == 10.5
  {
    assert Avg9xLength(20, Some(1.0)) == 20;
  }

  /** Over 20, 19, ..., 1 with p = 0.75 the count is 15 (odd): half of the
      last value of the slice, 6. */
  lemma Avg9xOddFixture()
    ensures Avg9x(Countdown(20), Some(0.75)) == 3.0
  {
    assert Avg9xLength(20, Some(0.75)) == 15;
  }

  /** The capture settings of one input file. */
  datatype MediaCapture = MediaCapture(path: string, accurate: bool, skipDelaySeconds: real, frameType: Option<string>)

  /** `MediaCapture::new`: accurate seeking off and a one-second skip delay
      unless given. */
  function NewMediaCapture(path: string, accurate: Option<bool>, skipDelaySeconds: Option<real>,
                           frameType: Option<string>): (c: MediaCapture)
    ensures c.path == path && c.frameType == frameType
    ensures c.accurate <==> accurate == Some(true)
    ensures c.skipDelaySeconds == if skipDelaySeconds.Some? then skipDelaySeconds.value else DEFAULT_ACCURATE_DELAY_SECONDS
  {
    MediaCapture(path,
                 if accurate.Some? then accurate.value else false,
                 if skipDelaySeconds.Some? then skipDelaySeconds.value else DEFAULT_ACCURATE_DELAY_SECONDS,
                 frameType)
  }

  /** The frame-type filter: key frames, or frames of one coded type. */
  function SelectArgs(frameType: Option<string>): seq<string> {
    match frameType
    case None => []
    case Some(t) => if t == "key" then ["-vf", "select=key"] else ["-vf", "'select=eq(frame_type\\," + t + ")'"]
  }

  /** Everything after the seek arguments: input, one frame, size, filter, output. */
  function TailArgs(c: MediaCapture, width: nat, height: nat, outPath: Option<string>): seq<string> {
    ["-i", c.path]
    + ["-vframes", "1", "-s", NatToString(width) + "x" + NatToString(height)]
    + SelectArgs(c.frameType)
    + ["-y", if outPath.Some? then outPath.value else "out.jpg"]
  }

  /** The seek arguments of `make_capture` as written: a plain seek to the
      requested time, or in accurate mode a seek to the requested time
      minus the skip delay, printed even when negative, followed by a seek
      of the skip delay. */
  function SeekArgsAsWritten(accurate: bool, time: string, skipTime: string, skipDelay: string): seq<string> {
    if !accurate then ["-ss", time] else ["-ss", skipTime, "-ss", skipDelay]
  }

  /** The seek arguments with the guard the source leaves commented out: a
      requested time earlier than the skip delay falls back to a plain seek. */
  function SeekArgs(accurate: bool, time: string, skipTimeSeconds: real, skipTime: string,
                    skipDelay: string): seq<string> {
    if !accurate || skipTimeSeconds < 0.0 then ["-ss", time] else ["-ss", skipTime, "-ss", skipDelay]
  }

  /** The whole argument list once the two times are printed. */
  function CaptureArgs(c: MediaCapture, time: string, skipTimeSeconds: real, skipTime: string,
                       skipDelay: string, width: nat, height: nat, outPath: Option<string>): seq<string> {
    SeekArgs(c.accurate, time, skipTimeSeconds, skipTime, skipDelay) + TailArgs(c, width, height, outPath)
  }

  /** `make_capture` as written. */
  function MakeCaptureArgsAsWritten(c: MediaCapture, time: string, width: nat, height: nat,
                                    outPath: Option<string>): seq<string>
    requires PrettyToSeconds(time).Some?
  {
    SeekArgsAsWritten(c.accurate, time, SkipTime(c, time), SkipDelay(c)) + TailArgs(c, width, height, outPath)
  }

  /** The skip delay printed to milliseconds. */
  function SkipDelay(c: MediaCapture): string {
    PrettyDuration(c.skipDelaySeconds, false, true)
  }

  /** The requested time minus the skip delay, printed to milliseconds. */
  function SkipTime(c: MediaCapture, time: string): string
    requires PrettyToSeconds(time).Some?
  {
    PrettyDuration(PrettyToSeconds(time).value - c.skipDelaySeconds, false, true)
  }

  /** `make_capture` with the negative-seek guard: the requested time read
      back, the time `skipDelaySeconds` earlier and the skip delay printed
      to milliseconds. */
  function MakeCaptureArgs(c: MediaCapture, time: string, width: nat, height: nat,
                           outPath: Option<string>): seq<string>
    requires PrettyToSeconds(time).Some?
  {
    var skipTimeSeconds := PrettyToSeconds(time).value - c.skipDelaySeconds;
    CaptureArgs(c, time, skipTimeSeconds, SkipTime(c, time), SkipDelay(c), width, height, outPath)
  }

  /** The argument list has the shape the extractor expects: one seek (or
      two in accurate mode when the requested time is not before the skip
      delay), the input path, one frame of `width`x`height`, the optional
      filter, and the output path last ("out.jpg" when none is given). */
  lemma CaptureArgsShape(c: MediaCapture, time: string, skipTimeSeconds: real, skipTime: string,
                         skipDelay: string, width: nat, height: nat, outPath: Option<string>)
    ensures var args := CaptureArgs(c, time, skipTimeSeconds, skipTime, skipDelay, width, height, outPath);
      var k := if c.accurate && skipTimeSeconds >= 0.0 then 4 else 2;
      && |args| == k + 8 + |SelectArgs(c.frameType)|
      && args[0] == "-ss" && (k == 4 ==> args[2] == "-ss" && args[3] == skipDelay)
      && args[k..k + 6] == ["-i", c.path, "-vframes", "1", "-s", NatToString(width) + "x" + NatToString(height)]
      && args[|args| - 2..] == ["-y", if outPath.Some? then outPath.value else "out.jpg"]
  {
    var seek := SeekArgs(c.accurate, time, skipTimeSeconds, skipTime, skipDelay);
    var tail := TailArgs(c, width, height, outPath);
    TailShape(c, width, height, outPath);
    ConcatShape(seek, tail, 6);
  }

  /** `make_capture` as written has the same shape, with two seeks in
      accurate mode whatever the requested time: the second is the skip
      delay printed to milliseconds. */
  lemma CaptureArgsAsWrittenShape(c: MediaCapture, time: string, width: nat, height: nat, outPath: Option<string>)
    requires PrettyToSeconds(time).Some?
    ensures var args := MakeCaptureArgsAsWritten(c, time, width, height, outPath);
      var k := if c.accurate then 4 else 2;
      && |args| == k + 8 + |SelectArgs(c.frameType)|
      && args[0] == "-ss" && (k == 2 ==> args[1] == time)
      && (k == 4 ==> args[2] == "-ss" && args[3] == SkipDelay(c))
      && args[k..k + 6] == ["-i", c.path, "-vframes", "1", "-s", NatToString(width) + "x" + NatToString(height)]
      && args[|args| - 2..] == ["-y", if outPath.Some? then outPath.value else "out.jpg"]
  {
    SeekTailShape(c, time, SkipTime(c, time), SkipDelay(c), width, height, outPath);
  }

  lemma SeekTailShape(c: MediaCapture, time: string, skipTime: string, skipDelay: string,
                      width: nat, height: nat, outPath: Option<string>)
    ensures var args := SeekArgsAsWritten(c.accurate, time, skipTime, skipDelay) + TailArgs(c, width, height, outPath);
      var k := if c.accurate then 4 else 2;
      && |args| == k + 8 + |SelectArgs(c.frameType)|
      && args[0] == "-ss" && (k == 2 ==> args[1] == time)
      && (k == 4 ==> args[2] == "-ss" && args[3] == skipDelay)
      && args[k..k + 6] == ["-i", c.path, "-vframes", "1", "-s", NatToString(width) + "x" + NatToString(height)]
      && args[|args| - 2..] == ["-y", if outPath.Some? then outPath.value else "out.jpg"]
  {
    var seek := SeekArgsAsWritten(c.accurate, time, skipTime, skipDelay);
    var tail := TailArgs(c, width, height, outPath);
    TailShape(c, width, height, outPath);
    ConcatShape(seek, tail, 6);
  }

  lemma TailShape(c: MediaCapture, width: nat, height: nat, outPath: Option<string>)
    ensures var tail := TailArgs(c, width, height, outPath);
      && |tail| == 8 + |SelectArgs(c.frameType)|
      && tail[..6] == ["-i", c.path, "-vframes", "1", "-s", NatToString(width) + "x" + NatToString(height)]
      && tail[|tail| - 2..] == ["-y", if outPath.Some? then outPath.value else "out.jpg"]
  {
  }

  lemma ConcatShape<T>(a: seq<T>, b: seq<T>, n: nat)
    requires n + 2 <= |b|
    ensures (a + b)[|a|..|a| + n] == b[..n]
    ensures (a + b)[|a + b| - 2..] == b[|b| - 2..]
  {
  }

  /** The width and height of the size argument read back as the requested size. */
  lemma SizeArgReadsBack(width: nat, height: nat)
    requires width <= U32_MAX && height <= U32_MAX
    ensures var parts := Split(NatToString(width) + "x" + NatToString(height), 'x');
      |parts| == 2 && ParseU32(parts[0]) == Some(width) && ParseU32(parts[1]) == Some(height)
  {
    var sw, sh := NatToString(width), NatToString(height);
    DigitsHaveNoSeparator(sw, 'x');
    DigitsHaveNoSeparator(sh, 'x');
    assert sw + "x" + sh == sw + ['x'] + sh;
    SplitAtSeparator(sw, sh, 'x');
    SplitNoSeparator(sh, 'x');
    ParseU32Printed(width);
    ParseU32Printed(height);
  }

  /** The first seek never lies past the requested time: it reads back as
      the requested time itself, or as the requested time minus the skip
      delay truncated to milliseconds. */
  lemma CaptureSeekNotPastTarget(c: MediaCapture, time: string, t: real, skipTime: string,
                                 skipDelay: string, width: nat, height: nat, outPath: Option<string>)
    requires PrettyToSeconds(time) == Some(t) && c.skipDelaySeconds >= 0.0
    requires skipTime == PrettyDuration(t - c.skipDelaySeconds, false, true)
    ensures var args := CaptureArgs(c, time, t - c.skipDelaySeconds, skipTime, skipDelay, width, height, outPath);
      PrettyToSeconds(args[1]).Some? && PrettyToSeconds(args[1]).value <= t
  {
    var d := t - c.skipDelaySeconds;
    if c.accurate && d >= 0.0 {
      RoundTripMillis(d);
      TruncateToMillisBelow(d);
    }
  }

  /** The program as written seeks past the target when the requested time
      is earlier than the skip delay: at 0.5 s with the default 1 s delay,
      the first seek is "59:59.500", nearly an hour in. */
  lemma CaptureSeekWrapsAsWritten()
    ensures var c := NewMediaCapture("in.mp4", Some(true), None, None);
      var time := PrettyDuration(0.5, false, true);
      PrettyToSeconds(time) == Some(0.5)
      && PrettyToSeconds(MakeCaptureArgsAsWritten(c, time, 320, 240, None)[1]) == Some(3599.5)
  {
    assert (0.5 * 1000.0).Floor == 500;
    RoundTripMillis(0.5);
    assert (-0.5 * 1000.0).Floor == -500;
    NegativeInputWraps(-0.5);
  }
}
