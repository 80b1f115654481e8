/** The layout arithmetic of the contact sheet: the cell size, the canvas
    and header sizes, the row-major walk that places the frames, the
    timestamp badge of a frame, colour strings, and the alpha override of a
    captured image. Drawing, fonts and text measuring are not modelled: the
    number of header lines and the measured size of a timestamp text are
    inputs. */
module Layout {
  import opened Common
  import opened Sorting
  import Media

  // ------------------------------------------------------------ cell size

  /** The sheet width asked for, 1500 when none is. */
  function SheetWidth(width: Option<nat>): nat {
    if width.Some? then width.value else DEFAULT_CONTACT_SHEET_WIDTH
  }

  /** The horizontal spacing asked for, 5 when none is. */
  function Spacing(hMargin: Option<nat>): nat {
    if hMargin.Some? then hMargin.value else DEFAULT_GRID_HORIZONTAL_SPACING
  }

  /** What `grid_desired_size` needs not to panic: a column to divide by,
      and room for the gaps between the columns (a `u32` subtraction). */
  predicate CellWidthDefined(grid: Grid, width: Option<nat>, hMargin: Option<nat>) {
    grid.x >= 1 && (grid.x - 1) * Spacing(hMargin) <= SheetWidth(width)
  }

  /** What `desired_size` unwraps. */
  predicate Displayable(dims: Media.Dimensions) {
    dims.displayWidth.Some? && dims.displayHeight.Some?
  }

  /** `grid_desired_size`: the widest cell such that `grid.x` cells and the
      gaps between them fit in the sheet width, and the height that keeps
      the display aspect ratio at that width (`GridDesiredSizeAspect`). */
  function GridDesiredSize(grid: Grid, dims: Media.Dimensions, width: Option<nat>, hMargin: Option<nat>): (r: Grid)
    requires CellWidthDefined(grid, width, hMargin) && Displayable(dims)
    ensures grid.x * r.x + (grid.x - 1) * Spacing(hMargin) <= SheetWidth(width)
    ensures SheetWidth(width) < grid.x * r.x + grid.x + (grid.x - 1) * Spacing(hMargin)
  {
    var gaps := (grid.x - 1) * Spacing(hMargin);
    var room := SheetWidth(width) - gaps;
    WidestFit(SheetWidth(width), gaps, grid.x);
    Media.DesiredSize(dims, Some(room / grid.x))
  }

  /** `columns` equal parts of what the gaps leave fit with less than one
      unit per column to spare. */
  lemma WidestFit(total: nat, gaps: nat, columns: nat)
    requires columns >= 1 && gaps <= total
    ensures columns * ((total - gaps) / columns) + gaps <= total < columns * ((total - gaps) / columns) + columns + gaps
  {
    DivBounds(total - gaps, columns);
  }

  /** The cell height keeps the display aspect ratio at the cell width,
      rounded down, while it fits in 32 bits. */
  lemma GridDesiredSizeAspect(grid: Grid, dims: Media.Dimensions, width: Option<nat>, hMargin: Option<nat>)
    requires CellWidthDefined(grid, width, hMargin) && Displayable(dims)
    ensures var r := GridDesiredSize(grid, dims, width, hMargin);
      Media.AspectFits(dims, r.x) ==>
        r.y * dims.displayWidth.value <= dims.displayHeight.value * r.x < (r.y + 1) * dims.displayWidth.value
  {
    var room := SheetWidth(width) - (grid.x - 1) * Spacing(hMargin);
    Media.DesiredSizeAspect(dims, Some(room / grid.x));
  }

  // ------------------------------------------------------- canvas and header

  datatype MetadataPosition = Top | Bottom | Hidden

  /** The canvas width: `columns` cells, each after a gap, and a gap after the last. */
  function CanvasWidth(grid: Grid, cell: Grid, hs: nat): nat {
    grid.x * (cell.x + hs) + hs
  }

  /** The height of the frame area: `rows` cells, each after a gap, and a gap after the last. */
  function GridHeight(grid: Grid, cell: Grid, vs: nat): nat {
    grid.y * (cell.y + vs) + vs
  }

  /** `(font_size * 1.2) as u32`: the floor of the product, with Rust's
      saturating float-to-integer cast (a negative product gives 0). */
  function LineHeight(fontSize: real): (r: nat)
    ensures r <= U32_MAX
    ensures 0.0 <= fontSize * 1.2 < (U32_MAX + 1) as real ==> r as real <= fontSize * 1.2 < r as real + 1.0
    ensures fontSize * 1.2 < 1.0 ==> r == 0
  {
    var h := fontSize * 1.2;
    if h < 0.0 then 0
    else if h.Floor > U32_MAX then U32_MAX
    else h.Floor
  }

  /** The header: a margin above and below the metadata lines; nothing
      when the metadata is hidden. */
  function HeaderHeight(position: MetadataPosition, margin: nat, lines: nat, lineHeight: nat): nat {
    if position == Hidden then 0 else 2 * margin + lines * lineHeight
  }

  /** Where the frame area starts: below the header when it is on top. */
  function FramesTop(position: MetadataPosition, headerHeight: nat): nat {
    if position == Top then headerHeight else 0
  }

  // -------------------------------------------------------------- placement

  datatype Point = Point(x: nat, y: nat)

  /** Where frame `i` goes: column `i mod columns`, row `i div columns`,
      every column and row after a gap, the rows starting at `top`. */
  function CellOrigin(i: nat, columns: nat, cell: Grid, hs: nat, vs: nat, top: nat): Point
    requires columns >= 1
  {
    Point(hs + (i % columns) * (cell.x + hs), top + vs + (i / columns) * (cell.y + vs))
  }

  /** Moving on from frame `i` to frame `i + 1`: to the next column, or to
      the first column of the next row after the last column. */
  lemma WalkStep(i: nat, columns: nat, dx: nat, dy: nat)
    requires columns >= 1
    ensures (i + 1) % columns == 0 ==> (i + 1) / columns * dy == i / columns * dy + dy
    ensures (i + 1) % columns != 0 ==>
      (i + 1) / columns == i / columns && (i + 1) % columns * dx == i % columns * dx + dx
  {
    var q, r := i / columns, i % columns;
    assert i == q * columns + r;
    if r + 1 == columns {
      assert i + 1 == (q + 1) * columns;
      DivModOf(i + 1, columns, q + 1, 0);
    } else {
      DivModOf(i + 1, columns, q, r + 1);
    }
  }

  lemma DivModOf(n: nat, c: nat, q: nat, r: nat)
    requires c >= 1 && r < c && n == q * c + r
    ensures n / c == q && n % c == r
  {
    var q', r' := n / c, n % c;
    assert n == q' * c + r';
    if q < q' {
      assert (q + 1) * c == q * c + c;
      MulLe(q + 1, q', c);
    } else if q' < q {
      assert (q' + 1) * c == q' * c + c;
      MulLe(q' + 1, q, c);
    }
  }

  /** The placement loop of `compose_contact_sheet`: `x` moves right by a
      cell and a gap per frame; after every `columns` frames `y` moves down
      a row and `x` goes back to the first column. Returns every frame's
      upper-left corner and the final `y`. */
  method PlaceFrames(n: nat, columns: nat, cell: Grid, hs: nat, vs: nat, top: nat)
    returns (origins: seq<Point>, y: nat)
    requires columns >= 1
    ensures |origins| == n
    ensures forall i | 0 <= i < n :: origins[i] == CellOrigin(i, columns, cell, hs, vs, top)
    ensures y == top + vs + n / columns * (cell.y + vs)
  {
    var x := hs;
    y := top + vs;
    origins := [];
    var i := 0;
    while i < n
      invariant i <= n && |origins| == i
      invariant forall k | 0 <= k < i :: origins[k] == CellOrigin(k, columns, cell, hs, vs, top)
      invariant x == hs + i % columns * (cell.x + hs)
      invariant y == top + vs + i / columns * (cell.y + vs)
    {
      origins := origins + [Point(x, y)];
      x := x + cell.x + hs;
      WalkStep(i, columns, cell.x + hs, cell.y + vs);
      if (i + 1) % columns == 0 {
        y := y + cell.y + vs;
      }
      if (i + 1) % columns == 0 {
        x := hs;
      }
      i := i + 1;
    }
  }

  /** The coordinates of a contact sheet. */
  datatype SheetLayout = SheetLayout(
    cell: Grid, canvas: Grid, headerHeight: nat,
    frames: seq<Frame>, origins: seq<Point>, metadataY: Option<nat>)

  /** The coordinates `compose_contact_sheet` computes: the cell size, the
      canvas, the header, the frames in time order with their places, and
      where the metadata strip is pasted (none when it is hidden). */
  method ComposeContactSheet(frames: seq<Frame>, dims: Media.Dimensions, grid: Grid, vcsWidth: nat,
                             hs: nat, vs: nat, metadataMargin: nat, metadataFontSize: real,
                             headerLines: nat, position: MetadataPosition)
    returns (sheet: SheetLayout)
    requires CellWidthDefined(grid, Some(vcsWidth), Some(hs)) && Displayable(dims)
    ensures sheet.cell == GridDesiredSize(grid, dims, Some(vcsWidth), Some(hs))
    ensures sheet.headerHeight == HeaderHeight(position, metadataMargin, headerLines, LineHeight(metadataFontSize))
    ensures sheet.canvas == Grid(CanvasWidth(grid, sheet.cell, hs), GridHeight(grid, sheet.cell, vs) + sheet.headerHeight)
    ensures sheet.frames == SortBy(frames, ByTimestamp)
    ensures |sheet.origins| == |frames|
    ensures forall i | 0 <= i < |frames| ::
      sheet.origins[i] == CellOrigin(i, grid.x, sheet.cell, hs, vs, FramesTop(position, sheet.headerHeight))
    ensures sheet.metadataY == match position
      case Top => Some(0)
      case Bottom => Some(vs + |frames| / grid.x * (sheet.cell.y + vs) + vs)
      case Hidden => None
  {
    var cell := GridDesiredSize(grid, dims, Some(vcsWidth), Some(hs));
    var width := CanvasWidth(grid, cell, hs);
    var height := GridHeight(grid, cell, vs);
    var lineHeight := LineHeight(metadataFontSize);
    var headerHeight := 2 * metadataMargin + headerLines * lineHeight;
    if position == Hidden {
      headerHeight := 0;
    }
    var y := 0;
    if position == Top {
      y := headerHeight;
    }
    var sorted := SortBy(frames, ByTimestamp);
    var origins;
    origins, y := PlaceFrames(|sorted|, grid.x, cell, hs, vs, y);
    var metadataY := None;
    match position {
      case Top => metadataY := Some(0);
      case Bottom => metadataY := Some(y + vs);
      case Hidden =>
    }
    sheet := SheetLayout(cell, Grid(width, height + headerHeight), headerHeight, sorted, origins, metadataY);
  }

  lemma MulLe(a: nat, b: nat, d: nat)
    requires a <= b
    ensures a * d <= b * d
  {
  }

  /** A row below `rows` when `i` is below `columns * rows`. */
  lemma RowBelow(i: nat, columns: nat, rows: nat)
    requires columns >= 1 && i < columns * rows
    ensures i / columns < rows
  {
    DivBounds(i, columns);
    MulLess(columns, i / columns, rows);
  }

  lemma MulLess(c: nat, a: nat, b: nat)
    requires c * a < c * b
    ensures a < b
  {
    if b <= a {
      MulLe(b, a, c);
    }
  }

  /** Every one of the `grid.x * grid.y` cells lies inside the canvas width,
      with a gap after it, and inside the frame area that starts at `top`. */
  lemma CellInsideCanvas(i: nat, grid: Grid, cell: Grid, hs: nat, vs: nat, top: nat)
    requires grid.x >= 1 && i < grid.x * grid.y
    ensures var o := CellOrigin(i, grid.x, cell, hs, vs, top);
      && hs <= o.x && o.x + cell.x + hs <= CanvasWidth(grid, cell, hs)
      && top + vs <= o.y && o.y + cell.y + vs <= top + GridHeight(grid, cell, vs)
  {
    MulGap(i % grid.x, grid.x, cell.x + hs);
    RowBelow(i, grid.x, grid.y);
    MulGap(i / grid.x, grid.y, cell.y + vs);
  }

  /** With the metadata on top the cells lie below the header and inside
      the canvas; otherwise they lie above the strip the header would take
      at the bottom. */
  lemma CellsClearOfHeader(i: nat, grid: Grid, cell: Grid, hs: nat, vs: nat,
                           position: MetadataPosition, headerHeight: nat)
    requires grid.x >= 1 && i < grid.x * grid.y
    ensures var o := CellOrigin(i, grid.x, cell, hs, vs, FramesTop(position, headerHeight));
      var canvasHeight := GridHeight(grid, cell, vs) + headerHeight;
      && (position == Top ==> headerHeight < o.y + 1 && o.y + cell.y <= canvasHeight)
      && (position != Top ==> o.y + cell.y + vs <= canvasHeight - headerHeight)
  {
    CellInsideCanvas(i, grid, cell, hs, vs, FramesTop(position, headerHeight));
  }

  lemma MulGap(a: nat, b: nat, d: nat)
    requires a < b
    ensures a * d + d <= b * d
  {
    MulLe(a + 1, b, d);
    assert (a + 1) * d == a * d + d;
  }

  /** Two different frames never overlap: their cells are a gap apart
      horizontally or vertically. */
  lemma CellsDisjoint(i: nat, j: nat, columns: nat, cell: Grid, hs: nat, vs: nat, top: nat)
    requires columns >= 1 && i != j
    ensures var p, q := CellOrigin(i, columns, cell, hs, vs, top), CellOrigin(j, columns, cell, hs, vs, top);
      || p.x + cell.x + hs <= q.x || q.x + cell.x + hs <= p.x
      || p.y + cell.y + vs <= q.y || q.y + cell.y + vs <= p.y
  {
    var ci, cj, ri, rj := i % columns, j % columns, i / columns, j / columns;
    assert i == ri * columns + ci && j == rj * columns + cj;
    if ci < cj {
      MulGap(ci, cj, cell.x + hs);
    } else if cj < ci {
      MulGap(cj, ci, cell.x + hs);
    } else if ri < rj {
      MulGap(ri, rj, cell.y + vs);
    } else if rj < ri {
      MulGap(rj, ri, cell.y + vs);
    }
  }

  /** With the hint spacing equal to the spacing used, the canvas is at most
      the width asked for plus a gap on either side, and less than a pixel
      per column narrower than that. */
  lemma CanvasWidthNearRequested(grid: Grid, dims: Media.Dimensions, width: nat, hs: nat)
    requires CellWidthDefined(grid, Some(width), Some(hs)) && Displayable(dims)
    ensures var w := CanvasWidth(grid, GridDesiredSize(grid, dims, Some(width), Some(hs)), hs);
      width + 2 * hs - grid.x < w <= width + 2 * hs
  {
    var cell := GridDesiredSize(grid, dims, Some(width), Some(hs));
    assert grid.x * (cell.x + hs) == grid.x * cell.x + grid.x * hs;
    assert (grid.x - 1) * hs == grid.x * hs - hs;
  }

  /** With the metadata at the bottom of a full sheet, the strip is pasted a
      gap below the frame area, so its last `vs` rows fall outside the canvas. */
  lemma BottomMetadataOverhang(grid: Grid, cell: Grid, vs: nat, headerHeight: nat)
    requires grid.x >= 1
    ensures var metadataY := vs + grid.x * grid.y / grid.x * (cell.y + vs) + vs;
      metadataY + headerHeight == GridHeight(grid, cell, vs) + headerHeight + vs
  {
    DivModOf(grid.x * grid.y, grid.x, grid.y, 0);
  }

  // -------------------------------------------------------- timestamp badge

  datatype TimestampPosition = North | South | East | West | NE | NW | SE | SW | Center

  /** Where a badge sits along one axis of its cell. */
  datatype Side = Near | Middle | Far

  function Horizontal(p: TimestampPosition): Side {
    match p
    case West | NW | SW => Near
    case North | Center | South => Middle
    case East | NE | SE => Far
  }

  function Vertical(p: TimestampPosition): Side {
    match p
    case NW | North | NE => Near
    case West | Center | East => Middle
    case SW | South | SE => Far
  }

  /** What the offset along one axis needs not to underflow in `u32`. */
  predicate OffsetDefined(side: Side, cellLen: nat, textLen: nat, pad: nat, margin: nat) {
    match side
    case Near => true
    case Middle => textLen / 2 + pad <= cellLen / 2
    case Far => textLen + margin + 2 * pad <= cellLen
  }

  /** The offset of the badge from the cell's edge along one axis, for a
      text of length `textLen` padded by `pad` on both sides. */
  function Offset(side: Side, cellLen: nat, textLen: nat, pad: nat, margin: nat): (r: nat)
    requires OffsetDefined(side, cellLen, textLen, pad, margin)
    ensures side == Near ==> r == margin
    ensures side == Middle ==> -1 <= 2 * r + (textLen + 2 * pad) - cellLen <= 1
    ensures side == Far ==> r + textLen + 2 * pad + margin == cellLen
  {
    match side
    case Near => margin
    case Middle => cellLen / 2 - textLen / 2 - pad
    case Far => cellLen - textLen - margin - 2 * pad
  }

  datatype Badge = Badge(upperLeft: Point, size: Point)

  predicate BadgeDefined(p: TimestampPosition, text: Grid, cell: Grid, hpad: nat, vpad: nat, hMargin: nat, vMargin: nat) {
    && OffsetDefined(Horizontal(p), cell.x, text.x, hpad, hMargin)
    && OffsetDefined(Vertical(p), cell.y, text.y, vpad, vMargin)
  }

  /** `compute_timestamp_position` for the cell at `(w, h)`: the badge is the
      text padded on all sides; on a near side it is a margin from the
      cell's edge, in the middle it is centred to within half a pixel, and
      on a far side it ends a margin before the cell's far edge. */
  function TimestampBadge(p: TimestampPosition, w: nat, h: nat, text: Grid, cell: Grid,
                          hpad: nat, vpad: nat, hMargin: nat, vMargin: nat): (b: Badge)
    requires BadgeDefined(p, text, cell, hpad, vpad, hMargin, vMargin)
    ensures b.size == Point(text.x + 2 * hpad, text.y + 2 * vpad)
    ensures w <= b.upperLeft.x && h <= b.upperLeft.y
    ensures Horizontal(p) == Near ==> b.upperLeft.x == w + hMargin
    ensures Horizontal(p) == Middle ==> -1 <= 2 * b.upperLeft.x + b.size.x - (2 * w + cell.x) <= 1
    ensures Horizontal(p) == Far ==> b.upperLeft.x + b.size.x == w + cell.x - hMargin
    ensures Vertical(p) == Near ==> b.upperLeft.y == h + vMargin
    ensures Vertical(p) == Middle ==> -1 <= 2 * b.upperLeft.y + b.size.y - (2 * h + cell.y) <= 1
    ensures Vertical(p) == Far ==> b.upperLeft.y + b.size.y == h + cell.y - vMargin
    ensures Horizontal(p) == Far || (Horizontal(p) == Near && hMargin + b.size.x <= cell.x) ==>
      b.upperLeft.x + b.size.x <= w + cell.x
    ensures Horizontal(p) == Middle ==> b.upperLeft.x + b.size.x <= w + cell.x + 1
    ensures Vertical(p) == Far || (Vertical(p) == Near && vMargin + b.size.y <= cell.y) ==>
      b.upperLeft.y + b.size.y <= h + cell.y
    ensures Vertical(p) == Middle ==> b.upperLeft.y + b.size.y <= h + cell.y + 1
  {
    var x := Offset(Horizontal(p), cell.x, text.x, hpad, hMargin);
    var y := Offset(Vertical(p), cell.y, text.y, vpad, vMargin);
    Badge(Point(w + x, h + y), Point(text.x + 2 * hpad, text.y + 2 * vpad))
  }

  // ---------------------------------------------------------------- colours

  type Byte = b: nat | b < 256

  datatype Rgba = Rgba(r: Byte, g: Byte, b: Byte, a: Byte)

  predicate IsHexDigit(c: char) {
    '0' <= c <= '9' || 'a' <= c <= 'f' || 'A' <= c <= 'F'
  }

  function HexDigitValue(c: char): (v: nat)
    requires IsHexDigit(c)
    ensures v < 16
  {
    if '0' <= c <= '9' then c as nat - '0' as nat
    else if 'a' <= c <= 'f' then c as nat - 'a' as nat + 10
    else c as nat - 'A' as nat + 10
  }

  /** The lower-case digit of a value below 16. */
  function HexDigit(v: nat): (c: char)
    requires v < 16
    ensures IsHexDigit(c) && HexDigitValue(c) == v
  {
    if v < 10 then ('0' as nat + v) as char else ('a' as nat + v - 10) as char
  }

  /** `u8::from_str_radix(pair, 16)`: two hex digits, or a `+` sign and one. */
  function ParseHexPair(p: seq<char>): (r: Option<Byte>)
    requires |p| == 2
  {
    if p[0] == '+' then (if IsHexDigit(p[1]) then Some(HexDigitValue(p[1])) else None)
    else if IsHexDigit(p[0]) && IsHexDigit(p[1]) then Some(16 * HexDigitValue(p[0]) + HexDigitValue(p[1]))
    else None
  }

  /** The bytes of consecutive pairs of characters; none when a pair does not parse. */
  function HexBytes(s: seq<char>): (r: Option<seq<Byte>>)
    requires |s| % 2 == 0
    ensures r.Some? ==> |r.value| == |s| / 2
    decreases |s|
  {
    if s == [] then Some([])
    else
      var first, rest := ParseHexPair(s[..2]), HexBytes(s[2..]);
      if first.Some? && rest.Some? then Some([first.value] + rest.value) else None
  }

  /** `decode_hex`: three bytes with an opaque alpha, or four bytes. `None`
      marks the panics: an odd length, a pair that does not parse, or a
      byte count other than 3 or 4. */
  function DecodeHex(s: seq<char>): Option<Rgba> {
    if |s| % 2 != 0 then None
    else
      var bytes := HexBytes(s);
      if bytes.None? then None
      else if |bytes.value| == 3 then Some(Rgba(bytes.value[0], bytes.value[1], bytes.value[2], 255))
      else if |bytes.value| == 4 then Some(Rgba(bytes.value[0], bytes.value[1], bytes.value[2], bytes.value[3]))
      else None
  }

  /** Only strings of 6 or 8 characters decode, and 6 give an opaque colour. */
  lemma DecodeHexShape(s: seq<char>)
    ensures DecodeHex(s).Some? <==> (|s| == 6 || |s| == 8) && HexBytes(s).Some?
    ensures |s| == 6 && DecodeHex(s).Some? ==> DecodeHex(s).value.a == 255
  {
  }

  function HexPair(b: Byte): seq<char> {
    [HexDigit(b / 16), HexDigit(b % 16)]
  }

  /** The six-digit lower-case form of a colour's red, green and blue. */
  function EncodeRgb(c: Rgba): seq<char> {
    HexPair(c.r) + HexPair(c.g) + HexPair(c.b)
  }

  /** The eight-digit lower-case form of a colour. */
  function EncodeHex(c: Rgba): seq<char> {
    EncodeRgb(c) + HexPair(c.a)
  }

  /** `u8::from_str_radix` reads a byte's two lower-case digits back. */
  lemma PairParses(b: Byte)
    ensures ParseHexPair(HexPair(b)) == Some(b)
  {
    var p := HexPair(b);
    assert p[0] != '+';
    assert HexDigitValue(p[0]) == b / 16 && HexDigitValue(p[1]) == b % 16;
  }

  lemma HexPairParses(b: Byte, rest: seq<char>)
    requires |rest| % 2 == 0
    ensures HexBytes(HexPair(b) + rest) ==
      if HexBytes(rest).Some? then Some([b] + HexBytes(rest).value) else None
  {
    var s := HexPair(b) + rest;
    assert s[..2] == HexPair(b) && s[2..] == rest;
    PairParses(b);
  }

  /** Decoding the eight-digit form gives the colour back. */
  lemma DecodeEncode(c: Rgba)
    ensures DecodeHex(EncodeHex(c)) == Some(c)
  {
    var s := EncodeHex(c);
    HexPairParses(c.a, []);
    HexPairParses(c.b, HexPair(c.a));
    HexPairParses(c.g, HexPair(c.b) + HexPair(c.a));
    HexPairParses(c.r, HexPair(c.g) + HexPair(c.b) + HexPair(c.a));
    assert s == HexPair(c.r) + (HexPair(c.g) + (HexPair(c.b) + HexPair(c.a)));
  }

  /** Decoding the six-digit form gives the colour back, opaque. */
  lemma DecodeEncodeRgb(c: Rgba)
    ensures DecodeHex(EncodeRgb(c)) == Some(c.(a := 255))
  {
    var s := EncodeRgb(c);
    HexPairParses(c.b, []);
    HexPairParses(c.g, HexPair(c.b));
    HexPairParses(c.r, HexPair(c.g) + HexPair(c.b));
    assert s == HexPair(c.r) + (HexPair(c.g) + HexPair(c.b));
  }

  /** `"ff0000"` is opaque red, and `"ff0000aa"` red with alpha 170. */
  lemma DecodeHexFixtures()
    ensures DecodeHex("ff0000") == Some(Rgba(255, 0, 0, 255))
    ensures DecodeHex("ff0000aa") == Some(Rgba(255, 0, 0, 170))
  {
    DecodeEncodeRgb(Rgba(255, 0, 0, 255));
    assert EncodeRgb(Rgba(255, 0, 0, 255)) == "ff0000";
    DecodeEncode(Rgba(255, 0, 0, 170));
    assert EncodeHex(Rgba(255, 0, 0, 170)) == "ff0000aa";
  }

  // ------------------------------------------------------------------ alpha

  /** Every pixel with its alpha replaced. */
  function WithAlpha(pixels: seq<Rgba>, alpha: Byte): (r: seq<Rgba>)
    ensures |r| == |pixels|
    ensures forall i | 0 <= i < |r| :: r[i] == pixels[i].(a := alpha)
  {
    if pixels == [] then []
    else [pixels[0].(a := alpha)] + WithAlpha(pixels[1..], alpha)
  }

  /** The last alpha set is the one that stays. */
  lemma WithAlphaTwice(pixels: seq<Rgba>, a1: Byte, a2: Byte)
    ensures WithAlpha(WithAlpha(pixels, a1), a2) == WithAlpha(pixels, a2)
  {
  }

  /** A captured image: `width * height` pixels, row by row. */
  class RgbaImage {
    const width: nat
    const height: nat
    const pixels: array<Rgba>

    ghost predicate Valid()
      reads this
    {
      pixels.Length == width * height
    }

    /** An image of one colour. */
    constructor (width: nat, height: nat, fill: Rgba)
      ensures Valid() && this.width == width && this.height == height
      ensures fresh(pixels) && forall i | 0 <= i < pixels.Length :: pixels[i] == fill
    {
      this.width := width;
      this.height := height;
      pixels := new Rgba[width * height](_ => fill);
    }

    /** `putalpha`: every pixel keeps its colour and takes the given alpha. */
    method PutAlpha(alpha: Byte)
      requires Valid()
      modifies pixels
      ensures Valid()
      ensures pixels[..] == WithAlpha(old(pixels[..]), alpha)
    {
      var i := 0;
      while i < pixels.Length
        invariant i <= pixels.Length
        invariant forall k | 0 <= k < i :: pixels[k] == old(pixels[k]).(a := alpha)
        invariant forall k | i <= k < pixels.Length :: pixels[k] == old(pixels[k])
      {
        pixels[i] := pixels[i].(a := alpha);
        i := i + 1;
      }
    }
  }
}
