/** The ST7735S panel driver: colour packing, the clamped address windows, rotation, the
    backlight duty, partial refresh, the BMP dump of the frame buffer, text placement and
    the palette for GS8 (8-bit grey) images. Every `_write(command, data)` on the SPI bus is recorded as one
    transfer of a trace; pins, the reset pulse, `sleep_ms` and the frame buffer's drawing
    primitives are not part of this model. */
module Display {
  import opened Bytes

  /** Display-mode commands. */
  const PART: byte := 0x12
  const NORMAL: byte := 0x13
  const SCROLL: byte := 0x33
  const IDLE: byte := 0x39

  /** One `_write`: a command byte, then the data bytes when there are any. */
  datatype Transfer = Transfer(command: byte, data: Option<seq<byte>>)

  /** `max(aMin, min(aMax, aVal))`. */
  function Clamp(v: int, lo: int, hi: int): (r: int)
    ensures r >= lo
    ensures lo <= hi ==> r <= hi
    ensures lo <= v <= hi ==> r == v
    ensures v < lo ==> r == lo
    ensures lo <= hi < v ==> r == hi
  {
    Max(lo, Min(hi, v))
  }

  lemma {:induction false} ClampIdempotent(v: int, lo: int, hi: int)
    ensures Clamp(Clamp(v, lo, hi), lo, hi) == Clamp(v, lo, hi)
  {
  }

  // ------------------------------------------------------------------
  // Colours
  // ------------------------------------------------------------------

  /** `((R & 0xF8) << 8) | ((G & 0xFC) << 3) | (B >> 3)`: `R & 0xF8` is `8 * (R / 8)`, so the
      first term is `2048 * (R / 8)`, the second `32 * (G / 4)`; the fields do not overlap,
      so the or is a sum. */
  function Pack565(R: int, G: int, B: int): (c: nat)
    requires 0 <= R < 256 && 0 <= G < 256 && 0 <= B < 256
    ensures c < 0x1_0000
    ensures c / 2048 == R / 8 && (c / 32) % 64 == G / 4 && c % 32 == B / 8
  {
    FieldsApart(R / 8, G / 4, B / 8);
    2048 * (R / 8) + 32 * (G / 4) + B / 8
  }

  /** Five, six and five bits side by side, each read back from its place. */
  lemma {:induction false} FieldsApart(r: nat, g: nat, b: nat)
    requires r < 32 && g < 64 && b < 32
    ensures 2048 * r + 32 * g + b < 0x1_0000
    ensures (2048 * r + 32 * g + b) / 2048 == r
    ensures ((2048 * r + 32 * g + b) / 32) % 64 == g && (2048 * r + 32 * g + b) % 32 == b
  {
    var c := 2048 * r + 32 * g + b;
    assert c == 32 * (64 * r + g) + b;
    assert c / 32 == 64 * r + g;
    assert c == 2048 * r + (32 * g + b) && 32 * g + b < 2048;
  }

  /** `rgb565`: the colour with its two bytes exchanged, so that the frame buffer, which
      stores pixels little-endian, holds it in the panel's big-endian order: read
      little-endian, its bytes are the packed colour's high byte, then its low byte. */
  function Rgb565(R: int, G: int, B: int): (r: nat)
    requires 0 <= R < 256 && 0 <= G < 256 && 0 <= B < 256
    ensures r == U16LE(Pack565(R, G, B) / 256, Pack565(R, G, B) % 256)
  {
    var c := Pack565(R, G, B);
    var bytes := [c % 256, c / 256];  // c.to_bytes(2, 'little')
    bytes[0] * 256 + bytes[1]
  }

  // ------------------------------------------------------------------
  // Clamped spans and their commands
  // ------------------------------------------------------------------

  /** The span `(s', e')` a command gets for rows or columns s..e of a side of n pixels:
      `s' = clamp(s, 0, n - 1)`, `e' = clamp(e, s', n - 1)`. */
  function Span(s: int, e: int, n: int): (r: (nat, nat))
    ensures r.0 <= r.1
    ensures n >= 1 ==> r.1 <= n - 1
    ensures n <= 0 ==> r == (0, 0)
    ensures 0 <= s <= e < n ==> r == (s, e)
    ensures 0 <= s < n ==> r.0 == s
  {
    var a := Clamp(s, 0, n - 1);
    var b := Clamp(e, a, n - 1);
    (a, b)
  }

  /** Clamping a span that is already clamped changes nothing. */
  lemma {:induction false} SpanIdempotent(s: int, e: int, n: int)
    ensures Span(Span(s, e, n).0, Span(s, e, n).1, n) == Span(s, e, n)
  {
  }

  function Be16(hi: byte, lo: byte): nat {
    256 * hi + lo
  }

  /** A transfer of `command` whose data are the big-endian word a. */
  predicate Carries1(t: Transfer, command: byte, a: nat) {
    t.command == command && t.data.Some? && |t.data.value| == 2 && Be16(t.data.value[0], t.data.value[1]) == a
  }

  /** A transfer of `command` whose data are the big-endian words a, b. */
  predicate Carries2(t: Transfer, command: byte, a: nat, b: nat) {
    t.command == command && t.data.Some? && |t.data.value| == 4 &&
    Be16(t.data.value[0], t.data.value[1]) == a && Be16(t.data.value[2], t.data.value[3]) == b
  }

  /** A transfer of `command` whose data are the big-endian words a, b, c. */
  predicate Carries3(t: Transfer, command: byte, a: nat, b: nat, c: nat) {
    t.command == command && t.data.Some? && |t.data.value| == 6 &&
    Be16(t.data.value[0], t.data.value[1]) == a && Be16(t.data.value[2], t.data.value[3]) == b &&
    Be16(t.data.value[4], t.data.value[5]) == c
  }

  /** `pack('>HH', a, b)` */
  function PackSpan(r: (nat, nat)): (d: seq<byte>)
    requires r.0 < 0x1_0000 && r.1 < 0x1_0000
    ensures |d| == 4 && Be16(d[0], d[1]) == r.0 && Be16(d[2], d[3]) == r.1
  {
    PackU16BE(r.0) + PackU16BE(r.1)
  }

  /** `setWindow`: exactly 0x2A with the clamped columns, then 0x2B with the clamped rows. */
  function Window(xs: int, ys: int, xe: int, ye: int, width: nat, height: nat): (r: seq<Transfer>)
    requires width <= 0x1_0000 && height <= 0x1_0000
    ensures |r| == 2
    ensures Carries2(r[0], 0x2A, Span(xs, xe, width).0, Span(xs, xe, width).1)
    ensures Carries2(r[1], 0x2B, Span(ys, ye, height).0, Span(ys, ye, height).1)
  {
    [Transfer(0x2A, Some(PackSpan(Span(xs, xe, width)))), Transfer(0x2B, Some(PackSpan(Span(ys, ye, height))))]
  }

  /** `setDisMode`: a scroll area goes out as given; any other mode is sent alone, and a
      partial area follows a PART with its rows clamped to the longer side. */
  function DisMode(mode: byte, p: seq<int>, width: nat, height: nat): (r: seq<Transfer>)
    requires width <= 0x1_0000 && height <= 0x1_0000
    requires mode == SCROLL ==> |p| >= 3 && 0 <= p[0] < 0x1_0000 && 0 <= p[1] < 0x1_0000 && 0 <= p[2] < 0x1_0000
    requires mode == PART ==> |p| >= 2
    ensures |r| >= 1
    ensures mode == SCROLL ==> |r| == 1 && Carries3(r[0], SCROLL, p[0], p[1], p[2])
    ensures mode != SCROLL ==> r[0] == Transfer(mode, None)
    ensures mode == PART ==>
      |r| == 2 && Carries2(r[1], 0x30, Span(p[0], p[1], Max(width, height)).0, Span(p[0], p[1], Max(width, height)).1)
    ensures mode != SCROLL && mode != PART ==> |r| == 1
  {
    if mode == SCROLL then
      var d := PackU16BE(p[0]) + PackU16BE(p[1]) + PackU16BE(p[2]);
      [Transfer(mode, Some(d))]
    else if mode == PART then
      [Transfer(mode, None), Transfer(0x30, Some(PackSpan(Span(p[0], p[1], Max(width, height)))))]
    else [Transfer(mode, None)]
  }

  /** `setScrollStart`: 0x37 with the first row clamped to the panel. */
  function ScrollStart(ys: int, height: nat): (t: Transfer)
    requires height <= 0x1_0000
    ensures Carries1(t, 0x37, Clamp(ys, 0, height - 1))
    ensures 0 <= Clamp(ys, 0, height - 1) && (height >= 1 ==> Clamp(ys, 0, height - 1) <= height - 1)
  {
    Transfer(0x37, Some(PackU16BE(Clamp(ys, 0, height - 1))))
  }

  // ------------------------------------------------------------------
  // Rotation and backlight
  // ------------------------------------------------------------------

  /** `(angle // 90) % 4`: Python's floor division and Dafny's division agree for a
      positive divisor. */
  function RotIndex(angle: int): (idx: nat)
    ensures idx < 4
    ensures 0 <= angle < 360 ==> idx == angle / 90
  {
    (angle / 90) % 4
  }

  /** Whole turns do not change the orientation. */
  lemma {:induction false} RotIndexPeriodic(angle: int)
    ensures RotIndex(angle + 360) == RotIndex(angle)
  {
    assert (angle + 360) / 90 == angle / 90 + 4;
  }

  /** `rot_param[idx]`, the memory-access-control byte for each quarter turn. */
  function RotParam(idx: nat): byte
    requires idx < 4
  {
    if idx == 0 then 0x00 else if idx == 1 then 0x60 else if idx == 2 then 0xC0 else 0xA0
  }

  /** The dimensions after `rotate`: swapped when they disagree with the orientation, so
      upright turns are portrait and quarter turns landscape. */
  function Oriented(width: nat, height: nat, idx: nat): (r: (nat, nat))
    requires idx < 4
    ensures r == (width, height) || r == (height, width)
    ensures Cells(r.0, r.1) == Cells(width, height)
    ensures idx % 2 == 0 ==> r.0 <= r.1
    ensures idx % 2 == 1 ==> r.0 >= r.1
  {
    CellsSym(width, height);
    if (idx % 2 == 0 && height < width) || (idx % 2 == 1 && height > width) then (height, width)
    else (width, height)
  }

  /** Rotating twice to the same angle swaps at most once. */
  lemma {:induction false} OrientedIdempotent(width: nat, height: nat, idx: nat)
    requires idx < 4
    ensures Oriented(Oriented(width, height, idx).0, Oriented(width, height, idx).1, idx) == Oriented(width, height, idx)
  {
  }

  /** `(duty % 256) * 257`: 0..255 spread over the PWM's 16-bit range (Python's `%` and
      Dafny's agree for a positive divisor). */
  function BacklightLevel(duty: int): (v: nat)
    ensures v <= 0xFFFF
  {
    (duty % 256) * 257
  }

  /** The level keeps the setting: dividing by 257 gives back the duty modulo 256. */
  lemma {:induction false} BacklightKeepsDuty(duty: int)
    ensures BacklightLevel(duty) % 257 == 0 && BacklightLevel(duty) / 257 == duty % 256
  {
  }

  /** 0 is off, 255 full on, and a brighter setting never gives less light. */
  lemma {:induction false} BacklightScale(a: int, b: int)
    requires 0 <= a <= b <= 255
    ensures BacklightLevel(0) == 0 && BacklightLevel(255) == 0xFFFF
    ensures BacklightLevel(a) <= BacklightLevel(b)
  {
  }

  // ------------------------------------------------------------------
  // Byte layouts
  // ------------------------------------------------------------------

  /** `buffer[start:end]` with Python's slicing: bounds past the end are cut to it and a
      reversed range is empty. */
  function PySlice(s: seq<byte>, start: nat, end: nat): seq<byte> {
    var a, b := Min(start, |s|), Min(end, |s|);
    if a <= b then s[a..b] else []
  }

  /** Pixels in `rows` rows of `width`: where row `rows` starts, counted in pixels. */
  function Cells(width: nat, rows: nat): nat {
    if rows == 0 then 0 else Cells(width, rows - 1) + width
  }

  lemma {:induction false} CellsIs(width: nat, rows: nat)
    ensures Cells(width, rows) == width * rows
  {
    if rows > 0 {
      CellsIs(width, rows - 1);
      assert width * rows == width * (rows - 1) + width;
    }
  }

  lemma {:induction false} CellsMono(width: nat, a: nat, b: nat)
    requires a <= b
    ensures Cells(width, a) <= Cells(width, b)
    decreases b
  {
    if a < b {
      CellsMono(width, a, b - 1);
    }
  }

  lemma {:induction false} CellsSym(width: nat, height: nat)
    ensures Cells(width, height) == Cells(height, width)
  {
    CellsIs(width, height);
    CellsIs(height, width);
  }

  /** A buffer of n bytes with every pixel c, stored little-endian. */
  function Filled(c: nat, n: nat): (r: seq<byte>)
    requires c < 0x1_0000
    ensures |r| == n
  {
    seq(n, i => if i % 2 == 0 then c % 256 else c / 256)
  }

  /** Every pixel of a filled buffer reads back as c. */
  lemma {:induction false} FilledPixel(c: nat, n: nat, i: nat)
    requires c < 0x1_0000 && 2 * i + 1 < n
    ensures U16LE(Filled(c, n)[2 * i], Filled(c, n)[2 * i + 1]) == c
  {
  }

  /** Clearing to black zeroes the buffer. */
  lemma {:induction false} FilledBlack(n: nat)
    ensures Filled(0, n) == Zeros(n)
  {
  }

  /** The bytes `showVPart(ys, ye)` sends: rows y0..y1 of the clamped span, from byte
      `y0 * width * 2` up to byte `(y1 + 1) * width * 2`. */
  function VPart(buf: seq<byte>, width: nat, height: nat, ys: int, ye: int): (r: seq<byte>)
    requires |buf| == 2 * Cells(width, height)
    ensures height >= 1 ==>
      var (y0, y1) := Span(ys, ye, height);
      2 * Cells(width, y0) <= 2 * Cells(width, y1 + 1) <= |buf| &&
      r == buf[2 * Cells(width, y0)..2 * Cells(width, y1 + 1)]
  {
    var (y0, y1) := Span(ys, ye, height);
    CellsMono(width, y0, y1 + 1);
    if height >= 1 then
      CellsMono(width, y1 + 1, height);
      PySlice(buf, 2 * Cells(width, y0), 2 * Cells(width, y1 + 1))
    else PySlice(buf, 2 * Cells(width, y0), 2 * Cells(width, y1 + 1))
  }

  /** The rows `showVPart` clamps by hand are Span's, and its slice is VPart. */
  lemma {:induction false} VPartBytes(buf: seq<byte>, width: nat, height: nat, ys: int, ye: int)
    requires |buf| == 2 * Cells(width, height)
    ensures var y0 := Clamp(ys, 0, height - 1); var y1 := Clamp(ye, y0, height - 1);
      y0 >= 0 && y1 >= 0 && (y0, y1) == Span(ys, ye, height) &&
      PySlice(buf, 2 * Cells(width, y0), 2 * Cells(width, y1 + 1)) == VPart(buf, width, height, ys, ye)
  {
    var y0 := Clamp(ys, 0, height - 1);
    var y1 := Clamp(ye, y0, height - 1);
    assert (y0, y1) == Span(ys, ye, height);
  }

  /** The byte offsets `showVPart` computes, `rows * width * 2`, are where rows start. */
  lemma {:induction false} RowBytes(width: nat, rows: nat)
    ensures 2 * Cells(width, rows) == rows * width * 2
  {
    CellsIs(width, rows);
  }

  /** Every pixel's two bytes exchanged, `pack('<BB', buffer[p+1], buffer[p])`. */
  function Swapped(s: seq<byte>): (r: seq<byte>)
    requires |s| % 2 == 0
    ensures |r| == |s|
  {
    if s == [] then [] else Swapped(s[..|s| - 2]) + [s[|s| - 1], s[|s| - 2]]
  }

  /** Pixel i of the dump is pixel i of the buffer with its bytes exchanged. */
  lemma {:induction false} SwappedPixel(s: seq<byte>, i: nat)
    requires |s| % 2 == 0 && 2 * i + 1 < |s|
    ensures Swapped(s)[2 * i] == s[2 * i + 1] && Swapped(s)[2 * i + 1] == s[2 * i]
    decreases |s|
  {
    if 2 * i + 2 < |s| {
      SwappedPixel(s[..|s| - 2], i);
    }
  }

  /** One more pixel exchanged. */
  lemma {:induction false} SwappedStep(s: seq<byte>, p: nat)
    requires p % 2 == 0 && p + 2 <= |s|
    ensures Swapped(s[..p + 2]) == Swapped(s[..p]) + [s[p + 1], s[p]]
  {
    assert s[..p + 2][..p] == s[..p];
  }

  /** Exchanging twice gives the buffer back. */
  lemma {:induction false} SwappedTwice(s: seq<byte>)
    requires |s| % 2 == 0
    ensures Swapped(Swapped(s)) == s
    decreases |s|
  {
    if s != [] {
      var n := |s|;
      var t := Swapped(s);
      SwappedTwice(s[..n - 2]);
      assert t[..n - 2] == Swapped(s[..n - 2]);
      assert s == s[..n - 2] + [s[n - 2], s[n - 1]];
    }
  }

  /** The little-endian 16- and 32-bit values at offset i. */
  function U16At(s: seq<byte>, i: nat): nat
    requires i + 2 <= |s|
  {
    U16LE(s[i], s[i + 1])
  }

  function U32At(s: seq<byte>, i: nat): nat
    requires i + 4 <= |s|
  {
    U16At(s, i) + 0x1_0000 * U16At(s, i + 2)
  }

  lemma {:induction false} U16AtLeft(a: seq<byte>, b: seq<byte>, i: nat)
    requires i + 2 <= |a|
    ensures U16At(a + b, i) == U16At(a, i)
  {
  }

  lemma {:induction false} U16AtRight(a: seq<byte>, b: seq<byte>, i: nat, j: nat)
    requires i + 2 <= |b| && j == |a| + i
    ensures U16At(a + b, j) == U16At(b, i)
  {
  }

  lemma {:induction false} U32AtLeft(a: seq<byte>, b: seq<byte>, i: nat)
    requires i + 4 <= |a|
    ensures U32At(a + b, i) == U32At(a, i)
  {
    U16AtLeft(a, b, i);
    U16AtLeft(a, b, i + 2);
  }

  lemma {:induction false} U32AtRight(a: seq<byte>, b: seq<byte>, i: nat, j: nat)
    requires i + 4 <= |b| && j == |a| + i
    ensures U32At(a + b, j) == U32At(b, i)
  {
    U16AtRight(a, b, i, j);
    U16AtRight(a, b, i + 2, j + 2);
  }

  /** A slice of b keeps its bytes when bytes come before it. */
  lemma {:induction false} SliceRight(a: seq<byte>, b: seq<byte>, i: nat, j: nat)
    requires i <= j <= |b|
    ensures (a + b)[|a| + i..|a| + j] == b[i..j]
  {
  }

  /** `pack('<HIII', signature, size, 0, offset)`, the file header. */
  function FileHeader(signature: nat, size: nat, offset: nat): (r: seq<byte>)
    requires signature < 0x1_0000 && size < 0x1_0000_0000 && offset < 0x1_0000_0000
    ensures |r| == 14 && U16At(r, 0) == signature && U32At(r, 2) == size && U32At(r, 10) == offset
    ensures r[6..10] == Zeros(4)
  {
    var sig, sz, tail := PackU16LE(signature), PackU32LE(size), Zeros(4) + PackU32LE(offset);
    assert (sig + (sz + tail))[6..10] == tail[..4];
    U32AtRight(Zeros(4), PackU32LE(offset), 0, 4);
    U32AtLeft(sz, tail, 0);
    U32AtRight(sz, tail, 4, 8);
    U16AtLeft(sig, sz + tail, 0);
    U32AtRight(sig, sz + tail, 0, 2);
    U32AtRight(sig, sz + tail, 8, 10);
    sig + (sz + tail)
  }

  /** The 32-bit two's complement encoding of v, as `pack('<i', v)` stores it. */
  function Signed32(v: int): (r: nat)
    requires -0x8000_0000 <= v < 0x8000_0000
    ensures r < 0x1_0000_0000
  {
    if v >= 0 then v else v + 0x1_0000_0000
  }

  /** `pack('<IIi', size, width, height)`, the first three fields of the information header. */
  function InfoFront(size: nat, width: nat, height: int): (r: seq<byte>)
    requires size < 0x1_0000_0000 && width < 0x1_0000_0000 && -0x8000_0000 <= height < 0x8000_0000
    ensures |r| == 12 && U32At(r, 0) == size && U32At(r, 4) == width &&
      U32At(r, 8) == Signed32(height)
  {
    var s, w, h := PackU32LE(size), PackU32LE(width), PackI32LE(height);
    U32AtLeft(s, w + h, 0);
    U32AtRight(s, w + h, 0, 4);
    U32AtLeft(w, h, 0);
    U32AtRight(s, w + h, 4, 8);
    U32AtRight(w, h, 0, 4);
    s + (w + h)
  }

  /** `pack('<HHIIQQ', planes, bits, compression, image, 0, 0)`, the rest of it (the two
      resolutions are zero). */
  function InfoBack(planes: nat, bits: nat, compression: nat, image: nat): (r: seq<byte>)
    requires planes < 0x1_0000 && bits < 0x1_0000 && compression < 0x1_0000_0000 && image < 0x1_0000_0000
    ensures |r| == 28 && U16At(r, 0) == planes && U16At(r, 2) == bits && U32At(r, 4) == compression &&
      U32At(r, 8) == image
    ensures r[12..28] == Zeros(16)
  {
    var p, b, c := PackU16LE(planes), PackU16LE(bits), PackU32LE(compression);
    var img, rest := PackU32LE(image), PackU64LE(0) + PackU64LE(0);
    var tail := c + (img + rest);
    PackU64LEZero();
    assert rest == Zeros(16);
    assert (p + (b + tail))[12..28] == rest;
    U32AtLeft(img, rest, 0);
    U32AtLeft(c, img + rest, 0);
    U32AtRight(c, img + rest, 0, 4);
    U16AtLeft(b, tail, 0);
    U32AtRight(b, tail, 0, 2);
    U32AtRight(b, tail, 4, 6);
    U16AtLeft(p, b + tail, 0);
    U16AtRight(p, b + tail, 0, 2);
    U32AtRight(p, b + tail, 2, 4);
    U32AtRight(p, b + tail, 6, 8);
    p + (b + tail)
  }

  /** `pack('<IIiHHIIQQ', 40, width, -height, 1, 16, 3, size - 70, 0, 0)` */
  function InfoHeader(width: nat, height: nat, image: nat): (r: seq<byte>)
    requires width < 0x1_0000_0000 && height <= 0x8000_0000 && image < 0x1_0000_0000
    ensures |r| == 40 && U32At(r, 0) == 40 && U32At(r, 4) == width &&
      U32At(r, 8) == Signed32(0 - height) &&
      U16At(r, 12) == 1 && U16At(r, 14) == 16 && U32At(r, 16) == 3 && U32At(r, 20) == image
    ensures r[24..40] == Zeros(16)
  {
    var front, back := InfoFront(40, width, 0 - height), InfoBack(1, 16, 3, image);
    SliceRight(front, back, 12, 28);
    U32AtLeft(front, back, 0);
    U32AtLeft(front, back, 4);
    U32AtLeft(front, back, 8);
    U16AtRight(front, back, 0, 12);
    U16AtRight(front, back, 2, 14);
    U32AtRight(front, back, 4, 16);
    U32AtRight(front, back, 8, 20);
    front + back
  }

  /** `pack('<IIII', red, green, blue, 0)`: the colour masks. */
  function Masks(red: nat, green: nat, blue: nat): (r: seq<byte>)
    requires red < 0x1_0000_0000 && green < 0x1_0000_0000 && blue < 0x1_0000_0000
    ensures |r| == 16 && U32At(r, 0) == red && U32At(r, 4) == green && U32At(r, 8) == blue
    ensures r[12..16] == Zeros(4)
  {
    var rd, g, b := PackU32LE(red), PackU32LE(green), PackU32LE(blue);
    var tail := b + Zeros(4);
    assert (rd + (g + tail))[12..16] == tail[4..];
    U32AtLeft(b, Zeros(4), 0);
    U32AtLeft(g, tail, 0);
    U32AtRight(g, tail, 0, 4);
    U32AtLeft(rd, g + tail, 0);
    U32AtRight(rd, g + tail, 0, 4);
    U32AtRight(rd, g + tail, 4, 8);
    rd + (g + tail)
  }

  /** Where the fields of three concatenated headers of 14, 40 and 16 bytes land. */
  lemma {:induction false} HeaderOffsets(f: seq<byte>, i: seq<byte>, m: seq<byte>)
    requires |f| == 14 && |i| == 40 && |m| == 16
    ensures U16At(f + (i + m), 0) == U16At(f, 0) && U32At(f + (i + m), 2) == U32At(f, 2)
    ensures U32At(f + (i + m), 10) == U32At(f, 10)
    ensures U32At(f + (i + m), 18) == U32At(i, 4) && U32At(f + (i + m), 22) == U32At(i, 8)
    ensures U16At(f + (i + m), 26) == U16At(i, 12) && U16At(f + (i + m), 28) == U16At(i, 14)
    ensures U32At(f + (i + m), 30) == U32At(i, 16) && U32At(f + (i + m), 34) == U32At(i, 20)
    ensures U32At(f + (i + m), 54) == U32At(m, 0) && U32At(f + (i + m), 58) == U32At(m, 4)
    ensures U32At(f + (i + m), 62) == U32At(m, 8)
    ensures U32At(f + (i + m), 14) == U32At(i, 0)
    ensures (f + (i + m))[6..10] == f[6..10] && (f + (i + m))[38..54] == i[24..40]
    ensures (f + (i + m))[66..70] == m[12..16]
  {
    U32AtLeft(i, m, 0);
    U32AtRight(f, i + m, 0, 14);
    U16AtLeft(f, i + m, 0);
    U32AtLeft(f, i + m, 2);
    U32AtLeft(f, i + m, 10);
    U32AtLeft(i, m, 4);
    U32AtLeft(i, m, 8);
    U16AtLeft(i, m, 14);
    U32AtLeft(i, m, 20);
    U32AtRight(f, i + m, 4, 18);
    U32AtRight(f, i + m, 8, 22);
    U16AtLeft(i, m, 12);
    U32AtLeft(i, m, 16);
    U16AtRight(f, i + m, 12, 26);
    U16AtRight(f, i + m, 14, 28);
    U32AtRight(f, i + m, 16, 30);
    U32AtRight(f, i + m, 20, 34);
    U32AtRight(i, m, 0, 40);
    U32AtRight(i, m, 4, 44);
    U32AtRight(i, m, 8, 48);
    U32AtRight(f, i + m, 40, 54);
    U32AtRight(f, i + m, 44, 58);
    U32AtRight(f, i + m, 48, 62);
  }

  /** The three headers of a file holding `image` bytes of pixels, 14 + 40 + 16 bytes: the
      offset of the pixels is exactly their length, the file size counts the pixels after
      them, and the dimensions, one plane, 16 bits per pixel, compression 3 (BI_BITFIELDS)
      and the RGB565 masks sit where a BMP reader looks for them. */
  function BmpHeader(width: nat, height: nat, image: nat): (r: seq<byte>)
    requires width < 0x1_0000_0000 && height <= 0x8000_0000 && 70 + image < 0x1_0000_0000
    ensures |r| == 70 && U16At(r, 0) == 0x4D42 && U32At(r, 10) == |r|
    ensures U32At(r, 2) == |r| + image && U32At(r, 34) == image
    ensures U32At(r, 18) == width && U32At(r, 22) == Signed32(0 - height)
    ensures U16At(r, 26) == 1 && U16At(r, 28) == 16 && U32At(r, 30) == 3
    ensures U32At(r, 54) == 0xF800 && U32At(r, 58) == 0x07E0 && U32At(r, 62) == 0x001F
    ensures U32At(r, 14) == 40
    ensures r[6..10] == Zeros(4) && r[38..54] == Zeros(16) && r[66..70] == Zeros(4)
  {
    var f := FileHeader(0x4D42, 70 + image, 70);
    var i := InfoHeader(width, height, image);
    var m := Masks(0xF800, 0x07E0, 0x001F);
    HeaderOffsets(f, i, m);
    f + (i + m)
  }

  lemma {:induction false} PixelInside(row: nat, col: nat, width: nat, height: nat)
    requires row < height && col < width
    ensures (Cells(width, row) + col) * 2 + 2 <= 2 * Cells(width, height)
  {
    CellsMono(width, row + 1, height);
  }

  // ------------------------------------------------------------------
  // Text
  // ------------------------------------------------------------------

  /** What `fontDB.get(ch)` tells of a glyph: its size (the bitmap is drawn by the frame
      buffer, which is not part of this model). */
  datatype Glyph = Glyph(w: nat, h: nat)

  /** A glyph drawn at (x, y). */
  datatype Placement = Placement(ch: char, x: int, y: int, w: nat, h: nat)

  /** Where the next glyph goes: x at first, then just right of the last one drawn. */
  function Pen(x: int, placed: seq<Placement>): int {
    if placed == [] then x else placed[|placed| - 1].x + placed[|placed| - 1].w
  }

  predicate Fits(g: Glyph, x: int, y: int, width: nat, height: nat) {
    g.w != 0 && x + g.w <= width && y + g.h <= height
  }

  /** The pen is x plus the widths of the glyphs drawn. */
  function Widths(placed: seq<Placement>): nat {
    if placed == [] then 0 else Widths(placed[..|placed| - 1]) + placed[|placed| - 1].w
  }

  // ------------------------------------------------------------------
  // The GS8 palette
  // ------------------------------------------------------------------

  /** Palette entry i, read the way the frame buffer reads an RGB565 colour (little-endian). */
  function PaletteEntry(s: seq<byte>, i: nat): nat
    requires 2 * i + 1 < |s|
  {
    U16LE(s[2 * i], s[2 * i + 1])
  }

  /** The entry for t = i >> 3 is `rgb565(8t, 4t, 8t)`: the level t in the five red and
      blue bits and in the six green bits. */
  lemma {:induction false} GreyEntry(t: nat)
    requires t < 32
    ensures U16LE(GreyLow(t), GreyHigh(t)) == Rgb565(8 * t, 4 * t, 8 * t)
  {
    var c := Pack565(8 * t, 4 * t, 8 * t);
    assert (8 * t) / 8 == t && (4 * t) / 4 == t;
    assert c == 2081 * t;
    var q, r := t / 8, t % 8;
    assert t == 8 * q + r;
    DivMod256(c, 8 * t + q, 8 * q + 33 * r);
    DivMod256(t * 32 + t, q, 8 * q + 33 * r);
    assert GreyLow(t) == c / 256 && GreyHigh(t) == c % 256;
  }

  lemma {:induction false} DivMod256(x: int, q: int, r: int)
    requires x == 256 * q + r && 0 <= r < 256
    ensures x / 256 == q && x % 256 == r
  {
  }

  // ------------------------------------------------------------------
  // The driver
  // ------------------------------------------------------------------

  /** The commands `__init__` sends before clearing: sleep out, the landscape orientation
      when wider than high, 16-bit pixels, dot inversion, display on. */
  function Startup(landscape: bool): (r: seq<Transfer>)
    ensures |r| == if landscape then 5 else 4
    ensures r[0] == Transfer(0x11, None) && r[|r| - 1] == Transfer(0x29, None)
    ensures landscape <==> Transfer(0x36, Some([0x60])) in r
  {
    [Transfer(0x11, None)] + (if landscape then [Transfer(0x36, Some([0x60]))] else []) +
    [Transfer(0x3A, Some([0x55])), Transfer(0xB4, Some([0x00])), Transfer(0x29, None)]
  }

  /** What `show` sends: the whole screen as the window, then its pixels. */
  function Screen(width: nat, height: nat, pixels: seq<byte>): (r: seq<Transfer>)
    requires width <= 0x1_0000 && height <= 0x1_0000
    ensures |r| == 3 && r[..2] == Window(0, 0, width - 1, height - 1, width, height)
    ensures r[2] == Transfer(0x2C, Some(pixels))
  {
    Window(0, 0, width - 1, height - 1, width, height) + [Transfer(0x2C, Some(pixels))]
  }

  /** What `__init__` sends: the start-up commands, then the whole screen black. */
  function Boot(width: nat, height: nat, pixels: seq<byte>): (r: seq<Transfer>)
    requires width <= 0x1_0000 && height <= 0x1_0000
    ensures |r| == |Startup(width > height)| + 3 && r[..|r| - 3] == Startup(width > height)
    ensures r[|r| - 3..] == Screen(width, height, pixels)
  {
    Startup(width > height) + Screen(width, height, pixels)
  }

  /** The pixel loop of `bufToBmp`: for each row, for each column, the pixel's two bytes
      in exchanged order. */
  method SwapRows(buffer: array<byte>, width: nat, height: nat) returns (pixels: seq<byte>)
    requires buffer.Length == 2 * Cells(width, height)
    ensures pixels == Swapped(buffer[..])
  {
    pixels := [];
    var row := 0;
    var rowStart := 0;  // row * self.width
    while row < height
      invariant row <= height && rowStart == Cells(width, row) && 2 * rowStart <= buffer.Length
      invariant pixels == Swapped(buffer[..2 * rowStart])
    {
      CellsMono(width, row + 1, height);
      pixels := SwapRow(buffer, rowStart, width, pixels);
      row, rowStart := row + 1, rowStart + width;
    }
    assert buffer[..2 * rowStart] == buffer[..];
  }

  /** One row of the pixel loop: `pixels`, the exchanged bytes of the rows before, grows by
      the `width` pixels from `start` on. */
  method SwapRow(buffer: array<byte>, start: nat, width: nat, pixels: seq<byte>) returns (grown: seq<byte>)
    requires 2 * (start + width) <= buffer.Length && pixels == Swapped(buffer[..2 * start])
    ensures grown == Swapped(buffer[..2 * (start + width)])
  {
    ghost var s := buffer[..];
    grown := pixels;
    for col := 0 to width
      invariant grown == Swapped(s[..2 * (start + col)])
    {
      var p := (start + col) * 2;
      SwappedStep(s, p);
      grown := grown + [buffer[p + 1], buffer[p]];
    }
  }

  /** The start-up commands followed by one whole-screen `show` are what `__init__` sends. */
  lemma {:induction false} BootFrom(width: nat, height: nat, pixels: seq<byte>, start: seq<Transfer>, trace: seq<Transfer>)
    requires width <= 0x1_0000 && height <= 0x1_0000
    requires start == Startup(width > height)
    requires trace == start + Screen(width, height, pixels)
    ensures trace == Boot(width, height, pixels)
  {
  }

  class ST7735S {
    var width: nat
    var height: nat
    /** The RGB565 frame buffer, two bytes per pixel, row-major. */
    const buffer: array<byte>
    /** Whether a backlight pin was given (`self.bl`). */
    const hasBacklight: bool
    /** The backlight PWM's `duty_u16`. */
    var dutyU16: nat
    /** Every `_write` so far. */
    var trace: seq<Transfer>

    predicate Valid()
      reads this
    {
      buffer.Length == 2 * Cells(width, height) && width <= 0x1_0000 && height <= 0x1_0000
    }

    /** Appends `extra` to the trace and changes nothing else the driver holds. */
    twostate predicate Sent(extra: seq<Transfer>)
      reads this
    {
      trace == old(trace) + extra && width == old(width) && height == old(height) && dutyU16 == old(dutyU16)
    }

    /** `__init__`: sleep out, landscape when wider than high, 16-bit pixels, dot inversion,
        display on, a cleared screen, then the backlight at half. */
    constructor (width: nat, height: nat, hasBacklight: bool)
      requires width <= 0x1_0000 && height <= 0x1_0000
      ensures Valid() && fresh(buffer)
      ensures this.width == width && this.height == height && this.hasBacklight == hasBacklight
      ensures buffer[..] == Zeros(2 * Cells(width, height))
      ensures dutyU16 == if hasBacklight then BacklightLevel(128) else 0
      ensures trace == Boot(width, height, buffer[..])
    {
      this.width := width;
      this.height := height;
      this.hasBacklight := hasBacklight;
      buffer := new byte[2 * Cells(width, height)](_ => 0);  // bytearray(width * height * 2)
      dutyU16 := if hasBacklight then 32768 else 0;
      trace := [];
      new;
      // `backlight(128)` ends `__init__`; the duty is not part of the trace, so setting it
      // first leaves the same state, and `backlight` checks for the pin itself.
      Backlight(128);
      PowerOn();
      FilledBlack(buffer.Length);
    }

    /** The start-up commands of `__init__`, then a screen cleared to black. */
    method PowerOn()
      requires Valid() && trace == []
      modifies this, buffer
      ensures Valid() && buffer[..] == Filled(0, buffer.Length)
      ensures trace == Boot(width, height, buffer[..])
      ensures width == old(width) && height == old(height) && dutyU16 == old(dutyU16)
    {
      SendStartup();
      ghost var start := trace;
      Clear(0);
      BootFrom(width, height, buffer[..], start, trace);
    }

    /** The five (or four) `_write` calls at the head of `__init__`. */
    method SendStartup()
      requires trace == []
      modifies this
      ensures trace == Startup(width > height)
      ensures width == old(width) && height == old(height) && dutyU16 == old(dutyU16)
    {
      Write(0x11, None);
      if width > height {
        Write(0x36, Some([0x60]));
      }
      Write(0x3A, Some([0x55]));
      Write(0xB4, Some([0x00]));
      Write(0x29, None);
    }

    /** `_write`: the command, then the data when there are any. */
    method Write(command: byte, data: Option<seq<byte>>)
      modifies this
      ensures Sent([Transfer(command, data)])
    {
      trace := trace + [Transfer(command, data)];
    }

    /** `fill(c)` of the frame buffer: every pixel set to c, stored little-endian. */
    method Fill(c: nat)
      requires c < 0x1_0000
      modifies buffer
      ensures buffer[..] == Filled(c, buffer.Length)
    {
      for i := 0 to buffer.Length
        invariant forall j :: 0 <= j < i ==> buffer[j] == if j % 2 == 0 then c % 256 else c / 256
      {
        buffer[i] := if i % 2 == 0 then c % 256 else c / 256;
      }
    }

    /** `clear(c)`: every pixel set to c, then the whole buffer shown. */
    method Clear(c: nat)
      requires Valid() && c < 0x1_0000
      modifies this, buffer
      ensures Valid() && buffer[..] == Filled(c, buffer.Length)
      ensures Sent(Screen(width, height, buffer[..]))
    {
      Fill(c);
      Show();
    }

    /** `backlight(duty)`, which does nothing without a backlight pin. */
    method Backlight(duty: int)
      modifies this
      ensures dutyU16 == if hasBacklight then BacklightLevel(duty) else old(dutyU16)
      ensures trace == old(trace) && width == old(width) && height == old(height)
    {
      if hasBacklight {
        dutyU16 := (duty % 256) * 257;
      }
    }

    /** `sleep`: backlight off, display off, sleep in. */
    method Sleep()
      modifies this
      ensures trace == old(trace) + [Transfer(0x28, None), Transfer(0x10, None)]
      ensures dutyU16 == (if hasBacklight then 0 else old(dutyU16)) && width == old(width) && height == old(height)
    {
      if hasBacklight {
        Backlight(0);
      }
      Write(0x28, None);
      Write(0x10, None);
    }

    /** `wakeup`: sleep out, display on, backlight back at half. */
    method Wakeup()
      modifies this
      ensures trace == old(trace) + [Transfer(0x11, None), Transfer(0x29, None)]
      ensures dutyU16 == (if hasBacklight then BacklightLevel(128) else old(dutyU16))
      ensures width == old(width) && height == old(height)
    {
      Write(0x11, None);
      Write(0x29, None);
      if hasBacklight {
        Backlight(128);
      }
    }

    /** `rotate(angle)`: the dimensions follow the orientation, the pixel count stays, and
        0x36 goes out with that orientation's parameter. */
    method Rotate(angle: int)
      requires Valid()
      modifies this
      ensures Valid()
      ensures (width, height) == Oriented(old(width), old(height), RotIndex(angle))
      ensures trace == old(trace) + [Transfer(0x36, Some([RotParam(RotIndex(angle))]))]
      ensures dutyU16 == old(dutyU16)
    {
      var idx := (angle / 90) % 4;
      CellsSym(width, height);
      if (idx % 2 == 0 && height < width) || (idx % 2 == 1 && height > width) {
        width, height := height, width;
      }
      Write(0x36, Some([RotParam(idx)]));
    }

    /** `setWindow(xs, ys, xe, ye)` */
    method SetWindow(xs: int, ys: int, xe: int, ye: int)
      requires Valid()
      modifies this
      ensures Valid()
      ensures Sent(Window(xs, ys, xe, ye, width, height))
    {
      var x0 := Clamp(xs, 0, width - 1);
      var x1 := Clamp(xe, x0, width - 1);
      var y0 := Clamp(ys, 0, height - 1);
      var y1 := Clamp(ye, y0, height - 1);
      Write(0x2A, Some(PackU16BE(x0) + PackU16BE(x1)));
      Write(0x2B, Some(PackU16BE(y0) + PackU16BE(y1)));
    }

    /** `setDisMode(mode, *p)` */
    method SetDisMode(mode: byte, p: seq<int>)
      requires Valid()
      requires mode == SCROLL ==> |p| >= 3 && 0 <= p[0] < 0x1_0000 && 0 <= p[1] < 0x1_0000 && 0 <= p[2] < 0x1_0000
      requires mode == PART ==> |p| >= 2
      modifies this
      ensures Valid()
      ensures Sent(DisMode(mode, p, width, height))
    {
      if mode == SCROLL {
        Write(mode, Some(PackU16BE(p[0]) + PackU16BE(p[1]) + PackU16BE(p[2])));
      } else {
        Write(mode, None);
        if mode == PART {
          var longer := Max(width, height);
          var p0 := Clamp(p[0], 0, longer - 1);
          var p1 := Clamp(p[1], p0, longer - 1);
          Write(0x30, Some(PackU16BE(p0) + PackU16BE(p1)));
        }
      }
    }

    /** `setScrollStart(ys)` */
    method SetScrollStart(ys: int)
      requires Valid()
      modifies this
      ensures Valid()
      ensures Sent([ScrollStart(ys, height)])
    {
      Write(0x37, Some(PackU16BE(Clamp(ys, 0, height - 1))));
    }

    /** `show`: the whole panel as the window, then the whole buffer. */
    method Show()
      requires Valid()
      modifies this
      ensures Valid()
      ensures Sent(Screen(width, height, buffer[..]))
    {
      SetWindow(0, 0, width - 1, height - 1);
      Write(0x2C, Some(buffer[..]));
    }

    /** `showVPart(ys, ye)`: the clamped rows as the window, then exactly their bytes. */
    method ShowVPart(ys: int, ye: int)
      requires Valid()
      modifies this
      ensures Valid()
      ensures |buffer[..]| == 2 * Cells(width, height) && width <= 0x1_0000 && height <= 0x1_0000
      ensures var rows := Span(ys, ye, height);
        Sent(Window(0, rows.0, width - 1, rows.1, width, height) + [Transfer(0x2C, Some(VPart(buffer[..], width, height, ys, ye)))])
    {
      var y0 := Clamp(ys, 0, height - 1);
      var y1 := Clamp(ye, y0, height - 1);
      var startByte := 2 * Cells(width, y0);      // ys * self.width * 2
      var endByte := 2 * Cells(width, y1 + 1);    // (ye + 1) * self.width * 2
      var part := PySlice(buffer[..], startByte, endByte);
      VPartBytes(buffer[..], width, height, ys, ye);
      SetWindow(0, y0, width - 1, y1);
      Write(0x2C, Some(part));
    }

    /** `showImage(xs, ys, xe, ye, img)`: the window, then the image bytes as given. */
    method ShowImage(xs: int, ys: int, xe: int, ye: int, img: seq<byte>)
      requires Valid()
      modifies this
      ensures Valid()
      ensures Sent(Window(xs, ys, xe, ye, width, height) + [Transfer(0x2C, Some(img))])
    {
      SetWindow(xs, ys, xe, ye);
      Write(0x2C, Some(img));
    }

    /** `bufToBmp`: the file the dump writes, headers then every pixel with its bytes
        exchanged, row by row. `pack('<I', size)` would raise for a buffer of 4 GiB or more. */
    method BufToBmp() returns (bmp: seq<byte>)
      requires Valid() && height <= 0x8000_0000 && 70 + buffer.Length < 0x1_0000_0000
      ensures bmp == BmpHeader(width, height, buffer.Length) + Swapped(buffer[..])
    {
      // The pixels are gathered first and the headers put before them: the file is the same.
      var pixels := SwapRows(buffer, width, height);
      bmp := BmpHeader(width, height, buffer.Length) + pixels;  // size = 70 + self.width * self.height * 2
    }

    /** `drawText`: glyphs left to right from (x, y), each just right of the one before,
        until the first glyph that is empty or would cross the right or bottom edge. */
    method DrawText(text: string, x: int, y: int, font: char -> Glyph) returns (placed: seq<Placement>)
      ensures |placed| <= |text|
      ensures forall k :: 0 <= k < |placed| ==>
        placed[k] == Placement(text[k], Pen(x, placed[..k]), y, font(text[k]).w, font(text[k]).h) &&
        Fits(font(text[k]), placed[k].x, y, width, height)
      ensures |placed| < |text| ==> !Fits(font(text[|placed|]), Pen(x, placed), y, width, height)
    {
      placed := [];
      var px := x;
      var i := 0;
      while i < |text|
        invariant i == |placed| <= |text|
        invariant px == Pen(x, placed)
        invariant forall k :: 0 <= k < |placed| ==>
          placed[k] == Placement(text[k], Pen(x, placed[..k]), y, font(text[k]).w, font(text[k]).h) &&
          Fits(font(text[k]), placed[k].x, y, width, height)
      {
        var g := font(text[i]);
        if g.w == 0 || px + g.w > width || y + g.h > height {
          break;
        }
        var next := placed + [Placement(text[i], px, y, g.w, g.h)];
        assert forall k :: 0 <= k < |placed| ==> next[..k] == placed[..k];
        assert next[..|placed|] == placed;
        placed := next;
        px := px + g.w;
        i := i + 1;
      }
    }
  }

  /** The GS8 palette `drawImage` builds: 256 entries, two bytes each, meant as grey levels. MicroPython keeps
      the low byte of a value stored into a `bytearray`, so `(t << 5) | t` is kept modulo 256. */
  method Gs8Palette() returns (pbuf: array<byte>)
    ensures fresh(pbuf) && pbuf.Length == 512
    ensures forall i :: 0 <= i < 256 ==> PaletteEntry(pbuf[..], i) == Rgb565(8 * (i / 8), 4 * (i / 8), 8 * (i / 8))
  {
    pbuf := new byte[512](_ => 0);
    for i := 0 to 256
      invariant forall j :: 0 <= j < i ==> pbuf[2 * j] == GreyLow(j / 8) && pbuf[2 * j + 1] == GreyHigh(j / 8)
    {
      var t := i / 8;                         // i >> 3
      pbuf[i * 2] := t * 8 + t / 8;           // (t << 3) | (t >> 3): the bits do not overlap
      pbuf[i * 2 + 1] := (t * 32 + t) % 256;  // (t << 5) | t, low byte kept
    }
    GreyPalette(pbuf[..]);
  }

  /** The two bytes the palette stores for level t. */
  function GreyLow(t: nat): (r: nat)
    ensures t < 32 ==> r < 256
  {
    t * 8 + t / 8
  }

  function GreyHigh(t: nat): nat {
    (t * 32 + t) % 256
  }

  /** Entries built from those bytes are `rgb565(8t, 4t, 8t)`, t = i / 8. */
  lemma {:induction false} GreyPalette(s: seq<byte>)
    requires |s| == 512
    requires forall j :: 0 <= j < 256 ==> s[2 * j] == GreyLow(j / 8) && s[2 * j + 1] == GreyHigh(j / 8)
    ensures forall i :: 0 <= i < 256 ==> PaletteEntry(s, i) == Rgb565(8 * (i / 8), 4 * (i / 8), 8 * (i / 8))
  {
    forall i | 0 <= i < 256
      ensures PaletteEntry(s, i) == Rgb565(8 * (i / 8), 4 * (i / 8), 8 * (i / 8))
    {
      GreyEntry(i / 8);
    }
  }

  /** The palette colours are not greys: green holds t of its 63 steps while red and blue
      hold t of their 31, so green is at half the level of the other two, and the
      brightest entry is 0xFBFF rather than white 0xFFFF. */
  lemma {:induction false} PaletteGreenHalf(t: nat)
    requires t < 32
    ensures var c := Pack565(8 * t, 4 * t, 8 * t);
      c / 2048 == t && c % 32 == t && (c / 32) % 64 == t && (c / 32) % 64 < 32
    ensures t == 31 ==> Pack565(8 * t, 4 * t, 8 * t) == 0xFBFF
    ensures Pack565(8 * t, 4 * t, 8 * t) != 0xFFFF
  {
    assert (8 * t) / 8 == t && (4 * t) / 4 == t;
  }

  /** Each placed glyph starts at x plus the widths of the glyphs before it. */
  lemma {:induction false} PenIsSum(x: int, placed: seq<Placement>)
    requires forall k :: 0 <= k < |placed| ==> placed[k].x == Pen(x, placed[..k])
    ensures Pen(x, placed) == x + Widths(placed)
  {
    if placed != [] {
      var m := |placed| - 1;
      assert forall k :: 0 <= k < m ==> placed[..m][..k] == placed[..k];
      PenIsSum(x, placed[..m]);
    }
  }
}
