/** The offline video framer of `convert_badapple_gui.py`: every `frame_interval`-th source
    frame (already converted to grey and resized; the conversion is not part of this model)
    is thresholded to one bit per pixel, packed eight pixels to a byte, compressed, and
    written as one container record, a `<H` length followed by the compressed bytes. The
    compressor is an input function. The records it writes are exactly what the player's
    reader reads back. */
module Framer {
  import opened Bytes
  import opened Player

  type bit = b: int | 0 <= b <= 1

  /** A grey image: `rows[y][x]` for y < height, x < width. */
  type Image = seq<seq<byte>>

  predicate Rectangular<T>(rows: seq<seq<T>>, width: nat) {
    forall y :: 0 <= y < |rows| ==> |rows[y]| == width
  }

  // ------------------------------------------------------------------
  // Sampling
  // ------------------------------------------------------------------

  /** `max(1, int(round(orig_fps / target_fps)))`, given the rounded ratio. */
  function FrameInterval(ratio: int): (fi: nat)
    ensures fi >= 1
    ensures ratio >= 1 ==> fi == ratio
    ensures ratio < 1 ==> fi == 1
  {
    if ratio >= 1 then ratio else 1
  }

  /** Source frame `k` (counted from 0) is encoded. */
  predicate Sampled(k: nat, fi: nat)
    requires fi >= 1
  {
    k % fi == 0
  }

  // ------------------------------------------------------------------
  // Thresholding and packing
  // ------------------------------------------------------------------

  /** `(resized > threshold)`: 128 on the fixed path; with Otsu's method,
      `cv2.threshold(..., 0, 1, THRESH_BINARY + THRESH_OTSU)` sets 1 above the value it
      picks for the frame. */
  function Threshold(g: byte, threshold: int): (b: bit)
    ensures b == 1 <==> g > threshold
  {
    if g > threshold then 1 else 0
  }

  function Binarize(img: Image, threshold: int): (bits: seq<seq<bit>>)
    ensures |bits| == |img|
    ensures forall y :: 0 <= y < |img| ==> |bits[y]| == |img[y]|
    ensures forall y, x :: 0 <= y < |img| && 0 <= x < |img[y]| ==> (bits[y][x] == 1 <==> img[y][x] > threshold)
  {
    seq(|img|, y requires 0 <= y < |img| => seq(|img[y]|, x requires 0 <= x < |img[y]| => Threshold(img[y][x], threshold)))
  }

  function Pow2(n: nat): nat {
    if n == 0 then 1 else 2 * Pow2(n - 1)
  }

  /** The first n pixels of b as a binary number, the first one the most significant. */
  function Horner(b: seq<bit>, n: nat): nat
    requires n <= |b|
  {
    if n == 0 then 0 else 2 * Horner(b, n - 1) + b[n - 1]
  }

  lemma {:induction false} HornerBound(b: seq<bit>, n: nat)
    requires n <= |b|
    ensures Horner(b, n) < Pow2(n)
  {
    if n > 0 {
      HornerBound(b, n - 1);
    }
  }

  /** Eight pixels packed into one byte, the first in the most significant bit. */
  function Octet(b: seq<bit>): byte
    requires |b| == 8
  {
    HornerBound(b, 8);
    Horner(b, 8)
  }

  /** `v >> k` */
  function Shift(v: nat, k: nat): nat {
    if k == 0 then v else Shift(v / 2, k - 1)
  }

  /** Pixel i of a packed byte, counted from the most significant bit. */
  function BitOf(v: byte, i: nat): bit
    requires i < 8
  {
    Shift(v, 7 - i) % 2
  }

  lemma {:induction false} ShiftHorner(b: seq<bit>, n: nat, k: nat)
    requires k <= n <= |b|
    ensures Shift(Horner(b, n), k) == Horner(b, n - k)
    decreases k
  {
    if k > 0 {
      assert Horner(b, n) / 2 == Horner(b, n - 1);
      ShiftHorner(b, n - 1, k - 1);
    }
  }

  /** Unpacking a packed byte gives its eight pixels back, in order. */
  lemma {:induction false} OctetBits(b: seq<bit>)
    requires |b| == 8
    ensures forall i :: 0 <= i < 8 ==> BitOf(Octet(b), i) == b[i]
  {
    forall i | 0 <= i < 8
      ensures BitOf(Octet(b), i) == b[i]
    {
      ShiftHorner(b, 8, 7 - i);
      assert Horner(b, i + 1) % 2 == b[i];
    }
  }

  function ZeroBits(n: nat): (r: seq<bit>)
    ensures |r| == n && forall i :: 0 <= i < n ==> r[i] == 0
  {
    seq(n, i => 0)
  }

  /** Bytes a row of `width` pixels takes, `ceil(width / 8)`. */
  function RowBytes(width: nat): (r: nat)
    ensures width <= 8 * r < width + 8
  {
    (width + 7) / 8
  }

  /** `np.packbits` along a row: eight pixels per byte, the last byte padded with zero bits. */
  function PackRow(bits: seq<bit>): (r: seq<byte>)
    ensures |r| == RowBytes(|bits|)
    decreases |bits|
  {
    if |bits| == 0 then []
    else if |bits| >= 8 then [Octet(bits[..8])] + PackRow(bits[8..])
    else [Octet(bits + ZeroBits(8 - |bits|))]
  }

  /** Pixel x of a row is bit x % 8 of byte x / 8; the padding bits are zero. */
  lemma {:induction false} PackRowBits(bits: seq<bit>, x: nat)
    requires x < 8 * RowBytes(|bits|)
    ensures BitOf(PackRow(bits)[x / 8], x % 8) == if x < |bits| then bits[x] else 0
    decreases |bits|
  {
    if |bits| >= 8 {
      if x < 8 {
        OctetBits(bits[..8]);
      } else {
        PackRowBits(bits[8..], x - 8);
        assert (x - 8) / 8 == x / 8 - 1 && (x - 8) % 8 == x % 8;
      }
    } else {
      OctetBits(bits + ZeroBits(8 - |bits|));
    }
  }

  /** The packed frame: its rows one after the other. */
  function PackFrame(rows: seq<seq<bit>>): seq<byte> {
    if rows == [] then [] else PackFrame(rows[..|rows| - 1]) + PackRow(rows[|rows| - 1])
  }

  /** `height * ceil(width / 8)`, the size of one packed frame. */
  function PackedSize(width: nat, height: nat): nat {
    height * RowBytes(width)
  }

  /** Where row y starts in the packed frame. */
  function RowStart(rows: seq<seq<bit>>, y: nat): nat
    requires y <= |rows|
  {
    |PackFrame(rows[..y])|
  }

  lemma {:induction false} RowStartIs(rows: seq<seq<bit>>, width: nat, y: nat)
    requires Rectangular(rows, width) && y <= |rows|
    ensures RowStart(rows, y) == y * RowBytes(width)
  {
    if y > 0 {
      RowStartIs(rows, width, y - 1);
      assert rows[..y][..y - 1] == rows[..y - 1];
      assert PackFrame(rows[..y]) == PackFrame(rows[..y - 1]) + PackRow(rows[y - 1]);
      MulSucc(y - 1, RowBytes(width));
    }
  }

  /** Row y follows the rows before it. */
  lemma {:induction false} FramePrefix(rows: seq<seq<bit>>, y: nat)
    requires y < |rows|
    ensures RowStart(rows, y + 1) == RowStart(rows, y) + |PackRow(rows[y])| <= |PackFrame(rows)|
    ensures PackFrame(rows)[RowStart(rows, y)..RowStart(rows, y + 1)] == PackRow(rows[y])
    ensures PackFrame(rows)[..RowStart(rows, y + 1)] == PackFrame(rows[..y + 1])
    decreases |rows| - y
  {
    assert rows[..y + 1][..y] == rows[..y];
    assert PackFrame(rows[..y + 1]) == PackFrame(rows[..y]) + PackRow(rows[y]);
    if y + 1 == |rows| {
      assert rows[..y + 1] == rows;
    } else {
      FramePrefix(rows, y + 1);
      assert rows[..y + 2][..y + 1] == rows[..y + 1];
      assert PackFrame(rows[..y + 2]) == PackFrame(rows[..y + 1]) + PackRow(rows[y + 1]);
      assert PackFrame(rows)[..RowStart(rows, y + 1)] == PackFrame(rows[..y + 2])[..RowStart(rows, y + 1)];
    }
  }

  lemma {:induction false} PackFrameSize(rows: seq<seq<bit>>, width: nat)
    requires Rectangular(rows, width)
    ensures |PackFrame(rows)| == PackedSize(width, |rows|)
  {
    RowStartIs(rows, width, |rows|);
    assert rows[..|rows|] == rows;
  }

  /** Pixel (x, y) is bit x % 8 of byte y * ceil(width / 8) + x / 8: row-major, MSB first. */
  lemma {:induction false} PackFramePixel(rows: seq<seq<bit>>, width: nat, y: nat, x: nat)
    requires Rectangular(rows, width) && y < |rows| && x < width
    ensures y * RowBytes(width) + x / 8 < |PackFrame(rows)|
    ensures BitOf(PackFrame(rows)[y * RowBytes(width) + x / 8], x % 8) == rows[y][x]
  {
    var rb := RowBytes(width);
    RowStartIs(rows, width, y);
    FramePrefix(rows, y);
    PackRowBits(rows[y], x);
    assert x / 8 < rb;
    assert PackFrame(rows)[y * rb + x / 8] == PackFrame(rows)[RowStart(rows, y)..RowStart(rows, y + 1)][x / 8];
  }

  /** The panel geometry the player expects: a 128 x 160 frame packs into MONO_SIZE bytes. */
  lemma {:induction false} PanelFrameSize()
    ensures PackedSize(WIDTH, HEIGHT) == MONO_SIZE == 2560
  {
  }

  /** The raw bytes of one source frame. */
  function Raw(img: Image, threshold: int): seq<byte> {
    PackFrame(Binarize(img, threshold))
  }

  // ------------------------------------------------------------------
  // The encoding loop
  // ------------------------------------------------------------------

  /** What `zlib.compress(raw, level)` returns; the codec is not part of this model. */
  type Compressor = seq<byte> -> seq<byte>

  /** The threshold each sampled frame is cut at (lines 73-76). */
  type Cutoff = Image -> int

  /** With `use_otsu` the threshold is the one Otsu's method picks for that frame, an input
      since `cv2.threshold` is not part of this model; otherwise it is the fixed 128. */
  function FrameCutoff(useOtsu: bool, otsu: Cutoff): (c: Cutoff)
    ensures forall img :: c(img) == if useOtsu then otsu(img) else 128
  {
    img => if useOtsu then otsu(img) else 128
  }

  /** The payloads of the sampled frames among `frames`, in order, each frame binarized at
      its own threshold. */
  function Payloads(frames: seq<Image>, fi: nat, threshold: Cutoff, compress: Compressor): seq<seq<byte>>
    requires fi >= 1
  {
    if frames == [] then []
    else
      var k := |frames| - 1;
      Payloads(frames[..k], fi, threshold, compress) +
        (if Sampled(k, fi) then [compress(Raw(frames[k], threshold(frames[k])))] else [])
  }

  lemma {:induction false} MulPos(x: int, d: int)
    requires x >= 1 && d >= 0
    ensures x * d >= d
  {
    assert x * d == (x - 1) * d + d;
  }

  /** Euclidean division has one quotient and one remainder. */
  lemma {:induction false} DivUnique(a: int, d: int, q: int, r: int)
    requires d >= 1 && 0 <= r < d && a == q * d + r
    ensures a / d == q && a % d == r
  {
    var q0, r0 := a / d, a % d;
    assert (q - q0) * d == r0 - r;
    if q > q0 {
      MulPos(q - q0, d);
      assert false;
    } else if q < q0 {
      MulPos(q0 - q, d);
      assert false;
    }
  }

  /** How many of the frames 0..n-1 are sampled. */
  function SampleCount(n: nat, fi: nat): nat
    requires fi >= 1
  {
    (n + fi - 1) / fi
  }

  lemma {:induction false} SampleStep(k: nat, fi: nat)
    requires fi >= 1
    ensures SampleCount(k + 1, fi) == SampleCount(k, fi) + (if Sampled(k, fi) then 1 else 0)
    ensures Sampled(k, fi) ==> SampleCount(k, fi) * fi == k
  {
    var q, r := k / fi, k % fi;
    assert k == q * fi + r;
    if r == 0 {
      DivUnique(k + fi - 1, fi, q, fi - 1);
      DivUnique(k + fi, fi, q + 1, 0);
    } else {
      DivUnique(k + fi - 1, fi, q + 1, r - 1);
      DivUnique(k + fi, fi, q + 1, r);
    }
  }

  /** Every frame counted by SampleCount(k) comes before frame k. */
  lemma {:induction false} SampledBefore(k: nat, fi: nat, j: nat)
    requires fi >= 1 && j < SampleCount(k, fi)
    ensures j * fi < k
  {
    var q := SampleCount(k, fi);
    assert q * fi <= k + fi - 1;
    MulMono(j, q - 1, fi);
    assert (q - 1) * fi == q * fi - fi;
  }

  /** Exactly the multiples of the frame interval are encoded: payload j comes from source
      frame j * fi, and there are ceil(n / fi) of them. */
  lemma {:induction false} PayloadsSample(frames: seq<Image>, fi: nat, threshold: Cutoff, compress: Compressor)
    requires fi >= 1
    ensures |Payloads(frames, fi, threshold, compress)| == SampleCount(|frames|, fi)
    ensures forall j :: 0 <= j < SampleCount(|frames|, fi) ==>
      j * fi < |frames| && Payloads(frames, fi, threshold, compress)[j] == compress(Raw(frames[j * fi], threshold(frames[j * fi])))
    decreases |frames|
  {
    if frames != [] {
      var k := |frames| - 1;
      var front := Payloads(frames[..k], fi, threshold, compress);
      PayloadsSample(frames[..k], fi, threshold, compress);
      SampleStep(k, fi);
      forall j | 0 <= j < SampleCount(|frames|, fi)
        ensures j * fi < |frames| && Payloads(frames, fi, threshold, compress)[j] == compress(Raw(frames[j * fi], threshold(frames[j * fi])))
      {
        if j < SampleCount(k, fi) {
          SampledBefore(k, fi, j);
          assert frames[..k][j * fi] == frames[j * fi];
        }
      }
    }
  }

  /** `compress_video`'s loop (lines 52-95) over the source frames. A payload of 65536
      bytes or more makes `struct.pack('<H', ...)` raise before its header is written;
      that ends the encoder, with the records before it in the file. */
  method CompressVideo(frames: seq<Image>, ratio: int, width: nat, height: nat, useOtsu: bool, otsu: Cutoff, compress: Compressor)
    returns (ok: bool, out: seq<byte>, savedFrames: nat, totalRaw: nat, totalComp: nat)
    requires forall k :: 0 <= k < |frames| ==> |frames[k]| == height && Rectangular(frames[k], width)
    ensures var ps := Payloads(frames, FrameInterval(ratio), FrameCutoff(useOtsu, otsu), compress);
      (ok <==> Framable(ps)) &&
      (ok ==> out == Container(ps) && savedFrames == |ps| && savedFrames == SampleCount(|frames|, FrameInterval(ratio)) &&
              totalRaw == savedFrames * PackedSize(width, height) && totalComp == Total(ps)) &&
      (!ok ==> exists k :: 0 <= k < |ps| && |ps[k]| >= 0x1_0000 && Framable(ps[..k]) &&
                           out == Container(ps[..k]) && savedFrames == k)
  {
    var fi := FrameInterval(ratio);
    var threshold := FrameCutoff(useOtsu, otsu);
    ghost var ps := Payloads(frames, fi, threshold, compress);
    var frameCount := 0;
    ok, out, savedFrames, totalRaw, totalComp := true, [], 0, 0, 0;
    while frameCount < |frames|
      invariant frameCount <= |frames|
      invariant savedFrames <= |ps| && Framable(ps[..savedFrames]) && out == Container(ps[..savedFrames])
      invariant Payloads(frames[..frameCount], fi, threshold, compress) == ps[..savedFrames]
      invariant totalComp == Total(ps[..savedFrames]) && totalRaw == savedFrames * PackedSize(width, height)
    {
      NextFrame(frames, fi, threshold, compress, frameCount, savedFrames);
      if frameCount % fi == 0 {
        var raw := Raw(frames[frameCount], threshold(frames[frameCount]));
        RawSize(frames[frameCount], width, threshold(frames[frameCount]));
        totalRaw := totalRaw + |raw|;
        var comp := compress(raw);
        totalComp := totalComp + |comp|;
        if |comp| >= 0x1_0000 {
          ok := false;
          NotFramable(ps, savedFrames);
          return;
        }
        Grow(ps, savedFrames);
        MulSucc(savedFrames, PackedSize(width, height));
        out := out + PackU16LE(|comp|) + comp;
        savedFrames := savedFrames + 1;
      }
      frameCount := frameCount + 1;
    }
    assert frames[..|frames|] == frames;
    assert ps[..savedFrames] == ps;
    PayloadsSample(frames, fi, threshold, compress);
  }

  /** One more source frame either adds the next payload or adds nothing. */
  lemma {:induction false} NextFrame(frames: seq<Image>, fi: nat, threshold: Cutoff, compress: Compressor, n: nat, saved: nat)
    requires fi >= 1 && n < |frames|
    requires var ps := Payloads(frames, fi, threshold, compress);
      saved <= |ps| && Payloads(frames[..n], fi, threshold, compress) == ps[..saved]
    ensures var ps := Payloads(frames, fi, threshold, compress);
      var next := Payloads(frames[..n + 1], fi, threshold, compress);
      if Sampled(n, fi) then saved < |ps| && ps[saved] == compress(Raw(frames[n], threshold(frames[n]))) && next == ps[..saved + 1]
      else next == ps[..saved]
  {
    var ps := Payloads(frames, fi, threshold, compress);
    assert frames[..n + 1][..n] == frames[..n];
    PayloadsPrefix(frames, fi, threshold, compress, n + 1);
    var next := Payloads(frames[..n + 1], fi, threshold, compress);
    if Sampled(n, fi) {
      assert |next| == saved + 1;
      assert next[saved] == compress(Raw(frames[n], threshold(frames[n])));
    }
  }

  /** Appending a payload that fits appends its record and its size. */
  lemma {:induction false} Grow(ps: seq<seq<byte>>, n: nat)
    requires n < |ps| && Framable(ps[..n]) && |ps[n]| < 0x1_0000
    ensures Framable(ps[..n + 1])
    ensures Container(ps[..n + 1]) == Container(ps[..n]) + Record(ps[n])
    ensures Total(ps[..n + 1]) == Total(ps[..n]) + |ps[n]|
  {
    assert ps[..n + 1][..n] == ps[..n];
  }

  /** Total bytes of some payloads. */
  function Total(ps: seq<seq<byte>>): nat {
    if ps == [] then 0 else Total(ps[..|ps| - 1]) + |ps[|ps| - 1]|
  }

  lemma {:induction false} TotalAppend(ps: seq<seq<byte>>, p: seq<byte>)
    ensures Total(ps + [p]) == Total(ps) + |p|
  {
    assert (ps + [p])[..|ps|] == ps;
  }

  /** The payloads of a prefix of the frames are a prefix of the payloads. */
  lemma {:induction false} PayloadsPrefix(frames: seq<Image>, fi: nat, threshold: Cutoff, compress: Compressor, n: nat)
    requires fi >= 1 && n <= |frames|
    ensures var ps := Payloads(frames, fi, threshold, compress);
      var qs := Payloads(frames[..n], fi, threshold, compress);
      |qs| <= |ps| && qs == ps[..|qs|]
    decreases |frames| - n
  {
    if n < |frames| {
      PayloadsPrefix(frames, fi, threshold, compress, n + 1);
      assert frames[..n + 1][..n] == frames[..n];
    } else {
      assert frames[..n] == frames;
    }
  }

  /** A payload too long for `<H` makes every longer list of payloads unframable. */
  lemma {:induction false} NotFramable(ps: seq<seq<byte>>, k: nat)
    requires k < |ps| && |ps[k]| >= 0x1_0000
    ensures !Framable(ps)
  {
  }

  /** `total_raw` counts a whole packed frame per record. */
  lemma {:induction false} RawSize(img: Image, width: nat, threshold: int)
    requires Rectangular(img, width)
    ensures |Raw(img, threshold)| == PackedSize(width, |img|)
  {
    PackFrameSize(Binarize(img, threshold), width);
  }

  // ------------------------------------------------------------------
  // The command-line answers
  // ------------------------------------------------------------------

  /** ASCII lower-casing. */
  function Lower(s: string): (r: string)
    ensures |r| == |s|
  {
    seq(|s|, i requires 0 <= i < |s| => if 'A' <= s[i] <= 'Z' then (s[i] as int + 32) as char else s[i])
  }

  predicate EndsWith(s: string, suffix: string) {
    |suffix| <= |s| && s[|s| - |suffix|..] == suffix
  }

  /** Appends `.bin` unless the name already ends with it, in any case. */
  function FixBinName(name: string): (r: string)
    ensures EndsWith(Lower(r), ".bin")
    ensures EndsWith(Lower(name), ".bin") ==> r == name
    ensures !EndsWith(Lower(name), ".bin") ==> r == name + ".bin"
  {
    if EndsWith(Lower(name), ".bin") then name
    else
      var r := name + ".bin";
      assert Lower(r)[|r| - 4..] == ".bin";
      r
  }

  lemma {:induction false} FixBinNameIdempotent(name: string)
    ensures FixBinName(FixBinName(name)) == FixBinName(name)
  {
  }

  /** One answer to `get_input`: an empty line (after stripping) gives the default; a line that
      converts and passes the validator gives its value; anything else asks again (None). */
  function Ask<T>(line: string, default: T, convert: string -> Option<T>, valid: T -> bool): (r: Option<T>)
    ensures Strip(line) == [] ==> r == Some(default)
    ensures r.Some? && Strip(line) != [] ==> convert(Strip(line)) == r && valid(r.value)
    ensures Strip(line) != [] && convert(Strip(line)).Some? && valid(convert(Strip(line)).value) ==>
      r == convert(Strip(line))
  {
    var s := Strip(line);
    if s == [] then Some(default)
    else match convert(s)
      case None => None
      case Some(v) => if valid(v) then Some(v) else None
  }

  /** The characters `str.isspace()` accepts, which `str.strip()` removes at both ends. */
  predicate Space(c: char) {
    var n := c as int;
    9 <= n <= 13 || 0x1c <= n <= 0x20 || n == 0x85 || n == 0xa0 || n == 0x1680 ||
    0x2000 <= n <= 0x200a || n == 0x2028 || n == 0x2029 || n == 0x202f || n == 0x205f || n == 0x3000
  }

  /** r is s with some white space cut at each end. */
  ghost predicate Trimmed(s: string, r: string) {
    exists i, j :: 0 <= i <= j <= |s| && r == s[i..j] &&
      (forall k :: 0 <= k < i || j <= k < |s| ==> Space(s[k]))
  }

  /** `str.strip()`: s with its leading and trailing white space cut. */
  function Strip(s: string): (r: string)
    ensures Trimmed(s, r)
    ensures r != [] ==> !Space(r[0]) && !Space(r[|r| - 1])
    decreases |s|
  {
    if s == [] then
      assert s == s[0..0];
      []
    else if Space(s[0]) then
      var r := Strip(s[1..]);
      TrimFront(s, r);
      r
    else if Space(s[|s| - 1]) then
      var r := Strip(s[..|s| - 1]);
      TrimBack(s, r);
      r
    else
      assert s == s[0..|s|];
      s
  }

  lemma {:induction false} TrimFront(s: string, r: string)
    requires s != [] && Space(s[0]) && Trimmed(s[1..], r)
    ensures Trimmed(s, r)
  {
    var t := s[1..];
    var i, j :| 0 <= i <= j <= |t| && r == t[i..j] &&
      (forall k :: 0 <= k < i || j <= k < |t| ==> Space(t[k]));
    assert r == s[i + 1..j + 1];
    forall k | 0 <= k < i + 1 || j + 1 <= k < |s|
      ensures Space(s[k])
    {
      if k > 0 {
        assert s[k] == t[k - 1];
      }
    }
  }

  lemma {:induction false} TrimBack(s: string, r: string)
    requires s != [] && Space(s[|s| - 1]) && Trimmed(s[..|s| - 1], r)
    ensures Trimmed(s, r)
  {
    var t := s[..|s| - 1];
    var i, j :| 0 <= i <= j <= |t| && r == t[i..j] &&
      (forall k :: 0 <= k < i || j <= k < |t| ==> Space(t[k]));
    assert r == s[i..j];
    forall k | 0 <= k < i || j <= k < |s|
      ensures Space(s[k])
    {
      if k < |t| {
        assert s[k] == t[k];
      }
    }
  }

  /** A vertical tab typed after the name is white space too: `a.bin` followed by `\v` names
      the file `a.bin`. */
  lemma {:induction false} StripVerticalTab(line: string)
    requires line == "a.bin" + [11 as char]
    ensures Strip(line) == "a.bin" && FixBinName(Strip(line)) == "a.bin"
  {
    assert Space(line[|line| - 1]);
    assert line[..|line| - 1] == "a.bin";
    assert Strip("a.bin") == "a.bin";
  }

  predicate ValidFps(x: int) { 1 <= x <= 120 }
  predicate ValidLevel(x: int) { 0 <= x <= 9 }
  predicate ValidDimension(x: int) { x > 0 }

  const DEFAULT_FPS: int := 20
  const DEFAULT_LEVEL: int := 9
  const DEFAULT_WIDTH: int := 128
  const DEFAULT_HEIGHT: int := 160

  /** The defaults pass their own validators, and the default geometry is the panel's. */
  lemma {:induction false} DefaultsValid()
    ensures ValidFps(DEFAULT_FPS) && ValidLevel(DEFAULT_LEVEL)
    ensures ValidDimension(DEFAULT_WIDTH) && ValidDimension(DEFAULT_HEIGHT)
    ensures PackedSize(DEFAULT_WIDTH, DEFAULT_HEIGHT) == MONO_SIZE
  {
  }
}
