/** Mip chains: repeated halving of an RGBA image, and the encoding of all levels into one buffer. */
module TextureCooker {
  import opened Basics
  import opened Bytes

  datatype Format = Rgba8Unorm | Rgba8UnormSrgb | Rgba8UnormPremultiplied | Rgb8Unorm

  datatype Output = Output(data: seq<byte>, mipOffsets: seq<nat>, mipSizes: seq<(nat, nat)>, format: Format)

  function Pow2(k: nat): (p: nat)
    ensures p > 0
  {
    if k == 0 then 1 else 2 * Pow2(k - 1)
  }

  // ---------------------------------------------------------------------------------------------
  // Pixels
  // ---------------------------------------------------------------------------------------------

  predicate IsImage(img: seq<byte>, w: nat, h: nat) {
    |img| == w * h * 4
  }

  /** Where channel `c` of pixel (x, y) is stored. */
  function Index(w: nat, x: nat, y: nat, c: nat): nat {
    (y * w + x) * 4 + c
  }

  /** Channel `c` of pixel (x, y); 0 outside of the buffer. */
  function Channel(img: seq<byte>, w: nat, x: nat, y: nat, c: nat): (v: nat)
    ensures v < 256
  {
    if Index(w, x, y, c) < |img| then img[Index(w, x, y, c)] else 0
  }

  lemma IndexInside(w: nat, h: nat, x: nat, y: nat, c: nat)
    requires x < w && y < h && c < 4
    ensures Index(w, x, y, c) < w * h * 4
  {
    RowsAhead(y, h, w);
  }

  /** Different pixels do not share bytes. */
  lemma IndexApart(w: nat, x: nat, y: nat, c: nat, x': nat, y': nat, c': nat)
    requires x < w && x' < w && c < 4 && c' < 4 && (x, y) != (x', y')
    ensures Index(w, x, y, c) != Index(w, x', y', c')
  {
    if y < y' {
      RowsAhead(y, y', w);
    } else if y' < y {
      RowsAhead(y', y, w);
    }
  }

  /** One output channel of the 2x2 box filter, rounded to nearest. */
  function BoxChannel(src: seq<byte>, sw: nat, sh: nat, x: nat, y: nat, c: nat): (v: byte)
    requires sw >= 1 && sh >= 1
  {
    var sx, sy := Min(2 * x, sw - 1), Min(2 * y, sh - 1);
    var sx1, sy1 := Min(sx + 1, sw - 1), Min(sy + 1, sh - 1);
    (Channel(src, sw, sx, sy, c) + Channel(src, sw, sx1, sy, c)
     + Channel(src, sw, sx, sy1, c) + Channel(src, sw, sx1, sy1, c) + 2) / 4
  }

  function NearestChannel(src: seq<byte>, sw: nat, sh: nat, x: nat, y: nat, c: nat): (v: byte)
    requires sw >= 1 && sh >= 1
  {
    Channel(src, sw, Min(2 * x, sw - 1), Min(2 * y, sh - 1), c)
  }

  function Sample(src: seq<byte>, sw: nat, sh: nat, x: nat, y: nat, c: nat, box: bool): (v: byte)
    requires sw >= 1 && sh >= 1
  {
    if box then BoxChannel(src, sw, sh, x, y, c) else NearestChannel(src, sw, sh, x, y, c)
  }

  /** `dst` is the `dw` by `dh` image whose every channel is sampled from `src`. */
  ghost predicate Downsampled(src: seq<byte>, sw: nat, sh: nat, dst: seq<byte>, dw: nat, dh: nat, box: bool)
    requires sw >= 1 && sh >= 1
  {
    && IsImage(dst, dw, dh)
    && forall x, y, c | 0 <= x < dw && 0 <= y < dh && 0 <= c < 4 ::
         Channel(dst, dw, x, y, c) == Sample(src, sw, sh, x, y, c, box)
  }

  /** The rows above `dy` and the first `dx` pixels of row `dy` are done. */
  ghost predicate FilledTo(
    src: seq<byte>, sw: nat, sh: nat, dst: seq<byte>, dw: nat, dx: nat, dy: nat, box: bool)
    requires sw >= 1 && sh >= 1
  {
    forall x, y, c | 0 <= x < dw && 0 <= c < 4 && (0 <= y < dy || (y == dy && x < dx)) ::
      Channel(dst, dw, x, y, c) == Sample(src, sw, sh, x, y, c, box)
  }

  /** `pixel_at` stays inside the buffer. */
  method PixelAt(buf: seq<byte>, width: nat, height: nat, x: nat, y: nat) returns (p: seq<byte>)
    requires IsImage(buf, width, height) && x < width && y < height
    ensures |p| == 4 && forall c :: 0 <= c < 4 ==> p[c] == Channel(buf, width, x, y, c)
  {
    IndexInside(width, height, x, y, 3);
    var i := (y * width + x) * 4;
    p := [buf[i], buf[i + 1], buf[i + 2], buf[i + 3]];
  }

  /** Writes one pixel in place. */
  method Store(dst: array<byte>, dw: nat, dh: nat, x: nat, y: nat, p: seq<byte>)
    requires dst.Length == dw * dh * 4 && x < dw && y < dh && |p| == 4
    modifies dst
    ensures forall c :: 0 <= c < 4 ==> Channel(dst[..], dw, x, y, c) == p[c]
    ensures forall x', y', c | 0 <= x' < dw && 0 <= y' < dh && 0 <= c < 4 && (x', y') != (x, y) ::
      Channel(dst[..], dw, x', y', c) == Channel(old(dst[..]), dw, x', y', c)
  {
    IndexInside(dw, dh, x, y, 3);
    ghost var before := dst[..];
    var di := (y * dw + x) * 4;
    var c := 0;
    while c < 4
      invariant c <= 4
      invariant forall k :: 0 <= k < c ==> dst[di + k] == p[k]
      invariant forall i :: 0 <= i < dst.Length && !(di <= i < di + 4) ==> dst[i] == before[i]
    {
      dst[di + c] := p[c];
      c := c + 1;
    }
    forall x', y', c | 0 <= x' < dw && 0 <= y' < dh && 0 <= c < 4 && (x', y') != (x, y)
      ensures Channel(dst[..], dw, x', y', c) == Channel(before, dw, x', y', c)
    {
      IndexInside(dw, dh, x', y', c);
      var i := Index(dw, x', y', c);
      if di <= i < di + 4 {
        IndexApart(dw, x, y, i - di, x', y', c);
      }
    }
  }

  function Average(a: byte, b: byte, c: byte, d: byte): byte {
    (a + b + c + d + 2) / 4
  }

  /** The average of the four source pixels, clamped to the image. */
  method BoxPixel(src: seq<byte>, sw: nat, sh: nat, dx: nat, dy: nat) returns (p: seq<byte>)
    requires sw >= 1 && sh >= 1 && IsImage(src, sw, sh)
    ensures |p| == 4 && forall c :: 0 <= c < 4 ==> p[c] == BoxChannel(src, sw, sh, dx, dy, c)
  {
    hide Channel, IsImage;
    var sx, sy := Min(dx * 2, sw - 1), Min(dy * 2, sh - 1);
    var sx1, sy1 := Min(sx + 1, sw - 1), Min(sy + 1, sh - 1);
    var p00 := PixelAt(src, sw, sh, sx, sy);
    var p10 := PixelAt(src, sw, sh, sx1, sy);
    var p01 := PixelAt(src, sw, sh, sx, sy1);
    var p11 := PixelAt(src, sw, sh, sx1, sy1);
    p := seq(4, c requires 0 <= c < 4 => Average(p00[c], p10[c], p01[c], p11[c]));
  }

  /** `downsample_box`. */
  method DownsampleBox(src: seq<byte>, sw: nat, sh: nat, dw: nat, dh: nat) returns (dst: array<byte>)
    requires sw >= 1 && sh >= 1 && IsImage(src, sw, sh)
    ensures fresh(dst) && Downsampled(src, sw, sh, dst[..], dw, dh, true)
  {
    hide Channel, IsImage, BoxChannel, NearestChannel;
    dst := new byte[dw * dh * 4](i => 0);
    var dy := 0;
    while dy < dh
      invariant dy <= dh && FilledTo(src, sw, sh, dst[..], dw, 0, dy, true)
    {
      var dx := 0;
      while dx < dw
        invariant dx <= dw && FilledTo(src, sw, sh, dst[..], dw, dx, dy, true)
      {
        var p := BoxPixel(src, sw, sh, dx, dy);
        Store(dst, dw, dh, dx, dy, p);
        dx := dx + 1;
      }
      dy := dy + 1;
    }
    assert IsImage(dst[..], dw, dh) by { ImageSize(dst[..], dw, dh); }
  }

  lemma ImageSize(img: seq<byte>, w: nat, h: nat)
    requires |img| == w * h * 4
    ensures IsImage(img, w, h)
  {
  }

  /** `downsample_nearest`. */
  method DownsampleNearest(src: seq<byte>, sw: nat, sh: nat, dw: nat, dh: nat) returns (dst: array<byte>)
    requires sw >= 1 && sh >= 1 && IsImage(src, sw, sh)
    ensures fresh(dst) && Downsampled(src, sw, sh, dst[..], dw, dh, false)
  {
    hide Channel, IsImage;
    dst := new byte[dw * dh * 4](i => 0);
    var dy := 0;
    while dy < dh
      invariant dy <= dh && FilledTo(src, sw, sh, dst[..], dw, 0, dy, false)
    {
      var dx := 0;
      while dx < dw
        invariant dx <= dw && FilledTo(src, sw, sh, dst[..], dw, dx, dy, false)
      {
        var p := PixelAt(src, sw, sh, Min(dx * 2, sw - 1), Min(dy * 2, sh - 1));
        Store(dst, dw, dh, dx, dy, p);
        dx := dx + 1;
      }
      dy := dy + 1;
    }
    assert IsImage(dst[..], dw, dh) by { ImageSize(dst[..], dw, dh); }
  }

  // ---------------------------------------------------------------------------------------------
  // The chain
  // ---------------------------------------------------------------------------------------------

  /** A side of level `k`: halved and rounded down `k` times, but never below 1. */
  function Side(n: nat, k: nat): (r: nat) {
    if k == 0 then n else Max(Side(n, k - 1) / 2, 1)
  }

  /** In closed form: `max(1, n / 2^k)`. */
  lemma {:induction false} SideClosedForm(n: nat, k: nat)
    requires n >= 1
    ensures Side(n, k) == Max(n / Pow2(k), 1)
    ensures Pow2(k) <= n ==> Side(n, k) * Pow2(k) <= n < (Side(n, k) + 1) * Pow2(k)
  {
    SideBounds(n, k);
    if Pow2(k) <= n {
      DivUnique(n, Pow2(k), Side(n, k));
    }
  }

  lemma {:induction false} SideBounds(n: nat, k: nat)
    requires n >= 1
    ensures Pow2(k) <= n ==> Side(n, k) * Pow2(k) <= n < (Side(n, k) + 1) * Pow2(k)
    ensures n < Pow2(k) ==> Side(n, k) == 1
  {
    if k > 0 {
      SideBounds(n, k - 1);
      var s, d := Side(n, k - 1), Pow2(k - 1);
      if 2 * d <= n {
        assert s >= 2 by {
          if s < 2 { MulMono(s + 1, 2, d); }
        }
        HalfBounds(n, s, d);
      } else if d <= n {
        assert s < 2 by {
          if s >= 2 { MulMono(2, s, d); }
        }
      }
    }
  }

  lemma HalfBounds(n: nat, s: nat, d: nat)
    requires s * d <= n < (s + 1) * d
    ensures s / 2 * (2 * d) <= n < (s / 2 + 1) * (2 * d)
  {
    var h := s / 2;
    MulMono(2 * h, s, d);
    MulMono(s + 1, 2 * h + 2, d);
    assert h * (2 * d) == 2 * h * d && (h + 1) * (2 * d) == (2 * h + 2) * d;
  }

  function BitLength(n: nat): nat {
    if n == 0 then 0 else 1 + BitLength(n / 2)
  }

  /** `leading_zeros` of a number of `bits` bits. */
  function LeadingZeros(n: nat, bits: nat): (z: nat)
    ensures z <= bits
  {
    if bits == 0 || n >= Pow2(bits - 1) then 0 else 1 + LeadingZeros(n, bits - 1)
  }

  lemma {:induction false} LeadingZerosCount(n: nat, bits: nat)
    requires n < Pow2(bits)
    ensures bits - LeadingZeros(n, bits) == BitLength(n)
  {
    if bits > 0 {
      if n >= Pow2(bits - 1) {
        TopBit(n, bits);
      } else {
        LeadingZerosCount(n, bits - 1);
      }
    }
  }

  lemma {:induction false} TopBit(n: nat, bits: nat)
    requires bits > 0 && Pow2(bits - 1) <= n < Pow2(bits)
    ensures BitLength(n) == bits
  {
    if bits > 1 {
      TopBit(n / 2, bits - 1);
    }
  }

  /** `mip_level_count`, over 32-bit sides. */
  function MipLevelCount(width: nat, height: nat): nat {
    Max(32 - LeadingZeros(Max(width, height), 32), 1)
  }

  /** A chain from the base image down to a single pixel, every level sampled from the one before. */
  ghost predicate IsChain(mips: seq<seq<byte>>, w: nat, h: nat, box: bool) {
    && |mips| >= 1 && (|mips| > 1 ==> w >= 1 && h >= 1)
    && (forall k :: 0 <= k < |mips| ==> IsImage(mips[k], Side(w, k), Side(h, k)))
    && (forall k :: 0 < k < |mips| ==> LevelFollows(mips, w, h, k, box))
  }

  ghost predicate LevelFollows(mips: seq<seq<byte>>, w: nat, h: nat, k: nat, box: bool)
    requires w >= 1 && h >= 1 && 0 < k < |mips|
  {
    SidesPositive(w, h, k - 1);
    Downsampled(mips[k - 1], Side(w, k - 1), Side(h, k - 1), mips[k], Side(w, k), Side(h, k), box)
  }

  lemma SidesPositive(w: nat, h: nat, k: nat)
    requires w >= 1 && h >= 1
    ensures Side(w, k) >= 1 && Side(h, k) >= 1
  {
  }

  /** Beside an empty side the other one must not need halving: the filters would look for a nearest pixel. */
  predicate Halvable(w: nat, h: nat) {
    (w >= 1 && h >= 1) || Max(w, h) <= 1
  }

  /** `generate_mipmaps`: exactly as many levels as `mip_level_count` says. */
  method GenerateMipmaps(rgba: seq<byte>, width: nat, height: nat, quality: nat) returns (mips: seq<seq<byte>>)
    requires Halvable(width, height) && IsImage(rgba, width, height)
    ensures IsChain(mips, width, height, quality >= 50) && mips[0] == rgba
    ensures |mips| == Max(BitLength(Max(width, height)), 1)
    ensures Side(width, |mips| - 1) == Min(width, 1) && Side(height, |mips| - 1) == Min(height, 1)
    ensures width < 0x1_0000_0000 && height < 0x1_0000_0000 ==> |mips| == MipLevelCount(width, height)
  {
    hide Downsampled, IsImage, IsChain, BitLength, LevelFollows, LeadingZeros, Pow2;
    StartOfChain(rgba, width, height, quality >= 50);
    mips := [rgba];
    var w: nat, h: nat := width, height;
    while w > 1 || h > 1
      invariant |mips| >= 1 && mips[0] == rgba && Halvable(w, h)
      invariant (w >= 1 <==> width >= 1) && (h >= 1 <==> height >= 1)
      invariant w == Side(width, |mips| - 1) && h == Side(height, |mips| - 1)
      invariant IsChain(mips, width, height, quality >= 50)
      invariant |mips| - 1 + Max(BitLength(Max(w, h)), 1) == Max(BitLength(Max(width, height)), 1)
      decreases w + h
    {
      var newW, newH := Max(w / 2, 1), Max(h / 2, 1);
      var prev := mips[|mips| - 1];
      LastIsImage(mips, width, height, quality >= 50);
      var mip: array<byte>;
      if quality >= 50 {
        mip := DownsampleBox(prev, w, h, newW, newH);
      } else {
        mip := DownsampleNearest(prev, w, h, newW, newH);
      }
      assert IsImage(mip[..], newW, newH) by {
        DownsampledIsImage(prev, w, h, mip[..], newW, newH, quality >= 50);
      }
      mips := ChainAppend(mips, width, height, mip[..], quality >= 50);
      assert Max(newW, newH) == Max(w, h) / 2;
      BitLengthHalves(Max(w, h));
      w, h := newW, newH;
    }
    BitLengthHalves(Max(w, h));
    if width < 0x1_0000_0000 && height < 0x1_0000_0000 {
      Power32();
      LeadingZerosCount(Max(width, height), 32);
    }
  }

  lemma StartOfChain(rgba: seq<byte>, w: nat, h: nat, box: bool)
    requires IsImage(rgba, w, h)
    ensures IsChain([rgba], w, h, box)
  {
  }

  lemma LastIsImage(mips: seq<seq<byte>>, w: nat, h: nat, box: bool)
    requires IsChain(mips, w, h, box)
    ensures IsImage(mips[|mips| - 1], Side(w, |mips| - 1), Side(h, |mips| - 1))
  {
  }

  lemma BitLengthHalves(n: nat)
    ensures n >= 2 ==> Max(BitLength(n), 1) == 1 + Max(BitLength(n / 2), 1)
    ensures n <= 1 ==> Max(BitLength(n), 1) == 1
  {
  }

  lemma Power32()
    ensures Pow2(32) == 0x1_0000_0000
  {
    assert Pow2(8) == 0x100 && Pow2(16) == 0x1_0000 && Pow2(24) == 0x100_0000;
  }

  lemma DownsampledIsImage(src: seq<byte>, sw: nat, sh: nat, dst: seq<byte>, dw: nat, dh: nat, box: bool)
    requires sw >= 1 && sh >= 1 && Downsampled(src, sw, sh, dst, dw, dh, box)
    ensures IsImage(dst, dw, dh)
  {
  }

  method ChainAppend(mips: seq<seq<byte>>, w: nat, h: nat, mip: seq<byte>, box: bool)
    returns (mips': seq<seq<byte>>)
    requires w >= 1 && h >= 1 && IsChain(mips, w, h, box)
    requires IsImage(mip, Side(w, |mips|), Side(h, |mips|))
    requires Side(w, |mips| - 1) >= 1 && Side(h, |mips| - 1) >= 1
    requires Downsampled(mips[|mips| - 1], Side(w, |mips| - 1), Side(h, |mips| - 1),
                         mip, Side(w, |mips|), Side(h, |mips|), box)
    ensures mips' == mips + [mip] && IsChain(mips', w, h, box)
  {
    hide Downsampled, IsImage, Side;
    mips' := mips + [mip];
    forall k | 0 < k < |mips'| ensures LevelFollows(mips', w, h, k, box) {
      if k < |mips| {
        assert LevelFollows(mips, w, h, k, box);
      }
    }
  }

  /** The four parents of a pixel, where the size allows them: the clamps of the filters do nothing. */
  lemma ParentsInside(s: nat, x: nat)
    requires x < Max(s / 2, 1) && s >= 1
    ensures Min(2 * x, s - 1) == 2 * x
    ensures s >= 2 ==> Min(2 * x + 1, s - 1) == 2 * x + 1
  {
  }

  // ---------------------------------------------------------------------------------------------
  // Range
  // ---------------------------------------------------------------------------------------------

  ghost predicate WithinRange(img: seq<byte>, w: nat, h: nat, c: nat, lo: nat, hi: nat) {
    forall x, y | 0 <= x < w && 0 <= y < h :: lo <= Channel(img, w, x, y, c) <= hi
  }

  /** At every level, every channel stays within the extremes of the base image. */
  lemma {:induction false} ChainStaysInRange(
    mips: seq<seq<byte>>, w: nat, h: nat, box: bool, k: nat, c: nat, lo: nat, hi: nat)
    requires IsChain(mips, w, h, box) && k < |mips| && c < 4
    requires WithinRange(mips[0], w, h, c, lo, hi)
    ensures WithinRange(mips[k], Side(w, k), Side(h, k), c, lo, hi)
  {
    hide Channel, IsImage;
    if k > 0 {
      ChainStaysInRange(mips, w, h, box, k - 1, c, lo, hi);
      SidesPositive(w, h, k - 1);
      var sw, sh := Side(w, k - 1), Side(h, k - 1);
      var src, dst := mips[k - 1], mips[k];
      assert LevelFollows(mips, w, h, k, box);
      forall x, y | 0 <= x < Side(w, k) && 0 <= y < Side(h, k)
        ensures lo <= Channel(dst, Side(w, k), x, y, c) <= hi
      {
        assert Channel(dst, Side(w, k), x, y, c) == Sample(src, sw, sh, x, y, c, box);
      }
    }
  }

  // ---------------------------------------------------------------------------------------------
  // Nearest sampling
  // ---------------------------------------------------------------------------------------------

  /** Under nearest sampling a pixel of level `k` is the base pixel at `2^k` times its coordinates. */
  lemma {:induction false} NearestIsBasePixel(mips: seq<seq<byte>>, w: nat, h: nat, k: nat, x: nat, y: nat, c: nat)
    requires IsChain(mips, w, h, false) && k < |mips| && c < 4
    requires x < Side(w, k) && y < Side(h, k)
    ensures Channel(mips[k], Side(w, k), x, y, c) == Channel(mips[0], w, x * Pow2(k), y * Pow2(k), c)
  {
    hide Channel, IsImage, IsChain, Side;
    if k == 0 {
      assert x * Pow2(0) == x && y * Pow2(0) == y;
      BaseSide(w);
    } else {
      NearestParent(mips, w, h, k, x, y, c);
      NearestIsBasePixel(mips, w, h, k - 1, 2 * x, 2 * y, c);
      Doubling(x, Pow2(k - 1));
      Doubling(y, Pow2(k - 1));
    }
  }

  lemma NearestParent(mips: seq<seq<byte>>, w: nat, h: nat, k: nat, x: nat, y: nat, c: nat)
    requires IsChain(mips, w, h, false) && 0 < k < |mips| && c < 4
    requires x < Side(w, k) && y < Side(h, k)
    ensures 2 * x < Side(w, k - 1) && 2 * y < Side(h, k - 1)
    ensures Channel(mips[k], Side(w, k), x, y, c) == Channel(mips[k - 1], Side(w, k - 1), 2 * x, 2 * y, c)
  {
    hide Channel, IsImage;
    SidesPositive(w, h, k - 1);
    var sw, sh := Side(w, k - 1), Side(h, k - 1);
    assert LevelFollows(mips, w, h, k, false);
    ParentsInside(sw, x);
    ParentsInside(sh, y);
    assert Channel(mips[k], Side(w, k), x, y, c) == Sample(mips[k - 1], sw, sh, x, y, c, false);
  }

  // ---------------------------------------------------------------------------------------------
  // The accumulated rounding error of the box filter
  // ---------------------------------------------------------------------------------------------

  type Grid = (nat, nat) -> nat

  /** The sum of `f` over `nx` places of row `y`, from `x` on. */
  function RowSum(f: Grid, x: nat, y: nat, nx: nat): nat {
    if nx == 0 then 0 else RowSum(f, x, y, nx - 1) + f(x + nx - 1, y)
  }

  /** The sum of `f` over the block of `nx` by `ny` places at (x, y). */
  function BlockSum(f: Grid, x: nat, y: nat, nx: nat, ny: nat): nat {
    if ny == 0 then 0 else BlockSum(f, x, y, nx, ny - 1) + RowSum(f, x, y + ny - 1, nx)
  }

  lemma {:induction false} RowSplit(f: Grid, x: nat, y: nat, n: nat, m: nat)
    ensures RowSum(f, x, y, n + m) == RowSum(f, x, y, n) + RowSum(f, x + n, y, m)
  {
    if m > 0 {
      RowSplit(f, x, y, n, m - 1);
    }
  }

  lemma {:induction false} BlockSplitX(f: Grid, x: nat, y: nat, n: nat, m: nat, ny: nat)
    ensures BlockSum(f, x, y, n + m, ny) == BlockSum(f, x, y, n, ny) + BlockSum(f, x + n, y, m, ny)
  {
    hide RowSum;
    if ny > 0 {
      BlockSplitX(f, x, y, n, m, ny - 1);
      RowSplit(f, x, y + ny - 1, n, m);
    }
  }

  lemma {:induction false} BlockSplitY(f: Grid, x: nat, y: nat, nx: nat, n: nat, m: nat)
    ensures BlockSum(f, x, y, nx, n + m) == BlockSum(f, x, y, nx, n) + BlockSum(f, x, y + n, nx, m)
  {
    hide RowSum;
    if m > 0 {
      BlockSplitY(f, x, y, nx, n, m - 1);
    }
  }

  lemma BlockOfOne(f: Grid, x: nat, y: nat)
    ensures BlockSum(f, x, y, 1, 1) == f(x, y)
  {
    assert RowSum(f, x, y, 1) == f(x, y);
  }

  function Abs(i: int): nat {
    if i < 0 then -i else i
  }

  function ChannelOf(img: seq<byte>, w: nat, c: nat): Grid {
    (x: nat, y: nat) => Channel(img, w, x, y, c)
  }

  /** The sum over the block of `p` by `q` base pixels under pixel (x, y) of a level. */
  function Under(base: Grid, x: nat, y: nat, p: nat, q: nat): nat {
    BlockSum(base, x * p, y * q, p, q)
  }

  /** A block is the sum of its halves, whichever way it is cut. */
  lemma UnderHalves(base: Grid, x: nat, y: nat, p: nat, q: nat)
    ensures Under(base, x, y, 2 * p, q) == Under(base, 2 * x, y, p, q) + Under(base, 2 * x + 1, y, p, q)
    ensures Under(base, x, y, p, 2 * q) == Under(base, x, 2 * y, p, q) + Under(base, x, 2 * y + 1, p, q)
  {
    hide BlockSum;
    Doubling(x, p);
    Doubling(y, q);
    BlockSplitX(base, x * (2 * p), y * q, p, p, q);
    BlockSplitY(base, x * p, y * (2 * q), p, q, q);
  }

  lemma UnderItself(base: Grid, x: nat, y: nat)
    ensures Under(base, x, y, 1, 1) == base(x, y)
  {
    BlockOfOne(base, x, y);
  }

  lemma Doubling(x: nat, n: nat)
    ensures x * (2 * n) == 2 * x * n && x * (2 * n) + n == (2 * x + 1) * n
  {
  }

  /** How many of the first `k` steps really halve a side; the others leave it at one. */
  function Halvings(n: nat, k: nat): nat {
    if k == 0 then 0 else Halvings(n, k - 1) + (if Side(n, k - 1) >= 2 then 1 else 0)
  }

  /** All of the first `k` steps, as long as the side is large enough. */
  lemma {:induction false} HalvingsClosedForm(n: nat, k: nat)
    requires n >= 1
    ensures Halvings(n, k) == Min(k, BitLength(n) - 1)
    ensures BitLength(Side(n, k)) == Max(BitLength(n) - k, 1)
    decreases k
  {
    if k > 0 {
      hide Side, BitLength;
      HalvingsClosedForm(n, k - 1);
      BaseSide(n);
      NextSide(n, k);
    } else {
      BaseSide(n);
    }
  }

  lemma NextSide(n: nat, k: nat)
    requires n >= 1 && k > 0
    ensures
      var s, t := Side(n, k - 1), Side(n, k);
      && (if s >= 2 then t == s / 2 && BitLength(t) == BitLength(s) - 1 && BitLength(s) >= 2 else t == s == 1)
      && BitLength(1) == 1
  {
  }

  /** The block lies inside the base image. */
  lemma {:induction false} BlockInside(n: nat, k: nat, x: nat)
    requires n >= 1 && x < Side(n, k)
    ensures (x + 1) * Pow2(Halvings(n, k)) <= n
    decreases k
  {
    if k > 0 {
      var s, p := Side(n, k - 1), Pow2(Halvings(n, k - 1));
      BlockInside(n, k - 1, s - 1);
      if s >= 2 {
        MulMono(2 * (x + 1), s, p);
        assert (x + 1) * (2 * p) == 2 * (x + 1) * p;
      }
    }
  }

  /** `v` is a quarter of `sum`, rounded to nearest, halves up. */
  predicate Quarter(v: nat, sum: nat) {
    -1 <= 4 * v - sum <= 2
  }

  /** One more level adds at most half a unit of its own, in base units. */
  lemma ErrorStep(v: nat, a: nat, b: nat, c: nat, d: nat, sa: nat, sb: nat, sc: nat, sd: nat, p: nat, k: nat)
    requires 2 * Abs(p * a - sa) <= k * p && 2 * Abs(p * b - sb) <= k * p
    requires 2 * Abs(p * c - sc) <= k * p && 2 * Abs(p * d - sd) <= k * p
    requires Quarter(v, a + b + c + d)
    ensures 2 * Abs(4 * (p * v) - (sa + sb + sc + sd)) <= 4 * ((k + 1) * p)
  {
    var sum, s := a + b + c + d, sa + sb + sc + sd;
    var e := 4 * v - sum;
    Distribute(p, a, b, c, d);
    assert Abs(p * sum - s) <= Abs(p * a - sa) + Abs(p * b - sb) + Abs(p * c - sc) + Abs(p * d - sd);
    Scale(p, v, sum, e);
    assert (k + 1) * p == k * p + p;
  }

  lemma Distribute(p: nat, a: nat, b: nat, c: nat, d: nat)
    ensures p * (a + b + c + d) == p * a + p * b + p * c + p * d
  {
  }

  lemma Scale(p: nat, v: nat, sum: nat, e: int)
    requires 4 * v == sum + e && -2 <= e <= 2
    ensures 4 * (p * v) == p * sum + p * e && -2 * p <= p * e <= 2 * p
  {
    assert 4 * (p * v) == p * (4 * v) == p * (sum + e);
    if e >= 0 {
      MulMono(e, 2, p);
    } else {
      MulMono(-e, 2, p);
    }
  }

  /** The channel `v` stands for an area of base pixels with the sum `s`, up to half a unit for each of `k` levels. */
  predicate Approximates(v: nat, area: nat, s: nat, k: nat) {
    2 * Abs(area * v - s) <= k * area
  }

  /**
    Accumulated rounding: a channel of level `k` is the mean of the base channel over the block under the pixel,
    up to half a unit for each level; also where one side has long been a single pixel.
  */
  lemma {:induction false} AccumulatedRounding(
    mips: seq<seq<byte>>, w: nat, h: nat, k: nat, x: nat, y: nat, c: nat)
    requires IsChain(mips, w, h, true) && k < |mips| && c < 4
    requires w >= 1 && h >= 1 && x < Side(w, k) && y < Side(h, k)
    ensures
      var p, q := Pow2(Halvings(w, k)), Pow2(Halvings(h, k));
      && (x + 1) * p <= w && (y + 1) * q <= h
      && Approximates(
           Channel(mips[k], Side(w, k), x, y, c), p * q, Under(ChannelOf(mips[0], w, c), x, y, p, q), k)
    decreases k
  {
    hide Channel, IsImage, Under, BoxChannel, Side, IsChain, Approximates, Halvings;
    BlockInside(w, k, x);
    BlockInside(h, k, y);
    var base := ChannelOf(mips[0], w, c);
    if k == 0 {
      BaseSide(w);
      BaseSide(h);
      UnderItself(base, x, y);
      ExactAtFirst(base(x, y));
      assert base(x, y) == Channel(mips[0], w, x, y, c);
    } else {
      BoxOfParents(mips, w, h, k, x, y, c);
      var x1, y1 := Other(w, k, x), Other(h, k, y);
      AccumulatedRounding(mips, w, h, k - 1, 2 * x, 2 * y, c);
      AccumulatedRounding(mips, w, h, k - 1, x1, 2 * y, c);
      AccumulatedRounding(mips, w, h, k - 1, 2 * x, y1, c);
      AccumulatedRounding(mips, w, h, k - 1, x1, y1, c);
      RoundingStep(base, w, h, k, x, y, c, mips[k - 1], Channel(mips[k], Side(w, k), x, y, c));
    }
  }

  lemma ExactAtFirst(v: nat)
    ensures Pow2(0) * Pow2(0) == 1 && Approximates(v, 1, v, 0)
    ensures forall n: nat :: Halvings(n, 0) == 0
  {
  }

  /** The parent beside pixel `2 * x`: the next one, or itself where the side is a single pixel. */
  function Other(n: nat, k: nat, x: nat): nat
    requires k > 0
  {
    if Side(n, k - 1) >= 2 then 2 * x + 1 else 2 * x
  }

  /** Half of the block, or, beside a side of one pixel, the block itself. */
  lemma RoundingStep(
    base: Grid, w: nat, h: nat, k: nat, x: nat, y: nat, c: nat, img: seq<byte>, v: nat)
    requires k > 0 && w >= 1 && h >= 1 && x < Side(w, k) && y < Side(h, k)
    requires Quarter(v, ParentSum(img, w, h, k, x, y, c))
    requires
      var p, q, sw := Pow2(Halvings(w, k - 1)), Pow2(Halvings(h, k - 1)), Side(w, k - 1);
      forall x', y' | x' in {2 * x, Other(w, k, x)} && y' in {2 * y, Other(h, k, y)} ::
        Approximates(Channel(img, sw, x', y', c), p * q, Under(base, x', y', p, q), k - 1)
    ensures
      var p, q := Pow2(Halvings(w, k)), Pow2(Halvings(h, k));
      Approximates(v, p * q, Under(base, x, y, p, q), k)
  {
    hide Under, Channel, Side;
    var p, q, sw := Pow2(Halvings(w, k - 1)), Pow2(Halvings(h, k - 1)), Side(w, k - 1);
    var p', q' := Pow2(Halvings(w, k)), Pow2(Halvings(h, k));
    var x1, y1 := Other(w, k, x), Other(h, k, y);
    BlockGrows(w, k, x);
    BlockGrows(h, k, y);
    ErrorStep(
      v, Channel(img, sw, 2 * x, 2 * y, c), Channel(img, sw, x1, 2 * y, c),
      Channel(img, sw, 2 * x, y1, c), Channel(img, sw, x1, y1, c),
      Under(base, 2 * x, 2 * y, p, q), Under(base, x1, 2 * y, p, q),
      Under(base, 2 * x, y1, p, q), Under(base, x1, y1, p, q), p * q, k - 1);
    hide Approximates;
    var total := Under(base, 2 * x, 2 * y, p, q) + Under(base, x1, 2 * y, p, q)
      + Under(base, 2 * x, y1, p, q) + Under(base, x1, y1, p, q);
    UnderHalves(base, x, y, p, q);
    UnderHalves(base, 2 * x, y, p, q);
    UnderHalves(base, x1, y, p, q);
    UnderHalves(base, x, y, p, 2 * q);
    var f := (if p' == 2 * p then 2 else 1) * (if q' == 2 * q then 2 else 1);
    AreaGrows(p, q, p', q');
    SpreadOver(v, p * q, f, total, Under(base, x, y, p', q'), k);
  }

  /** A block grows with its side, or the side and the pixel are a single one. */
  lemma BlockGrows(n: nat, k: nat, x: nat)
    requires k > 0 && n >= 1 && x < Side(n, k)
    ensures
      var p, p' := Pow2(Halvings(n, k - 1)), Pow2(Halvings(n, k));
      if Side(n, k - 1) >= 2 then p' == 2 * p && Other(n, k, x) == 2 * x + 1
      else p' == p && x == 0 && Other(n, k, x) == 0
  {
  }

  lemma AreaGrows(p: nat, q: nat, p': nat, q': nat)
    requires (p' == p || p' == 2 * p) && (q' == q || q' == 2 * q) && p > 0 && q > 0
    ensures p' * q' == (if p' == 2 * p then 2 else 1) * (if q' == 2 * q then 2 else 1) * (p * q)
  {
    assert 2 * p * q == 2 * (p * q) && p * (2 * q) == 2 * (p * q) && 2 * p * (2 * q) == 4 * (p * q);
  }

  lemma Associates(a: nat, b: nat, c: nat)
    ensures a * b * c == a * (b * c)
  {
  }

  lemma SpreadOver(v: nat, area: nat, f: nat, total: nat, s: nat, k: nat)
    requires (f == 1 && total == 4 * s) || (f == 2 && total == 2 * s) || (f == 4 && total == s)
    requires 2 * Abs(4 * (area * v) - total) <= 4 * (k * area)
    ensures Approximates(v, f * area, s, k)
  {
    Associates(f, area, v);
    Associates(f, k, area);
    Associates(k, f, area);
    assert k * f == f * k;
  }

  lemma BaseSide(n: nat)
    ensures Side(n, 0) == n
  {
  }

  function ParentSum(img: seq<byte>, w: nat, h: nat, k: nat, x: nat, y: nat, c: nat): nat
    requires k > 0
  {
    var sw, x1, y1 := Side(w, k - 1), Other(w, k, x), Other(h, k, y);
    Channel(img, sw, 2 * x, 2 * y, c) + Channel(img, sw, x1, 2 * y, c)
    + Channel(img, sw, 2 * x, y1, c) + Channel(img, sw, x1, y1, c)
  }

  /** A pixel is the rounded mean of its parents, each of which counts as often as the clamps bring it up. */
  lemma BoxOfParents(mips: seq<seq<byte>>, w: nat, h: nat, k: nat, x: nat, y: nat, c: nat)
    requires IsChain(mips, w, h, true) && 0 < k < |mips| && c < 4
    requires x < Side(w, k) && y < Side(h, k)
    ensures 2 * x <= Other(w, k, x) < Side(w, k - 1) && 2 * y <= Other(h, k, y) < Side(h, k - 1)
    ensures Quarter(Channel(mips[k], Side(w, k), x, y, c), ParentSum(mips[k - 1], w, h, k, x, y, c))
  {
    hide Channel, IsImage;
    assert LevelFollows(mips, w, h, k, true);
    SidesPositive(w, h, k - 1);
    var sw, sh := Side(w, k - 1), Side(h, k - 1);
    ParentsInside(sw, x);
    ParentsInside(sh, y);
    assert Channel(mips[k], Side(w, k), x, y, c) == Sample(mips[k - 1], sw, sh, x, y, c, true);
  }

  // ---------------------------------------------------------------------------------------------
  // Encoding
  // ---------------------------------------------------------------------------------------------

  function DropAlpha(mip: seq<byte>): seq<byte> {
    if |mip| < 4 then [] else mip[..3] + DropAlpha(mip[4..])
  }

  lemma {:induction false} DropAlphaKeepsColours(mip: seq<byte>, p: nat, c: nat)
    requires 4 * p + 3 < |mip| && c < 3
    ensures |DropAlpha(mip)| == 3 * (|mip| / 4)
    ensures DropAlpha(mip)[3 * p + c] == mip[4 * p + c]
  {
    DropAlphaLength(mip);
    if p > 0 {
      DropAlphaKeepsColours(mip[4..], p - 1, c);
      assert DropAlpha(mip)[3 * p + c] == DropAlpha(mip[4..])[3 * (p - 1) + c];
    }
  }

  lemma {:induction false} DropAlphaLength(mip: seq<byte>)
    ensures |DropAlpha(mip)| == 3 * (|mip| / 4)
  {
    if |mip| >= 4 {
      DropAlphaLength(mip[4..]);
    }
  }

  function EncodeLevel(mip: seq<byte>, format: Format): seq<byte> {
    if format == Rgb8Unorm then DropAlpha(mip) else mip
  }

  /** The levels of a chain lie in `data` one behind the other, where the offsets say. */
  ghost predicate Laid(chain: seq<seq<byte>>, n: nat, data: seq<byte>, offsets: seq<nat>, format: Format)
    requires n <= |chain| && |offsets| == n
  {
    && (forall k | 0 <= k < n ::
         && offsets[k] + |EncodeLevel(chain[k], format)| <= |data|
         && data[offsets[k]..offsets[k] + |EncodeLevel(chain[k], format)|] == EncodeLevel(chain[k], format))
    && (forall k | 0 < k < n :: offsets[k] == offsets[k - 1] + |EncodeLevel(chain[k - 1], format)|)
    && (n > 0 ==> offsets[0] == 0 && |data| == offsets[n - 1] + |EncodeLevel(chain[n - 1], format)|)
    && (n == 0 ==> data == [])
  }

  /** `encode_mip_chain`: the offsets are prefix sums and slice every encoded level back out. */
  method EncodeMipChain(chain: seq<seq<byte>>, baseW: nat, baseH: nat, format: Format) returns (out: Output)
    ensures |out.mipOffsets| == |chain| == |out.mipSizes| && out.format == format
    ensures Laid(chain, |chain|, out.data, out.mipOffsets, format)
    ensures forall k | 0 <= k < |chain| :: out.mipSizes[k] == (Side(baseW, k), Side(baseH, k))
  {
    hide EncodeLevel, Laid;
    LaidEmpty(chain, format);
    var data: seq<byte>, offsets: seq<nat>, sizes: seq<(nat, nat)> := [], [], [];
    var w, h := baseW, baseH;
    var k := 0;
    while k < |chain|
      invariant k <= |chain| && |offsets| == k == |sizes|
      invariant w == Side(baseW, k) && h == Side(baseH, k)
      invariant forall j | 0 <= j < k :: sizes[j] == (Side(baseW, j), Side(baseH, j))
      invariant Laid(chain, k, data, offsets, format)
    {
      var level := EncodeOne(chain[k], format);
      LaidAppend(chain, k, data, offsets, format);
      offsets := offsets + [|data|];
      sizes := sizes + [(w, h)];
      data := data + level;
      w, h := Max(w / 2, 1), Max(h / 2, 1);
      k := k + 1;
    }
    out := Output(data, offsets, sizes, format);
  }

  lemma LaidEmpty(chain: seq<seq<byte>>, format: Format)
    ensures Laid(chain, 0, [], [], format)
  {
  }

  lemma LaidAppend(chain: seq<seq<byte>>, n: nat, data: seq<byte>, offsets: seq<nat>, format: Format)
    requires n < |chain| && |offsets| == n && Laid(chain, n, data, offsets, format)
    ensures Laid(chain, n + 1, data + EncodeLevel(chain[n], format), offsets + [|data|], format)
  {
    hide EncodeLevel;
    var data', offsets' := data + EncodeLevel(chain[n], format), offsets + [|data|];
    forall k | 0 <= k < n + 1
      ensures data'[offsets'[k]..offsets'[k] + |EncodeLevel(chain[k], format)|] == EncodeLevel(chain[k], format)
    {
      if k < n {
        var i, j := offsets[k], offsets[k] + |EncodeLevel(chain[k], format)|;
        assert data'[i..j] == data[i..j];
      }
    }
  }

  /** Where the next level starts, or the buffer ends. */
  function EndOf(data: seq<byte>, offsets: seq<nat>, k: nat): nat
    requires k < |offsets|
  {
    if k + 1 < |offsets| then offsets[k + 1] else |data|
  }

  /** Channel `c` of pixel `p` is the same with three bytes for a pixel and with four. */
  predicate SameColour(rgb: seq<byte>, rgba: seq<byte>, p: nat, c: nat) {
    3 * p + c < |rgb| && 4 * p + c < |rgba| && rgb[3 * p + c] == rgba[4 * p + c]
  }

  /**
    What the offsets lead to: in the three formats with alpha the level itself, and in the one without the three colour
    bytes of every pixel, close together.
  */
  lemma LevelsReadBack(chain: seq<seq<byte>>, data: seq<byte>, offsets: seq<nat>, format: Format, k: nat)
    requires |offsets| == |chain| && Laid(chain, |chain|, data, offsets, format) && k < |chain|
    ensures offsets[k] <= EndOf(data, offsets, k) <= |data|
    ensures format.Rgba8Unorm? || format.Rgba8UnormSrgb? || format.Rgba8UnormPremultiplied? ==>
      data[offsets[k]..EndOf(data, offsets, k)] == chain[k]
    ensures format.Rgb8Unorm? ==>
      var level := data[offsets[k]..EndOf(data, offsets, k)];
      && |level| == 3 * (|chain[k]| / 4)
      && forall p, c | 0 <= p < |chain[k]| / 4 && 0 <= c < 3 :: SameColour(level, chain[k], p, c)
  {
    hide DropAlpha;
    LaidEnds(chain, data, offsets, format, k);
    if format.Rgb8Unorm? {
      DropAlphaLength(chain[k]);
      forall p, c | 0 <= p < |chain[k]| / 4 && 0 <= c < 3 ensures SameColour(DropAlpha(chain[k]), chain[k], p, c) {
        DropAlphaKeepsColours(chain[k], p, c);
      }
    }
  }

  lemma LaidEnds(chain: seq<seq<byte>>, data: seq<byte>, offsets: seq<nat>, format: Format, k: nat)
    requires |offsets| == |chain| && Laid(chain, |chain|, data, offsets, format) && k < |chain|
    ensures offsets[k] <= EndOf(data, offsets, k) <= |data|
    ensures data[offsets[k]..EndOf(data, offsets, k)] == EncodeLevel(chain[k], format)
  {
    hide EncodeLevel;
    if k + 1 < |chain| {
      assert offsets[k + 1] == offsets[k + 1 - 1] + |EncodeLevel(chain[k + 1 - 1], format)|;
    }
  }

  /** One level: copied, or copied without its alpha bytes. */
  method EncodeOne(mip: seq<byte>, format: Format) returns (level: seq<byte>)
    ensures level == EncodeLevel(mip, format)
  {
    if format != Rgb8Unorm {
      return mip;
    }
    level := [];
    var i := 0;
    while i + 4 <= |mip|
      invariant i <= |mip| && level + DropAlpha(mip[i..]) == DropAlpha(mip)
    {
      assert mip[i..][..3] == mip[i..i + 3] && mip[i..][4..] == mip[i + 4..];
      level := level + mip[i..i + 3];
      i := i + 4;
    }
    assert DropAlpha(mip[i..]) == [];
  }

  /** The output tells of the levels of a chain over the image. */
  ghost predicate CookedFrom(chain: seq<seq<byte>>, rgba: seq<byte>, w: nat, h: nat, out: Output) {
    && |chain| == |out.mipOffsets| == |out.mipSizes| && chain != [] && chain[0] == rgba
    && forall k | 0 <= k < |chain| :: out.mipSizes[k] == (Side(w, k), Side(h, k))
  }

  /** `cook_full` on at least `width * height * 4` bytes. */
  method CookFull(pixels: seq<byte>, width: nat, height: nat, mipmaps: bool, quality: nat, format: Format)
    returns (out: Output)
    requires (mipmaps ==> Halvable(width, height)) && |pixels| >= width * height * 4
    ensures exists chain ::
      && CookedFrom(chain, pixels[..width * height * 4], width, height, out)
      && Laid(chain, |chain|, out.data, out.mipOffsets, format)
      && if mipmaps then IsChain(chain, width, height, quality >= 50) && |chain| == Max(BitLength(Max(width, height)), 1)
         else |chain| == 1
  {
    hide Laid, IsChain;
    var rgba := pixels[..width * height * 4];
    var mips := [rgba];
    if mipmaps {
      mips := GenerateMipmaps(rgba, width, height, quality);
      ChainHasBase(mips, width, height, quality >= 50);
    }
    out := EncodeMipChain(mips, width, height, format);
    assert CookedFrom(mips, rgba, width, height, out);
  }

  lemma ChainHasBase(mips: seq<seq<byte>>, w: nat, h: nat, box: bool)
    requires IsChain(mips, w, h, box)
    ensures mips != []
  {
  }
}
