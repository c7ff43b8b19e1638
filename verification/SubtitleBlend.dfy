// Blending of a paletted subtitle bitmap into a 4:2:0 picture, as ffplay does it.
//
// The source walks three planes with raw pointers, in bands of two rows and
// blocks of two columns, with special cases for odd starts and odd sizes.  Here
// the pointers are array indices.  The walk is proved against one blend per
// covered pixel on the luma plane and one blend per covered 2x2 cell on each
// chroma plane.

module SubtitleBlend {
  import opened Bytes

  const ONE_PIXEL := 0
  const TWO_PIXELS := 1
  const FOUR_PIXELS := 2

  // ---------------------------------------------------------------- macros

  // 1 << s, for the shifts the walk uses: the number of pixels behind a colour sum.
  function Weight(s: nat): nat
  {
    if s == 0 then 1 else if s == 1 then 2 else 4
  }

  // ALPHA_BLEND.  The result is the rounded-down mix of oldp and newp / Weight(s):
  // it lies between them, keeps oldp when transparent and takes newp / Weight(s) when opaque.
  function AlphaBlend(a: byte, oldp: byte, newp: nat, s: nat): (r: byte)
    requires newp <= 255 * Weight(s)
    ensures a == 0 ==> r == oldp
    ensures a == 255 ==> r == newp / Weight(s)
    ensures oldp * Weight(s) <= newp ==> oldp <= r && r * Weight(s) <= newp
    ensures newp <= oldp * Weight(s) ==> newp / Weight(s) <= r <= oldp
  {
    var n := Weight(s);
    BlendByte(a, oldp, newp, n);
    (oldp * n * (255 - a) + newp * a) / (255 * n)
  }

  // The blend of two bytes, the second given as a sum of n.
  lemma BlendByte(a: byte, oldp: byte, newp: nat, n: nat)
    requires (n == 1 || n == 2 || n == 4) && newp <= 255 * n
    ensures var r := (oldp * n * (255 - a) + newp * a) / (255 * n);
            && 0 <= r < 256
            && (a == 0 ==> r == oldp)
            && (a == 255 ==> r == newp / n)
            && (oldp * n <= newp ==> oldp <= r && r * n <= newp)
            && (newp <= oldp * n ==> newp / n <= r <= oldp)
  {
    BlendBounds(a, oldp * n, newp, n);
    Weighted(oldp, n);
    Unweighted((oldp * n * (255 - a) + newp * a) / (255 * n), oldp, newp, n);
  }

  lemma Weighted(x: byte, n: nat)
    requires n == 1 || n == 2 || n == 4
    ensures x * n / n == x
  {
  }

  lemma Unweighted(r: int, oldp: byte, newp: nat, n: nat)
    requires (n == 1 || n == 2 || n == 4) && newp <= 255 * n
    ensures r * n <= oldp * n ==> r <= oldp
    ensures r * n <= newp ==> r < 256
  {
  }

  lemma MulMonotone(x: int, y: int, k: nat)
    requires x <= y
    ensures x * k <= y * k
  {
    if x < y {
      assert (y - x) * k >= 0;
    }
  }

  lemma NextRow(y: nat, stride: nat)
    ensures (y + 1) * stride == y * stride + stride
  {
  }

  lemma MixBetween(lo: nat, hi: nat, a: byte)
    requires lo <= hi
    ensures 255 * lo <= lo * (255 - a) + hi * a <= 255 * hi
  {
    MulMonotone(lo, hi, a);
    MulMonotone(lo, hi, 255 - a);
  }

  // Dividing a mix of x and z (scaled by 255) by 255 * n.
  lemma ScaleDown(mix: nat, n: nat, lo: nat, hi: nat)
    requires n == 1 || n == 2 || n == 4
    requires 255 * lo <= mix <= 255 * hi
    ensures lo / n <= mix / (255 * n)
    ensures mix / (255 * n) * n <= hi
  {
  }

  // The result is the mix of oldp and newp by weights 255 - a and a, newp being the sum of n
  // pixels, rounded down.
  predicate Mixes(r: byte, a: byte, oldp: byte, newp: nat, n: nat) {
    RoundsDown(r, oldp * n * (255 - a) + newp * a, 255 * n)
  }

  // r is mix / d without its fraction.
  predicate RoundsDown(r: int, mix: int, d: nat) {
    d * r <= mix < d * (r + 1)
  }

  lemma BlendMixes(a: byte, oldp: byte, newp: nat, s: nat)
    requires newp <= 255 * Weight(s)
    ensures Mixes(AlphaBlend(a, oldp, newp, s), a, oldp, newp, Weight(s))
  {
    QuotientRounds(oldp * Weight(s) * (255 - a) + newp * a, 255 * Weight(s));
  }

  lemma QuotientRounds(mix: int, d: nat)
    requires d > 0
    ensures RoundsDown(mix / d, mix, d)
  {
  }

  lemma BlendBounds(a: byte, x: nat, z: nat, n: nat)
    requires n == 1 || n == 2 || n == 4
    ensures var r := (x * (255 - a) + z * a) / (255 * n);
            && (x <= z ==> x / n <= r && r * n <= z)
            && (z <= x ==> z / n <= r && r * n <= x)
            && (a == 0 ==> r == x / n)
            && (a == 255 ==> r == z / n)
  {
    var mix := x * (255 - a) + z * a;
    if x <= z {
      MixBetween(x, z, a);
      ScaleDown(mix, n, x, z);
    }
    if z <= x {
      MixBetween(z, x, 255 - a);
      ScaleDown(mix, n, z, x);
    }
    assert a == 0 ==> mix == 255 * x;
    assert a == 255 ==> mix == 255 * z;
  }

  datatype Pixel = Pixel(a: byte, y: byte, u: byte, v: byte)

  const CLEAR := Pixel(0, 0, 0, 0)

  // YUVA_IN on one palette word.
  function Unpack(val: nat): Pixel
  {
    Pixel(val / 0x1000000 % 256, val / 0x10000 % 256, val / 0x100 % 256, val % 256)
  }

  // YUVA_OUT: the word a pixel is put together to.
  function Packed(px: Pixel): nat
  {
    px.a * 0x1000000 + px.y * 0x10000 + px.u * 0x100 + px.v
  }

  // Put together again, the channels are the word's lower four bytes.
  lemma UnpackPacked(val: nat)
    ensures Packed(Unpack(val)) == val % 0x1_0000_0000
  {
    var (b1, b2, b3) := (val / 0x100, val / 0x10000, val / 0x1000000);
    Byte(val);
    Byte(b1);
    Byte(b2);
    Byte(b3);
    assert b2 == b1 / 0x100 && b3 == b2 / 0x100;
    Remainder(val, b3 / 0x100, Packed(Unpack(val)));
  }

  lemma Byte(n: nat)
    ensures n == 0x100 * (n / 0x100) + n % 0x100
  {
  }

  lemma Remainder(val: nat, q: nat, rest: nat)
    requires val == 0x1_0000_0000 * q + rest && rest < 0x1_0000_0000
    ensures val % 0x1_0000_0000 == rest
  {
  }

  // ---------------------------------------------------------------- placement

  function Distance(x: int, y: int): int {
    if x < y then y - x else x - y
  }

  // av_clip
  function Clip(v: int, lo: int, hi: int): (r: int)
    requires lo <= hi
    ensures lo <= r <= hi
    ensures lo <= v <= hi ==> r == v
  {
    if v < lo then lo else if v > hi then hi else v
  }

  // It gives the nearest number of the range.
  lemma ClipNearest(v: int, lo: int, hi: int)
    requires lo <= hi
    ensures forall x :: lo <= x <= hi ==> Distance(Clip(v, lo, hi), v) <= Distance(x, v)
  {
  }

  // The clipped rectangle: dstx, dsty, dstw, dsth.
  datatype Geometry = Geometry(x: nat, y: nat, w: nat, h: nat) {

    // An empty rectangle is only left alone when its start is even.
    predicate Drawable() {
      && (w > 0 || x % 2 == 0)
      && (h > 0 || y % 2 == 0)
    }

    function Width2(): nat {
      (w + 1) / 2 + (if x % 2 == 1 && w % 2 == 0 then 1 else 0)
    }

    function Skip2(): nat {
      x / 2
    }

    // One chroma row for an odd first row, one per pair, one for an odd last row.
    function ChromaRows(): nat
      requires Drawable()
    {
      y % 2 + (h - y % 2) / 2 + (h - y % 2) % 2
    }

    // Columns of an odd row are left over at its right end.
    predicate OddTail() {
      (x + w) % 2 == 1
    }

    // The odd first row does not step cb and cr over its tail, so every later
    // chroma row starts one cell early.
    function Shift(k: nat): int {
      if k > 0 && y % 2 == 1 && OddTail() then 1 else 0
    }
  }

  function Place(rx: int, ry: int, rw: int, rh: int, imgw: nat, imgh: nat): (g: Geometry)
    ensures g.x + g.w <= imgw && g.y + g.h <= imgh
    ensures 0 <= rx && 0 <= ry && 0 <= rw && 0 <= rh && rx + rw <= imgw && ry + rh <= imgh
            ==> g == Geometry(rx, ry, rw, rh)
  {
    var w := Clip(rw, 0, imgw);
    var h := Clip(rh, 0, imgh);
    Geometry(Clip(rx, 0, imgw - w), Clip(ry, 0, imgh - h), w, h)
  }

  // The size is the nearest that fits the picture, and then the position the nearest at
  // which it does.
  lemma PlaceNearest(rx: int, ry: int, rw: int, rh: int, imgw: nat, imgh: nat)
    ensures var g := Place(rx, ry, rw, rh, imgw, imgh);
            && (forall n :: 0 <= n <= imgw ==> Distance(g.w, rw) <= Distance(n, rw))
            && (forall n :: 0 <= n <= imgh ==> Distance(g.h, rh) <= Distance(n, rh))
            && (forall n :: 0 <= n <= imgw - g.w ==> Distance(g.x, rx) <= Distance(n, rx))
            && (forall n :: 0 <= n <= imgh - g.h ==> Distance(g.y, ry) <= Distance(n, ry))
  {
  }

  // ---------------------------------------------------------------- bitmap

  datatype Bitmap = Bitmap(wrap: nat, pix: seq<byte>, pal: seq<nat>) {

    predicate Covers(g: Geometry) {
      && |pal| == 256
      && wrap >= g.w
      && |pix| >= g.h * wrap
    }

    // YUVA_IN at index p of the bitmap.
    function At(p: nat): Pixel
      requires |pal| == 256 && p < |pix|
    {
      Unpack(pal[pix[p]])
    }
  }

  lemma RowInside(r: nat, rows: nat, wrap: nat, c: nat)
    requires r < rows && c < wrap
    ensures 0 <= r * wrap + c < rows * wrap
  {
    MulMonotone(r + 1, rows, wrap);
  }

  // The pixel of cell (r, c) is unpacked from the palette word of that cell's index.
  lemma PxWord(bmp: Bitmap, g: Geometry, r: nat, c: nat)
    requires bmp.Covers(g) && r < g.h && c < g.w
    ensures r * bmp.wrap + c < |bmp.pix|
    ensures Px(bmp, g, r, c) == Unpack(bmp.pal[bmp.pix[r * bmp.wrap + c]])
  {
    RowInside(r, g.h, bmp.wrap, c);
  }

  // The pixel of bitmap cell (r, c); nothing outside the clipped rectangle.
  function Px(bmp: Bitmap, g: Geometry, r: int, c: int): Pixel
    requires bmp.Covers(g)
  {
    if 0 <= r < g.h && 0 <= c < g.w then
      RowInside(r, g.h, bmp.wrap, c);
      bmp.At(r * bmp.wrap + c)
    else
      CLEAR
  }

  // ---------------------------------------------------------------- luma, per pixel

  // Which bitmap pixels are blended when rows below r are complete, row r has c0
  // pixels and row r + 1 has c1.
  predicate Reached(g: Geometry, r: nat, c0: nat, c1: nat, row: int, col: int) {
    && 0 <= row < g.h
    && 0 <= col < g.w
    && (row < r || (row == r && col < c0) || (row == r + 1 && col < c1))
  }

  // The luma cell at index i of a plane with the given stride.
  function LumaCell(g: Geometry, bmp: Bitmap, stride: nat, old0: byte, i: nat, r: nat, c0: nat, c1: nat): byte
    requires bmp.Covers(g) && stride > 0
  {
    var row, col := i / stride - g.y, i % stride - g.x;
    if Reached(g, r, c0, c1, row, col) then
      var px := Px(bmp, g, row, col);
      AlphaBlend(px.a, old0, px.y, ONE_PIXEL)
    else
      old0
  }

  ghost predicate LumaDone(g: Geometry, bmp: Bitmap, stride: nat, s0: seq<byte>, s: seq<byte>, r: nat, c0: nat, c1: nat)
    requires bmp.Covers(g) && stride > 0
  {
    && |s| == |s0|
    && forall i :: 0 <= i < |s| ==> s[i] == LumaCell(g, bmp, stride, s0[i], i, r, c0, c1)
  }

  // ---------------------------------------------------------------- chroma, per cell

  // Chroma cell (k, j) of the rectangle covers bitmap rows Top(k), Top(k) + 1 and
  // columns Left(j), Left(j) + 1, as far as they lie in the rectangle.
  function Top(g: Geometry, k: nat): int { 2 * k - g.y % 2 }

  function Left(g: Geometry, j: nat): int { 2 * j - g.x % 2 }

  // How many of the two positions from p on lie in [0, n).
  function Inside(p: int, n: nat): nat {
    (if 0 <= p < n then 1 else 0) + (if 0 <= p + 1 < n then 1 else 0)
  }

  datatype Channel = Alpha | U | V

  function Get(px: Pixel, ch: Channel): byte {
    match ch
    case Alpha => px.a
    case U => px.u
    case V => px.v
  }

  function RowSum(bmp: Bitmap, g: Geometry, ch: Channel, row: int, l: int): nat
    requires bmp.Covers(g)
  {
    Get(Px(bmp, g, row, l), ch) + Get(Px(bmp, g, row, l + 1), ch)
  }

  // The sum of a channel over the covered pixels of cell (k, j).
  function CellSum(bmp: Bitmap, g: Geometry, ch: Channel, k: nat, j: nat): nat
    requires bmp.Covers(g)
  {
    RowSum(bmp, g, ch, Top(g, k), Left(g, j)) + RowSum(bmp, g, ch, Top(g, k) + 1, Left(g, j))
  }

  // The shift for the number of covered pixels.
  function Level(g: Geometry, k: nat, j: nat): nat {
    var n := Inside(Top(g, k), g.h) * Inside(Left(g, j), g.w);
    if n == 4 then FOUR_PIXELS else if n == 2 then TWO_PIXELS else ONE_PIXEL
  }

  // A pair of columns in an odd last row.
  predicate TrailingPair(g: Geometry, k: nat, j: nat) {
    && 0 <= Top(g, k) && Top(g, k) + 1 == g.h
    && 0 <= Left(g, j) && Left(g, j) + 1 < g.w
  }

  // The colour the walk blends into cell (k, j): the sum over the covered pixels,
  // except that a trailing pair passes its right pixel alone.
  function Colour(bmp: Bitmap, g: Geometry, ch: Channel, k: nat, j: nat): (r: nat)
    requires bmp.Covers(g)
    ensures r <= 255 * Weight(Level(g, k, j))
    ensures r <= CellSum(bmp, g, ch, k, j)
  {
    if TrailingPair(g, k, j) then
      Get(Px(bmp, g, Top(g, k), Left(g, j) + 1), ch)
    else
      CellSum(bmp, g, ch, k, j)
  }

  // The index the walk uses for cell (k, j).
  function CellIndex(g: Geometry, stride: nat, k: nat, j: nat): int {
    (g.y / 2 + k) * stride + g.Skip2() + j - g.Shift(k)
  }

  // The value written there.
  function CellValue(bmp: Bitmap, g: Geometry, ch: Channel, k: nat, j: nat, old0: byte): byte
    requires bmp.Covers(g)
  {
    AlphaBlend(CellAlpha(bmp, g, k, j), old0, Colour(bmp, g, ch, k, j), Level(g, k, j))
  }

  function CellAlpha(bmp: Bitmap, g: Geometry, k: nat, j: nat): byte
    requires bmp.Covers(g)
  {
    CellSum(bmp, g, Alpha, k, j) / 4
  }

  // A chroma plane after the walk has done the cells before (k, j), left to right
  // and top to bottom.
  function ChromaAfter(s0: seq<byte>, bmp: Bitmap, g: Geometry, stride: nat, ch: Channel, k: nat, j: nat)
    : (s: seq<byte>)
    requires bmp.Covers(g)
    ensures |s| == |s0|
    decreases k, j
  {
    if j > 0 then
      var before := ChromaAfter(s0, bmp, g, stride, ch, k, j - 1);
      var i := CellIndex(g, stride, k, j - 1);
      if 0 <= i < |before| then before[i := CellValue(bmp, g, ch, k, j - 1, before[i])] else before
    else if k > 0 then
      ChromaAfter(s0, bmp, g, stride, ch, k - 1, g.Width2())
    else
      s0
  }

  // ---------------------------------------------------------------- the walk

  // The destination picture; its strides are dst->linesize.
  class Picture {
    const lum: array<byte>
    const cb: array<byte>
    const cr: array<byte>
    const lineY: nat
    const lineU: nat
    const lineV: nat

    constructor (lum: array<byte>, cb: array<byte>, cr: array<byte>, lineY: nat, lineU: nat, lineV: nat)
      ensures this.lum == lum && this.cb == cb && this.cr == cr
      ensures this.lineY == lineY && this.lineU == lineU && this.lineV == lineV
    {
      this.lum, this.cb, this.cr := lum, cb, cr;
      this.lineY, this.lineU, this.lineV := lineY, lineU, lineV;
    }

    // The planes hold a picture of the given size.
    predicate Holds(imgw: nat, imgh: nat) {
      && lum != cb && lum != cr && cb != cr
      && lineY >= imgw && lum.Length >= imgh * lineY
      && lineU >= (imgw + 1) / 2 && cb.Length >= (imgh + 1) / 2 * lineU
      && lineV >= (imgw + 1) / 2 && cr.Length >= (imgh + 1) / 2 * lineV
    }

    // The planes reach the rectangle.
    predicate Reaches(g: Geometry)
      requires g.Drawable()
    {
      && lum != cb && lum != cr && cb != cr
      && lineY >= g.x + g.w && lineY > 0 && lum.Length >= (g.y + g.h) * lineY
      && lineU >= g.Skip2() + g.Width2() && lineU > 0 && cb.Length >= (g.y / 2 + g.ChromaRows()) * lineU
      && lineV >= g.Skip2() + g.Width2() && lineV > 0 && cr.Length >= (g.y / 2 + g.ChromaRows()) * lineV
    }
  }

  predicate Ready(dst: Picture, g: Geometry, bmp: Bitmap) {
    g.Drawable() && bmp.Covers(g) && dst.Reaches(g)
  }

  lemma DivMod(y: nat, x: nat, stride: nat)
    requires x < stride
    ensures (y * stride + x) / stride == y && (y * stride + x) % stride == x
  {
    var i := y * stride + x;
    var q, m := i / stride, i % stride;
    assert i == stride * q + m;
    if q < y {
      MulMonotone(q + 1, y, stride);
    } else if q > y {
      MulMonotone(y + 1, q, stride);
    }
  }

  lemma IndexOf(i: nat, stride: nat)
    requires stride > 0
    ensures i == i / stride * stride + i % stride
  {
  }

  // Blending the next pixel of row r, or of the row below it, moves the frontier by one.
  lemma LumaStep(g: Geometry, bmp: Bitmap, stride: nat, s0: seq<byte>, s: seq<byte>, at: nat,
                 r: nat, c0: nat, c1: nat, below: bool)
    requires bmp.Covers(g) && stride > 0 && stride >= g.x + g.w
    requires LumaDone(g, bmp, stride, s0, s, r, c0, c1)
    requires var (row, col) := if below then (r + 1, c1) else (r, c0);
             && row < g.h && col < g.w && at < |s|
             && at == (g.y + row) * stride + g.x + col
    ensures var (row, col) := if below then (r + 1, c1) else (r, c0);
            var px := Px(bmp, g, row, col);
            LumaDone(g, bmp, stride, s0, s[at := AlphaBlend(px.a, s[at], px.y, ONE_PIXEL)],
                     r, if below then c0 else c0 + 1, if below then c1 + 1 else c1)
  {
    var (row, col) := if below then (r + 1, c1) else (r, c0);
    var d0, d1 := if below then c0 else c0 + 1, if below then c1 + 1 else c1;
    var px := Px(bmp, g, row, col);
    var s' := s[at := AlphaBlend(px.a, s[at], px.y, ONE_PIXEL)];
    DivMod(g.y + row, g.x + col, stride);
    assert s[at] == s0[at];
    forall i | 0 <= i < |s|
      ensures s'[i] == LumaCell(g, bmp, stride, s0[i], i, r, d0, d1)
    {
      if i != at {
        var ri, ci := i / stride - g.y, i % stride - g.x;
        assert ri != row || ci != col by { IndexOf(i, stride); }
        assert Reached(g, r, c0, c1, ri, ci) == Reached(g, r, d0, d1, ri, ci);
        assert s[i] == LumaCell(g, bmp, stride, s0[i], i, r, c0, c1);
      }
    }
  }

  // One luma cell: YUVA_IN at p and ALPHA_BLEND at lum, for row r or the row below it.
  method LumaPixel(dst: Picture, g: Geometry, bmp: Bitmap, at: int, p: int,
                   ghost s0: seq<byte>, ghost r: nat, ghost c0: nat, ghost c1: nat, ghost below: bool)
    returns (px: Pixel)
    requires Ready(dst, g, bmp)
    requires var (row, col) := if below then (r + 1, c1) else (r, c0);
             && row < g.h && col < g.w
             && at == (g.y + row) * dst.lineY + g.x + col
             && p == row * bmp.wrap + col
    requires LumaDone(g, bmp, dst.lineY, s0, dst.lum[..], r, c0, c1)
    modifies dst.lum
    ensures px == if below then Px(bmp, g, r + 1, c1) else Px(bmp, g, r, c0)
    ensures below ==> LumaDone(g, bmp, dst.lineY, s0, dst.lum[..], r, c0, c1 + 1)
    ensures !below ==> LumaDone(g, bmp, dst.lineY, s0, dst.lum[..], r, c0 + 1, c1)
  {
    ghost var row := if below then r + 1 else r;
    ghost var col := if below then c1 else c0;
    RowInside(row, g.h, bmp.wrap, col);
    RowInside(g.y + row, g.y + g.h, dst.lineY, g.x + col);
    px := bmp.At(p);
    assert 0 <= at < dst.lum.Length;
    ghost var s := dst.lum[..];
    LumaStep(g, bmp, dst.lineY, s0, s, at, r, c0, c1, below);
    dst.lum[at] := AlphaBlend(px.a, dst.lum[at], px.y, ONE_PIXEL);
    assert dst.lum[..] == s[at := AlphaBlend(px.a, s[at], px.y, ONE_PIXEL)];
  }

  ghost predicate ChromaDone(dst: Picture, g: Geometry, bmp: Bitmap, u0: seq<byte>, v0: seq<byte>, k: nat, j: nat)
    requires bmp.Covers(g)
    reads dst.cb, dst.cr
  {
    && dst.cb[..] == ChromaAfter(u0, bmp, g, dst.lineU, U, k, j)
    && dst.cr[..] == ChromaAfter(v0, bmp, g, dst.lineV, V, k, j)
  }

  lemma CellInside(g: Geometry, stride: nat, k: nat, j: nat)
    requires g.Drawable() && k < g.ChromaRows() && j < g.Width2()
    requires stride >= g.Skip2() + g.Width2()
    ensures 0 <= CellIndex(g, stride, k, j) < (g.y / 2 + g.ChromaRows()) * stride
  {
    RowInside(g.y / 2 + k, g.y / 2 + g.ChromaRows(), stride, g.Skip2() + j);
    if k > 0 {
      MulMonotone(1, g.y / 2 + k, stride);
    }
  }

  // One chroma cell: ALPHA_BLEND at cb and at cr.
  method ChromaCell(dst: Picture, g: Geometry, bmp: Bitmap, cb: int, cr: int, a: byte, u: nat, v: nat, s: nat,
                    ghost u0: seq<byte>, ghost v0: seq<byte>, ghost k: nat, ghost j: nat)
    requires Ready(dst, g, bmp)
    requires k < g.ChromaRows() && j < g.Width2()
    requires cb == CellIndex(g, dst.lineU, k, j) && cr == CellIndex(g, dst.lineV, k, j)
    requires a == CellAlpha(bmp, g, k, j) && s == Level(g, k, j)
    requires u == Colour(bmp, g, U, k, j) && v == Colour(bmp, g, V, k, j)
    requires ChromaDone(dst, g, bmp, u0, v0, k, j)
    modifies dst.cb, dst.cr
    ensures ChromaDone(dst, g, bmp, u0, v0, k, j + 1)
  {
    CellInside(g, dst.lineU, k, j);
    CellInside(g, dst.lineV, k, j);
    ghost var cbs, crs := dst.cb[..], dst.cr[..];
    dst.cb[cb] := AlphaBlend(a, dst.cb[cb], u, s);
    dst.cr[cr] := AlphaBlend(a, dst.cr[cr], v, s);
    assert dst.cb[..] == cbs[cb := CellValue(bmp, g, U, k, j, cbs[cb])];
    assert dst.cr[..] == crs[cr := CellValue(bmp, g, V, k, j, crs[cr])];
  }

  // In an odd first or last row a cell covers only that row.
  lemma OddRowCell(g: Geometry, bmp: Bitmap, k: nat, r: nat, j: nat, ch: Channel)
    requires bmp.Covers(g) && r < g.h
    requires (r == 0 && Top(g, k) == -1) || (r == g.h - 1 && Top(g, k) == r)
    ensures CellSum(bmp, g, ch, k, j) == RowSum(bmp, g, ch, r, Left(g, j))
    ensures Level(g, k, j) == if Inside(Left(g, j), g.w) == 2 then TWO_PIXELS else ONE_PIXEL
    ensures Colour(bmp, g, ch, k, j) ==
            if TrailingPair(g, k, j) then Get(Px(bmp, g, r, Left(g, j) + 1), ch) else RowSum(bmp, g, ch, r, Left(g, j))
  {
    assert Inside(Top(g, k), g.h) == 1;
  }

  lemma LumaRowEnd(g: Geometry, bmp: Bitmap, stride: nat, s0: seq<byte>, s: seq<byte>, r: nat, c1: nat)
    requires bmp.Covers(g) && stride > 0
    requires c1 == 0 || c1 == g.w
    requires LumaDone(g, bmp, stride, s0, s, r, g.w, c1)
    ensures LumaDone(g, bmp, stride, s0, s, if c1 == g.w then r + 2 else r + 1, 0, 0)
  {
  }

  // Width2 is the number of chroma cells of a row.
  lemma CellsOfRow(g: Geometry, j: nat)
    requires g.Drawable()
    ensures Left(g, j) < g.w <==> j < g.Width2()
    ensures Left(g, j) == g.w - 1 ==> j + 1 == g.Width2() && g.OddTail()
    ensures Left(g, j) == g.w ==> j == g.Width2() && !g.OddTail()
  {
  }

  // The pointers of the walk at bitmap cell (r, c) and chroma cell (k, j).
  ghost predicate Points(dst: Picture, g: Geometry, bmp: Bitmap, lum: int, cb: int, cr: int, p: int,
                         r: nat, c: nat, k: nat, j: nat)
  {
    && lum == (g.y + r) * dst.lineY + g.x + c && p == r * bmp.wrap + c
    && cb == CellIndex(g, dst.lineU, k, j) && cr == CellIndex(g, dst.lineV, k, j)
  }

  // Two columns and one cell on.
  lemma PointsStep(dst: Picture, g: Geometry, bmp: Bitmap, lum: int, cb: int, cr: int, p: int, r: nat, c: nat, k: nat,
                   j: nat)
    requires Points(dst, g, bmp, lum, cb, cr, p, r, c, k, j)
    ensures Points(dst, g, bmp, lum + 2, cb + 1, cr + 1, p + 2, r, c + 2, k, j + 1)
  {
  }

  // The pointers at the start of row r, before dstx and skip2 are added.
  ghost predicate RowStart(dst: Picture, g: Geometry, bmp: Bitmap, lum: int, cb: int, cr: int, p: int, r: nat, k: nat)
  {
    && lum == (g.y + r) * dst.lineY && p == r * bmp.wrap
    && cb == (g.y / 2 + k) * dst.lineU - g.Shift(k) && cr == (g.y / 2 + k) * dst.lineV - g.Shift(k)
  }

  lemma NextRowStart(dst: Picture, g: Geometry, bmp: Bitmap, lum: int, cb: int, cr: int, p: int, r: nat, k: nat,
                     rows: nat)
    requires RowStart(dst, g, bmp, lum, cb, cr, p, r, k)
    requires rows == 1 || rows == 2
    ensures RowStart(dst, g, bmp, lum + rows * dst.lineY, cb + dst.lineU - g.Shift(k + 1) + g.Shift(k),
                     cr + dst.lineV - g.Shift(k + 1) + g.Shift(k), p + rows * bmp.wrap, r + rows, k + 1)
  {
    NextRow(g.y + r, dst.lineY);
    NextRow(g.y + r + 1, dst.lineY);
    NextRow(r, bmp.wrap);
    NextRow(r + 1, bmp.wrap);
    NextRow(g.y / 2 + k, dst.lineU);
    NextRow(g.y / 2 + k, dst.lineV);
  }

  // Row r is an odd first or last row of the rectangle.
  predicate OddFirst(g: Geometry, r: nat, k: nat) {
    g.y % 2 == 1 && r == 0 && k == 0 && 0 < g.h
  }

  predicate OddLast(g: Geometry, r: nat, k: nat)
    requires g.Drawable()
  {
    (g.y + g.h) % 2 == 1 && r == g.h - 1 && k == g.ChromaRows() - 1
  }

  // Column c is the only one of the rectangle in the cells of column j.
  predicate Lone(g: Geometry, j: nat, c: nat) {
    c < g.w && ((c == 0 && Left(g, j) == -1) || (c == g.w - 1 && Left(g, j) == c))
  }

  lemma LoneSum(g: Geometry, bmp: Bitmap, ch: Channel, r: nat, j: nat, c: nat)
    requires bmp.Covers(g) && r < g.h && Lone(g, j, c)
    ensures RowSum(bmp, g, ch, r, Left(g, j)) == Get(Px(bmp, g, r, c), ch) && Inside(Left(g, j), g.w) == 1
  {
  }

  // The cell of a column of an odd row that shares it with no other column.
  lemma OddSingleCell(g: Geometry, bmp: Bitmap, r: nat, c: nat, k: nat, j: nat)
    requires g.Drawable() && bmp.Covers(g) && (OddFirst(g, r, k) || OddLast(g, r, k))
    requires Lone(g, j, c)
    ensures k < g.ChromaRows()
    ensures CellAlpha(bmp, g, k, j) == Px(bmp, g, r, c).a / 4 && Level(g, k, j) == ONE_PIXEL
    ensures Colour(bmp, g, U, k, j) == Px(bmp, g, r, c).u && Colour(bmp, g, V, k, j) == Px(bmp, g, r, c).v
  {
    OddSingleSum(g, bmp, r, c, k, j, Alpha);
    OddSingleSum(g, bmp, r, c, k, j, U);
    OddSingleSum(g, bmp, r, c, k, j, V);
  }

  lemma OddSingleSum(g: Geometry, bmp: Bitmap, r: nat, c: nat, k: nat, j: nat, ch: Channel)
    requires g.Drawable() && bmp.Covers(g) && (OddFirst(g, r, k) || OddLast(g, r, k))
    requires Lone(g, j, c)
    ensures k < g.ChromaRows() && Level(g, k, j) == ONE_PIXEL
    ensures CellSum(bmp, g, ch, k, j) == Colour(bmp, g, ch, k, j) == Get(Px(bmp, g, r, c), ch)
  {
    LoneSum(g, bmp, ch, r, j, c);
    OddRowCell(g, bmp, k, r, j, ch);
  }

  // A column of an odd row that shares its chroma cell with no other column.
  method OddSingle(dst: Picture, g: Geometry, bmp: Bitmap, lum: int, cb: int, cr: int, p: int,
                   ghost s0: seq<byte>, ghost u0: seq<byte>, ghost v0: seq<byte>,
                   ghost r: nat, ghost c: nat, ghost k: nat, ghost j: nat)
    requires Ready(dst, g, bmp) && (OddFirst(g, r, k) || OddLast(g, r, k))
    requires Points(dst, g, bmp, lum, cb, cr, p, r, c, k, j) && j < g.Width2()
    requires Lone(g, j, c)
    requires LumaDone(g, bmp, dst.lineY, s0, dst.lum[..], r, c, 0)
    requires ChromaDone(dst, g, bmp, u0, v0, k, j)
    modifies dst.lum, dst.cb, dst.cr
    ensures LumaDone(g, bmp, dst.lineY, s0, dst.lum[..], r, c + 1, 0)
    ensures ChromaDone(dst, g, bmp, u0, v0, k, j + 1)
  {
    OddSingleCell(g, bmp, r, c, k, j);
    var px := LumaPixel(dst, g, bmp, lum, p, s0, r, c, 0, false);
    ChromaCell(dst, g, bmp, cb, cr, px.a / 4, px.u, px.v, ONE_PIXEL, u0, v0, k, j);
  }

  // The cell of two columns of an odd row.
  lemma OddPairCell(g: Geometry, bmp: Bitmap, last: bool, r: nat, c: nat, k: nat, j: nat)
    requires g.Drawable() && bmp.Covers(g) && (if last then OddLast(g, r, k) else OddFirst(g, r, k))
    requires c + 1 < g.w && Left(g, j) == c
    ensures k < g.ChromaRows() && Level(g, k, j) == TWO_PIXELS
    ensures var (px, qx) := (Px(bmp, g, r, c), Px(bmp, g, r, c + 1));
            && CellAlpha(bmp, g, k, j) == (px.a + qx.a) / 4
            && Colour(bmp, g, U, k, j) == (if last then qx.u else px.u + qx.u)
            && Colour(bmp, g, V, k, j) == (if last then qx.v else px.v + qx.v)
  {
    OddRowCell(g, bmp, k, r, j, Alpha);
    OddRowCell(g, bmp, k, r, j, U);
    OddRowCell(g, bmp, k, r, j, V);
  }

  // Two columns of an odd row.  Over a last row the source passes the right
  // pixel's colour where it passes the sum over a first row.
  method OddPair(dst: Picture, g: Geometry, bmp: Bitmap, lum: int, cb: int, cr: int, p: int, last: bool,
                 ghost s0: seq<byte>, ghost u0: seq<byte>, ghost v0: seq<byte>,
                 ghost r: nat, ghost c: nat, ghost k: nat, ghost j: nat)
    requires Ready(dst, g, bmp) && (if last then OddLast(g, r, k) else OddFirst(g, r, k))
    requires Points(dst, g, bmp, lum, cb, cr, p, r, c, k, j) && j < g.Width2()
    requires c + 1 < g.w && Left(g, j) == c
    requires LumaDone(g, bmp, dst.lineY, s0, dst.lum[..], r, c, 0)
    requires ChromaDone(dst, g, bmp, u0, v0, k, j)
    modifies dst.lum, dst.cb, dst.cr
    ensures LumaDone(g, bmp, dst.lineY, s0, dst.lum[..], r, c + 2, 0)
    ensures ChromaDone(dst, g, bmp, u0, v0, k, j + 1)
  {
    OddPairCell(g, bmp, last, r, c, k, j);
    var left := LumaPixel(dst, g, bmp, lum, p, s0, r, c, 0, false);
    var right := LumaPixel(dst, g, bmp, lum + 1, p + 1, s0, r, c + 1, 0, false);
    var u, v := if last then right.u else left.u + right.u, if last then right.v else left.v + right.v;
    ChromaCell(dst, g, bmp, cb, cr, (left.a + right.a) / 4, u, v, TWO_PIXELS, u0, v0, k, j);
  }

  // The columns of an odd row.  The tail steps p and lum but not cb and cr.
  method OddColumns(dst: Picture, g: Geometry, bmp: Bitmap, lum0: int, cb0: int, cr0: int, p0: int, last: bool,
                    ghost s0: seq<byte>, ghost u0: seq<byte>, ghost v0: seq<byte>, ghost r: nat, ghost k: nat)
    returns (lum: int, cb: int, cr: int, p: int)
    requires Ready(dst, g, bmp) && (if last then OddLast(g, r, k) else OddFirst(g, r, k))
    requires Points(dst, g, bmp, lum0, cb0, cr0, p0, r, 0, k, 0)
    requires LumaDone(g, bmp, dst.lineY, s0, dst.lum[..], r, 0, 0)
    requires ChromaDone(dst, g, bmp, u0, v0, k, 0)
    modifies dst.lum, dst.cb, dst.cr
    ensures LumaDone(g, bmp, dst.lineY, s0, dst.lum[..], r, g.w, 0)
    ensures ChromaDone(dst, g, bmp, u0, v0, k, g.Width2())
    ensures lum == lum0 + g.w && p == p0 + g.w
    ensures cb - cb0 == cr - cr0 == g.Width2() - (if g.OddTail() then 1 else 0)
  {
    lum, cb, cr, p := lum0, cb0, cr0, p0;
    ghost var j: nat := 0;
    if g.x % 2 == 1 {
      OddSingle(dst, g, bmp, lum, cb, cr, p, s0, u0, v0, r, 0, k, 0);
      cb, cr, lum, p, j := cb + 1, cr + 1, lum + 1, p + 1, 1;
    }
    var w: int;
    ghost var c: nat;
    lum, cb, cr, p, w, c, j := OddPairs(dst, g, bmp, lum, cb, cr, p, last, s0, u0, v0, r, j, k, g.w - g.x % 2, j);
    CellsOfRow(g, j);
    if w != 0 {
      OddSingle(dst, g, bmp, lum, cb, cr, p, s0, u0, v0, r, c, k, j);
      p, lum := p + 1, lum + 1;
    }
  }

  // The loop over pairs of columns, from w0 columns before the end.
  method OddPairs(dst: Picture, g: Geometry, bmp: Bitmap, lum0: int, cb0: int, cr0: int, p0: int, last: bool,
                  ghost s0: seq<byte>, ghost u0: seq<byte>, ghost v0: seq<byte>, ghost r: nat, ghost c0: nat,
                  ghost k: nat, w0: int, ghost j0: nat)
    returns (lum: int, cb: int, cr: int, p: int, w: int, ghost c: nat, ghost j: nat)
    requires Ready(dst, g, bmp) && (if last then OddLast(g, r, k) else OddFirst(g, r, k))
    requires 0 <= w0 && c0 + w0 == g.w && Left(g, j0) == c0
    requires Points(dst, g, bmp, lum0, cb0, cr0, p0, r, c0, k, j0)
    requires LumaDone(g, bmp, dst.lineY, s0, dst.lum[..], r, c0, 0)
    requires ChromaDone(dst, g, bmp, u0, v0, k, j0)
    modifies dst.lum, dst.cb, dst.cr
    ensures 0 <= w <= 1 && c + w == g.w && Left(g, j) == c
    ensures Points(dst, g, bmp, lum, cb, cr, p, r, c, k, j)
    ensures LumaDone(g, bmp, dst.lineY, s0, dst.lum[..], r, c, 0)
    ensures ChromaDone(dst, g, bmp, u0, v0, k, j)
  {
    lum, cb, cr, p, w, c, j := lum0, cb0, cr0, p0, w0, c0, j0;
    while w >= 2
      invariant 0 <= w && c + w == g.w && Left(g, j) == c
      invariant Points(dst, g, bmp, lum, cb, cr, p, r, c, k, j)
      invariant LumaDone(g, bmp, dst.lineY, s0, dst.lum[..], r, c, 0)
      invariant ChromaDone(dst, g, bmp, u0, v0, k, j)
    {
      CellsOfRow(g, j);
      PointsStep(dst, g, bmp, lum, cb, cr, p, r, c, k, j);
      OddPair(dst, g, bmp, lum, cb, cr, p, last, s0, u0, v0, r, c, k, j);
      cb, cr, p, lum := cb + 1, cr + 1, p + 2, lum + 2;
      w, c, j := w - 2, c + 2, j + 1;
    }
  }

  // An odd first row (last == false) or an odd last row.  The source spells this
  // twice; the copies differ in the colour of a pair and in what follows the row.
  method OddRow(dst: Picture, g: Geometry, bmp: Bitmap, lum0: int, cb0: int, cr0: int, p0: int, last: bool,
                ghost s0: seq<byte>, ghost u0: seq<byte>, ghost v0: seq<byte>, ghost r: nat, ghost k: nat)
    returns (lum: int, cb: int, cr: int, p: int)
    requires Ready(dst, g, bmp) && (if last then OddLast(g, r, k) else OddFirst(g, r, k))
    requires RowStart(dst, g, bmp, lum0, cb0, cr0, p0, r, k)
    requires LumaDone(g, bmp, dst.lineY, s0, dst.lum[..], r, 0, 0)
    requires ChromaDone(dst, g, bmp, u0, v0, k, 0)
    modifies dst.lum, dst.cb, dst.cr
    ensures LumaDone(g, bmp, dst.lineY, s0, dst.lum[..], r + 1, 0, 0)
    ensures ChromaDone(dst, g, bmp, u0, v0, k + 1, 0)
    ensures !last ==> RowStart(dst, g, bmp, lum, cb, cr, p, r + 1, k + 1)
  {
    var width2, skip2 := g.Width2(), g.Skip2();
    lum, cb, cr, p := OddColumns(dst, g, bmp, lum0 + g.x, cb0 + skip2, cr0 + skip2, p0, last, s0, u0, v0, r, k);
    LumaRowEnd(g, bmp, dst.lineY, s0, dst.lum[..], r, 0);
    NextRowStart(dst, g, bmp, lum0, cb0, cr0, p0, r, k, 1);
    p := p + bmp.wrap - g.w;
    lum := lum + dst.lineY - g.w - g.x;
    cb := cb + dst.lineU - width2 - skip2;
    cr := cr + dst.lineV - width2 - skip2;
  }

  // A cell of a row pair covers both rows.
  lemma RowPairCell(g: Geometry, bmp: Bitmap, k: nat, j: nat, ch: Channel)
    requires bmp.Covers(g) && 0 <= Top(g, k) && Top(g, k) + 1 < g.h
    ensures Colour(bmp, g, ch, k, j) == CellSum(bmp, g, ch, k, j)
    ensures Level(g, k, j) ==
            if Inside(Left(g, j), g.w) == 2 then FOUR_PIXELS
            else if Inside(Left(g, j), g.w) == 1 then TWO_PIXELS
            else ONE_PIXEL
  {
    assert Inside(Top(g, k), g.h) == 2;
  }

  // One column of a row pair that shares its chroma cell with no other column.
  method PairSingle(dst: Picture, g: Geometry, bmp: Bitmap, lum: int, cb: int, cr: int, p: int,
                    ghost s0: seq<byte>, ghost u0: seq<byte>, ghost v0: seq<byte>,
                    ghost r: nat, ghost c: nat, ghost k: nat, ghost j: nat)
    requires Ready(dst, g, bmp) && Top(g, k) == r && r + 1 < g.h && k < g.ChromaRows()
    requires Points(dst, g, bmp, lum, cb, cr, p, r, c, k, j) && j < g.Width2()
    requires Lone(g, j, c)
    requires LumaDone(g, bmp, dst.lineY, s0, dst.lum[..], r, c, c)
    requires ChromaDone(dst, g, bmp, u0, v0, k, j)
    modifies dst.lum, dst.cb, dst.cr
    ensures LumaDone(g, bmp, dst.lineY, s0, dst.lum[..], r, c + 1, c + 1)
    ensures ChromaDone(dst, g, bmp, u0, v0, k, j + 1)
  {
    RowPairCell(g, bmp, k, j, Alpha);
    RowPairCell(g, bmp, k, j, U);
    RowPairCell(g, bmp, k, j, V);
    NextRow(g.y + r, dst.lineY);
    NextRow(r, bmp.wrap);
    var upper := LumaPixel(dst, g, bmp, lum, p, s0, r, c, c, false);
    var lower := LumaPixel(dst, g, bmp, lum + dst.lineY, p + bmp.wrap, s0, r, c + 1, c, true);
    ChromaCell(dst, g, bmp, cb, cr, (upper.a + lower.a) / 4, upper.u + lower.u, upper.v + lower.v, TWO_PIXELS, u0, v0,
               k, j);
  }

  // A 2x2 block of a row pair.
  method PairBlock(dst: Picture, g: Geometry, bmp: Bitmap, lum: int, cb: int, cr: int, p: int,
                   ghost s0: seq<byte>, ghost u0: seq<byte>, ghost v0: seq<byte>,
                   ghost r: nat, ghost c: nat, ghost k: nat, ghost j: nat)
    requires Ready(dst, g, bmp) && Top(g, k) == r && r + 1 < g.h && k < g.ChromaRows()
    requires Points(dst, g, bmp, lum, cb, cr, p, r, c, k, j) && j < g.Width2()
    requires c + 1 < g.w && Left(g, j) == c
    requires LumaDone(g, bmp, dst.lineY, s0, dst.lum[..], r, c, c)
    requires ChromaDone(dst, g, bmp, u0, v0, k, j)
    modifies dst.lum, dst.cb, dst.cr
    ensures LumaDone(g, bmp, dst.lineY, s0, dst.lum[..], r, c + 2, c + 2)
    ensures ChromaDone(dst, g, bmp, u0, v0, k, j + 1)
  {
    BlockCell(g, bmp, r, c, k, j);
    var a1, u1, v1 := BlockPixels(dst, g, bmp, lum, p, s0, r, c);
    ChromaCell(dst, g, bmp, cb, cr, a1 / 4, u1, v1, FOUR_PIXELS, u0, v0, k, j);
  }

  function FourSum(bmp: Bitmap, g: Geometry, ch: Channel, r: nat, c: nat): nat
    requires bmp.Covers(g)
  {
    RowSum(bmp, g, ch, r, c) + RowSum(bmp, g, ch, r + 1, c)
  }

  lemma BlockCell(g: Geometry, bmp: Bitmap, r: nat, c: nat, k: nat, j: nat)
    requires bmp.Covers(g) && Top(g, k) == r && r + 1 < g.h && Left(g, j) == c && c + 1 < g.w
    ensures CellAlpha(bmp, g, k, j) == FourSum(bmp, g, Alpha, r, c) / 4 && Level(g, k, j) == FOUR_PIXELS
    ensures Colour(bmp, g, U, k, j) == FourSum(bmp, g, U, r, c) && Colour(bmp, g, V, k, j) == FourSum(bmp, g, V, r, c)
  {
    RowPairCell(g, bmp, k, j, Alpha);
    RowPairCell(g, bmp, k, j, U);
    RowPairCell(g, bmp, k, j, V);
  }

  // The four luma cells of a block, and the sums over them.
  method BlockPixels(dst: Picture, g: Geometry, bmp: Bitmap, lum: int, p: int,
                     ghost s0: seq<byte>, ghost r: nat, ghost c: nat)
    returns (a1: nat, u1: nat, v1: nat)
    requires Ready(dst, g, bmp) && r + 1 < g.h && c + 1 < g.w
    requires lum == (g.y + r) * dst.lineY + g.x + c && p == r * bmp.wrap + c
    requires LumaDone(g, bmp, dst.lineY, s0, dst.lum[..], r, c, c)
    modifies dst.lum
    ensures LumaDone(g, bmp, dst.lineY, s0, dst.lum[..], r, c + 2, c + 2)
    ensures a1 == FourSum(bmp, g, Alpha, r, c)
    ensures u1 == FourSum(bmp, g, U, r, c) && v1 == FourSum(bmp, g, V, r, c)
  {
    NextRow(g.y + r, dst.lineY);
    NextRow(r, bmp.wrap);
    var px := LumaPixel(dst, g, bmp, lum, p, s0, r, c, c, false);
    u1, v1, a1 := px.u, px.v, px.a;
    px := LumaPixel(dst, g, bmp, lum + 1, p + 1, s0, r, c + 1, c, false);
    u1, v1, a1 := u1 + px.u, v1 + px.v, a1 + px.a;
    px := LumaPixel(dst, g, bmp, lum + dst.lineY, p + bmp.wrap, s0, r, c + 2, c, true);
    u1, v1, a1 := u1 + px.u, v1 + px.v, a1 + px.a;
    px := LumaPixel(dst, g, bmp, lum + dst.lineY + 1, p + bmp.wrap + 1, s0, r, c + 2, c + 1, true);
    u1, v1, a1 := u1 + px.u, v1 + px.v, a1 + px.a;
  }

  // The columns of a row pair.
  method PairColumns(dst: Picture, g: Geometry, bmp: Bitmap, lum0: int, cb0: int, cr0: int, p0: int,
                     ghost s0: seq<byte>, ghost u0: seq<byte>, ghost v0: seq<byte>, ghost r: nat, ghost k: nat)
    returns (lum: int, cb: int, cr: int, p: int)
    requires Ready(dst, g, bmp) && Top(g, k) == r && r + 1 < g.h && k < g.ChromaRows()
    requires Points(dst, g, bmp, lum0, cb0, cr0, p0, r, 0, k, 0)
    requires LumaDone(g, bmp, dst.lineY, s0, dst.lum[..], r, 0, 0)
    requires ChromaDone(dst, g, bmp, u0, v0, k, 0)
    modifies dst.lum, dst.cb, dst.cr
    ensures LumaDone(g, bmp, dst.lineY, s0, dst.lum[..], r, g.w, g.w)
    ensures ChromaDone(dst, g, bmp, u0, v0, k, g.Width2())
    ensures lum == lum0 + g.w && p == p0 + g.w && cb - cb0 == cr - cr0 == g.Width2()
  {
    lum, cb, cr, p := lum0, cb0, cr0, p0;
    ghost var j: nat := 0;
    if g.x % 2 == 1 {
      PairSingle(dst, g, bmp, lum, cb, cr, p, s0, u0, v0, r, 0, k, 0);
      cb, cr, lum, p, j := cb + 1, cr + 1, lum + 1, p + 1, 1;
    }
    var w: int;
    ghost var c: nat;
    lum, cb, cr, p, w, c, j := PairBlocks(dst, g, bmp, lum, cb, cr, p, s0, u0, v0, r, j, k, g.w - g.x % 2, j);
    CellsOfRow(g, j);
    if w != 0 {
      PairSingle(dst, g, bmp, lum, cb, cr, p, s0, u0, v0, r, c, k, j);
      cb, cr, p, lum := cb + 1, cr + 1, p + 1, lum + 1;
    }
  }

  // The loop over blocks, from w0 columns before the end.
  method PairBlocks(dst: Picture, g: Geometry, bmp: Bitmap, lum0: int, cb0: int, cr0: int, p0: int,
                    ghost s0: seq<byte>, ghost u0: seq<byte>, ghost v0: seq<byte>, ghost r: nat, ghost c0: nat,
                    ghost k: nat, w0: int, ghost j0: nat)
    returns (lum: int, cb: int, cr: int, p: int, w: int, ghost c: nat, ghost j: nat)
    requires Ready(dst, g, bmp) && Top(g, k) == r && r + 1 < g.h && k < g.ChromaRows()
    requires 0 <= w0 && c0 + w0 == g.w && Left(g, j0) == c0
    requires Points(dst, g, bmp, lum0, cb0, cr0, p0, r, c0, k, j0)
    requires LumaDone(g, bmp, dst.lineY, s0, dst.lum[..], r, c0, c0)
    requires ChromaDone(dst, g, bmp, u0, v0, k, j0)
    modifies dst.lum, dst.cb, dst.cr
    ensures 0 <= w <= 1 && c + w == g.w && Left(g, j) == c
    ensures Points(dst, g, bmp, lum, cb, cr, p, r, c, k, j)
    ensures LumaDone(g, bmp, dst.lineY, s0, dst.lum[..], r, c, c)
    ensures ChromaDone(dst, g, bmp, u0, v0, k, j)
  {
    lum, cb, cr, p, w, c, j := lum0, cb0, cr0, p0, w0, c0, j0;
    while w >= 2
      invariant 0 <= w && c + w == g.w && Left(g, j) == c
      invariant Points(dst, g, bmp, lum, cb, cr, p, r, c, k, j)
      invariant LumaDone(g, bmp, dst.lineY, s0, dst.lum[..], r, c, c)
      invariant ChromaDone(dst, g, bmp, u0, v0, k, j)
    {
      CellsOfRow(g, j);
      PointsStep(dst, g, bmp, lum, cb, cr, p, r, c, k, j);
      PairBlock(dst, g, bmp, lum, cb, cr, p, s0, u0, v0, r, c, k, j);
      cb, cr, p, lum := cb + 1, cr + 1, p + 2, lum + 2;
      w, c, j := w - 2, c + 2, j + 1;
    }
  }

  // Two rows of the rectangle over one chroma row.
  method RowPair(dst: Picture, g: Geometry, bmp: Bitmap, lum0: int, cb0: int, cr0: int, p0: int,
                 ghost s0: seq<byte>, ghost u0: seq<byte>, ghost v0: seq<byte>, ghost r: nat, ghost k: nat)
    returns (lum: int, cb: int, cr: int, p: int)
    requires Ready(dst, g, bmp) && Top(g, k) == r && r + 1 < g.h && k < g.ChromaRows()
    requires RowStart(dst, g, bmp, lum0, cb0, cr0, p0, r, k)
    requires LumaDone(g, bmp, dst.lineY, s0, dst.lum[..], r, 0, 0)
    requires ChromaDone(dst, g, bmp, u0, v0, k, 0)
    modifies dst.lum, dst.cb, dst.cr
    ensures LumaDone(g, bmp, dst.lineY, s0, dst.lum[..], r + 2, 0, 0)
    ensures ChromaDone(dst, g, bmp, u0, v0, k + 1, 0)
    ensures RowStart(dst, g, bmp, lum, cb, cr, p, r + 2, k + 1)
  {
    var width2, skip2 := g.Width2(), g.Skip2();
    lum, cb, cr, p := PairColumns(dst, g, bmp, lum0 + g.x, cb0 + skip2, cr0 + skip2, p0, s0, u0, v0, r, k);
    LumaRowEnd(g, bmp, dst.lineY, s0, dst.lum[..], r, g.w);
    NextRowStart(dst, g, bmp, lum0, cb0, cr0, p0, r, k, 2);
    p := p + bmp.wrap + (bmp.wrap - g.w);
    lum := lum + dst.lineY + (dst.lineY - g.w - g.x);
    cb := cb + dst.lineU - width2 - skip2;
    cr := cr + dst.lineV - width2 - skip2;
  }

  // ---------------------------------------------------------------- the whole rectangle

  // What one blend per covered pixel makes of the luma cell at index i.
  function LumaTarget(g: Geometry, bmp: Bitmap, stride: nat, old0: byte, i: nat): byte
    requires bmp.Covers(g) && stride > 0
  {
    var y, x := i / stride, i % stride;
    if g.y <= y < g.y + g.h && g.x <= x < g.x + g.w then
      var px := Px(bmp, g, y - g.y, x - g.x);
      AlphaBlend(px.a, old0, px.y, ONE_PIXEL)
    else
      old0
  }

  // Blended is what one blend per covered pixel makes of plane s0.
  ghost predicate LumaBlended(g: Geometry, bmp: Bitmap, stride: nat, s0: seq<byte>, s: seq<byte>)
    requires bmp.Covers(g) && stride > 0
  {
    && |s| == |s0|
    && forall i :: 0 <= i < |s| ==> s[i] == LumaTarget(g, bmp, stride, s0[i], i)
  }

  lemma LumaComplete(g: Geometry, bmp: Bitmap, stride: nat, s0: seq<byte>, s: seq<byte>)
    requires bmp.Covers(g) && stride > 0
    ensures LumaDone(g, bmp, stride, s0, s, g.h, 0, 0) <==> LumaBlended(g, bmp, stride, s0, s)
  {
    forall i | 0 <= i < |s0|
      ensures LumaTarget(g, bmp, stride, s0[i], i) == LumaCell(g, bmp, stride, s0[i], i, g.h, 0, 0)
    {
    }
  }

  // Which is: in the rectangle the luma of the pixel's palette word mixed in by its alpha,
  // elsewhere nothing.
  lemma LumaMixes(g: Geometry, bmp: Bitmap, stride: nat, old0: byte, y: nat, x: nat)
    requires bmp.Covers(g) && x < stride
    ensures var new0 := LumaTarget(g, bmp, stride, old0, y * stride + x);
            if g.y <= y < g.y + g.h && g.x <= x < g.x + g.w then
              var px := Px(bmp, g, y - g.y, x - g.x);
              Mixes(new0, px.a, old0, px.y, 1)
            else new0 == old0
  {
    DivMod(y, x, stride);
    var px := Px(bmp, g, y - g.y, x - g.x);
    BlendMixes(px.a, old0, px.y, ONE_PIXEL);
  }

  lemma LumaUntouched(g: Geometry, bmp: Bitmap, stride: nat, s0: seq<byte>)
    requires bmp.Covers(g) && stride > 0
    ensures LumaDone(g, bmp, stride, s0, s0, 0, 0, 0)
  {
  }

  // With h rows left after chroma row k - 1.
  lemma BandsLeft(g: Geometry, k: nat, h: nat)
    requires g.Drawable() && Top(g, k) == g.h - h
    ensures h >= 2 ==> k < g.ChromaRows()
    ensures h == 1 ==> OddLast(g, g.h - 1, k)
    ensures h == 0 ==> k == g.ChromaRows()
  {
  }

  lemma ChromaFits(g: Geometry, imgw: nat, imgh: nat)
    requires g.Drawable() && g.x + g.w <= imgw && g.y + g.h <= imgh
    ensures g.y / 2 + g.ChromaRows() <= (imgh + 1) / 2
    ensures g.Skip2() + g.Width2() <= (imgw + 1) / 2
  {
    CellsOfRow(g, g.Width2());
  }

  lemma PictureReaches(dst: Picture, g: Geometry, imgw: nat, imgh: nat)
    requires imgw > 0 && dst.Holds(imgw, imgh)
    requires g.Drawable() && g.x + g.w <= imgw && g.y + g.h <= imgh
    ensures dst.Reaches(g)
  {
    ChromaFits(g, imgw, imgh);
    MulMonotone(g.y + g.h, imgh, dst.lineY);
    MulMonotone(g.y / 2 + g.ChromaRows(), (imgh + 1) / 2, dst.lineU);
    MulMonotone(g.y / 2 + g.ChromaRows(), (imgh + 1) / 2, dst.lineV);
  }

  // The loop over pairs of rows, from h0 rows before the end.
  method Bands(dst: Picture, g: Geometry, bmp: Bitmap, lum0: int, cb0: int, cr0: int, p0: int,
               ghost s0: seq<byte>, ghost u0: seq<byte>, ghost v0: seq<byte>, h0: int, ghost r0: nat, ghost k0: nat)
    returns (lum: int, cb: int, cr: int, p: int, h: int, ghost r: nat, ghost k: nat)
    requires Ready(dst, g, bmp) && 0 <= h0 && r0 + h0 == g.h && Top(g, k0) == r0
    requires RowStart(dst, g, bmp, lum0, cb0, cr0, p0, r0, k0)
    requires LumaDone(g, bmp, dst.lineY, s0, dst.lum[..], r0, 0, 0)
    requires ChromaDone(dst, g, bmp, u0, v0, k0, 0)
    modifies dst.lum, dst.cb, dst.cr
    ensures 0 <= h <= 1 && r + h == g.h && Top(g, k) == r
    ensures RowStart(dst, g, bmp, lum, cb, cr, p, r, k)
    ensures LumaDone(g, bmp, dst.lineY, s0, dst.lum[..], r, 0, 0)
    ensures ChromaDone(dst, g, bmp, u0, v0, k, 0)
  {
    lum, cb, cr, p, h, r, k := lum0, cb0, cr0, p0, h0, r0, k0;
    while h >= 2
      invariant 0 <= h && r + h == g.h && Top(g, k) == r
      invariant RowStart(dst, g, bmp, lum, cb, cr, p, r, k)
      invariant LumaDone(g, bmp, dst.lineY, s0, dst.lum[..], r, 0, 0)
      invariant ChromaDone(dst, g, bmp, u0, v0, k, 0)
    {
      BandsLeft(g, k, h);
      lum, cb, cr, p := RowPair(dst, g, bmp, lum, cb, cr, p, s0, u0, v0, r, k);
      h, r, k := h - 2, r + 2, k + 1;
    }
  }

  // blend_subrect
  method BlendSubrect(dst: Picture, bmp: Bitmap, rx: int, ry: int, rw: int, rh: int, imgw: nat, imgh: nat)
    requires imgw > 0 && dst.Holds(imgw, imgh)
    requires var g := Place(rx, ry, rw, rh, imgw, imgh); g.Drawable() && bmp.Covers(g)
    modifies dst.lum, dst.cb, dst.cr
    ensures var g := Place(rx, ry, rw, rh, imgw, imgh);
            && LumaBlended(g, bmp, dst.lineY, old(dst.lum[..]), dst.lum[..])
            && dst.cb[..] == ChromaAfter(old(dst.cb[..]), bmp, g, dst.lineU, U, g.ChromaRows(), 0)
            && dst.cr[..] == ChromaAfter(old(dst.cr[..]), bmp, g, dst.lineV, V, g.ChromaRows(), 0)
  {
    var g := Place(rx, ry, rw, rh, imgw, imgh);
    PictureReaches(dst, g, imgw, imgh);
    ghost var s0, u0, v0 := dst.lum[..], dst.cb[..], dst.cr[..];
    var lum, cb, cr, p := g.y * dst.lineY, g.y / 2 * dst.lineU, g.y / 2 * dst.lineV, 0;
    ghost var k: nat := 0;
    LumaUntouched(g, bmp, dst.lineY, s0);
    if g.y % 2 == 1 {
      lum, cb, cr, p := OddRow(dst, g, bmp, lum, cb, cr, p, false, s0, u0, v0, 0, 0);
      k := 1;
    }
    var h: int;
    ghost var r: nat;
    lum, cb, cr, p, h, r, k := Bands(dst, g, bmp, lum, cb, cr, p, s0, u0, v0, g.h - g.y % 2, k, k);
    BandsLeft(g, k, h);
    if h != 0 {
      lum, cb, cr, p := OddRow(dst, g, bmp, lum, cb, cr, p, true, s0, u0, v0, r, k);
      k := k + 1;
    }
    LumaComplete(g, bmp, dst.lineY, s0, dst.lum[..]);
  }
}
