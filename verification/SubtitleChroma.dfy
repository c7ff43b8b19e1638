// What the walk of SubtitleBlend leaves on a chroma plane: which cells it blends,
// with which pixels, and the two ways in which an odd rectangle goes astray.

module SubtitleChroma {
  import opened Bytes
  import opened SubtitleBlend

  // ---------------------------------------------------------------- cells and pixels

  // Every pixel of the rectangle belongs to the cell at (y >> 1, x >> 1), and that
  // cell is one of the walk's.
  lemma CellOfPixel(g: Geometry, r: nat, c: nat, k: nat, j: nat)
    requires g.Drawable() && r < g.h && c < g.w
    ensures g.y / 2 + k == (g.y + r) / 2 && g.x / 2 + j == (g.x + c) / 2
            <==> Top(g, k) <= r <= Top(g, k) + 1 && Left(g, j) <= c <= Left(g, j) + 1
    ensures g.y / 2 + k == (g.y + r) / 2 ==> k < g.ChromaRows()
    ensures g.x / 2 + j == (g.x + c) / 2 ==> j < g.Width2()
  {
  }

  // Every cell of the walk holds a pixel of the rectangle.
  lemma PixelOfCell(g: Geometry, k: nat, j: nat) returns (r: nat, c: nat)
    requires g.Drawable() && k < g.ChromaRows() && j < g.Width2() && g.h > 0
    ensures r < g.h && c < g.w
    ensures g.y / 2 + k == (g.y + r) / 2 && g.x / 2 + j == (g.x + c) / 2
  {
    r := if Top(g, k) < 0 then 0 else Top(g, k);
    CellsOfRow(g, j);
    c := if Left(g, j) < 0 then 0 else Left(g, j);
  }

  // ---------------------------------------------------------------- where the walk writes

  // The odd first row leaves cb and cr one cell short of its tail, and rows follow.
  predicate Misplaced(g: Geometry) {
    g.y % 2 == 1 && g.OddTail() && g.h > 1
  }

  // The cell at index i of a chroma plane, blended once if it lies in the rectangle
  // and before cell (k, j) of the walk.
  function CellSoFar(bmp: Bitmap, g: Geometry, stride: nat, ch: Channel, old0: byte, i: nat, k: nat, j: nat): byte
    requires bmp.Covers(g) && stride > 0
  {
    var row, col := i / stride - g.y / 2, i % stride - g.x / 2;
    if 0 <= row && 0 <= col < g.Width2() && (row < k || (row == k && col < j)) then
      CellValue(bmp, g, ch, row, col, old0)
    else
      old0
  }

  // One blend per cell of the rectangle, all others kept.
  function CellTarget(bmp: Bitmap, g: Geometry, stride: nat, ch: Channel, old0: byte, i: nat): byte
    requires g.Drawable() && bmp.Covers(g) && stride > 0
  {
    var row, col := i / stride - g.y / 2, i % stride - g.x / 2;
    if 0 <= row < g.ChromaRows() && 0 <= col < g.Width2() then
      CellValue(bmp, g, ch, row, col, old0)
    else
      old0
  }

  ghost predicate Wide(g: Geometry, stride: nat) {
    g.Drawable() && stride > 0 && stride >= g.Skip2() + g.Width2()
  }

  lemma IndexIff(g: Geometry, stride: nat, i: nat, k: nat, j: nat)
    requires Wide(g, stride) && !Misplaced(g) && k < g.ChromaRows() && j < g.Width2()
    ensures i == CellIndex(g, stride, k, j) <==> i / stride - g.y / 2 == k && i % stride - g.Skip2() == j
  {
    NoShift(g, k);
    DivMod(g.y / 2 + k, g.Skip2() + j, stride);
    IndexOf(i, stride);
  }

  // Blending cell (k, j) moves the frontier past it.
  lemma CellStep(bmp: Bitmap, g: Geometry, stride: nat, ch: Channel, old0: byte, i: nat, k: nat, j: nat)
    requires Wide(g, stride) && bmp.Covers(g) && !Misplaced(g)
    requires k < g.ChromaRows() && j < g.Width2()
    ensures var before := CellSoFar(bmp, g, stride, ch, old0, i, k, j);
            CellSoFar(bmp, g, stride, ch, old0, i, k, j + 1)
            == if i == CellIndex(g, stride, k, j) then CellValue(bmp, g, ch, k, j, before) else before
  {
    IndexIff(g, stride, i, k, j);
  }

  lemma {:induction false} WalkInPlace(s0: seq<byte>, bmp: Bitmap, g: Geometry, stride: nat, ch: Channel, k: nat,
                                       j: nat, i: nat)
    requires Wide(g, stride) && bmp.Covers(g) && !Misplaced(g)
    requires j <= g.Width2() && k <= g.ChromaRows() && (k == g.ChromaRows() ==> j == 0)
    requires i < |s0|
    ensures ChromaAfter(s0, bmp, g, stride, ch, k, j)[i] == CellSoFar(bmp, g, stride, ch, s0[i], i, k, j)
    decreases k, j
  {
    if j > 0 {
      WalkInPlace(s0, bmp, g, stride, ch, k, j - 1, i);
      CellStep(bmp, g, stride, ch, s0[i], i, k, j - 1);
    } else if k > 0 {
      WalkInPlace(s0, bmp, g, stride, ch, k - 1, g.Width2(), i);
    }
  }

  lemma NoShift(g: Geometry, k: nat)
    requires g.Drawable() && !Misplaced(g) && k < g.ChromaRows()
    ensures g.Shift(k) == 0
  {
  }

  // Under Misplaced, the index of the last cell is past everything the walk writes.
  lemma LastCellSkipped(g: Geometry, stride: nat, k: nat, j: nat)
    requires Wide(g, stride) && Misplaced(g)
    requires k < g.ChromaRows() && j < g.Width2()
    ensures CellIndex(g, stride, k, j) < (g.y / 2 + g.ChromaRows() - 1) * stride + g.Skip2() + g.Width2() - 1
  {
    if k < g.ChromaRows() - 1 {
      MulMonotone(g.y / 2 + k + 1, g.y / 2 + g.ChromaRows() - 1, stride);
      NextRow(g.y / 2 + k, stride);
    }
  }

  lemma WrittenElsewhere(s0: seq<byte>, bmp: Bitmap, g: Geometry, stride: nat, ch: Channel, k: nat, j: nat, i: nat)
    requires bmp.Covers(g) && j > 0 && i < |s0| && i != CellIndex(g, stride, k, j - 1)
    ensures ChromaAfter(s0, bmp, g, stride, ch, k, j)[i] == ChromaAfter(s0, bmp, g, stride, ch, k, j - 1)[i]
  {
  }

  lemma {:induction false} LastCellKept(s0: seq<byte>, bmp: Bitmap, g: Geometry, stride: nat, ch: Channel, k: nat,
                                        j: nat, i: nat)
    requires Wide(g, stride) && bmp.Covers(g) && Misplaced(g)
    requires j <= g.Width2() && k <= g.ChromaRows() && (k == g.ChromaRows() ==> j == 0)
    requires i == LastIndex(g, stride) && i < |s0|
    ensures ChromaAfter(s0, bmp, g, stride, ch, k, j)[i] == s0[i]
    decreases k, j
  {
    if j > 0 {
      LastCellKept(s0, bmp, g, stride, ch, k, j - 1, i);
      LastCellSkipped(g, stride, k, j - 1);
      WrittenElsewhere(s0, bmp, g, stride, ch, k, j, i);
    } else if k > 0 {
      LastCellKept(s0, bmp, g, stride, ch, k - 1, g.Width2(), i);
    }
  }

  // An opaque white bitmap, for the families where the walk goes astray.
  function White(g: Geometry): (bmp: Bitmap)
    ensures bmp.Covers(g)
  {
    Bitmap(g.w, seq(g.h * g.w, _ => 0), seq(256, _ => 0xFFFFFFFF))
  }

  const OPAQUE := Pixel(255, 255, 255, 255)

  lemma WhitePx(g: Geometry, r: int, c: int)
    ensures Px(White(g), g, r, c) == if 0 <= r < g.h && 0 <= c < g.w then OPAQUE else CLEAR
  {
    if 0 <= r < g.h && 0 <= c < g.w {
      RowInside(r, g.h, g.w, c);
    }
  }

  lemma WhiteCell(g: Geometry, k: nat, j: nat, ch: Channel)
    ensures CellSum(White(g), g, ch, k, j) == 255 * (Inside(Top(g, k), g.h) * Inside(Left(g, j), g.w))
  {
    var t, l := Top(g, k), Left(g, j);
    WhitePx(g, t, l);
    WhitePx(g, t, l + 1);
    WhitePx(g, t + 1, l);
    WhitePx(g, t + 1, l + 1);
  }

  lemma OpaqueBlend(a: byte, newp: nat, s: nat)
    requires a >= 63 && 255 <= newp <= 255 * Weight(s)
    ensures AlphaBlend(a, 0, newp, s) > 0
  {
    MulMonotone(255, newp, a);
    assert newp * a >= 255 * 4;
  }

  lemma WhiteCellValue(g: Geometry, k: nat, j: nat, ch: Channel)
    requires Inside(Top(g, k), g.h) > 0 && Inside(Left(g, j), g.w) > 0
    ensures CellValue(White(g), g, ch, k, j, 0) > 0
  {
    var n := Inside(Top(g, k), g.h) * Inside(Left(g, j), g.w);
    assert n == 1 || n == 2 || n == 4;
    WhiteCell(g, k, j, Alpha);
    WhiteCell(g, k, j, ch);
    WhitePx(g, Top(g, k), Left(g, j) + 1);
    OpaqueBlend(CellAlpha(White(g), g, k, j), Colour(White(g), g, ch, k, j), Level(g, k, j));
  }

  // The plane the rectangle needs.
  predicate PlaneFor(g: Geometry, stride: nat, s0: seq<byte>)
    requires g.Drawable()
  {
    |s0| >= (g.y / 2 + g.ChromaRows()) * stride
  }

  // All bitmaps on all planes: each covered cell is blended once, in place, and no other is.
  ghost predicate BlendsItsCells(g: Geometry, stride: nat, ch: Channel)
    requires Wide(g, stride)
  {
    forall bmp: Bitmap, s0: seq<byte>, i: nat | bmp.Covers(g) && PlaneFor(g, stride, s0) && i < |s0| ::
      ChromaAfter(s0, bmp, g, stride, ch, g.ChromaRows(), 0)[i] == CellTarget(bmp, g, stride, ch, s0[i], i)
  }

  lemma InPlace(g: Geometry, stride: nat, ch: Channel)
    requires Wide(g, stride) && !Misplaced(g)
    ensures BlendsItsCells(g, stride, ch)
  {
    forall bmp: Bitmap, s0: seq<byte>, i: nat | bmp.Covers(g) && PlaneFor(g, stride, s0) && i < |s0|
      ensures ChromaAfter(s0, bmp, g, stride, ch, g.ChromaRows(), 0)[i] == CellTarget(bmp, g, stride, ch, s0[i], i)
    {
      WalkInPlace(s0, bmp, g, stride, ch, g.ChromaRows(), 0, i);
    }
  }

  // The index of the last cell of the rectangle.
  function LastIndex(g: Geometry, stride: nat): int
    requires g.Drawable()
  {
    (g.y / 2 + g.ChromaRows() - 1) * stride + g.Skip2() + g.Width2() - 1
  }

  lemma LastCell(g: Geometry, stride: nat, ch: Channel)
    requires Wide(g, stride) && Misplaced(g) && ch != Alpha
    ensures 0 <= LastIndex(g, stride) < (g.y / 2 + g.ChromaRows()) * stride
    ensures CellTarget(White(g), g, stride, ch, 0, LastIndex(g, stride)) > 0
  {
    var k, j := g.ChromaRows() - 1, g.Width2() - 1;
    RowInside(g.y / 2 + k, g.y / 2 + g.ChromaRows(), stride, g.Skip2() + j);
    DivMod(g.y / 2 + k, g.Skip2() + j, stride);
    CellsOfRow(g, j);
    WhiteCellValue(g, k, j, ch);
  }

  lemma Astray(g: Geometry, stride: nat, ch: Channel)
    requires Wide(g, stride) && Misplaced(g) && ch != Alpha
    ensures !BlendsItsCells(g, stride, ch)
  {
    var i := LastIndex(g, stride);
    LastCell(g, stride, ch);
    var s0: seq<byte> := seq((g.y / 2 + g.ChromaRows()) * stride, _ => 0);
    LastCellKept(s0, White(g), g, stride, ch, g.ChromaRows(), 0, i);
    assert ChromaAfter(s0, White(g), g, stride, ch, g.ChromaRows(), 0)[i] == s0[i];
    assert PlaneFor(g, stride, s0);
  }

  // The row advance by width2 and skip2 is exact if and only if no odd first row
  // with a tail is followed by another row.
  lemma ChromaInPlaceIff(g: Geometry, stride: nat, ch: Channel)
    requires Wide(g, stride) && ch != Alpha
    ensures BlendsItsCells(g, stride, ch) <==> !Misplaced(g)
  {
    if Misplaced(g) {
      Astray(g, stride, ch);
    } else {
      InPlace(g, stride, ch);
    }
  }

  // ---------------------------------------------------------------- with which pixels

  // What the rectangle has at row y and column x of the picture; nothing outside it.
  function PixelAt(bmp: Bitmap, g: Geometry, y: int, x: int): Pixel
    requires bmp.Covers(g)
  {
    Px(bmp, g, y - g.y, x - g.x)
  }

  predicate InRectangle(g: Geometry, y: int, x: int) {
    g.y <= y < g.y + g.h && g.x <= x < g.x + g.w
  }

  // How many of the four pixels of the picture's chroma cell (y, x) lie in the rectangle.
  function Covering(g: Geometry, y: nat, x: nat): nat {
    (if InRectangle(g, 2 * y, 2 * x) then 1 else 0) + (if InRectangle(g, 2 * y, 2 * x + 1) then 1 else 0) +
    (if InRectangle(g, 2 * y + 1, 2 * x) then 1 else 0) + (if InRectangle(g, 2 * y + 1, 2 * x + 1) then 1 else 0)
  }

  // A sum over a cell is one over those four pixels, and the cell's shift divides by how
  // many of them there are.
  lemma CellPixels(bmp: Bitmap, g: Geometry, ch: Channel, k: nat, j: nat)
    requires bmp.Covers(g)
    ensures var (y, x) := (g.y / 2 + k, g.x / 2 + j);
            && CellSum(bmp, g, ch, k, j)
               == Get(PixelAt(bmp, g, 2 * y, 2 * x), ch) + Get(PixelAt(bmp, g, 2 * y, 2 * x + 1), ch)
                  + Get(PixelAt(bmp, g, 2 * y + 1, 2 * x), ch) + Get(PixelAt(bmp, g, 2 * y + 1, 2 * x + 1), ch)
            && (Covering(g, y, x) > 0 ==> Weight(Level(g, k, j)) == Covering(g, y, x))
  {
    assert 2 * (g.y / 2 + k) - g.y == Top(g, k) && 2 * (g.x / 2 + j) - g.x == Left(g, j);
    assert Covering(g, g.y / 2 + k, g.x / 2 + j) == Inside(Top(g, k), g.h) * Inside(Left(g, j), g.w);
  }

  // The value of a cell: the mean of the covered pixels, or half the right pixel in a pair of
  // an odd last row, mixed in by a quarter of their alpha sum.
  lemma CellMixes(bmp: Bitmap, g: Geometry, ch: Channel, k: nat, j: nat, old0: byte)
    requires bmp.Covers(g) && Covering(g, g.y / 2 + k, g.x / 2 + j) > 0
    ensures var (y, x) := (g.y / 2 + k, g.x / 2 + j);
            var colour := if TrailingPair(g, k, j) then Get(PixelAt(bmp, g, 2 * y, 2 * x + 1), ch)
                          else CellSum(bmp, g, ch, k, j);
            Mixes(CellValue(bmp, g, ch, k, j, old0), CellSum(bmp, g, Alpha, k, j) / 4, old0, colour, Covering(g, y, x))
  {
    CellPixels(bmp, g, ch, k, j);
    assert 2 * (g.y / 2 + k) - g.y == Top(g, k) && 2 * (g.x / 2 + j) - g.x == Left(g, j);
    BlendMixes(CellAlpha(bmp, g, k, j), old0, Colour(bmp, g, ch, k, j), Level(g, k, j));
  }

  lemma SumFits(bmp: Bitmap, g: Geometry, ch: Channel, k: nat, j: nat)
    requires bmp.Covers(g)
    ensures CellSum(bmp, g, ch, k, j) <= 255 * Weight(Level(g, k, j))
  {
  }

  // The blend of the alpha sum over 4 and the colour sum of exactly the covered pixels.
  function CellIdeal(bmp: Bitmap, g: Geometry, ch: Channel, k: nat, j: nat, old0: byte): byte
    requires bmp.Covers(g)
  {
    SumFits(bmp, g, ch, k, j);
    AlphaBlend(CellAlpha(bmp, g, k, j), old0, CellSum(bmp, g, ch, k, j), Level(g, k, j))
  }

  ghost predicate BlendsItsPixels(g: Geometry, ch: Channel, k: nat, j: nat)
  {
    forall bmp: Bitmap, old0: byte | bmp.Covers(g) ::
      CellValue(bmp, g, ch, k, j, old0) == CellIdeal(bmp, g, ch, k, j, old0)
  }

  // A cell takes the mean of its covered pixels, except in the pairs of an odd last row.
  lemma CellIdealIff(g: Geometry, ch: Channel, k: nat, j: nat)
    requires ch != Alpha
    ensures BlendsItsPixels(g, ch, k, j) <==> !TrailingPair(g, k, j)
  {
    if TrailingPair(g, k, j) {
      WhiteCell(g, k, j, Alpha);
      WhiteCell(g, k, j, ch);
      WhitePx(g, Top(g, k), Left(g, j) + 1);
      assert CellValue(White(g), g, ch, k, j, 0) < CellIdeal(White(g), g, ch, k, j, 0);
    }
  }
}
