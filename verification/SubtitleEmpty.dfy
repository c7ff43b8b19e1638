// How many rows and columns the loops of blend_subrect draw, and where, when the clipped
// rectangle may be empty: with an odd start the remaining width or height is then -1, and
// the loops' last test takes it for one more.

module SubtitleEmpty {
  import opened SubtitleBlend

  // Columns drawn by the loop over pairs and the test behind it, with w left.
  function TailDrawn(w: int): (n: nat)
    ensures w >= 0 ==> n == w
  {
    if w >= 2 then 2 + TailDrawn(w - 2) else if w != 0 then 1 else 0
  }

  // Columns drawn of a row, or rows drawn in all, from an odd or even start on.
  function Drawn(start: nat, n: nat): nat {
    start % 2 + TailDrawn(n - start % 2)
  }

  // As many as there are, except that of none at an odd start two are drawn.
  lemma DrawnIs(start: nat, n: nat)
    ensures Drawn(start, n) == if n == 0 && start % 2 == 1 then 2 else n
  {
  }

  // So the walk draws the rectangle's own rows and columns exactly when it is Drawable.
  lemma DrawableIff(g: Geometry)
    ensures g.Drawable() <==> Drawn(g.x, g.w) == g.w && Drawn(g.y, g.h) == g.h
  {
    DrawnIs(g.x, g.w);
    DrawnIs(g.y, g.h);
  }

  // Bands of rows drawn: an odd first row, the pairs, an odd last row.
  function BandsDrawn(y: nat, h: nat): nat {
    y % 2 + TailBands(h - y % 2)
  }

  function TailBands(h: int): (n: nat)
    ensures h >= 0 ==> n == (h + 1) / 2
  {
    if h >= 2 then 1 + TailBands(h - 2) else if h != 0 then 1 else 0
  }

  lemma BandsAre(g: Geometry)
    ensures BandsDrawn(g.y, g.h) == if g.h == 0 && g.y % 2 == 1 then 2 else g.y % 2 + (g.h - g.y % 2 + 1) / 2
  {
  }

  // The first row of band k, below the rectangle's first.
  function BandRow(g: Geometry, k: nat): nat {
    if k == 0 then 0 else 2 * k - g.y % 2
  }

  // lum before band k: every band ends by stepping over what it drew, less the width.
  function BandLum(g: Geometry, stride: nat, k: nat): int {
    if k == 0 then g.y * stride
    else
      BandLum(g, stride, k - 1) + (BandRow(g, k) - BandRow(g, k - 1)) * stride + Drawn(g.x, g.w) - g.w
  }

  lemma {:induction false} BandLumIs(g: Geometry, stride: nat, k: nat)
    ensures BandLum(g, stride, k) == (g.y + BandRow(g, k)) * stride + k * (Drawn(g.x, g.w) - g.w)
  {
    if k > 0 {
      BandLumIs(g, stride, k - 1);
      Rows(g.y + BandRow(g, k - 1), BandRow(g, k) - BandRow(g, k - 1), stride);
      Rows(k - 1, 1, Drawn(g.x, g.w) - g.w);
    }
  }

  lemma Rows(a: int, b: int, stride: int)
    ensures (a + b) * stride == a * stride + b * stride
  {
  }

  // The luma index of column c of a row of band k; row is 0, or 1 in a pair.
  function LumAt(g: Geometry, stride: nat, k: nat, row: nat, c: nat): int {
    BandLum(g, stride, k) + row * stride + g.x + c
  }

  // Where band k draws: in place if the width is not 0 or the start even, and else two
  // cells of each row, two further right than the band before.
  lemma BandDraws(g: Geometry, stride: nat, k: nat, row: nat, c: nat)
    ensures LumAt(g, stride, k, row, c) ==
            (g.y + BandRow(g, k) + row) * stride + g.x + c + (if g.w == 0 && g.x % 2 == 1 then 2 * k else 0)
  {
    DrawnIs(g.x, g.w);
    BandLumIs(g, stride, k);
    Rows(g.y + BandRow(g, k), row, stride);
  }

  // ---------------------------------------------------------------- within the plane or not

  // Cell c of a row of band k is drawn.
  predicate DrawnCell(g: Geometry, k: nat, row: nat, c: nat) {
    && k < BandsDrawn(g.y, g.h) && c < Drawn(g.x, g.w)
    && BandRow(g, k) + row < BandRow(g, k + 1) && BandRow(g, k) + row < Drawn(g.y, g.h)
  }

  // Some drawn cell lies at or past the end of a plane of so many cells.
  ghost predicate Leaves(g: Geometry, stride: nat, cells: int) {
    exists k: nat, row: nat, c: nat :: DrawnCell(g, k, row, c) && LumAt(g, stride, k, row, c) >= cells
  }

  // The index of the last cell, when so many columns, rows and bands are drawn.
  function LastAt(g: Geometry, stride: nat, columns: nat, rows: nat, bands: nat): int {
    (g.y + rows - 1) * stride + g.x + columns - 1 + (bands - 1) * (columns - g.w)
  }

  function LastLum(g: Geometry, stride: nat): int {
    LastAt(g, stride, Drawn(g.x, g.w), Drawn(g.y, g.h), BandsDrawn(g.y, g.h))
  }

  lemma LastBand(g: Geometry)
    requires Drawn(g.y, g.h) > 0
    ensures BandsDrawn(g.y, g.h) > 0
    ensures BandRow(g, BandsDrawn(g.y, g.h) - 1) < Drawn(g.y, g.h) <= BandRow(g, BandsDrawn(g.y, g.h))
  {
    DrawnIs(g.y, g.h);
    BandsAre(g);
  }

  lemma AtMost(a: int, b: int, k: int)
    requires a <= b && k >= 0
    ensures a * k <= b * k
  {
    assert (b - a) * k >= 0;
    Rows(a, b - a, k);
  }

  lemma NoneLater(g: Geometry, stride: nat, k: nat, row: nat, c: nat)
    requires DrawnCell(g, k, row, c)
    ensures LumAt(g, stride, k, row, c) <= LastLum(g, stride)
  {
    DrawnIs(g.x, g.w);
    BandLumIs(g, stride, k);
    Rows(g.y + BandRow(g, k), row, stride);
    AtMost(g.y + BandRow(g, k) + row, g.y + Drawn(g.y, g.h) - 1, stride);
    AtMost(k, BandsDrawn(g.y, g.h) - 1, Drawn(g.x, g.w) - g.w);
  }

  // What is drawn leaves the plane exactly when its last cell does.
  lemma LeavesIff(g: Geometry, stride: nat, cells: int)
    requires Drawn(g.x, g.w) > 0 && Drawn(g.y, g.h) > 0
    ensures Leaves(g, stride, cells) <==> LastLum(g, stride) >= cells
  {
    if Leaves(g, stride, cells) {
      var k: nat, row: nat, c: nat :| DrawnCell(g, k, row, c) && LumAt(g, stride, k, row, c) >= cells;
      NoneLater(g, stride, k, row, c);
    }
    if LastLum(g, stride) >= cells {
      LastBand(g);
      var k := BandsDrawn(g.y, g.h) - 1;
      var row := Drawn(g.y, g.h) - 1 - BandRow(g, k);
      BandLumIs(g, stride, k);
      Rows(g.y + BandRow(g, k), row, stride);
      assert DrawnCell(g, k, row, Drawn(g.x, g.w) - 1);
    }
  }

  lemma Times(k: int, d: int)
    ensures d == 0 ==> k * d == 0
    ensures d == 2 ==> k * d == 2 * k
  {
  }

  lemma LastAtIs(g: Geometry, stride: nat, columns: nat, rows: nat, bands: nat)
    requires columns == g.w || (g.w == 0 && columns == 2)
    ensures LastAt(g, stride, columns, rows, bands) ==
            (g.y + rows - 1) * stride + g.x + (if columns == g.w then g.w - 1 else 2 * bands - 1)
  {
    Times(bands - 1, columns - g.w);
  }

  lemma LastLumIs(g: Geometry, stride: nat)
    requires g.h > 0 && Drawn(g.x, g.w) > 0
    ensures LastLum(g, stride) ==
            (g.y + g.h - 1) * stride + g.x +
            (if g.w == 0 then 2 * BandsDrawn(g.y, g.h) - 1 else g.w - 1)
  {
    DrawnIs(g.x, g.w);
    DrawnIs(g.y, g.h);
    LastAtIs(g, stride, Drawn(g.x, g.w), g.h, BandsDrawn(g.y, g.h));
  }

  // How far the last row is from the end of the plane.
  lemma Ending(row: int, rows: int, stride: int, n: int)
    ensures row * stride + n >= rows * stride <==> n >= (rows - row) * stride
  {
    Rows(row, rows - row, stride);
  }

  // A rectangle that is not empty stays within a plane that holds it.
  lemma NeverLeaves(g: Geometry, stride: nat, imgh: nat)
    requires g.w > 0 && g.h > 0 && g.x + g.w <= stride && g.y + g.h <= imgh
    ensures !Leaves(g, stride, imgh * stride)
  {
    DrawnIs(g.x, g.w);
    DrawnIs(g.y, g.h);
    LeavesIff(g, stride, imgh * stride);
    LastLumIs(g, stride);
    RowInside(g.y + g.h - 1, imgh, stride, g.x + g.w - 1);
  }

  // One of no columns at an odd start leaves it exactly when the two columns it draws, two
  // further right in every band, reach past the rows that are left below.
  lemma EmptyLeavesIff(g: Geometry, stride: nat, imgh: nat)
    requires g.w == 0 && g.x % 2 == 1 && g.h > 0 && g.y + g.h <= imgh
    ensures Leaves(g, stride, imgh * stride)
            <==> g.x + 2 * BandsDrawn(g.y, g.h) > (imgh - (g.y + g.h - 1)) * stride
  {
    DrawnIs(g.x, g.w);
    DrawnIs(g.y, g.h);
    LeavesIff(g, stride, imgh * stride);
    LastLumIs(g, stride);
    Ending(g.y + g.h - 1, imgh, stride, g.x + 2 * BandsDrawn(g.y, g.h) - 1);
  }

  // At the right edge of the last row of a plane without padding that is always so.
  lemma EmptyAtEdge(g: Geometry, imgw: nat, imgh: nat)
    requires g.w == 0 && g.x == imgw && imgw % 2 == 1 && g.h > 0 && g.y + g.h == imgh
    ensures Leaves(g, imgw, imgh * imgw)
  {
    EmptyLeavesIff(g, imgw, imgh);
    LastBand(g);
  }
}
