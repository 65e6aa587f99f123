/** The console screen scan: blank cells and blended asset glyphs, and when a drawn glyph is recognised. */
module Font {
  const GLYPHS: nat := 95
  const CELL_WIDTH: nat := 8

  type Level = n: int | 0 <= n < 256

  datatype Px = Px(r: Level, g: Level, b: Level)

  // Coverage bytes of a glyph, and the pixels of a screen cell, both row by row.
  type Coverage = seq<Level>
  type Cell = seq<Px>

  const BLACK := Px(0, 0, 0)
  const WHITE := Px(255, 255, 255)

  // ─── blending ──────────────────────────────────────────────────────────────

  function Mix(b: Level, f: Level, c: Level): (r: Level)
    ensures c == 0 ==> r == b
    ensures c == 255 ==> r == f
  {
    if c == 0 then b else if c == 255 then f else MixedLevel(b, f, c)
  }

  function MixedLevel(b: Level, f: Level, c: Level): Level {
    MixBound(b, f, c);
    (b * (255 - c) + f * c + 127) / 255
  }

  lemma MixBound(b: Level, f: Level, c: Level)
    ensures 0 <= b * (255 - c) + f * c <= 255 * 255
  {
    Scale(b, 255, 255 - c);
    Scale(f, 255, c);
  }

  lemma Scale(x: nat, y: nat, z: nat)
    ensures x <= y ==> 0 <= x * z <= y * z
  {
  }

  /** `blend`: the background under coverage 0, the ink at 255. */
  function Blend(bg: Px, fg: Px, c: Level): Px {
    Px(Mix(bg.r, fg.r, c), Mix(bg.g, fg.g, c), Mix(bg.b, fg.b, c))
  }

  /** Python's `round(n / d)`: to nearest, ties to even. */
  function RoundHalfEven(n: nat, d: nat): (r: nat)
    requires d > 0
  {
    var q, r := n / d, n % d;
    if 2 * r < d || (2 * r == d && q % 2 == 0) then q else q + 1
  }

  /** The ink level that a pixel of level `p` and coverage `c` is taken to come from. */
  function InkLevel(p: Level, c: Level): Level
    requires c > 0
  {
    var n := RoundHalfEven(p * 255, c);
    if n < 255 then n else 255
  }

  function Ink(p: Px, c: Level): Px
    requires c > 0
  {
    Px(InkLevel(p.r, c), InkLevel(p.g, c), InkLevel(p.b, c))
  }

  // ─── cells ─────────────────────────────────────────────────────────────────

  /** The cell is the glyph blended over `bg` in the single colour `fg`. */
  ghost predicate Draws(cov: Coverage, bg: Px, fg: Px, cell: Cell) {
    |cell| == |cov| && forall i :: 0 <= i < |cov| ==> cell[i] == Blend(bg, fg, cov[i])
  }

  ghost predicate Blank(bg: Px, cell: Cell) {
    forall i :: 0 <= i < |cell| ==> cell[i] == bg
  }

  function InkMask(cov: Coverage): (m: seq<bool>)
    ensures |m| == |cov| && forall i :: 0 <= i < |cov| ==> m[i] == (cov[i] > 0)
  {
    seq(|cov|, i requires 0 <= i < |cov| => cov[i] > 0)
  }

  function CellMask(bg: Px, cell: Cell): (m: seq<bool>)
    ensures |m| == |cell| && forall i :: 0 <= i < |cell| ==> m[i] == (cell[i] != bg)
  {
    seq(|cell|, i requires 0 <= i < |cell| => cell[i] != bg)
  }

  /** `max(range(len(cov)), key=cov)`: the first of the darkest pixels. */
  function Best(cov: Coverage): (k: nat)
    requires cov != []
    ensures k < |cov| && forall i :: 0 <= i < |cov| ==> cov[i] <= cov[k]
    ensures forall i :: 0 <= i < k ==> cov[i] < cov[k]
  {
    if |cov| == 1 then 0
    else
      var n := |cov| - 1;
      var k := Best(cov[..n]);
      if cov[n] > cov[k] then n else k
  }

  /** The cell passes the scan's two tests for this glyph: its ink shape, and its coverage in one colour. */
  ghost predicate Accepts(cov: Coverage, bg: Px, cell: Cell) {
    && cov != [] && CellMask(bg, cell) == InkMask(cov) && cov[Best(cov)] > 0
    && Draws(cov, bg, Ink(cell[Best(cov)], cov[Best(cov)]), cell)
  }

  ghost predicate Explained(asset: seq<Coverage>, bg: Px, cell: Cell) {
    Blank(bg, cell) || exists i :: 0 <= i < |asset| && Accepts(asset[i], bg, cell)
  }

  // ─── the asset and the screen ──────────────────────────────────────────────

  /** The coverage bytes of glyph `i`, `per` of them. */
  function Glyph(data: seq<Level>, per: nat, i: nat): (g: Coverage)
    requires i < GLYPHS && |data| == GLYPHS * per
    ensures |g| == per
  {
    GlyphFits(per, i);
    data[i * per..i * per + per]
  }

  lemma GlyphFits(per: nat, i: nat)
    requires i < GLYPHS
    ensures 0 <= i * per && i * per + per <= GLYPHS * per
  {
    Scale(i + 1, GLYPHS, per);
  }

  function Asset(data: seq<Level>, per: nat): (a: seq<Coverage>)
    requires |data| == GLYPHS * per
    ensures |a| == GLYPHS && forall i :: 0 <= i < GLYPHS ==> |a[i]| == per
  {
    seq(GLYPHS, i requires 0 <= i < GLYPHS && |data| == GLYPHS * per => Glyph(data, per, i))
  }

  type Masks = map<seq<bool>, seq<Coverage>>

  ghost predicate Filed(masks: Masks, glyphs: seq<Coverage>) {
    && (forall m :: m in masks ==> masks[m] != [])
    && (forall cov :: cov in glyphs ==> InkMask(cov) in masks && cov in masks[InkMask(cov)])
    && (forall m, cov :: m in masks && cov in masks[m] ==> InkMask(cov) == m && cov in glyphs)
  }

  /** `glyph_masks`: every glyph filed under its ink mask. */
  method GlyphMasks(asset: seq<Coverage>) returns (masks: Masks)
    ensures Filed(masks, asset)
  {
    masks := map[];
    for i := 0 to |asset|
      invariant Filed(masks, asset[..i])
    {
      FileOne(masks, asset[..i], asset[i]);
      assert asset[..i + 1] == asset[..i] + [asset[i]];
      var mask := InkMask(asset[i]);
      masks := masks[mask := (if mask in masks then masks[mask] else []) + [asset[i]]];
    }
    assert asset[..|asset|] == asset;
  }

  lemma FileOne(masks: Masks, glyphs: seq<Coverage>, cov: Coverage)
    requires Filed(masks, glyphs)
    ensures var m := InkMask(cov);
            Filed(masks[m := (if m in masks then masks[m] else []) + [cov]], glyphs + [cov])
  {
  }

  // A screenshot, rows of pixels.
  datatype Image = Image(width: nat, height: nat, px: seq<seq<Px>>)

  ghost predicate ValidImage(img: Image) {
    |img.px| == img.height && forall y :: 0 <= y < img.height ==> |img.px[y]| == img.width
  }

  function RowOf(img: Image, x0: nat, y: nat): (r: seq<Px>)
    requires y < |img.px| && x0 + CELL_WIDTH <= |img.px[y]|
    ensures |r| == CELL_WIDTH
  {
    img.px[y][x0..x0 + CELL_WIDTH]
  }

  /** The pixels of the rows `y0..y1` of a cell, row by row. */
  function CellRows(img: Image, x0: nat, y0: nat, y1: nat): (c: Cell)
    requires y0 <= y1 <= |img.px| && forall y :: y0 <= y < y1 ==> x0 + CELL_WIDTH <= |img.px[y]|
    ensures |c| == CELL_WIDTH * (y1 - y0)
    decreases y1
  {
    if y0 == y1 then [] else CellRows(img, x0, y0, y1 - 1) + RowOf(img, x0, y1 - 1)
  }

  /** Cell (`row`, `col`) is inside the image. */
  ghost predicate InGrid(img: Image, cellHeight: nat, row: nat, col: nat) {
    (row + 1) * cellHeight <= img.height && (col + 1) * CELL_WIDTH <= img.width
  }

  ghost function CellAt(img: Image, cellHeight: nat, row: nat, col: nat): Cell
    requires ValidImage(img) && InGrid(img, cellHeight, row, col)
  {
    CellRows(img, col * CELL_WIDTH, row * cellHeight, row * cellHeight + cellHeight)
  }

  lemma {:induction false} RowsPixel(img: Image, x0: nat, y0: nat, y1: nat, x: nat, y: nat)
    requires y0 <= y1 <= |img.px| && (forall k :: y0 <= k < y1 ==> x0 + CELL_WIDTH <= |img.px[k]|)
    requires x < 8 && y0 + y < y1
    ensures 8 * y + x < |CellRows(img, x0, y0, y1)| && CellRows(img, x0, y0, y1)[8 * y + x] == img.px[y0 + y][x0 + x]
    decreases y1
  {
    var above := CellRows(img, x0, y0, y1 - 1);
    assert CellRows(img, x0, y0, y1) == above + RowOf(img, x0, y1 - 1);
    if y0 + y < y1 - 1 {
      RowsPixel(img, x0, y0, y1 - 1, x, y);
    } else {
      assert |above| == 8 * y && RowOf(img, x0, y1 - 1)[x] == img.px[y0 + y][x0 + x];
    }
  }

  /** Pixel (x, y) of cell (row, col) is the pixel x to the right and y below the cell's corner. */
  lemma CellPixel(img: Image, cellHeight: nat, row: nat, col: nat, x: nat, y: nat)
    requires ValidImage(img) && InGrid(img, cellHeight, row, col) && x < 8 && y < cellHeight
    ensures |CellAt(img, cellHeight, row, col)| == 8 * cellHeight && 8 * y + x < 8 * cellHeight
    ensures row * cellHeight + y < img.height && col * 8 + x < img.width
    ensures CellAt(img, cellHeight, row, col)[8 * y + x] == img.px[row * cellHeight + y][col * 8 + x]
  {
    var x0, y0 := col * CELL_WIDTH, row * cellHeight;
    assert (row + 1) * cellHeight == y0 + cellHeight && (col + 1) * CELL_WIDTH == x0 + CELL_WIDTH;
    RowsPixel(img, x0, y0, y0 + cellHeight, x, y);
  }

  /** The coverage bytes of a glyph lie one glyph after the other. */
  lemma GlyphByte(data: seq<Level>, per: nat, i: nat, k: nat)
    requires i < 95 && |data| == 95 * per && k < per
    ensures i * per + k < |data| && Glyph(data, per, i)[k] == data[i * per + k]
    ensures |Asset(data, per)| == 95 && Asset(data, per)[i] == Glyph(data, per, i)
  {
    GlyphFits(per, i);
  }

  method ScreenCell(img: Image, cellHeight: nat, row: nat, col: nat) returns (cell: Cell)
    requires ValidImage(img) && InGrid(img, cellHeight, row, col)
    ensures cell == CellAt(img, cellHeight, row, col) && |cell| == 8 * cellHeight
    ensures forall i :: 0 <= i < |cell| ==>
      && row * cellHeight + i / 8 < img.height && col * 8 + i % 8 < img.width
      && cell[i] == img.px[row * cellHeight + i / 8][col * 8 + i % 8]
  {
    cell := [];
    var x0, y0 := col * CELL_WIDTH, row * cellHeight;
    for y := y0 to y0 + cellHeight
      invariant cell == CellRows(img, x0, y0, y)
    {
      cell := cell + img.px[y][x0..x0 + CELL_WIDTH];
    }
    CellPixels(img, cellHeight, row, col);
  }

  lemma CellPixels(img: Image, cellHeight: nat, row: nat, col: nat)
    requires ValidImage(img) && InGrid(img, cellHeight, row, col)
    ensures var cell := CellAt(img, cellHeight, row, col);
      && |cell| == 8 * cellHeight
      && forall i :: 0 <= i < |cell| ==>
           && row * cellHeight + i / 8 < img.height && col * 8 + i % 8 < img.width
           && cell[i] == img.px[row * cellHeight + i / 8][col * 8 + i % 8]
  {
    var cell := CellAt(img, cellHeight, row, col);
    if cellHeight > 0 { CellPixel(img, cellHeight, row, col, 0, 0); }
    forall i | 0 <= i < |cell|
      ensures row * cellHeight + i / 8 < img.height && col * 8 + i % 8 < img.width
      ensures cell[i] == img.px[row * cellHeight + i / 8][col * 8 + i % 8]
    {
      CellPixel(img, cellHeight, row, col, i % 8, i / 8);
    }
  }

  // ─── the scan ──────────────────────────────────────────────────────────────

  method Same(bg: Px, fg: Px, cov: Coverage, cell: Cell) returns (same: bool)
    requires |cov| == |cell|
    ensures same <==> Draws(cov, bg, fg, cell)
  {
    for i := 0 to |cov|
      invariant forall k :: 0 <= k < i ==> cell[k] == Blend(bg, fg, cov[k])
    {
      if cell[i] != Blend(bg, fg, cov[i]) { return false; }
    }
    return true;
  }

  method MatchesOne(candidates: seq<Coverage>, bg: Px, cell: Cell) returns (ok: bool)
    requires forall i :: 0 <= i < |candidates| ==>
      |candidates[i]| == |cell| > 0 && InkMask(candidates[i]) == CellMask(bg, cell)
    ensures ok <==> exists i :: 0 <= i < |candidates| && Accepts(candidates[i], bg, cell)
  {
    for i := 0 to |candidates|
      invariant forall k :: 0 <= k < i ==> !Accepts(candidates[k], bg, cell)
    {
      var cov := candidates[i];
      var best := Best(cov);
      if cov[best] > 0 {
        var same := Same(bg, Ink(cell[best], cov[best]), cov, cell);
        if same { return true; }
      }
    }
    return false;
  }

  /** One cell of the scan. */
  method ExplainCell(masks: Masks, ghost asset: seq<Coverage>, bg: Px, cell: Cell) returns (ok: bool)
    requires Filed(masks, asset) && cell != [] && forall i :: 0 <= i < |asset| ==> |asset[i]| == |cell|
    ensures ok <==> Explained(asset, bg, cell)
  {
    var mask := CellMask(bg, cell);
    if forall i :: 0 <= i < |mask| ==> !mask[i] {
      return true;
    }
    if mask !in masks {
      NotFiled(masks, asset, bg, cell);
      return false;
    }
    var candidates := masks[mask];
    FiledLengths(masks, asset, mask, |cell|);
    ok := MatchesOne(candidates, bg, cell);
    Candidates(masks, asset, bg, cell);
  }

  lemma FiledLengths(masks: Masks, asset: seq<Coverage>, mask: seq<bool>, n: nat)
    requires Filed(masks, asset) && mask in masks && forall i :: 0 <= i < |asset| ==> |asset[i]| == n
    ensures forall i :: 0 <= i < |masks[mask]| ==> |masks[mask][i]| == n && InkMask(masks[mask][i]) == mask
  {
    forall i | 0 <= i < |masks[mask]| ensures |masks[mask][i]| == n && InkMask(masks[mask][i]) == mask {
      var cov := masks[mask][i];
      assert cov in masks[mask];
      assert cov in asset;
      var k :| 0 <= k < |asset| && asset[k] == cov;
    }
  }

  lemma NotFiled(masks: Masks, asset: seq<Coverage>, bg: Px, cell: Cell)
    requires Filed(masks, asset) && CellMask(bg, cell) !in masks && !Blank(bg, cell)
    ensures !Explained(asset, bg, cell)
  {
    forall i | 0 <= i < |asset| ensures !Accepts(asset[i], bg, cell) {
      assert asset[i] in asset;
    }
  }

  lemma Candidates(masks: Masks, asset: seq<Coverage>, bg: Px, cell: Cell)
    requires Filed(masks, asset) && CellMask(bg, cell) in masks && !Blank(bg, cell)
    ensures Explained(asset, bg, cell) <==>
      exists i :: 0 <= i < |masks[CellMask(bg, cell)]| && Accepts(masks[CellMask(bg, cell)][i], bg, cell)
  {
    var filed := masks[CellMask(bg, cell)];
    if i :| 0 <= i < |asset| && Accepts(asset[i], bg, cell) {
      assert asset[i] in asset;
      var k :| 0 <= k < |filed| && filed[k] == asset[i];
    }
    if k :| 0 <= k < |filed| && Accepts(filed[k], bg, cell) {
      assert filed[k] in filed;
      var i :| 0 <= i < |asset| && asset[i] == filed[k];
    }
  }

  datatype Spot = Spot(row: nat, col: nat)

  /** The scan has to look at this cell: above the status bar, in the grid, not an overlay. */
  ghost predicate Looked(img: Image, cellHeight: nat, status: nat, skip: set<Spot>, row: nat, col: nat) {
    InGrid(img, cellHeight, row, col) && (row + 1) * cellHeight + status <= img.height && Spot(row, col) !in skip
  }

  /** ... which is to say that all its pixels are on the screen, above the status bar. */
  lemma LookedIff(img: Image, cellHeight: nat, status: nat, skip: set<Spot>, row: nat, col: nat)
    requires cellHeight > 0
    ensures Looked(img, cellHeight, status, skip, row, col) <==>
      && Spot(row, col) !in skip
      && row * cellHeight + (cellHeight - 1) < img.height - status && col * 8 + 7 < img.width
  {
    assert (row + 1) * cellHeight == row * cellHeight + cellHeight;
  }

  ghost predicate RowExplained(img: Image, asset: seq<Coverage>, cellHeight: nat, bg: Px, status: nat, skip: set<Spot>,
                               row: nat, cols: nat)
    requires ValidImage(img)
  {
    forall col :: 0 <= col < cols && Looked(img, cellHeight, status, skip, row, col) ==>
      Explained(asset, bg, CellAt(img, cellHeight, row, col))
  }

  /** Every cell above the status bar that is no overlay is blank or one asset glyph. */
  ghost predicate ScreenExplained(img: Image, asset: seq<Coverage>, cellHeight: nat, bg: Px, status: nat,
                                  skip: set<Spot>)
    requires ValidImage(img)
  {
    forall row, col :: Looked(img, cellHeight, status, skip, row, col) ==>
      Explained(asset, bg, CellAt(img, cellHeight, row, col))
  }

  /** `scan_screen`: 0 exactly when every cell it has to look at is explained. */
  method ScanScreen(img: Image, data: seq<Level>, cellHeight: nat, bg: Px, status: nat, skip: set<Spot>)
    returns (code: nat)
    requires ValidImage(img) && cellHeight > 0 && |data| == GLYPHS * (CELL_WIDTH * cellHeight)
    ensures code == 0 || code == 1
    ensures code == 0 <==> ScreenExplained(img, Asset(data, CELL_WIDTH * cellHeight), cellHeight, bg, status, skip)
  {
    var asset := Asset(data, CELL_WIDTH * cellHeight);
    var masks := GlyphMasks(asset);
    var cols, rows := img.width / CELL_WIDTH, img.height / cellHeight;
    var unexplained: nat := 0;
    var row := 0;
    while row < rows && (row + 1) * cellHeight <= img.height - status
      invariant row <= rows
      invariant unexplained == 0 <==> forall r :: 0 <= r < row ==>
        RowExplained(img, asset, cellHeight, bg, status, skip, r, cols)
    {
      var bad := ScanRow(img, masks, asset, cellHeight, bg, status, skip, row, cols);
      unexplained := unexplained + bad;
      row := row + 1;
    }
    RowsCover(img, asset, cellHeight, bg, status, skip, row, rows, cols);
    return if unexplained == 0 then 0 else 1;
  }

  method ScanRow(img: Image, masks: Masks, ghost asset: seq<Coverage>, cellHeight: nat, bg: Px, ghost status: nat,
                 skip: set<Spot>, row: nat, cols: nat) returns (bad: nat)
    requires ValidImage(img) && cellHeight > 0 && Filed(masks, asset) && cols * CELL_WIDTH <= img.width
    requires forall i :: 0 <= i < |asset| ==> |asset[i]| == CELL_WIDTH * cellHeight
    requires (row + 1) * cellHeight + status <= img.height
    ensures bad == 0 <==> RowExplained(img, asset, cellHeight, bg, status, skip, row, cols)
  {
    bad := 0;
    for col := 0 to cols
      invariant bad == 0 <==> RowExplained(img, asset, cellHeight, bg, status, skip, row, col)
    {
      if Spot(row, col) !in skip {
        assert InGrid(img, cellHeight, row, col);
        var cell := ScreenCell(img, cellHeight, row, col);
        assert Looked(img, cellHeight, status, skip, row, col);
        var ok := ExplainCell(masks, asset, bg, cell);
        if !ok { bad := bad + 1; }
      }
    }
  }

  /** The rows and columns the loops visit are all the cells there are to look at. */
  lemma RowsCover(img: Image, asset: seq<Coverage>, cellHeight: nat, bg: Px, status: nat, skip: set<Spot>, row: nat,
                  rows: nat, cols: nat)
    requires ValidImage(img) && cellHeight > 0 && cols == img.width / CELL_WIDTH && rows == img.height / cellHeight
    requires row <= rows
    requires row == rows || (row + 1) * cellHeight > img.height - status
    ensures ScreenExplained(img, asset, cellHeight, bg, status, skip) <==>
      forall r :: 0 <= r < row ==> RowExplained(img, asset, cellHeight, bg, status, skip, r, cols)
  {
    forall r: nat, c: nat | Looked(img, cellHeight, status, skip, r, c) ensures r < row && c < cols {
      RowBound(r, row, rows, cellHeight, img.height, status);
      ColBound(c, img.width);
    }
    if forall r :: 0 <= r < row ==> RowExplained(img, asset, cellHeight, bg, status, skip, r, cols) {
      forall r: nat, c: nat | Looked(img, cellHeight, status, skip, r, c)
        ensures Explained(asset, bg, CellAt(img, cellHeight, r, c))
      {
        assert RowExplained(img, asset, cellHeight, bg, status, skip, r, cols);
      }
    }
  }

  lemma RowBound(r: nat, row: nat, rows: nat, h: nat, height: nat, status: nat)
    requires h > 0 && rows == height / h && (r + 1) * h + status <= height
    requires row == rows || (row + 1) * h > height - status
    ensures r < row
  {
    assert height == h * (height / h) + height % h;
    assert (rows + 1) * h == h * (height / h) + h;
    Scale(row + 1, r + 1, h);
  }

  lemma ColBound(c: nat, width: nat)
    requires (c + 1) * CELL_WIDTH <= width
    ensures c < width / CELL_WIDTH
  {
  }

  // ─── soundness and completeness ────────────────────────────────────────────

  ghost predicate DrawnBy(asset: seq<Coverage>, bg: Px, cell: Cell) {
    exists i, fg :: 0 <= i < |asset| && Draws(asset[i], bg, fg, cell)
  }

  /** An explained cell is blank or one glyph of the asset, blended in a single colour. */
  lemma ExplainedSound(asset: seq<Coverage>, bg: Px, cell: Cell)
    requires Explained(asset, bg, cell)
    ensures Blank(bg, cell) || DrawnBy(asset, bg, cell)
  {
    if !Blank(bg, cell) {
      var i :| 0 <= i < |asset| && Accepts(asset[i], bg, cell);
      var cov := asset[i];
      assert Draws(cov, bg, Ink(cell[Best(cov)], cov[Best(cov)]), cell);
    }
  }

  /** Every inked pixel of the glyph is visible against the background. */
  ghost predicate InkShows(cov: Coverage, bg: Px, fg: Px) {
    forall i :: 0 <= i < |cov| && cov[i] > 0 ==> Blend(bg, fg, cov[i]) != bg
  }

  // ─── blending as arithmetic ────────────────────────────────────────────────

  /** What `blend` divides by 255. */
  function Weighed(b: Level, f: Level, c: Level): (n: nat) {
    MixBound(b, f, c);
    b * (255 - c) + f * c + 127
  }

  lemma MixIs(b: Level, f: Level, c: Level)
    ensures Mix(b, f, c) == Weighed(b, f, c) / 255
  {
  }

  /** A pixel of coverage `c` differs from the background in this channel. */
  ghost predicate Shows(b: Level, f: Level, c: Level) {
    (f - b) * c >= 128 || (b - f) * c >= 128
  }

  lemma ShowsIff(b: Level, f: Level, c: Level)
    ensures Mix(b, f, c) != b <==> Shows(b, f, c)
  {
    MixIs(b, f, c);
    assert Weighed(b, f, c) == 255 * b + (f - b) * c + 127;
    assert (b - f) * c == -((f - b) * c);
  }

  /** The rounding thresholds of `blend`. */
  function Threshold(t: int): int { 255 * t }

  /** A threshold lies between the blends of `x` at coverage `c` and of `y` at coverage `g`. */
  ghost predicate Separated(b: Level, x: Level, c: Level, y: Level, g: Level) {
    exists t ::
      || Weighed(b, x, c) < Threshold(t) <= Weighed(b, y, g)
      || Weighed(b, y, g) < Threshold(t) <= Weighed(b, x, c)
  }

  lemma ThresholdBetween(lo: nat, hi: nat)
    requires lo <= hi
    ensures lo / 255 == hi / 255 <==> !exists t :: lo < Threshold(t) <= hi
  {
    if lo / 255 != hi / 255 {
      assert lo < Threshold(hi / 255) <= hi;
    }
    if t :| lo < Threshold(t) <= hi {
      assert lo / 255 < t <= hi / 255;
    }
  }

  lemma SeparatedIff(b: Level, x: Level, c: Level, y: Level, g: Level)
    ensures Mix(b, x, c) != Mix(b, y, g) <==> Separated(b, x, c, y, g)
  {
    var m, n := Weighed(b, x, c), Weighed(b, y, g);
    MixIs(b, x, c);
    MixIs(b, y, g);
    ThresholdBetween(if m <= n then m else n, if m <= n then n else m);
  }

  // A pixel drawn at coverage `c`, in a glyph that is `dark` where the other glyph is darkest, at `most`;
  // the other glyph has coverage `g` there.
  datatype Pairing = Pairing(c: Level, dark: Level, most: Level, g: Level)

  /** The level recovered from the pixel where the other glyph is darkest. */
  ghost function RecoveredLevel(b: Level, f: Level, dark: Level, most: Level): Level
    requires most > 0
  {
    InkLevel(Mix(b, f, dark), most)
  }

  ghost function Recovered(bg: Px, fg: Px, dark: Level, most: Level): Px
    requires most > 0
  {
    Px(RecoveredLevel(bg.r, fg.r, dark, most), RecoveredLevel(bg.g, fg.g, dark, most),
       RecoveredLevel(bg.b, fg.b, dark, most))
  }

  /** In one channel, the other glyph blends the recovered level to the level that was drawn. */
  ghost predicate Agrees(b: Level, f: Level, at: Pairing)
    requires at.most > 0
  {
    !Separated(b, f, at.c, RecoveredLevel(b, f, at.dark, at.most), at.g)
  }

  /** Ink worth half a level in some channel. */
  ghost predicate Visible(bg: Px, fg: Px, c: Level) {
    Shows(bg.r, fg.r, c) || Shows(bg.g, fg.g, c) || Shows(bg.b, fg.b, c)
  }

  lemma VisibleIff(bg: Px, fg: Px, c: Level)
    ensures Visible(bg, fg, c) <==> Blend(bg, fg, c) != bg
  {
    ShowsIff(bg.r, fg.r, c);
    ShowsIff(bg.g, fg.g, c);
    ShowsIff(bg.b, fg.b, c);
  }

  /**
   * What it takes of a pixel that one glyph passes for another: the other has ink exactly where it is
   * visible, and in no channel does a rounding threshold of the blend lie between the drawn level and the
   * recovered one.
   */
  ghost predicate PixelPasses(bg: Px, fg: Px, at: Pairing)
    requires at.most > 0
  {
    && (at.g > 0 <==> Visible(bg, fg, at.c))
    && Agrees(bg.r, fg.r, at) && Agrees(bg.g, fg.g, at) && Agrees(bg.b, fg.b, at)
  }

  lemma PixelIff(bg: Px, fg: Px, at: Pairing)
    requires at.most > 0
    ensures PixelPasses(bg, fg, at) <==>
      (at.g > 0 <==> Blend(bg, fg, at.c) != bg) &&
      Blend(bg, Recovered(bg, fg, at.dark, at.most), at.g) == Blend(bg, fg, at.c)
  {
    VisibleIff(bg, fg, at.c);
    SeparatedIff(bg.r, fg.r, at.c, RecoveredLevel(bg.r, fg.r, at.dark, at.most), at.g);
    SeparatedIff(bg.g, fg.g, at.c, RecoveredLevel(bg.g, fg.g, at.dark, at.most), at.g);
    SeparatedIff(bg.b, fg.b, at.c, RecoveredLevel(bg.b, fg.b, at.dark, at.most), at.g);
  }

  ghost function PairingAt(cov: Coverage, other: Coverage, i: nat): Pairing
    requires other != [] && |cov| == |other| && i < |cov|
  {
    Pairing(cov[i], cov[Best(other)], other[Best(other)], other[i])
  }

  /** The glyph `cov`, drawn in `fg`, passes for `other`. */
  ghost predicate PassesFor(cov: Coverage, other: Coverage, bg: Px, fg: Px) {
    && other != [] && |cov| == |other| && other[Best(other)] > 0
    && forall i :: 0 <= i < |cov| ==> PixelPasses(bg, fg, PairingAt(cov, other, i))
  }

  /** A drawn glyph is accepted for a glyph, itself or another, if and only if it passes for it pixel by pixel. */
  lemma AcceptsIff(cov: Coverage, other: Coverage, bg: Px, fg: Px, cell: Cell)
    requires Draws(cov, bg, fg, cell)
    ensures Accepts(other, bg, cell) <==> PassesFor(cov, other, bg, fg)
  {
    if other != [] && |cov| == |other| && other[Best(other)] > 0 {
      var k := Best(other);
      assert Ink(cell[k], other[k]) == Recovered(bg, fg, cov[k], other[k]);
      forall i | 0 <= i < |cov|
        ensures PixelPasses(bg, fg, PairingAt(cov, other, i)) <==>
          && CellMask(bg, cell)[i] == InkMask(other)[i]
          && cell[i] == Blend(bg, Recovered(bg, fg, cov[k], other[k]), other[i])
      {
        PixelIff(bg, fg, PairingAt(cov, other, i));
      }
    }
  }

  /** Nothing of the glyph is to be seen. */
  ghost predicate Hidden(cov: Coverage, bg: Px, fg: Px) {
    forall i :: 0 <= i < |cov| ==> !Visible(bg, fg, cov[i])
  }

  /** The scan lets this glyph in this colour pass: nothing shows, or it passes for some glyph of the asset. */
  ghost predicate Passes(asset: seq<Coverage>, cov: Coverage, bg: Px, fg: Px) {
    Hidden(cov, bg, fg) || exists k :: 0 <= k < |asset| && PassesFor(cov, asset[k], bg, fg)
  }

  /** What the scan makes of any drawn cell, over the whole asset. */
  lemma ExplainedIff(asset: seq<Coverage>, cov: Coverage, bg: Px, fg: Px, cell: Cell)
    requires Draws(cov, bg, fg, cell)
    ensures Explained(asset, bg, cell) <==> Passes(asset, cov, bg, fg)
  {
    forall i | 0 <= i < |cov| ensures cell[i] == bg <==> !Visible(bg, fg, cov[i]) {
      VisibleIff(bg, fg, cov[i]);
    }
    forall k | 0 <= k < |asset| ensures Accepts(asset[k], bg, cell) <==> PassesFor(cov, asset[k], bg, fg) {
      AcceptsIff(cov, asset[k], bg, fg, cell);
    }
  }

  /** What was drawn at each cell of the grid. */
  ghost predicate DrawnScreen(img: Image, cellHeight: nat, bg: Px, status: nat, skip: set<Spot>,
                              glyph: (nat, nat) -> Coverage, ink: (nat, nat) -> Px)
    requires ValidImage(img)
  {
    forall row: nat, col: nat :: Looked(img, cellHeight, status, skip, row, col) ==>
      Draws(glyph(row, col), bg, ink(row, col), CellAt(img, cellHeight, row, col))
  }

  /** The verdict on a screen of drawn glyphs, each in its own colour: zero exactly when each of them passes. */
  lemma ScreenIff(img: Image, asset: seq<Coverage>, cellHeight: nat, bg: Px, status: nat, skip: set<Spot>,
                  glyph: (nat, nat) -> Coverage, ink: (nat, nat) -> Px)
    requires ValidImage(img) && DrawnScreen(img, cellHeight, bg, status, skip, glyph, ink)
    ensures ScreenExplained(img, asset, cellHeight, bg, status, skip) <==>
      forall row: nat, col: nat :: Looked(img, cellHeight, status, skip, row, col) ==>
        Passes(asset, glyph(row, col), bg, ink(row, col))
  {
    forall row: nat, col: nat | Looked(img, cellHeight, status, skip, row, col)
      ensures Explained(asset, bg, CellAt(img, cellHeight, row, col)) <==>
        Passes(asset, glyph(row, col), bg, ink(row, col))
    {
      ExplainedIff(asset, glyph(row, col), bg, ink(row, col), CellAt(img, cellHeight, row, col));
    }
  }

  // ─── where the recovered colour is right ───────────────────────────────────

  /** To nearest; exactly between two, to the even one. */
  lemma RoundNear(n: nat, d: nat)
    requires d > 0
    ensures 2 * n - d <= 2 * (RoundHalfEven(n, d) * d) <= 2 * n + d
    ensures 2 * (RoundHalfEven(n, d) * d) in {2 * n - d, 2 * n + d} ==> RoundHalfEven(n, d) % 2 == 0
  {
    var q, r := n / d, n % d;
    assert n == q * d + r;
    assert (q + 1) * d == q * d + d;
  }

  lemma MixBelow(f: Level, m: Level)
    ensures Mix(0, f, m) <= m && 255 * Mix(0, f, m) - 127 <= f * m <= 255 * Mix(0, f, m) + 127
  {
    MixIs(0, f, m);
    Scale(f, 255, m);
    assert Weighed(0, f, m) == f * m + 127;
  }

  /** On black the darkest pixel itself always blends back, whatever the colour. */
  lemma BlackDarkest(f: Level, m: Level)
    requires m > 0
    ensures Agrees(0, f, Pairing(m, m, m, m))
  {
    var p: nat := Mix(0, f, m);
    MixBelow(f, m);
    var q := RoundHalfEven(p * 255, m);
    RoundNear(p * 255, m);
    NotAbove(q, p, m);
    MixIs(0, RecoveredLevel(0, f, m, m), m);
    SeparatedIff(0, f, m, RecoveredLevel(0, f, m, m), m);
  }

  /** Rounding does not carry a level beyond white. */
  lemma NotAbove(q: nat, p: nat, m: nat)
    requires 0 < m < 256 && p <= m && 2 * (q * m) <= 2 * (p * 255) + m
    ensures q <= 255
  {
    Scale(256, q, m);
    Scale(p, m, 255);
  }

  /** On another background it does not: black ink on a light screen, at less than full coverage. */
  lemma DarkOnLightRefused()
    ensures Mix(100, 0, 200) == 22 && RecoveredLevel(100, 0, 200, 200) == 28
    ensures !Agrees(100, 0, Pairing(200, 200, 200, 200))
  {
    assert Weighed(100, 0, 200) == 5627;
    MixIs(100, 0, 200);
    assert Weighed(100, 28, 200) == 11227;
    assert Weighed(100, 0, 200) < Threshold(44) <= Weighed(100, 28, 200);
  }

  /** A full-ink pixel gives the colour itself. */
  lemma FullInk(p: Px)
    ensures Ink(p, 255) == p
  {
    FullLevel(p.r);
    FullLevel(p.g);
    FullLevel(p.b);
  }

  lemma FullLevel(p: Level)
    ensures InkLevel(p, 255) == p
  {
    assert p * 255 / 255 == p && p * 255 % 255 == 0;
  }

  /** White on black: a pixel's level is its coverage, and any coverage recovers white. */
  lemma WhiteLevel(c: Level)
    ensures Mix(0, 255, c) == c && (c > 0 ==> InkLevel(c, c) == 255)
  {
    if 0 < c {
      assert 255 * c / c == 255 && 255 * c % c == 0;
      assert c * 255 == 255 * c;
    }
  }

  /** Any colours: a glyph with a full-ink pixel and no hidden ink is recognised. */
  lemma FullInkAccepted(cov: Coverage, bg: Px, fg: Px, cell: Cell)
    requires Draws(cov, bg, fg, cell) && InkShows(cov, bg, fg) && 255 in cov
    ensures Accepts(cov, bg, cell)
  {
    var i :| 0 <= i < |cov| && cov[i] == 255;
    assert cov[Best(cov)] == 255;
    FullInk(fg);
    forall i | 0 <= i < |cov| ensures PixelPasses(bg, fg, PairingAt(cov, cov, i)) {
      PixelIff(bg, fg, PairingAt(cov, cov, i));
    }
    AcceptsIff(cov, cov, bg, fg, cell);
  }

  /** White on black: every glyph with any ink is recognised. */
  lemma WhiteOnBlackAccepted(cov: Coverage, cell: Cell)
    requires Draws(cov, BLACK, WHITE, cell) && exists i :: 0 <= i < |cov| && cov[i] > 0
    ensures Accepts(cov, BLACK, cell)
  {
    var m := cov[Best(cov)];
    WhiteLevel(m);
    assert Recovered(BLACK, WHITE, m, m) == WHITE;
    forall i | 0 <= i < |cov| ensures PixelPasses(BLACK, WHITE, PairingAt(cov, cov, i)) {
      WhiteLevel(cov[i]);
      PixelIff(BLACK, WHITE, PairingAt(cov, cov, i));
    }
    AcceptsIff(cov, cov, BLACK, WHITE, cell);
  }

  /** Every cell is blank or a glyph drawn in a way the scan can recognise. */
  ghost predicate Recognisable(asset: seq<Coverage>, bg: Px, cell: Cell) {
    || Blank(bg, cell)
    || (exists i, fg :: 0 <= i < |asset| && Draws(asset[i], bg, fg, cell)
                        && InkShows(asset[i], bg, fg) && 255 in asset[i])
    || (bg == BLACK && exists i :: 0 <= i < |asset| && Draws(asset[i], BLACK, WHITE, cell))
  }

  lemma RecognisableExplained(asset: seq<Coverage>, bg: Px, cell: Cell)
    requires Recognisable(asset, bg, cell)
    ensures Explained(asset, bg, cell)
  {
    if !Blank(bg, cell) {
      if i, fg :| 0 <= i < |asset| && Draws(asset[i], bg, fg, cell) && InkShows(asset[i], bg, fg) && 255 in asset[i] {
        FullInkAccepted(asset[i], bg, fg, cell);
      } else {
        var i :| 0 <= i < |asset| && Draws(asset[i], BLACK, WHITE, cell);
        var k :| 0 <= k < |cell| && cell[k] != bg;
        assert asset[i][k] > 0;
        WhiteOnBlackAccepted(asset[i], cell);
      }
    }
  }

  // ─── a screen that is refused ──────────────────────────────────────────────

  const GREY := Px(100, 100, 100)

  /** A glyph with two inked pixels, of coverage 200 and 150. */
  ghost predicate TwoInks(cov: Coverage) {
    |cov| > 1 && cov[0] == 200 && cov[1] == 150 && forall i :: 1 < i < |cov| ==> cov[i] == 0
  }

  /** Dividing out the coverage does not always recover the colour: such a glyph drawn in grey 100 is refused. */
  lemma GreyRefused(cov: Coverage, cell: Cell)
    requires TwoInks(cov) && Draws(cov, BLACK, GREY, cell)
    ensures InkShows(cov, BLACK, GREY) && !Accepts(cov, BLACK, cell)
  {
    MixIs(0, 100, 200);
    MixIs(0, 100, 150);
    MixIs(0, 99, 150);
    assert Mix(0, 100, 200) == 78 && Mix(0, 100, 150) == 59 && Mix(0, 99, 150) == 58;
    assert InkLevel(78, 200) == 99;
    assert cov[Best(cov)] == 200 && Best(cov) == 0;
    assert cell[1] == Px(59, 59, 59) && Blend(BLACK, Px(99, 99, 99), cov[1]) == Px(58, 58, 58);
  }

  /** An asset whose glyph 1 has two inked pixels and whose other glyphs have none. */
  function GreyAsset(per: nat): (data: seq<Level>)
    ensures |data| == GLYPHS * per
  {
    seq(GLYPHS * per, k => if k == per then 200 else if k == per + 1 then 150 else 0)
  }

  lemma GreyGlyphs(per: nat, i: nat)
    requires per > 1 && i < GLYPHS
    ensures var cov := Glyph(GreyAsset(per), per, i);
            if i == 1 then TwoInks(cov) else forall k :: 0 <= k < per ==> cov[k] == 0
  {
    var data, cov := GreyAsset(per), Glyph(GreyAsset(per), per, i);
    GlyphFits(per, i);
    if i > 1 { Scale(2, i, per); }
    forall k | 0 <= k < per ensures cov[k] == data[i * per + k] {
    }
    assert i == 0 ==> i * per == 0;
    assert i == 1 ==> i * per == per;
  }

  /** One cell, drawn from glyph 1 in grey. */
  function GreyImage(h: nat): (img: Image)
    ensures ValidImage(img) && img.width == CELL_WIDTH && img.height == h
  {
    Image(CELL_WIDTH, h, seq(h, y => seq(CELL_WIDTH, x =>
      if y == 0 && x == 0 then Px(78, 78, 78) else if y == 0 && x == 1 then Px(59, 59, 59) else BLACK)))
  }

  lemma {:induction false} GreyRows(h: nat, y1: nat)
    requires y1 <= h
    ensures var c := CellRows(GreyImage(h), 0, 0, y1);
            forall k :: 0 <= k < CELL_WIDTH * y1 ==>
              c[k] == if k == 0 then Px(78, 78, 78) else if k == 1 then Px(59, 59, 59) else BLACK
    decreases y1
  {
    if y1 > 0 {
      var img, above := GreyImage(h), CELL_WIDTH * (y1 - 1);
      GreyRows(h, y1 - 1);
      var c := CellRows(img, 0, 0, y1);
      assert c == CellRows(img, 0, 0, y1 - 1) + RowOf(img, 0, y1 - 1);
      forall k | above <= k < CELL_WIDTH * y1
        ensures c[k] == if k == 0 then Px(78, 78, 78) else if k == 1 then Px(59, 59, 59) else BLACK
      {
        assert c[k] == img.px[y1 - 1][k - above];
      }
    }
  }

  lemma {:induction false} GreyDraws(h: nat, cov: Coverage, cell: Cell)
    requires h > 0 && TwoInks(cov) && |cov| == CELL_WIDTH * h && cell == CellRows(GreyImage(h), 0, 0, h)
    ensures Draws(cov, BLACK, GREY, cell)
  {
    GreyRows(h, h);
    MixIs(0, 100, 200);
    MixIs(0, 100, 150);
    assert Blend(BLACK, GREY, 200) == Px(78, 78, 78) && Blend(BLACK, GREY, 150) == Px(59, 59, 59);
  }

  lemma {:induction false} GreyUnexplained(h: nat, asset: seq<Coverage>, cell: Cell)
    requires h > 0 && asset == Asset(GreyAsset(CELL_WIDTH * h), CELL_WIDTH * h)
    requires cell == CellRows(GreyImage(h), 0, 0, h)
    ensures Draws(asset[1], BLACK, GREY, cell) && !Explained(asset, BLACK, cell)
  {
    var per := CELL_WIDTH * h;
    GreyRows(h, h);
    GreyGlyphs(per, 1);
    GreyDraws(h, asset[1], cell);
    assert cell[0] != BLACK;
    forall i | 0 <= i < |asset| ensures !Accepts(asset[i], BLACK, cell) {
      GreyGlyphs(per, i);
      if i == 1 {
        GreyRefused(asset[i], cell);
      } else {
        assert CellMask(BLACK, cell)[0] != InkMask(asset[i])[0];
      }
    }
  }

  /** For every cell height: a screen of one correctly drawn glyph, all its ink visible, that the scan refuses. */
  method GreyScreen(h: nat) returns (img: Image, data: seq<Level>, code: nat)
    requires h > 0
    ensures ValidImage(img) && |data| == GLYPHS * (CELL_WIDTH * h) && InGrid(img, h, 0, 0)
    ensures Draws(Glyph(data, CELL_WIDTH * h, 1), BLACK, GREY, CellAt(img, h, 0, 0))
    ensures InkShows(Glyph(data, CELL_WIDTH * h, 1), BLACK, GREY)
    ensures code == 1
  {
    img, data := GreyImage(h), GreyAsset(CELL_WIDTH * h);
    code := ScanScreen(img, data, h, BLACK, 0, {});
    GreyGlyphs(CELL_WIDTH * h, 1);
    GreyUnexplained(h, Asset(data, CELL_WIDTH * h), CellAt(img, h, 0, 0));
    GreyRefused(Glyph(data, CELL_WIDTH * h, 1), CellAt(img, h, 0, 0));
    assert Looked(img, h, 0, {}, 0, 0);
  }

  /**
   * What the scan's verdict means for the screen: a zero says that every cell it looked at is blank or
   * one asset glyph in one colour, and a screen of recognisable cells always gets a zero.
   */
  lemma VerdictMeaning(img: Image, asset: seq<Coverage>, cellHeight: nat, bg: Px, status: nat, skip: set<Spot>)
    requires ValidImage(img)
    ensures ScreenExplained(img, asset, cellHeight, bg, status, skip) ==>
      forall row, col :: Looked(img, cellHeight, status, skip, row, col) ==>
        var cell := CellAt(img, cellHeight, row, col); Blank(bg, cell) || DrawnBy(asset, bg, cell)
    ensures (forall row, col :: Looked(img, cellHeight, status, skip, row, col) ==>
        Recognisable(asset, bg, CellAt(img, cellHeight, row, col))) ==>
      ScreenExplained(img, asset, cellHeight, bg, status, skip)
  {
    forall row: nat, col: nat | Looked(img, cellHeight, status, skip, row, col)
      ensures var cell := CellAt(img, cellHeight, row, col);
              && (Explained(asset, bg, cell) ==> Blank(bg, cell) || DrawnBy(asset, bg, cell))
              && (Recognisable(asset, bg, cell) ==> Explained(asset, bg, cell))
    {
      var cell := CellAt(img, cellHeight, row, col);
      if Explained(asset, bg, cell) { ExplainedSound(asset, bg, cell); }
      if Recognisable(asset, bg, cell) { RecognisableExplained(asset, bg, cell); }
    }
  }
}
