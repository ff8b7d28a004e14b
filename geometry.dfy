/** Grid-cell geometry of a sprite sheet: which rectangle of the sheet holds
    the card with a given linear cell index (main.py, extract_card). */
module Geometry {

  /** Pixel dimensions of an image. */
  datatype Size = Size(width: nat, height: nat)

  /** A crop box with origin (x, y) and extent w by h; as a PIL box it is
      (x, y, x + w, y + h). */
  datatype Rect = Rect(x: nat, y: nat, w: nat, h: nat) {
    function Right(): nat { x + w }
    function Bottom(): nat { y + h }
  }

  /** The crop box of cell `idx` on a sheet cut into `cols` by `rows` cells:
      cells are `sheet.width / cols` by `sheet.height / rows` pixels (the
      fractional pixels at the right and bottom edges are dropped) and are
      numbered row by row. */
  function CellRect(idx: nat, cols: nat, rows: nat, sheet: Size): (r: Rect)
    requires cols > 0 && rows > 0
    ensures r.w == sheet.width / cols && r.h == sheet.height / rows
    ensures cols * r.w <= sheet.width && rows * r.h <= sheet.height
  {
    var w := sheet.width / cols;
    var h := sheet.height / rows;
    DivMulBelow(sheet.width, cols);
    DivMulBelow(sheet.height, rows);
    Rect(idx % cols * w, idx / cols * h, w, h)
  }

  lemma DivMulBelow(a: nat, c: nat)
    requires c > 0
    ensures c * (a / c) <= a
  {
    assert a == c * (a / c) + a % c;
  }

  /** The box lies within the image. */
  predicate Within(r: Rect, sheet: Size) {
    r.Right() <= sheet.width && r.Bottom() <= sheet.height
  }

  /** The two boxes share at least one pixel. */
  predicate Overlap(a: Rect, b: Rect) {
    a.x < b.Right() && b.x < a.Right() && a.y < b.Bottom() && b.y < a.Bottom()
  }

  /** Size of the written card image.  The imaging library's
      rotate(90, expand=True) is modelled only by its effect on the size: it
      swaps the two dimensions of the cropped cell; an upright card keeps the
      cell's. */
  function OutputSize(box: Rect, rotated: bool): (s: Size)
    ensures rotated ==> s.width == box.h && s.height == box.w
    ensures !rotated ==> s.width == box.w && s.height == box.h
  {
    if rotated then Size(box.h, box.w) else Size(box.w, box.h)
  }

  lemma MulMonotone(a: nat, b: nat, c: nat)
    requires a <= b
    ensures a * c <= b * c
  {
  }

  lemma QuotientBelow(idx: nat, cols: nat, rows: nat)
    requires cols > 0 && idx < cols * rows
    ensures idx / cols < rows
  {
    if idx / cols >= rows {
      MulMonotone(rows, idx / cols, cols);
    }
  }

  lemma DivModUnique(idx: nat, cols: nat, q: nat, m: nat)
    requires cols > 0 && m < cols && idx == q * cols + m
    ensures idx / cols == q && idx % cols == m
  {
    var q', m' := idx / cols, idx % cols;
    if q' < q {
      MulMonotone(q' + 1, q, cols);
    } else if q < q' {
      MulMonotone(q + 1, q', cols);
    }
  }

  /** Every cell of the grid lies inside the sheet. */
  lemma CellInBounds(idx: nat, cols: nat, rows: nat, sheet: Size)
    requires cols > 0 && rows > 0 && idx < cols * rows
    ensures Within(CellRect(idx, cols, rows, sheet), sheet)
  {
    var r := CellRect(idx, cols, rows, sheet);
    QuotientBelow(idx, cols, rows);
    MulMonotone(idx % cols + 1, cols, r.w);
    MulMonotone(idx / cols + 1, rows, r.h);
  }

  /** Cells in different columns (or rows) of extent `w` are separated. */
  lemma Separated(c: nat, c': nat, w: nat)
    requires c < c'
    ensures c * w + w <= c' * w
  {
    MulMonotone(c + 1, c', w);
  }

  /** Two different cell indices never share a pixel. */
  lemma CellsDisjoint(i: nat, j: nat, cols: nat, rows: nat, sheet: Size)
    requires cols > 0 && rows > 0 && i != j
    ensures !Overlap(CellRect(i, cols, rows, sheet), CellRect(j, cols, rows, sheet))
  {
    var w, h := sheet.width / cols, sheet.height / rows;
    var ci, ri, cj, rj := i % cols, i / cols, j % cols, j / cols;
    var a, b := CellRect(i, cols, rows, sheet), CellRect(j, cols, rows, sheet);
    assert a == Rect(ci * w, ri * h, w, h);
    assert b == Rect(cj * w, rj * h, w, h);
    if ci < cj {
      Separated(ci, cj, w);
    } else if cj < ci {
      Separated(cj, ci, w);
    } else if ri < rj {
      Separated(ri, rj, h);
    } else if rj < ri {
      Separated(rj, ri, h);
    }
  }

  /** The layout is row-major: the cell in column `col` of row `row` has index
      `row * cols + col`, the index gives back its column and row as
      `(idx % cols, idx / cols)`, and its box starts at column and row times
      the cell extent. */
  lemma RowMajor(col: nat, row: nat, cols: nat, rows: nat, sheet: Size)
    requires col < cols && row < rows
    ensures row * cols + col < cols * rows
    ensures (row * cols + col) % cols == col && (row * cols + col) / cols == row
    ensures CellRect(row * cols + col, cols, rows, sheet)
         == Rect(col * (sheet.width / cols), row * (sheet.height / rows), sheet.width / cols, sheet.height / rows)
  {
    DivModUnique(row * cols + col, cols, row, col);
    MulMonotone(row + 1, rows, cols);
  }

  /** A cell is empty exactly when the sheet is narrower than the number of
      columns or lower than the number of rows. */
  lemma EmptyCellIff(idx: nat, cols: nat, rows: nat, sheet: Size)
    requires cols > 0 && rows > 0
    ensures var r := CellRect(idx, cols, rows, sheet);
            r.w == 0 || r.h == 0 <==> sheet.width < cols || sheet.height < rows
  {
    if sheet.width >= cols {
      MulMonotone(1, sheet.width / cols, cols);
    }
    if sheet.height >= rows {
      MulMonotone(1, sheet.height / rows, rows);
    }
  }

  /** A 300 by 200 sheet of 3 columns and 2 rows has 100 by 100 cells, and
      cell 4 (column 1 of row 1) is the box (100, 100) to (200, 200); with 3
      rows the cells are 100 by 66 and cell 4 is the box (100, 66) to
      (200, 132). */
  lemma ExampleSheets()
    ensures CellRect(4, 3, 2, Size(300, 200)) == Rect(100, 100, 100, 100)
    ensures CellRect(4, 3, 3, Size(300, 200)) == Rect(100, 66, 100, 66)
    ensures CellRect(4, 3, 3, Size(300, 200)).Right() == 200
    ensures CellRect(4, 3, 3, Size(300, 200)).Bottom() == 132
  {
  }
}
