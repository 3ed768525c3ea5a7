/**
  The part of the spreadsheet writer's worksheet that the placement loop
  drives: cell writes, row and column sizing, and anchored images with their
  description. The sizes themselves are not modelled, only which rows and
  columns were sized.
 */
module Excel {

  type Bytes = seq<bv8>

  /** A (row, column) cell position; row 0 is the header row. */
  type Pos = (nat, nat)

  /** An image inserted at a cell, with its hover description. */
  datatype Anchor = Anchor(row: nat, col: nat, image: Bytes, description: string)

  class Worksheet {
    var cells: map<Pos, string>
    var sizedRows: set<nat>
    var sizedColumns: set<nat>
    var anchors: seq<Anchor>

    /** The sheet as the table export leaves it. */
    constructor (cells: map<Pos, string>)
      ensures this.cells == cells && sizedRows == {} && sizedColumns == {} && anchors == []
    {
      this.cells := cells;
      sizedRows, sizedColumns, anchors := {}, {}, [];
    }

    /** `set_column(col, col, width)`. */
    method SetColumn(col: nat)
      modifies this
      ensures sizedColumns == old(sizedColumns) + {col}
      ensures cells == old(cells) && sizedRows == old(sizedRows) && anchors == old(anchors)
    {
      sizedColumns := sizedColumns + {col};
    }

    /** `set_row(row, height)`. */
    method SetRow(row: nat)
      modifies this
      ensures sizedRows == old(sizedRows) + {row}
      ensures cells == old(cells) && sizedColumns == old(sizedColumns) && anchors == old(anchors)
    {
      sizedRows := sizedRows + {row};
    }

    /** `write(row, col, text)`. The writer stores nothing for `""` without a
        format; here `""` at a position stands for that blank cell, not for a
        stored value. */
    method Write(row: nat, col: nat, text: string)
      modifies this
      ensures cells == old(cells)[(row, col) := text]
      ensures sizedRows == old(sizedRows) && sizedColumns == old(sizedColumns) && anchors == old(anchors)
    {
      cells := cells[(row, col) := text];
    }

    /** `insert_image(row, col, ..., {'image_data': image, 'description': description})`. */
    method InsertImage(row: nat, col: nat, image: Bytes, description: string)
      modifies this
      ensures anchors == old(anchors) + [Anchor(row, col, image, description)]
      ensures cells == old(cells) && sizedRows == old(sizedRows) && sizedColumns == old(sizedColumns)
    {
      anchors := anchors + [Anchor(row, col, image, description)];
    }
  }

  /** The images of the first `n` entries, entry `i` anchored one row below its index. */
  function Placements(col: nat, images: seq<Bytes>, tooltips: seq<string>, n: nat): seq<Anchor>
    requires n <= |images| && n <= |tooltips|
  {
    if n == 0 then []
    else Placements(col, images, tooltips, n - 1) + [Anchor(n, col, images[n - 1], tooltips[n - 1])]
  }

  /** Entry `i` sits at worksheet row `i + 1` in column `col`, carrying image
      `i` and tooltip `i`; so no image lands on the header row and no two
      images share a row. */
  lemma {:induction false} PlacementsAt(col: nat, images: seq<Bytes>, tooltips: seq<string>, n: nat)
    requires n <= |images| && n <= |tooltips|
    ensures |Placements(col, images, tooltips, n)| == n
    ensures forall i :: 0 <= i < n ==>
      Placements(col, images, tooltips, n)[i] == Anchor(i + 1, col, images[i], tooltips[i])
  {
    if n > 0 {
      PlacementsAt(col, images, tooltips, n - 1);
    }
  }

  /** The cells after `""` is written at rows `1..n` of column `col`. */
  function Blanked(cells: map<Pos, string>, col: nat, n: nat): map<Pos, string>
  {
    if n == 0 then cells else Blanked(cells, col, n - 1)[(n, col) := ""]
  }

  /** Only the data cells `1..n` of column `col` are blanked; the header row
      and every other column keep what the export wrote. */
  lemma {:induction false} BlankedAt(cells: map<Pos, string>, col: nat, n: nat, p: Pos)
    ensures p in Blanked(cells, col, n) <==> p in cells || (p.1 == col && 1 <= p.0 <= n)
    ensures p in Blanked(cells, col, n) ==>
      Blanked(cells, col, n)[p] == if p.1 == col && 1 <= p.0 <= n then "" else cells[p]
  {
    if n > 0 {
      BlankedAt(cells, col, n - 1, p);
    }
  }

  /** The rows sized by the first `n` iterations. */
  function DataRows(n: nat): set<nat>
  {
    if n == 0 then {} else DataRows(n - 1) + {n}
  }

  /** They are exactly the data rows `1..n`; the header row is never resized. */
  lemma {:induction false} DataRowsAre(n: nat, r: nat)
    ensures r in DataRows(n) <==> 1 <= r <= n
  {
    if n > 0 {
      DataRowsAre(n - 1, r);
    }
  }

  /** The placement loop over `enumerate(zip(images, tooltips))`. */
  method PlaceImages(sheet: Worksheet, col: nat, images: seq<Bytes>, tooltips: seq<string>)
    modifies sheet
    ensures var n := if |images| <= |tooltips| then |images| else |tooltips|;
      sheet.anchors == old(sheet.anchors) + Placements(col, images, tooltips, n) &&
      sheet.cells == Blanked(old(sheet.cells), col, n) &&
      sheet.sizedRows == old(sheet.sizedRows) + DataRows(n) &&
      sheet.sizedColumns == old(sheet.sizedColumns)
  {
    var n := if |images| <= |tooltips| then |images| else |tooltips|;
    for i := 0 to n
      invariant sheet.anchors == old(sheet.anchors) + Placements(col, images, tooltips, i)
      invariant sheet.cells == Blanked(old(sheet.cells), col, i)
      invariant sheet.sizedRows == old(sheet.sizedRows) + DataRows(i)
      invariant sheet.sizedColumns == old(sheet.sizedColumns)
    {
      sheet.SetRow(i + 1);
      sheet.Write(i + 1, col, "");
      sheet.InsertImage(i + 1, col, images[i], tooltips[i]);
    }
  }
}
