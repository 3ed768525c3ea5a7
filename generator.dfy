/**
  The "Generate QR Codes" action: the empty-selection guard, clearing the
  target column, the row loop that collects one image and one tooltip per
  row, and the placement of entry `i` at worksheet row `i + 1`.
  The QR renderer (symbol encoding, rasterising, resizing and PNG saving)
  and the table export are passed in as functions.
 */
module Generator {
  import opened Table
  import opened Payload
  import opened Tooltip
  import opened Excel

  /** The selections of one run. `size` is the pixel size handed to the renderer. */
  datatype Config = Config(content: Content, target: string, tooltipColumns: seq<string>, size: int)

  datatype Outcome =
    | Rejected(message: string)
    | Generated(images: seq<Bytes>, tooltips: seq<string>)

  const NoSourceColumnsMessage := "Please select at least one column to generate QR content."

  /** Plain-text mode with an empty source selection is refused before any row is read. */
  predicate Rejects(cfg: Config)
  {
    cfg.content.PlainText? && cfg.content.sources == []
  }

  /** Every column the row loop indexes directly is one of the table's columns. */
  predicate Fits(cfg: Config, columns: seq<string>)
  {
    cfg.target in columns &&
    (cfg.content.PlainText? ==> forall c :: c in cfg.content.sources ==> c in columns) &&
    (forall c :: c in cfg.tooltipColumns ==> c in columns)
  }

  /** Every row holds every column the loop indexes directly. */
  predicate Readable<V>(rows: seq<Row<V>>, cfg: Config)
  {
    forall i :: 0 <= i < |rows| ==> Covers(rows[i], cfg.content) && HasColumns(rows[i], cfg.tooltipColumns)
  }

  /** The uploaded table, whose target column the action overwrites. */
  class Frame<V> {
    var columns: seq<string>
    var rows: seq<Row<V>>

    /** Every row has exactly the table's columns. */
    ghost predicate Valid()
      reads this
    {
      forall i :: 0 <= i < |rows| ==> forall c :: c in rows[i] <==> c in columns
    }

    constructor (columns: seq<string>, rows: seq<Row<V>>)
      requires forall i :: 0 <= i < |rows| ==> forall c :: c in rows[i] <==> c in columns
      ensures Valid() && this.columns == columns && this.rows == rows
    {
      this.columns, this.rows := columns, rows;
    }

    /** `df[col] = None`. */
    method ClearColumn(col: string)
      requires Valid() && col in columns
      modifies this
      ensures Valid() && columns == old(columns)
      ensures |rows| == |old(rows)|
      ensures forall i :: 0 <= i < |rows| ==> rows[i] == Cleared(old(rows)[i], col)
    {
      var before := rows;
      rows := seq(|before|, i requires 0 <= i < |before| => Cleared(before[i], col));
    }
  }

  /** `df.columns.get_loc(target)`: the position of `target` among the columns. */
  function IndexOf(columns: seq<string>, target: string): (i: nat)
    requires target in columns
    ensures i < |columns| && columns[i] == target
    ensures forall j :: 0 <= j < i ==> columns[j] != target
  {
    if columns[0] == target then 0 else 1 + IndexOf(columns[1..], target)
  }

  /** `f` applied to the first `n` elements of `xs`, in order. */
  function MapPrefix<X, Y>(xs: seq<X>, n: nat, f: X --> Y): seq<Y>
    requires n <= |xs| && forall i :: 0 <= i < |xs| ==> f.requires(xs[i])
  {
    if n == 0 then [] else MapPrefix(xs, n - 1, f) + [f(xs[n - 1])]
  }

  /** Element `i` of the mapped prefix is `f` of element `i`. */
  lemma {:induction false} MapPrefixAt<X, Y>(xs: seq<X>, n: nat, f: X --> Y)
    requires n <= |xs| && forall i :: 0 <= i < |xs| ==> f.requires(xs[i])
    ensures |MapPrefix(xs, n, f)| == n
    ensures forall i :: 0 <= i < n ==> MapPrefix(xs, n, f)[i] == f(xs[i])
  {
    if n > 0 {
      MapPrefixAt(xs, n - 1, f);
    }
  }

  /** The `for _, row in df.iterrows()` loop: one image and one tooltip
      appended per row, so entry `i` of each list comes from row `i`. */
  method ProcessRows<V>(rows: seq<Row<V>>, cfg: Config, str: Cell<V> -> string, render: (string, int) -> Bytes)
    returns (images: seq<Bytes>, tooltips: seq<string>)
    requires Readable(rows, cfg)
    ensures |images| == |rows| && |tooltips| == |rows|
    ensures forall i :: 0 <= i < |rows| ==>
      images[i] == render(PayloadOf(rows[i], cfg.content, str), cfg.size) &&
      tooltips[i] == TooltipFor(rows[i], cfg.tooltipColumns, str)
  {
    var imageOf := (row: Row<V>) requires Covers(row, cfg.content) =>
      render(PayloadOf(row, cfg.content, str), cfg.size);
    var tooltipOf := (row: Row<V>) requires HasColumns(row, cfg.tooltipColumns) =>
      TooltipFor(row, cfg.tooltipColumns, str);
    images, tooltips := [], [];
    for n := 0 to |rows|
      invariant images == MapPrefix(rows, n, imageOf)
      invariant tooltips == MapPrefix(rows, n, tooltipOf)
    {
      var row := rows[n];
      var text := PayloadOf(row, cfg.content, str);
      var tooltip := TooltipFor(row, cfg.tooltipColumns, str);
      var image := render(text, cfg.size);
      images := images + [image];
      tooltips := tooltips + [tooltip];
    }
    MapPrefixAt(rows, |rows|, imageOf);
    MapPrefixAt(rows, |rows|, tooltipOf);
  }

  /** The whole action. `toExcel` stands for `df.to_excel`: the cells it writes
      for the (cleared) table. */
  method Run<V>(frame: Frame<V>, cfg: Config, str: Cell<V> -> string, render: (string, int) -> Bytes,
                toExcel: (seq<string>, seq<Row<V>>) -> map<Pos, string>)
    returns (outcome: Outcome, sheet: Worksheet?)
    requires frame.Valid() && Fits(cfg, frame.columns)
    modifies frame
    ensures frame.Valid() && frame.columns == old(frame.columns) && |frame.rows| == |old(frame.rows)|
    ensures outcome.Rejected? <==> Rejects(cfg)
    ensures outcome.Rejected? ==>
      outcome.message == NoSourceColumnsMessage && sheet == null && frame.rows == old(frame.rows)
    ensures outcome.Generated? ==>
      (forall i :: 0 <= i < |frame.rows| ==> frame.rows[i] == Cleared(old(frame.rows)[i], cfg.target)) &&
      |outcome.images| == |frame.rows| && |outcome.tooltips| == |frame.rows| &&
      (forall i :: 0 <= i < |frame.rows| ==>
        outcome.images[i] == render(PayloadOf(frame.rows[i], cfg.content, str), cfg.size) &&
        outcome.tooltips[i] == TooltipFor(frame.rows[i], cfg.tooltipColumns, str))
    ensures outcome.Generated? ==>
      var col := IndexOf(frame.columns, cfg.target);
      var n := |frame.rows|;
      sheet != null && fresh(sheet) &&
      sheet.anchors == Placements(col, outcome.images, outcome.tooltips, n) &&
      sheet.cells == Blanked(toExcel(frame.columns, frame.rows), col, n) &&
      sheet.sizedRows == DataRows(n) && sheet.sizedColumns == {col}
  {
    if Rejects(cfg) {
      outcome, sheet := Rejected(NoSourceColumnsMessage), null;
      return;
    }
    frame.ClearColumn(cfg.target);
    assert Readable(frame.rows, cfg) by {
      forall i | 0 <= i < |frame.rows|
        ensures Covers(frame.rows[i], cfg.content) && HasColumns(frame.rows[i], cfg.tooltipColumns)
      {
        assert frame.rows[i].Keys == old(frame.rows)[i].Keys;
      }
    }
    var images, tooltips := ProcessRows(frame.rows, cfg, str, render);
    outcome := Generated(images, tooltips);

    sheet := new Worksheet(toExcel(frame.columns, frame.rows));
    var col := IndexOf(frame.columns, cfg.target);
    sheet.SetColumn(col);
    PlaceImages(sheet, col, images, tooltips);
  }

  /** What the action leaves in the worksheet, entry by entry: the image and
      tooltip of row `i` at worksheet row `i + 1` of the target column, and
      nothing on the header row. */
  lemma PlacedEntries<V>(rows: seq<Row<V>>, cfg: Config, col: nat, images: seq<Bytes>, tooltips: seq<string>,
                         str: Cell<V> -> string, render: (string, int) -> Bytes)
    requires Readable(rows, cfg)
    requires |images| == |rows| && |tooltips| == |rows|
    requires forall i :: 0 <= i < |rows| ==>
      images[i] == render(PayloadOf(rows[i], cfg.content, str), cfg.size) &&
      tooltips[i] == TooltipFor(rows[i], cfg.tooltipColumns, str)
    ensures |Placements(col, images, tooltips, |rows|)| == |rows|
    ensures forall i :: 0 <= i < |rows| ==>
      Placements(col, images, tooltips, |rows|)[i] ==
        Anchor(i + 1, col, render(PayloadOf(rows[i], cfg.content, str), cfg.size),
               TooltipFor(rows[i], cfg.tooltipColumns, str))
    ensures forall a :: a in Placements(col, images, tooltips, |rows|) ==> a.row >= 1 && a.col == col
  {
    PlacementsAt(col, images, tooltips, |rows|);
  }
}
