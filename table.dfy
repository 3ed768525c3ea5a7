/**
  Rows of the uploaded table as the row loop sees them. A cell is either a
  present value or missing (`pd.notna` is false for it); Python's `str()`
  is left uninterpreted and passed in as the function `str`.
 */
module Table {
  import opened Text

  datatype Cell<V> = Present(value: V) | Missing

  /** One row of the table: column name to cell. */
  type Row<V> = map<string, Cell<V>>

  /** The separator of both generator joins: `" | ".join(...)`. */
  const Separator := " | "

  predicate HasColumns<V>(row: Row<V>, cols: seq<string>)
  {
    forall c :: c in cols ==> c in row
  }

  /** `str(row[col]) for col in cols if pd.notna(row[col])`, as a list. */
  function PresentTexts<V>(row: Row<V>, cols: seq<string>, str: Cell<V> -> string): seq<string>
    requires HasColumns(row, cols)
  {
    if cols == [] then []
    else
      var last := cols[|cols| - 1];
      PresentTexts(row, cols[..|cols| - 1], str) + (if row[last].Present? then [str(row[last])] else [])
  }

  /** The positions in `cols` whose cells are present, in increasing order. */
  function PresentIndices<V>(row: Row<V>, cols: seq<string>): (idx: seq<nat>)
    requires HasColumns(row, cols)
    ensures forall k :: 0 <= k < |idx| ==> idx[k] < |cols| && row[cols[idx[k]]].Present?
    ensures forall a, b :: 0 <= a < b < |idx| ==> idx[a] < idx[b]
    ensures forall j :: 0 <= j < |cols| && row[cols[j]].Present? ==> j in idx
  {
    if cols == [] then []
    else
      var n := |cols| - 1;
      PresentIndices(row, cols[..n]) + (if row[cols[n]].Present? then [n] else [])
  }

  /** The joined segments are exactly the texts of the present cells, in
      selection order: segment `k` is the text of the `k`-th present cell. */
  lemma {:induction false} PresentTextsAt<V>(row: Row<V>, cols: seq<string>, str: Cell<V> -> string)
    requires HasColumns(row, cols)
    ensures |PresentTexts(row, cols, str)| == |PresentIndices(row, cols)|
    ensures forall k :: 0 <= k < |PresentIndices(row, cols)| ==>
      PresentTexts(row, cols, str)[k] == str(row[cols[PresentIndices(row, cols)[k]]])
  {
    if cols != [] {
      var n := |cols| - 1;
      PresentTextsAt(row, cols[..n], str);
    }
  }

  /** A selection whose cells are all missing contributes no segment at all. */
  lemma {:induction false} PresentTextsAllMissing<V>(row: Row<V>, cols: seq<string>, str: Cell<V> -> string)
    requires HasColumns(row, cols)
    requires forall c :: c in cols ==> row[c].Missing?
    ensures PresentTexts(row, cols, str) == []
  {
    if cols != [] {
      PresentTextsAllMissing(row, cols[..|cols| - 1], str);
    }
  }

  /** Selecting `a` then `b` gives the segments of `a` followed by those of `b`. */
  lemma {:induction false} PresentTextsAppend<V>(row: Row<V>, a: seq<string>, b: seq<string>, str: Cell<V> -> string)
    requires HasColumns(row, a) && HasColumns(row, b)
    ensures HasColumns(row, a + b)
    ensures PresentTexts(row, a + b, str) == PresentTexts(row, a, str) + PresentTexts(row, b, str)
    decreases |b|
  {
    if b == [] {
      assert a + b == a;
    } else {
      var n := |b| - 1;
      assert (a + b)[..|a + b| - 1] == a + b[..n];
      assert (a + b)[|a + b| - 1] == b[n];
      PresentTextsAppend(row, a, b[..n], str);
    }
  }

  /** Deselecting a column whose cell is missing changes nothing. */
  lemma PresentTextsDropMissing<V>(row: Row<V>, cols: seq<string>, k: nat, str: Cell<V> -> string)
    requires HasColumns(row, cols)
    requires k < |cols| && row[cols[k]].Missing?
    ensures HasColumns(row, cols[..k] + cols[k + 1..])
    ensures PresentTexts(row, cols[..k] + cols[k + 1..], str) == PresentTexts(row, cols, str)
  {
    var head, tail := cols[..k + 1], cols[k + 1..];
    assert cols == head + tail;
    assert head[..k] == cols[..k] && head[k] == cols[k];
    assert PresentTexts(row, head, str) == PresentTexts(row, cols[..k], str);
    PresentTextsAppend(row, head, tail, str);
    PresentTextsAppend(row, cols[..k], tail, str);
  }

  /** `cols` with every occurrence of `t` removed. */
  function Without(cols: seq<string>, t: string): (r: seq<string>)
    ensures forall c :: c in r <==> c in cols && c != t
    ensures |r| <= |cols|
    ensures t !in cols ==> r == cols
  {
    if cols == [] then []
    else
      var n := |cols| - 1;
      assert cols == cols[..n] + [cols[n]];
      Without(cols[..n], t) + (if cols[n] == t then [] else [cols[n]])
  }

  /** Removing `t` works piece by piece, so the selection's order is kept. */
  lemma {:induction false} WithoutAppend(a: seq<string>, b: seq<string>, t: string)
    ensures Without(a + b, t) == Without(a, t) + Without(b, t)
    decreases |b|
  {
    if b == [] {
      assert a + b == a;
    } else {
      var n := |b| - 1;
      assert (a + b)[..|a + b| - 1] == a + b[..n];
      assert (a + b)[|a + b| - 1] == b[n];
      WithoutAppend(a, b[..n], t);
    }
  }

  /** The row `row` with column `t` set to the missing marker, as
      `df[t] = None` leaves it. */
  function Cleared<V>(row: Row<V>, t: string): (r: Row<V>)
    requires t in row
    ensures r.Keys == row.Keys && r[t].Missing?
    ensures forall c :: c in row && c != t ==> r[c] == row[c]
  {
    row[t := Missing]
  }

  /** After the target column is cleared it contributes no segment: the
      segments are those of the selection without the target column. */
  lemma {:induction false} PresentTextsCleared<V>(row: Row<V>, cols: seq<string>, t: string, str: Cell<V> -> string)
    requires HasColumns(row, cols) && t in row
    ensures HasColumns(Cleared(row, t), cols) && HasColumns(row, Without(cols, t))
    ensures PresentTexts(Cleared(row, t), cols, str) == PresentTexts(row, Without(cols, t), str)
  {
    if cols != [] {
      var n := |cols| - 1;
      var init, last := cols[..n], cols[n];
      PresentTextsCleared(row, init, t, str);
      var r := Cleared(row, t);
      assert PresentTexts(r, cols, str) ==
        PresentTexts(r, init, str) + (if r[last].Present? then [str(r[last])] else []);
      assert Without(cols, t) == Without(init, t) + (if last == t then [] else [last]);
      if last != t {
        PresentTextsAppend(row, Without(init, t), [last], str);
        assert [last][..0] == [];
        assert PresentTexts(row, [last], str) == (if row[last].Present? then [str(row[last])] else []);
        assert r[last] == row[last];
      } else {
        assert Without(cols, t) == Without(init, t);
      }
    }
  }
}
