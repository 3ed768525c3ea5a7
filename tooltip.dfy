/**
  The hover text attached to each embedded QR image: the present tooltip
  cells joined by `" | "`, with newline, carriage return and tab turned into
  spaces, stripped, cut to 250 characters, and `"QR Code"` when nothing is left.
 */
module Tooltip {
  import opened Text
  import opened Table

  const MaxLength := 250
  const Default := "QR Code"

  /** The three characters the formatter replaces. */
  predicate IsControl(c: char)
  {
    c == '\n' || c == '\r' || c == '\t'
  }

  /** `.replace('\n', ' ').replace('\r', ' ').replace('\t', ' ')`: each of the
      three characters becomes exactly one space and nothing else moves. */
  function ReplaceControls(s: string): (r: string)
    ensures |r| == |s|
    ensures forall k :: 0 <= k < |s| ==> r[k] == if IsControl(s[k]) then ' ' else s[k]
  {
    ReplaceChar(ReplaceChar(ReplaceChar(s, '\n', ' '), '\r', ' '), '\t', ' ')
  }

  /** Replacing controls keeps every character's whitespace status, since the
      three controls and the space are all whitespace. */
  lemma ReplaceControlsKeepsSpace(s: string)
    ensures forall k :: 0 <= k < |s| ==> (IsSpace(ReplaceControls(s)[k]) <==> IsSpace(s[k]))
  {
  }

  /** Both scans of `strip()` stop at the same places before and after the replacement. */
  lemma {:induction false} SkipSpacesReplaced(s: string, from: nat)
    requires from <= |s|
    ensures SkipSpaces(ReplaceControls(s), from) == SkipSpaces(s, from)
    decreases |s| - from
  {
    ReplaceControlsKeepsSpace(s);
    if from < |s| && IsSpace(s[from]) {
      SkipSpacesReplaced(s, from + 1);
    }
  }

  lemma {:induction false} SkipSpacesBackReplaced(s: string, lo: nat, hi: nat)
    requires lo <= hi <= |s|
    ensures SkipSpacesBack(ReplaceControls(s), lo, hi) == SkipSpacesBack(s, lo, hi)
    decreases hi
  {
    ReplaceControlsKeepsSpace(s);
    if lo < hi && IsSpace(s[hi - 1]) {
      SkipSpacesBackReplaced(s, lo, hi - 1);
    }
  }

  /** Replacing controls works character by character, so it commutes with slicing. */
  lemma ReplaceControlsSlice(s: string, i: nat, j: nat)
    requires i <= j <= |s|
    ensures ReplaceControls(s)[i..j] == ReplaceControls(s[i..j])
  {
  }

  /** Stripping and replacing controls commute. */
  lemma StripReplaceCommute(s: string)
    ensures Strip(ReplaceControls(s)) == ReplaceControls(Strip(s))
  {
    var i := SkipSpaces(s, 0);
    var j := SkipSpacesBack(s, i, |s|);
    SkipSpacesReplaced(s, 0);
    SkipSpacesBackReplaced(s, i, |s|);
    ReplaceControlsSlice(s, i, j);
  }

  /** What the strip of the replaced text looks like: the replaced strip,
      free of controls, empty exactly for all-whitespace input, and starting
      with a non-space character otherwise. */
  lemma StrippedText(raw: string)
    ensures Strip(ReplaceControls(raw)) == ReplaceControls(Strip(raw))
    ensures Strip(ReplaceControls(raw)) == "" <==> AllSpace(raw)
    ensures forall k :: 0 <= k < |Strip(raw)| ==> !IsControl(ReplaceControls(Strip(raw))[k])
    ensures !AllSpace(raw) ==> !IsSpace(ReplaceControls(Strip(raw))[0])
  {
    StripReplaceCommute(raw);
    StripEmptyIff(raw);
    ReplacedClean(Strip(raw));
    if Strip(raw) != "" {
      ReplacedStripStart(Strip(raw));
    }
  }

  /** No control character survives the replacement. */
  lemma ReplacedClean(s: string)
    ensures forall k :: 0 <= k < |s| ==> !IsControl(ReplaceControls(s)[k])
  {
  }

  /** A trimmed text still starts with a non-space once its controls are replaced. */
  lemma ReplacedStripStart(r: string)
    requires Trimmed(r) && r != ""
    ensures !IsSpace(ReplaceControls(r)[0])
  {
    assert ReplaceControls(r)[0] == if IsControl(r[0]) then ' ' else r[0];
  }

  /** The cut-down text: empty exactly for all-whitespace input, free of
      controls, and starting with a non-space character when non-empty. */
  lemma TruncatedText(raw: string)
    ensures var t := Take(Strip(ReplaceControls(raw)), MaxLength);
      (t == "" <==> AllSpace(raw)) &&
      (forall k :: 0 <= k < |t| ==> !IsControl(t[k])) &&
      (t != "" ==> !IsSpace(t[0])) &&
      t == Take(ReplaceControls(Strip(raw)), MaxLength)
  {
    StrippedText(raw);
    TakeKeeps(ReplaceControls(Strip(raw)), MaxLength);
  }

  lemma DefaultHasNoControls()
    ensures forall k :: 0 <= k < |Default| ==> !IsControl(Default[k])
  {
  }

  /** The formatter's pipeline applied to the joined raw text. */
  function Format(raw: string): (r: string)
    ensures 1 <= |r| <= MaxLength
    ensures forall k :: 0 <= k < |r| ==> !IsControl(r[k])
    ensures AllSpace(raw) ==> r == Default
    ensures !AllSpace(raw) ==> !IsSpace(r[0]) && r == Take(ReplaceControls(Strip(raw)), MaxLength)
  {
    var t := Take(Strip(ReplaceControls(raw)), MaxLength);
    TruncatedText(raw);
    DefaultHasNoControls();
    if t == "" then Default else t
  }

  /** The tooltip of one row (`tooltip_text`). */
  function TooltipFor<V>(row: Row<V>, cols: seq<string>, str: Cell<V> -> string): string
    requires HasColumns(row, cols)
  {
    Format(Join(PresentTexts(row, cols, str), Separator))
  }

  /** With no tooltip columns selected, or only missing cells selected, the
      tooltip is the default label. */
  lemma TooltipDefaultWhenNothingPresent<V>(row: Row<V>, cols: seq<string>, str: Cell<V> -> string)
    requires HasColumns(row, cols)
    requires forall c :: c in cols ==> row[c].Missing?
    ensures TooltipFor(row, cols, str) == Default
  {
    PresentTextsAllMissing(row, cols, str);
  }

  /** Once the target column `t` is cleared, selecting it for the tooltip adds
      nothing: the tooltip is that of the selection without `t`. */
  lemma TooltipIgnoresCleared<V>(row: Row<V>, cols: seq<string>, t: string, str: Cell<V> -> string)
    requires HasColumns(row, cols) && t in row
    ensures HasColumns(Cleared(row, t), cols) && HasColumns(row, Without(cols, t))
    ensures TooltipFor(Cleared(row, t), cols, str) == TooltipFor(row, Without(cols, t), str)
  {
    PresentTextsCleared(row, cols, t, str);
  }

  /** A short stripped tooltip is kept whole. */
  lemma FormatKeepsShortText(raw: string)
    requires !AllSpace(raw) && |Strip(raw)| <= MaxLength
    ensures Format(raw) == ReplaceControls(Strip(raw))
  {
  }
}
