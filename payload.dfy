/**
  The QR payload of one row: either the plain-text join of the selected
  source columns or a vCard built from the name, phone and email columns.
 */
module Payload {
  import opened Text
  import opened Table

  /** The content format chosen for a run, with its column selections. */
  datatype Content =
    | PlainText(sources: seq<string>)
    | ContactCard(name: string, phone: string, email: string)

  /** `generate_vcard(name, phone, email)`. */
  function VCard(name: string, phone: string, email: string): string
  {
    "BEGIN:VCARD" + "\n" + "VERSION:3.0" + "\n" + ("FN:" + name) + "\n" + ("TEL:" + phone) + "\n" +
    ("EMAIL:" + email) + "\n" + "END:VCARD"
  }

  /** The six lines of a vCard, in their fixed order. */
  function VCardLines(name: string, phone: string, email: string): seq<string>
  {
    ["BEGIN:VCARD", "VERSION:3.0", "FN:" + name, "TEL:" + phone, "EMAIL:" + email, "END:VCARD"]
  }

  /** A vCard is its six lines joined by newlines, whatever the field values. */
  lemma VCardIsJoinOfLines(name: string, phone: string, email: string)
    ensures VCard(name, phone, email) == Join(VCardLines(name, phone, email), "\n")
  {
    JoinSix("BEGIN:VCARD", "VERSION:3.0", "FN:" + name, "TEL:" + phone, "EMAIL:" + email, "END:VCARD", "\n");
  }

  /** When no field holds a newline, the vCard splits into exactly its six
      lines; an empty field still yields its line (`FN:` alone, say). */
  lemma VCardSixLines(name: string, phone: string, email: string)
    requires '\n' !in name && '\n' !in phone && '\n' !in email
    ensures Split(VCard(name, phone, email), '\n') == VCardLines(name, phone, email)
  {
    VCardIsJoinOfLines(name, phone, email);
    SplitJoin(VCardLines(name, phone, email), '\n');
  }

  /** `row.get(col, "")` formatted into the f-string: the text of the cell, or
      the empty string when the row has no such column. A missing cell is
      formatted like any other value. */
  function Lookup<V>(row: Row<V>, col: string, str: Cell<V> -> string): string
  {
    if col in row then str(row[col]) else ""
  }

  /** The plain-text payload: the present selected cells joined by `" | "`. */
  function PlainTextPayload<V>(row: Row<V>, cols: seq<string>, str: Cell<V> -> string): string
    requires HasColumns(row, cols)
  {
    Join(PresentTexts(row, cols, str), Separator)
  }

  /** The payload is exactly the texts of the present cells, in selection order,
      with one separator between neighbours. */
  lemma PlainTextSegments<V>(row: Row<V>, cols: seq<string>, str: Cell<V> -> string)
    requires HasColumns(row, cols)
    ensures var idx := PresentIndices(row, cols);
      PlainTextPayload(row, cols, str) == Join(seq(|idx|, k requires 0 <= k < |idx| => str(row[cols[idx[k]]])), Separator)
  {
    PresentTextsAt(row, cols, str);
    var idx := PresentIndices(row, cols);
    assert PresentTexts(row, cols, str) == seq(|idx|, k requires 0 <= k < |idx| => str(row[cols[idx[k]]]));
  }

  /** No present cell, no text: the payload is empty. */
  lemma PlainTextAllMissing<V>(row: Row<V>, cols: seq<string>, str: Cell<V> -> string)
    requires HasColumns(row, cols)
    requires forall c :: c in cols ==> row[c].Missing?
    ensures PlainTextPayload(row, cols, str) == ""
  {
    PresentTextsAllMissing(row, cols, str);
  }

  /** A missing cell adds neither an empty segment nor a separator. */
  lemma PlainTextSkipsMissing<V>(row: Row<V>, cols: seq<string>, k: nat, str: Cell<V> -> string)
    requires HasColumns(row, cols)
    requires k < |cols| && row[cols[k]].Missing?
    ensures HasColumns(row, cols[..k] + cols[k + 1..])
    ensures PlainTextPayload(row, cols[..k] + cols[k + 1..], str) == PlainTextPayload(row, cols, str)
  {
    PresentTextsDropMissing(row, cols, k, str);
  }

  /** A present selected cell with non-empty text makes the payload non-empty. */
  lemma PlainTextNonEmpty<V>(row: Row<V>, cols: seq<string>, j: nat, str: Cell<V> -> string)
    requires HasColumns(row, cols)
    requires j < |cols| && row[cols[j]].Present? && str(row[cols[j]]) != ""
    ensures PlainTextPayload(row, cols, str) != ""
  {
    var idx := PresentIndices(row, cols);
    PresentTextsAt(row, cols, str);
    var k :| 0 <= k < |idx| && idx[k] == j;
    JoinNonEmpty(PresentTexts(row, cols, str), Separator, k);
  }

  /** The payload is empty exactly when no selected cell is present, or when
      just one is and its text is empty; two present cells always leave a
      separator, whatever their texts. */
  lemma PlainTextEmptyIff<V>(row: Row<V>, cols: seq<string>, str: Cell<V> -> string)
    requires HasColumns(row, cols)
    ensures var idx := PresentIndices(row, cols);
      PlainTextPayload(row, cols, str) == "" <==>
        |idx| == 0 || (|idx| == 1 && str(row[cols[idx[0]]]) == "")
  {
    PresentTextsAt(row, cols, str);
    JoinEmptyIff(PresentTexts(row, cols, str), Separator);
  }

  /** Once the target column `t` is cleared, selecting it adds nothing: the
      payload is that of the selection without `t`. */
  lemma PlainTextIgnoresCleared<V>(row: Row<V>, cols: seq<string>, t: string, str: Cell<V> -> string)
    requires HasColumns(row, cols) && t in row
    ensures HasColumns(Cleared(row, t), cols) && HasColumns(row, Without(cols, t))
    ensures PlainTextPayload(Cleared(row, t), cols, str) == PlainTextPayload(row, Without(cols, t), str)
  {
    PresentTextsCleared(row, cols, t, str);
  }

  predicate Covers<V>(row: Row<V>, content: Content)
  {
    content.PlainText? ==> HasColumns(row, content.sources)
  }

  /** The `qr_text` of one row (the `if qr_format == ...` branch). */
  function PayloadOf<V>(row: Row<V>, content: Content, str: Cell<V> -> string): string
    requires Covers(row, content)
  {
    match content
    case PlainText(sources) => PlainTextPayload(row, sources, str)
    case ContactCard(name, phone, email) =>
      VCard(Lookup(row, name, str), Lookup(row, phone, str), Lookup(row, email, str))
  }

  /** In contact-card mode the payload is the six vCard lines of the three
      looked-up texts: a missing cell contributes its `str` text, and a column
      the row lacks contributes an empty field whose line is still there. */
  lemma ContactCardLines<V>(row: Row<V>, name: string, phone: string, email: string, str: Cell<V> -> string)
    requires '\n' !in Lookup(row, name, str) && '\n' !in Lookup(row, phone, str) && '\n' !in Lookup(row, email, str)
    ensures Split(PayloadOf(row, ContactCard(name, phone, email), str), '\n') ==
      VCardLines(Lookup(row, name, str), Lookup(row, phone, str), Lookup(row, email, str))
    ensures forall c :: c in [name, phone, email] ==>
      Lookup(row, c, str) == if c in row then str(row[c]) else ""
  {
    VCardSixLines(Lookup(row, name, str), Lookup(row, phone, str), Lookup(row, email, str));
  }

  /** The two-row example with `Name` and `Phone` selected. */
  lemma PlainTextExample()
    ensures var show := (c: Cell<string>) => if c.Present? then c.value else "nan";
      var alice := map["Name" := Present("Alice"), "Phone" := Present("111"), "Email" := Present("a@x.com")];
      var bob := map["Name" := Present("Bob"), "Phone" := Present("222"), "Email" := Missing];
      PayloadOf(alice, PlainText(["Name", "Phone"]), show) == "Alice | 111" &&
      PayloadOf(bob, PlainText(["Name", "Email", "Phone"]), show) == "Bob | 222"
  {
    var show := (c: Cell<string>) => if c.Present? then c.value else "nan";
    var alice := map["Name" := Present("Alice"), "Phone" := Present("111"), "Email" := Present("a@x.com")];
    var bob := map["Name" := Present("Bob"), "Phone" := Present("222"), "Email" := Missing];
    var a := ["Name", "Phone"];
    assert a[..1] == ["Name"] && ["Name"][..0] == [];
    assert PresentTexts(alice, a, show) == ["Alice", "111"];
    var b := ["Name", "Email", "Phone"];
    assert b[..2] == ["Name", "Email"] && ["Name", "Email"][..1] == ["Name"];
    assert PresentTexts(bob, b, show) == ["Bob", "222"];
  }
}
