# QR code generator from Excel — Dafny model

This project models the row-by-row logic of the Streamlit app
`qr_generator_app.py`. The app reads an uploaded spreadsheet. For every row it
builds a QR payload, which is either a plain-text join of the selected columns
or a vCard contact record. It renders that payload as a QR image and formats
a hover tooltip. Each image is embedded in the target column of a new
worksheet: entry `i` goes at worksheet row `i + 1`, below the header row,
which is the row where the export writes table row `i`. Its tooltip becomes
the image description.

Modules, one per file:

- `Text` (`text.dfy`): the Python `str` operations the app uses. These are
  `sep.join`, single-character `replace`, `strip()` with Python's `isspace()`
  character set, and the slice `[:n]`. It also defines `split`, which serves
  as the inverse of `join` when stating properties.
- `Table` (`table.dfy`): rows as maps from column name to cell. A cell is
  `Present(value)` or `Missing` (`pd.notna` false). Python's `str()` is a
  parameter. This module covers the generator expression
  `str(row[col]) for col in cols if pd.notna(row[col])` and the effect of
  `df[target] = None` on a row.
- `Payload` (`payload.dfy`): `generate_vcard` and the `qr_text` of a row in
  both content formats.
- `Tooltip` (`tooltip.dfy`): the tooltip pipeline. It joins the text, turns
  `\n`, `\r` and `\t` into spaces, strips, cuts to 250 characters, and falls
  back to `"QR Code"` when nothing is left.
- `Excel` (`excel.dfy`): a `Worksheet` class whose fields are the cells, the
  sized rows and columns, and the anchored images. Its methods are
  `set_column`, `set_row`, `write` and `insert_image`. The module also holds
  the placement loop over `enumerate(zip(images, tooltips))`.
- `Generator` (`generator.dfy`): the button action. It has a `Frame` class,
  standing for the DataFrame, whose rows `ClearColumn` overwrites in place.
  It also holds the empty-selection guard, the row loop that appends one
  image and one tooltip per row, and the action as a whole (`Run`).

The QR renderer is a function parameter `render(payload, size)`. It covers
QR symbol encoding, rasterising, resizing and PNG saving. The spreadsheet
export `df.to_excel` is also a parameter, `toExcel(columns, rows)`.

Where the code's behaviour is narrower or different from what a reader of
the UI might expect, the model follows the code:

- A plain-text payload skips only cells for which `pd.notna` is false. A
  present cell whose text is `""` still yields a segment. A payload is
  empty exactly when no selected cell is present, or just one is and its
  text is `""` (`Payload.PlainTextEmptyIff`). Two present cells always leave
  the separator, even when both texts are empty. A present cell with
  non-empty text guarantees a non-empty payload (`Payload.PlainTextNonEmpty`).
- In vCard mode, `row.get(col, "")` gives `""` only for a column the row
  does not have. A missing cell is formatted by `str()` like any other value
  (for example as `nan`), not turned into an empty field.
- The target column is set to `None` before the row loop. So the loop, and
  the exported table, see the cleared column. A source or tooltip column
  that is also the target contributes nothing (`Payload.PlainTextIgnoresCleared`,
  `Tooltip.TooltipIgnoresCleared`).

## Model

| member | source | states |
|---|---|---|
| Text.Join | qr_generator_app.py:68 | `sep.join(parts)`, used by both joins (also at line 72): its structure is stated by `JoinAppend`, `JoinSix`, `JoinNonEmpty`, and by the round trips `SplitJoin` and `JoinSplit` |
| Text.ReplaceChar | qr_generator_app.py:73 | `s.replace(x, y)` keeps the length and changes exactly the positions holding `x` into `y` |
| Text.Strip | qr_generator_app.py:73 | `strip()` returns a slice of its input bordered on both sides by whitespace only, and neither end of the result is whitespace |
| Text.StripUnique | qr_generator_app.py:73 | any slice with the properties in Strip's contract equals the strip, so that contract determines `strip()` completely |
| Text.StripIdempotent | qr_generator_app.py:73 | stripping twice is stripping once |
| Text.StripEmptyIff | qr_generator_app.py:73 | the strip is empty if and only if the whole string is whitespace |
| Text.Take | qr_generator_app.py:73 | `s[:n]` has length `min(len(s), n)` and is a prefix of `s` |
| Text.SplitJoin | qr_generator_app.py:13-19 | for a non-empty list of parts none of which contains `c`, splitting the join on `c` recovers the parts (that no split piece contains `c` is `Split`'s own contract); this is what makes "six lines" a statement about the joined text |
| Text.JoinSplit | qr_generator_app.py:13-19 | joining the split pieces with `c` gives back the original string (the other direction of the round trip) |
| Text.JoinEmptyIff | qr_generator_app.py:68 | with a non-empty separator, a `join` is empty if and only if there is no part or a single empty part |
| Text.JoinNonEmpty | qr_generator_app.py:68 | a `join` with a non-empty part is non-empty |
| Table.PresentTexts | qr_generator_app.py:68 | the generator expression (also at line 72) as a list of segments; `PresentTextsAt` states that it holds one segment per present selected cell, in selection order, and the other `PresentTexts` lemmas state how it reacts to missing, appended and cleared columns |
| Table.PresentIndices | qr_generator_app.py:68 | the positions of the present selected cells, strictly increasing, each one present and none left out |
| Table.PresentTextsAt | qr_generator_app.py:68 | segment `k` of the generator expression is `str` of the `k`-th present selected cell, in selection order, and there is one segment per present cell |
| Table.PresentTextsAllMissing | qr_generator_app.py:68 | a selection whose cells are all missing yields no segment |
| Table.PresentTextsAppend | qr_generator_app.py:68 | selecting `a` then `b` yields the segments of `a` followed by those of `b` |
| Table.PresentTextsDropMissing | qr_generator_app.py:68 | removing a column whose cell is missing from the selection changes no segment |
| Table.Cleared | qr_generator_app.py:62 | `df[t] = None` on one row keeps its columns, makes `t` missing and leaves every other cell unchanged |
| Table.Without | qr_generator_app.py:68 | the selection with `t` removed holds exactly the columns that are in the selection and differ from `t`, and is the selection itself when `t` is not selected |
| Table.WithoutAppend | qr_generator_app.py:68 | removing `t` from a concatenated selection removes it from each piece in place, so the order of the remaining columns is kept |
| Table.PresentTextsCleared | qr_generator_app.py:62-68 | after the target column is cleared, the segments are those of the selection without the target column |
| Payload.VCard | qr_generator_app.py:13-19 | `generate_vcard`; `VCardIsJoinOfLines` and `VCardSixLines` state its six-line layout |
| Payload.Lookup | qr_generator_app.py:70 | `row.get(col, "")` formatted into the f-string; its definition is its whole specification: `str` of the cell for a column the row has, missing cells included, and `""` otherwise |
| Payload.PlainTextPayload | qr_generator_app.py:68 | the plain-text `qr_text`; `PlainTextSegments`, `PlainTextAllMissing`, `PlainTextSkipsMissing`, `PlainTextNonEmpty` and `PlainTextIgnoresCleared` state its meaning |
| Payload.PayloadOf | qr_generator_app.py:67-70 | the `qr_text` branch on the content format; `PlainTextSegments` states the plain-text case and `ContactCardLines` the contact-card case |
| Payload.VCardIsJoinOfLines | qr_generator_app.py:13-19 | the vCard text is the six lines `BEGIN:VCARD`, `VERSION:3.0`, `FN:<name>`, `TEL:<phone>`, `EMAIL:<email>`, `END:VCARD` joined by newlines, for any field values |
| Payload.VCardSixLines | qr_generator_app.py:13-19 | when no field holds a newline, the vCard splits into exactly those six lines in that order, and empty fields still give their line |
| Payload.ContactCardLines | qr_generator_app.py:70 | when none of the three looked-up texts holds a newline, a contact-card payload splits into the six lines of those texts; a column the row lacks gives `""`, a present column gives `str` of its cell, missing or not |
| Payload.PlainTextSegments | qr_generator_app.py:68 | the plain-text payload is `str` of each present selected cell, in selection order, joined with the space-bar-space separator |
| Payload.PlainTextAllMissing | qr_generator_app.py:68 | when every selected cell is missing the payload is `""` |
| Payload.PlainTextSkipsMissing | qr_generator_app.py:68 | a missing cell adds neither an empty segment nor a separator: dropping it from the selection gives the same payload |
| Payload.PlainTextNonEmpty | qr_generator_app.py:68 | a present selected cell with non-empty text makes the payload non-empty |
| Payload.PlainTextEmptyIff | qr_generator_app.py:68 | the payload is `""` if and only if no selected cell is present, or exactly one is and its text is `""`; two present cells always leave a separator |
| Payload.PlainTextIgnoresCleared | qr_generator_app.py:62-68 | once the target column is cleared, the payload is that of the selection without the target column |
| Payload.PlainTextExample | qr_generator_app.py:68 | two sample rows give the texts `Alice` and `111` joined by the separator and, with a missing `Email` between `Name` and `Phone`, `Bob` and `222` joined by one separator only |
| Tooltip.ReplaceControls | qr_generator_app.py:73 | the chained `replace` calls keep the length, turn each `\n`, `\r` and `\t` into exactly one space and change nothing else |
| Tooltip.StripReplaceCommute | qr_generator_app.py:73 | stripping and replacing the three controls commute, because all three and the space are whitespace |
| Tooltip.StrippedText | qr_generator_app.py:73 | the replaced and stripped text has no control, is empty exactly for all-whitespace input, and otherwise starts with a non-space |
| Tooltip.TruncatedText | qr_generator_app.py:73 | the text cut to 250 characters is empty exactly for all-whitespace input, has no control, and starts with a non-space when non-empty |
| Tooltip.Format | qr_generator_app.py:73 | the tooltip has between 1 and 250 characters and no `\n`, `\r` or `\t`; it is `"QR Code"` for all-whitespace raw text and otherwise the first 250 characters of the replaced, stripped text, starting with a non-space |
| Tooltip.TooltipFor | qr_generator_app.py:72-73 | `tooltip_text` of a row: `Format` of the joined present tooltip cells, so `Format`'s contract gives its bounds, its default and its lack of controls |
| Tooltip.TooltipIgnoresCleared | qr_generator_app.py:72-73 | once the target column is cleared (line 62), the tooltip is that of the tooltip selection without the target column |
| Tooltip.FormatKeepsShortText | qr_generator_app.py:73 | a text that is not all whitespace and whose strip has at most 250 characters is kept whole, as its replaced strip |
| Tooltip.TooltipDefaultWhenNothingPresent | qr_generator_app.py:72-73 | with no tooltip columns selected, or only missing cells selected, the tooltip is `"QR Code"` |
| Excel.Worksheet.constructor | qr_generator_app.py:82-85 | the sheet as `to_excel` and `writer.sheets["QR Data"]` leave it: holding the exported cells, with no row or column sized and no image inserted |
| Excel.Worksheet.SetColumn | qr_generator_app.py:90 | marks the column as sized and changes nothing else |
| Excel.Worksheet.SetRow | qr_generator_app.py:94 | marks the row as sized and changes nothing else |
| Excel.Worksheet.Write | qr_generator_app.py:95 | records `""` (a blank cell) at one position and changes nothing else |
| Excel.Worksheet.InsertImage | qr_generator_app.py:96-103 | appends one anchor with the image and its description and changes nothing else |
| Excel.PlacementsAt | qr_generator_app.py:92-96 | entry `i` is anchored at worksheet row `i + 1` in the target column, with image `i` and tooltip `i` |
| Excel.BlankedAt | qr_generator_app.py:95 | only the data cells of rows `1..n` in the target column are blanked; the header row and all other columns keep the exported text |
| Excel.DataRowsAre | qr_generator_app.py:94 | the resized rows are exactly `1..n`; the header row is never resized |
| Excel.PlaceImages | qr_generator_app.py:92-96 | the placement loop over `zip` runs for the shorter of the two lists and leaves anchors, cells and sized rows as `Placements`, `Blanked` and `DataRows` describe |
| Generator.Rejects | qr_generator_app.py:59-60 | the guard: plain-text mode with no source columns; `Run` states that the action is rejected if and only if it holds |
| Generator.IndexOf | qr_generator_app.py:86 | `get_loc` returns the position of the first column equal to the target |
| Generator.Frame.ClearColumn | qr_generator_app.py:62 | `df[target] = None`: every row is replaced by its cleared copy, and the columns and the row count are unchanged |
| Generator.ProcessRows | qr_generator_app.py:63-79 | after the row loop both lists have one entry per row, and entry `i` is the rendered payload and the tooltip of row `i` |
| Generator.Run | qr_generator_app.py:58-96 | rejects exactly plain-text mode with no source columns, with the error message and no change to the table. Otherwise it clears the target column first, derives images and tooltips from the cleared rows in row order, exports the cleared table, sizes the target column, and places entry `i` at row `i + 1` |
| Generator.PlacedEntries | qr_generator_app.py:62-96 | for lists as `ProcessRows` returns them, in the placements that `Run` stores in `sheet.anchors`, anchor `i` carries row `i`'s rendered payload and tooltip at row `i + 1` of the target column; no anchor lies on the header row |

## Left out

- The Streamlit user interface is not modelled. This covers the page
  set-up, the widgets, the layout, the success message, the download button
  and the side panel that shows a sample QR code. The selections a run uses are the parameter
  `Config`; the widgets only offer columns that exist, which `Fits` states.
- QR symbol encoding, rasterising, resizing to `size` pixels and PNG saving
  (`generate_qr_image` and the `BytesIO` buffer) are foreign library calls.
  They are the opaque parameter `render`, and no pixel-level property is
  claimed.
- Reading the spreadsheet and the workbook internals of `to_excel` are
  foreign calls. The export is the parameter `toExcel`, and the embedded
  image format (`x_offset`, `y_offset`, scale) is not modelled.
- The column width `qr_size * 0.142857` and the row height `qr_size * 0.75`
  are floating-point values. The model records which rows and columns are
  sized, not the sizes.
- Python's `str()` of a cell value stays uninterpreted (the parameter `str`).
  `None` and `NaN` are both the single `Missing` cell.
- `get_loc` on a table with duplicate column names returns a slice or mask
  in pandas. `Generator.IndexOf` assumes the first match. `Frame.Valid`
  describes rows by column name, so duplicate names are not modelled.
- Payload.VCardSixLines, Payload.ContactCardLines: require fields without
  newlines. A cell can hold a line break (an address typed over two lines,
  say), and `row.get` passes it into the f-string unchanged. A field holding a
  newline gives more than six lines. `Payload.VCardIsJoinOfLines` states the
  layout for every input.
- Generator.ProcessRows, Generator.Run: `render` is a total function, so
  every run that passes the guard ends in `Generated` with one image per
  row. In the source, `qr.make(fit=True)` raises when a payload is too large
  for the largest QR symbol. That exception leaves the row loop after the
  target column has already been cleared, and the action ends with no
  worksheet. This failure path is not modelled.
- Excel.PlaceImages: the loop is modelled over the shorter of the two
  lists, as `zip` does. `Generator.Run` always passes lists of equal length.
