# Yield and retest rate report: a Dafny model

The report pipeline in `main_build.py` exports one KPI workbook per production domain. It then:

1. merges the exported sheets into one combined worksheet;
2. scans that worksheet for per-project KPI sub-tables giving yield rate and retest rate;
3. builds a findings document from the records, with a bold title, a 2x2 table and a blank line per project, plus a bold reason prompt when the retest rate is at least 3%;
4. rewrites the template's time-window sentence and splices the findings in after the paragraph "List of production lines operating";
5. renders the resulting document as the HTML body of a mail.

This project models stages 1 to 5 on in-memory values and proves what each stage produces.

Modules, one file each:

- `wrappers.dfy`: `Option` and `Result`.
- `text.dfy` (`Text`): the Python string operations the pipeline uses. These are `in`, `replace`, `strip(chars)` and `"".join`.
  - `split` and `sep.join` are defined as well, to state what `replace` produces: `s.replace(pat, rep)` is `rep.join(s.split(pat))`.
- `workbook.dfy` (`Workbook`): the sheet merge.
  - A combined sheet is a map from (row, column) to cells, plus its merged ranges and the `max_row` openpyxl reports once it is saved and loaded again.
  - `MergeSheets` is the cursor loop.
  - `Merge` is its specification.
- `kpi.dfy` (`Kpi`): the fixed-offset record scan.
  - `ExtractRecords` is the loop.
  - `Extract` and `ScanRows` are its specification.
  - An attempt to read a title above row 1 is an error, as it is in openpyxl.
- `decimal.dfy` (`Decimal`): the retest threshold `float(rr.strip("%")) >= 3`, computed exactly on decimal text.
- `timestamp.dfy` (`Timestamp`): `strftime('%I:%M %p of %A, %B %d, %Y')` over explicit date and time fields.
- `docs.dfy` (`Docs`): document bodies, made of paragraphs, tables and other elements.
  - Paragraphs are made of runs, and runs of text fragments.
  - The module also has python-docx's `paragraph.text` and `document.paragraphs`.
- `assembly.dfy` (`Assembly`): the findings builder, the placeholder rewrite and the splice.
  - `BuildFindings` is the loop; `Findings` is its specification.
  - `RewritePlaceholder` models the paragraph loop; `RewriteBody` is its specification.
  - `SpliceFindings` is the insert loop; `Spliced` is its specification.
  - `Compose` chains the three: `Assemble` over the rewritten template.
- `html.dfy` (`Html`): `get_run_style`, `process_paragraph` and the body-to-HTML loop.
  - Each has an exact output string, given as a function (`RunStyle`, `ParagraphHtml`, `DocumentHtml`).
  - The methods `ProcessParagraph`, `RenderTable` and `RenderDocument` are proved equal to those functions.

Behaviour of the code that the model makes explicit:

- **An unreadable source workbook.** The merge, the extraction and the assembly sit in one `try` (line 256). A workbook that fails to load therefore ends the whole stage, for every file.
- **The combined row count.** The cursor ends at 1 + Σrows + N, one separator row after each of the N sheets.
  - The extractor reads the saved and reloaded workbook (lines 293-298). Its `max_row` is the last row holding a saved cell (one with a value or a style) or a merged range, and 1 when there is none (`Workbook.LastRowSpec`).
  - So `max_row` is Σrows + N − 1 when the last sheet's last row holds a saved cell (`Workbook.MaxRowTotal`). It is smaller when the last sheet is empty or its last row holds only empty, unstyled cells.
  - A sheet with no cells contributes only its separator row (`Workbook.EmptySheet`).
- **Where the findings land.** The code uses the anchor's index among `doc.paragraphs` as an index into the body, which also holds tables. So the findings go directly after the anchor paragraph only when no table precedes it (`Assembly.SplicePoint`, `Assembly.TableBeforeAnchorExample`).
- **A missing anchor.** The code leaves the document unchanged and logs nothing.

## Model

| member | source | states |
|---|---|---|
| Workbook.MergeSheets | main_build.py:256-289 | The cursor loop yields exactly the combined sheet `Merge(sources)`: cells, merged ranges and the reloaded `max_row`. Its final cursor is 1 + Σrows + N. Sheets with no cells are accepted. |
| Workbook.CopyHeaderRanges | main_build.py:265-272 | The range loop of one sheet appends exactly the shifted header ranges, in order, and raises the last row to the last row of each. |
| Workbook.CopyRows | main_build.py:273-288 | The row loop places row i at the cursor's row + i and moves the cursor down once per row. The last row rises to every row that holds a saved cell. |
| Workbook.CopyRow | main_build.py:274-287 | The cell loop writes the copy of cell j at (row, j + 1). The last row becomes this row exactly when one of its cells is saved. |
| Workbook.LastRowSpec | main_build.py:293-298 | The reloaded `max_row` is at least 1. No saved cell and no merged range lies below it. It is 1, or the row of a saved cell, or the last row of a merged range. |
| Workbook.EmptySheet | main_build.py:273-289 | A sheet with no cells writes no cell and moves the cursor down by the separator row alone. |
| Workbook.CursorTotal | main_build.py:259-289 | The cursor before sheet k is 1 + the rows of sheets 0..k-1 + k separators. |
| Workbook.Placement | main_build.py:273-285 | Cell (i, j) of sheet k is written at (c_k + i − 1, j) as the copy of the source cell. Later sheets never overwrite it. |
| Workbook.CopyCell | main_build.py:275-285 | The copy keeps the value and the `has_style` flag. It takes the source style only when `has_style` is set, and the default style otherwise. |
| Workbook.CellOrigin | main_build.py:273-288 | Every combined cell lies in the row block of one sheet, at one of its columns. |
| Workbook.CellKept | main_build.py:273-288 | A cell written by an earlier sheet keeps its content through the rest of the merge. |
| Workbook.SeparatorEmpty | main_build.py:288-289 | No cell is written on the separator row after any sheet. |
| Workbook.Shift | main_build.py:266-271 | A re-created range keeps its height, width and columns, and moves down by cursor − 1 rows. |
| Workbook.HeaderRangesMembers | main_build.py:265-272 | A range is re-created for a sheet if and only if it is the shift of one of the sheet's ranges with `min_row <= 4`. |
| Workbook.RangeOrigin | main_build.py:265-272 | The combined merged ranges are exactly the header ranges of all sheets, each shifted by its own sheet's cursor. |
| Workbook.ShiftedRangeInBlock | main_build.py:265-272 | A header range lying inside its sheet stays inside that sheet's block. It reaches neither the separator nor another sheet. |
| Workbook.MaxRowTotal | main_build.py:273-298 | With at least one sheet, ranges inside their sheets, and a saved cell on the last sheet's last row, the reloaded `max_row` is Σrows + N − 1. |
| Kpi.Extract | main_build.py:297-307 | Definition: the scan of rows 1..max_row − 1 of the reloaded sheet. `Kpi.ExtractRecords` and `Kpi.Extraction` state what it yields. |
| Kpi.ExtractRecords | main_build.py:297-307 | The scan loop returns exactly `Extract(ws)`: the records, or the error of a title row above row 1. |
| Kpi.Extraction | main_build.py:298-307 | Extraction fails if and only if a labelled row among rows 1..3 lies below `max_row`. Otherwise it yields one record per qualifying row in 1..max_row−1, in row order, each read at the fixed offsets. |
| Kpi.QualifyingRowsSpec | main_build.py:298-306 | The qualifying rows are strictly increasing. A row is among them if and only if it is in 1..n−1, both labels match and both values below are present. |
| Kpi.ScanFails | main_build.py:302-303 | The scan fails if and only if some labelled row r < n has r ≤ 3. |
| Kpi.ScanRecords | main_build.py:302-307 | A successful scan has one record per qualifying row, in order, equal to (A[r−3], B[r+1], C[r+1]). |
| Kpi.ScanFailureKept | main_build.py:298-303 | Once the scan has failed, further rows keep that error. |
| Kpi.SingleProjectExample | main_build.py:297-307 | A sheet with one project sub-table yields exactly that project's record. Its value row is the last row. |
| Decimal.NeedsReason | main_build.py:327 | Definition: `float(rr.strip("%")) >= 3`, with a parse error for text that is not a number. `Decimal.PercentThreshold` states its value. |
| Decimal.PercentThreshold | main_build.py:327 | For "digits[.digits]%", a reason is asked for exactly when the whole part is at least 3. |
| Decimal.ParseDecimalText | main_build.py:327 | `float()` on "digits[.digits]" gives the non-negative number digits/10^(fraction length). |
| Decimal.DigitPercent | main_build.py:327 | A one-digit percentage asks for a reason exactly when the digit is at least 3. |
| Decimal.ThresholdExamples | main_build.py:327 | "3%" and "4%" ask for a reason. "2.9%" does not. |
| Decimal.NotANumberExample | main_build.py:327 | A rate that is not a number ("n/a") is an error, not a "no". |
| Timestamp.Format | main_build.py:337-338 | Definition: `strftime('%I:%M %p of %A, %B %d, %Y')`, the clock, " of " and the date. The round-trip lemmas below state what it holds. |
| Timestamp.TimeWindow | main_build.py:340 | Definition: `f"from {start} to {end}"` of the two formatted times. `Timestamp.WindowLayout` states its shape. |
| Timestamp.WindowLayout | main_build.py:337-340 | The window starts with "f". The "M" of the start's AM/PM is at index 12 and that of the end at index 16 + len(start). After the latter come " of " and the end's date, which holds no "f". |
| Timestamp.ClockRead | main_build.py:337-338 | `%I:%M %p` is eight characters, with an hour field of 01..12. It reads back as the 24-hour hour and the minute. |
| Timestamp.ClockRoundTrip | main_build.py:337-338 | The formatted time starts with that clock, which reads back as (hour, minute). |
| Timestamp.YearRoundTrip | main_build.py:337-338 | The formatted time ends with the four-digit year, which reads back as the year. |
| Timestamp.Hour12Determines | main_build.py:337-338 | The 12-hour hour is in 1..12, and together with AM/PM it gives back the hour of the day. |
| Timestamp.ClockExample | main_build.py:337 | 8:00 in the morning formats as "08:00 AM", unlike the template's "8:00 am". |
| Timestamp.DateExample | main_build.py:337 | Thursday 11 July 2024 formats as "Thursday, July 11, 2024". |
| Timestamp.FormatExample | main_build.py:337-340 | The whole formatted start time of the template's window is "08:00 AM of Thursday, July 11, 2024". |
| Text.ReplaceAll | main_build.py:344-346 | Definition: `str.replace`, every non-overlapping occurrence from the left. `Text.ReplaceJoin` states what it produces. |
| Text.Strip | main_build.py:327 | Definition: `str.strip(chars)`. `Text.StripShape` states what it produces. |
| Text.ContainsAt | main_build.py:343 | Python's `in` holds if and only if the substring occurs at some index. |
| Text.ReplaceAbsent | main_build.py:343-347 | `replace` leaves a string without the pattern unchanged. |
| Text.ReplacePresent | main_build.py:343-347 | A string holding the pattern has at least one occurrence to replace. |
| Text.ReplaceBySelf | main_build.py:344-346 | Replacing the pattern by itself changes nothing. |
| Text.ReplaceLength | main_build.py:344-346 | The length changes by len(rep) − len(pat) per replaced occurrence. |
| Text.ReplaceJoin | main_build.py:344-346 | The string is pat.join of its split, and `replace` gives rep.join of the same pieces. So `replace` puts `rep` exactly where the split cuts, and there are as many pieces as occurrences + 1. |
| Text.SplitLeftmost | main_build.py:344-346 | No occurrence of the pattern starts inside the first piece: the split cuts at the leftmost occurrence. |
| Text.SplitStep | main_build.py:344-346 | A single piece is the whole string. Otherwise the pattern occurs right after the first piece, and the other pieces are the split of what follows it. With `SplitLeftmost` this fixes every piece. |
| Text.SplitPiecesFree | main_build.py:344-346 | No piece of the split holds the pattern. |
| Text.ReplaceRemoves | main_build.py:344-346 | When the pattern cannot overlap the replacement, no occurrence of the pattern is left after `replace`. |
| Text.ReplaceInserts | main_build.py:343-346 | A string that holds the pattern holds the replacement after `replace`. |
| Text.StripShape | main_build.py:327 | `strip(chars)` gives a slice that neither starts nor ends with one of `chars`. Everything cut off is in `chars`. |
| Text.StripNothing | main_build.py:327 | A string whose ends are not in `chars` is unchanged by `strip`. |
| Text.ConcatAppend | main_build.py:127 | `"".join` of two lists is the join of the first followed by the join of the second. |
| Docs.Paragraphs | main_build.py:342 | `document.paragraphs` has at most as many entries as the body has elements. |
| Docs.LeadingParagraphs | main_build.py:350-355 | When the body holds no table before index p, paragraph number p is body element p. |
| Assembly.PyStr | main_build.py:313 | Definition: `f"{project}"` of a cell value, "None" for an empty cell. `Assembly.RecordPosition` states where it lands. |
| Assembly.BuildFindings | main_build.py:308-330 | The builder loop returns exactly `Findings(records, NeedsReason)`: the blocks of every record in order, or the first rate's parse error. |
| Assembly.FindingsFail | main_build.py:327 | The findings fail if and only if some record's retest rate is not a number. |
| Assembly.FindingsFailureKept | main_build.py:311-327 | A failing record ends the stage: later records change nothing. |
| Assembly.FindingsCount | main_build.py:311-330 | Successful findings hold 3K blocks plus one per record whose rate asks for a reason. |
| Assembly.RecordPosition | main_build.py:311-330 | Record k's blocks sit at offset 3k + (prompts before k). They are its bold title, its 2x2 table, a blank paragraph, and the bold prompt exactly when its rate asks for one. |
| Assembly.FindingsPrefix | main_build.py:311-330 | The findings of the first k records are a prefix of the findings. |
| Assembly.FindingsStep | main_build.py:311-330 | One more record appends its own blocks, or fails with its rate's error. |
| Assembly.TwoRecords | main_build.py:311-330 | Two records whose rates pass the test give the first record's blocks followed by the second's, each with its own prompt decision. |
| Assembly.TwoProjectsExample | main_build.py:311-330 | Projects 90%/1% and 92%/4% give two tables and exactly one prompt, the one for the 4% record. |
| Assembly.RewritePlaceholder | main_build.py:342-347 | The rewrite loop yields exactly `RewriteBody(body, window)`. |
| Assembly.RewriteBody | main_build.py:342-347 | Every element keeps its position and its kind. Tables and other elements are unchanged. |
| Assembly.RewrittenParagraphs | main_build.py:342-347 | The paragraphs of the rewritten body are the template's paragraphs, in order, each rewritten by `RewriteParagraph`. |
| Assembly.RewriteBlockSpec | main_build.py:342-347 | A paragraph holding the placeholder becomes one plain run, with every occurrence replaced (at least one) and a length change of len(window) − len(placeholder) per occurrence. Every other element is unchanged. |
| Assembly.WindowNoOverlap | main_build.py:337-346 | The placeholder cannot overlap any window the pipeline writes: at every offset they disagree somewhere. |
| Assembly.RewriteWindow | main_build.py:340-347 | With valid start and end times, a paragraph that held the placeholder holds the window and no longer holds the placeholder. |
| Assembly.RewriteBodyClears | main_build.py:340-347 | After the rewrite with valid start and end times, no paragraph of the body holds the placeholder. |
| Assembly.FirstAnchor | main_build.py:350-351 | The result is the index of the first paragraph holding the phrase, with none before it. None means no paragraph holds it. |
| Assembly.SpliceFindings | main_build.py:350-357 | The loop of `insert(i + 1, element)` and `i += 1` yields exactly `Spliced(body, findings, phrase)`. |
| Assembly.SpliceShape | main_build.py:350-357 | Without an anchor the body is unchanged. With the first anchor at paragraph index p, the findings are inserted contiguously and in order at body position p + 1, and the rest of the body is kept in order. |
| Assembly.Insertion | main_build.py:354-356 | Inserting at a position keeps the blocks before it and after it, in order, around the inserted run. |
| Assembly.InsertStep | main_build.py:354-356 | One `insert(i + 1, element)` with `i += 1` puts the next findings element right after those already inserted. |
| Assembly.InsertionUndone | main_build.py:354-356 | Removing the inserted blocks gives back the original body. |
| Assembly.ParagraphIndex | main_build.py:350-355 | A paragraph at body index q is paragraph number q − t, where t counts the other elements before it. |
| Assembly.AnchorIndex | main_build.py:350-355 | If the first anchor paragraph is body element q, with t tables or other elements before it, then the anchor's paragraph index is q − t. |
| Assembly.SplicePoint | main_build.py:350-356 | The findings go in at body position q − t + 1. They follow the anchor directly only when t = 0. |
| Assembly.TableBeforeAnchorExample | main_build.py:350-356 | For the body [table, anchor, paragraph], the findings land between the table and the anchor. |
| Assembly.Compose | main_build.py:308-357 | Definition: the findings, built with `NeedsReason`, spliced after the anchor paragraph of the rewritten template. `Assembly.AssembleSpec` states what it yields. |
| Assembly.AssembleSpec | main_build.py:308-357 | Assembly fails if and only if some rate fails the test. Otherwise the body is unchanged when there is no anchor. When there is one, it gets exactly 3K + (prompts) blocks inserted after the anchor's paragraph index. `Compose` is this assembly with the rewritten template, `NeedsReason` and the anchor phrase. |
| Html.RunStyle | main_build.py:113-121 | Definition: `get_run_style`, one declaration per flag present, bold, italic, underline. `Html.RunStyleFlags` states what it holds. |
| Html.SpanStyle | main_build.py:126-134 | Definition: the run's own style plus the bold declaration when its text names a project. `Html.SpanBold` states when it is bold. |
| Html.ParagraphHtml | main_build.py:124-136 | Definition: the string `process_paragraph` returns. `Html.ProcessParagraph` is the loop that builds it. |
| Html.RunStyleFlags | main_build.py:113-121 | The style holds the bold, italic and underline declarations exactly when the matching flag is set. The style is empty exactly when no flag is set. Its length is 17, 18 and 26 per flag. |
| Html.RunStyleDetermines | main_build.py:113-121 | The style string determines the three flags. |
| Html.AnyInExists | main_build.py:133 | `any(project in text ...)` holds if and only if some project name occurs in the text. |
| Html.SpanBold | main_build.py:128-134 | A span's style holds the bold declaration if and only if the run has `w:b` or its text mentions a project. |
| Html.BoldProjectRunExample | main_build.py:128-135 | A bold run naming a project has the bold declaration twice. |
| Html.ProcessParagraph | main_build.py:124-136 | `process_paragraph` returns exactly `<p style='margin:0;'>`, then one span per run (style, then unescaped text), then `</p>`. |
| Html.RenderTable | main_build.py:379-389 | The table branch returns the fixed table header, then `<tr>` per row and `<td ...>` per cell with the cell's rendered paragraphs, closed in order. |
| Html.RenderDocument | main_build.py:374-391 | The mail body is exactly `<html><body>`, the rendering of every element in order, then `</body></html>`. |
| Html.BodyHtmlAppend | main_build.py:376-389 | Rendering is compositional: the HTML of a + b is the HTML of a followed by the HTML of b. |
| Html.OtherElementInvisible | main_build.py:376-389 | An element that is neither a paragraph nor a table leaves no trace in the mail. |
| Html.InsertedRendering | main_build.py:374-391 | The mail of a body with findings inserted at a position is the original's HTML with the findings' HTML inserted at the same point. |
| Html.SplicedRendering | main_build.py:374-391 | After the splice, the mail shows the HTML of body[..p+1], then the findings' HTML, then the HTML of the rest. |

## Left out

- Browser automation, configuration loading, output-folder cleanup, the download poll and the clock are not part of this model. These are Selenium, YAML, the filesystem and the wall clock. The start and end times are inputs.
- Loading and saving workbooks and documents (openpyxl and python-docx) is replaced by in-memory values.
  - The combined worksheet and the document bodies are method-local maps and sequences that the loops update, not library objects.
  - The order of `os.listdir` is replaced by a given sequence of sheets.
  - A load failure is not modelled.
- Cell styles (font, border, fill, number format, protection, alignment) are opaque values that are either copied or left at the default.
- Cell values are strings or empty. Numeric and date cell values, and `str()` of them, are not modelled.
- The extractor reads the combined sheet's cells as the merge wrote them, not as reloaded. The writer drops cells with no value and no style, and the loader adds empty cells inside merged ranges; both read as empty either way.
- A cell holding the empty string reloads as empty. The model keeps it as the empty string, so such a cell under a label counts as present at line 306.
- `float()` is modelled on the forms `[sign] digits [. digits]` and `[sign] . digits`, with surrounding whitespace, compared exactly. The model does not cover:
  - IEEE rounding;
  - exponents, `inf`, `nan` and digit underscores;
  - a retest value that is not a string;
  - non-ASCII whitespace and Unicode decimal digits, which CPython's `float()` accepts (for example a full-width "３%" gives 3.0). The model treats them as not a number.
- `strftime`: the C locale's English names are fixed, the weekday is an input, and calendar consistency of a date is not checked. Years are limited to 1000..9999.
- Document elements are paragraphs, tables and anything else. XPath descendant matching is not modelled: nested tables and runs inside hyperlinks are out of scope.
- The findings document's body also ends with the `w:sectPr` of python-docx's default template. The loop at line 354 inserts it too, so one more element goes in than `Findings` holds, even with no records. It is an element that renders as nothing (`Html.OtherElementInvisible`).
- python-docx's `paragraph.text`, used by `in` at lines 343 and 351, turns `w:tab` and `w:br` into "\t" and "\n". `process_paragraph` joins only the `w:t` texts. The model uses the `w:t` texts for both.
- `Assembly.RewriteParagraph` models the `paragraph.text` setter as leaving one unformatted run, which python-docx does.
- Project names reach the renderer as strings. An empty project cell would make `in` raise at line 133. `Assembly.PyStr` covers its title "None" in the findings, not that exception.
- The rate test is a parameter of `Assembly.Findings` and its lemmas, and the splice phrase is a parameter of the splice lemmas. The pipeline instantiates them with `Decimal.NeedsReason` and `Assembly.Anchor`.
- `rgb_to_hex` (lines 104-110) is unused, and the `target_paragraph` branch (lines 359-367) is dead, because `target_paragraph` is always `None`. Neither is modelled.
- The Outlook mail, its recipients and attachment, and the completion message box are not part of this model.
