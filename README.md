# Flyer layout and greedy word wrapping, in Dafny

A model of the layout logic of the park-cleanup flyer generator
(`scripts/make_flyers.py`). The generator draws a US Letter page at 300 DPI. The
page carries three wrapped bullet points, a QR code against the right margin with
its label and URL centred under it, and an optional second QR code with its own
centred label. The page is saved as `flyer_<slug>_letter.png` and `.pdf`.

The heart of the model is `_wrap_text`, a greedy word wrapper. It splits the text
into words and grows one line at a time. A word joins the current line when the
joined text still fits the maximum width; otherwise the line is closed and the word
starts the next one. The width of a string as a font draws it (the right edge of
`draw.textbbox`) comes from a font library, so here it is an arbitrary function
`measure: string -> int` passed in as a parameter. Nothing assumes that it grows
with the string.

Files, one module each:

- `pystr.dfy` (`PyStr`): the parts of Python's `str` that the script relies on.
  It covers whitespace as `str.isspace` defines it, `split()`, `strip()`,
  `" ".join`, `replace(old, "")` and `posixpath.join`, with their properties
  (split/join round trip, strip only removes whitespace, single-pass replace).
- `wrap.dfy` (`Wrap`): the wrapper. `Groups`/`WrapLines` define the result. The
  predicate `IsGreedy` states the contract. `GroupsCharacterised` proves that
  `Groups` is the one and only grouping meeting that contract. `WrapText` is the
  loop of the source, proved equal to `WrapLines`.
- `flyer.dfy` (`Flyer`): the integer and string parts of `render_letter`. These
  are the bullet loop and its y-cursor, the centred label loops, the right-aligned
  QR blocks, the displayed URL, the guard on the second QR code, the output paths
  and the three flyers `main` renders. Drawing is modelled as the list of text
  lines placed, each with its pixel position.

Layout sizes are the integers the script's float expressions evaluate to at 300 DPI
(`W` 2550, `H` 3300, pad 180, header 480, QR 960, bullet indent 75, line step 129,
bullet gap 30, and so on). Python's `//` by 2 is Dafny's `/` by 2, since both round
down for a positive divisor.

## Model

| member | source | states |
|---|---|---|
| `Wrap.WrapText` | scripts/make_flyers.py:57-72 | The loop returns exactly `WrapLines(split(text))`. The result is empty iff the text is empty or all whitespace. Splitting the lines again gives back `text.split()` in order. Each line is non-empty and is its own words joined by single spaces. A line of two or more words fits `max_w`. No line could have taken the first word of the next. |
| `Wrap.GroupsCharacterised` | scripts/make_flyers.py:58-71 | A grouping of the words into lines meets the greedy contract iff it is the wrapper's grouping, so the contract determines the result completely. |
| `Wrap.GroupsGreedy` | scripts/make_flyers.py:61-71 | The wrapper's grouping keeps the words in order, has no empty line, every added word fitted, and each line could not take the next line's first word. |
| `Wrap.GreedyUnique` | scripts/make_flyers.py:61-71 | Two groupings that both meet the greedy contract are equal. |
| `Wrap.GroupFrom` | scripts/make_flyers.py:61-71 | Definition of the loop over the remaining words from a current line; properties in `Wrap.GroupsGreedy` and `Wrap.GroupsCharacterised`. |
| `Wrap.Groups` | scripts/make_flyers.py:58-71 | Definition of the wrapper's grouping of the words; properties in `Wrap.GroupsGreedy` and `Wrap.GroupsCharacterised`. |
| `Wrap.WrapLines` | scripts/make_flyers.py:57-72 | Definition of `_wrap_text`'s result; properties in `Wrap.WrapLinesEmpty`, `Wrap.WrapLinesGroups`, `Wrap.WrapLinesShape`, `Wrap.WrapLinesFit` and `Wrap.WrapLinesBreaks`. |
| `Wrap.WrapLinesEmpty` | scripts/make_flyers.py:58-72 | No words give no lines, and any word gives at least one line. |
| `Wrap.WrapLinesGroups` | scripts/make_flyers.py:58-71 | Each returned line splits back into its group of words, and all lines split and concatenated give the input words. |
| `Wrap.WrapLinesShape` | scripts/make_flyers.py:62-71 | Every line is non-empty, starts and ends with a non-space, and equals its words re-joined by single spaces. |
| `Wrap.WrapLinesFit` | scripts/make_flyers.py:62-69 | Every line holding two or more words measures at most `max_w`. Only a single word may overflow. |
| `Wrap.WrapLinesBreaks` | scripts/make_flyers.py:62-69 | For consecutive lines, the earlier line joined with a space to the next line's first word measures more than `max_w`. |
| `Wrap.CandidateLine` | scripts/make_flyers.py:62 | The trial line `(cur + " " + w).strip()` is the current words and `w` joined by single spaces, also when `cur` is empty. |
| `Wrap.GroupFits` | scripts/make_flyers.py:64-65 | In a greedy grouping, a line of two or more words fits. |
| `PyStr.Split` | scripts/make_flyers.py:58 | `split()` returns only words: non-empty strings without whitespace. |
| `PyStr.SplitEmptyIffBlank` | scripts/make_flyers.py:58 | `split()` returns no words iff the text is empty or all whitespace. |
| `PyStr.SplitKeepsCharacters` | scripts/make_flyers.py:58 | The words of `split()` run together are exactly the non-whitespace characters of the text, in order. |
| `PyStr.SplitAtSpace` | scripts/make_flyers.py:58 | Whitespace separates words: splitting `a`, one whitespace character, then `b` gives the words of `a` followed by the words of `b`. |
| `PyStr.SplitJoin` | scripts/make_flyers.py:58 | Splitting `" ".join` of words gives back those words. |
| `PyStr.Strip` | scripts/make_flyers.py:62 | Definition of `strip()`; properties in `PyStr.StripEmptyIffBlank`, `PyStr.StripKeepsNonSpace` and `PyStr.StripMargins`. |
| `PyStr.StripEmptyIffBlank` | scripts/make_flyers.py:62 | `strip()` leaves nothing iff the text is blank. |
| `PyStr.StripKeepsNonSpace` | scripts/make_flyers.py:62 | `strip()` removes whitespace only. |
| `PyStr.StripMargins` | scripts/make_flyers.py:62 | What `strip()` leaves neither starts nor ends with whitespace. |
| `PyStr.Join` | scripts/make_flyers.py:62 | Definition of `" ".join`; properties in `PyStr.JoinEnds`, `PyStr.SplitJoin` and `Wrap.CandidateLine`. |
| `PyStr.JoinEnds` | scripts/make_flyers.py:62 | Joining words is empty iff there are no words, and otherwise starts and ends with a non-space. |
| `PyStr.RemoveAll` | scripts/make_flyers.py:167 | Definition of `replace(old, "")`, one left-to-right pass; it never lengthens the text. Properties in `PyStr.RemoveAllAbsent` and `PyStr.RemoveAllSinglePass`. |
| `PyStr.RemoveAllAbsent` | scripts/make_flyers.py:167 | `replace("https://", "")` leaves text without the scheme unchanged. |
| `PyStr.RemoveAllSinglePass` | scripts/make_flyers.py:167 | `replace` makes a single left-to-right pass: `"hthttps://tps://"` becomes `"https://"`, so an occurrence can remain. |
| `PyStr.PathJoin` | scripts/make_flyers.py:207-208 | `os.path.join` ends with its second part. An absolute second part replaces the first. Otherwise the first part comes before it, followed by a `/` exactly when the first part is non-empty and does not already end with `/`. |
| `PyStr.PathJoinInDir` | scripts/make_flyers.py:207-208 | Joining a relative name to a directory gives exactly the directory, the separator when one is needed, and the name. |
| `PyStr.InDirEndsWithName` | scripts/make_flyers.py:207-208 | A path inside a directory ends with the name it was given, so each output path ends in its file name. |
| `PyStr.PathJoinInjective` | scripts/make_flyers.py:207-208 | Joining different relative names to the same directory gives different paths. |
| `Flyer.Marked` | scripts/make_flyers.py:139-141 | Definition of the drawn texts of one bullet, `"• "` before the first line and two spaces before the others; properties in `Flyer.PlaceBulletLines` and `Flyer.BulletCanReachQr`. |
| `Flyer.TotalLines` | scripts/make_flyers.py:137-142 | Definition of the number of lines the bullets wrap to; properties in `Flyer.TotalLinesMono` and `Flyer.PlaceBullets`. |
| `Flyer.BulletText` | scripts/make_flyers.py:137-142 | All lines the bullets are drawn as, in order; it has one line per wrapped line, and `Flyer.PlaceBullets` draws exactly these. |
| `Flyer.PlaceBulletLines` | scripts/make_flyers.py:139-142 | The inner bullet loop draws `"• "` before the first line and two spaces before the others, at the indented margin, one line step apart; the cursor ends 129 px per line lower. |
| `Flyer.PlaceBullet` | scripts/make_flyers.py:138-142 | One bullet is wrapped to `W - 2*pad - 960` and its lines are placed from the cursor down. |
| `Flyer.PlaceBullets` | scripts/make_flyers.py:136-143 | After the bullet loop, y equals its start plus 129 times the total number of wrapped lines plus 30 times the number of bullets. The drawn texts are the marked wrapped lines of every bullet, in order. Line `k` of the whole list, when it belongs to bullet `j`, is at x = 255 and y = start + 129·k + 30·j. The lines are stacked in order, each a full line step above the next and all between the start and the final cursor. |
| `Flyer.RowsAtBulletsStep` | scripts/make_flyers.py:137-143 | Placing the lines of the next bullet from the cursor extends the exact per-line positions to one more bullet. |
| `Flyer.TotalLinesMono` | scripts/make_flyers.py:137-142 | The lines of the first `i` bullets never outnumber those of the first `j ≥ i` bullets. |
| `Flyer.BulletOf` | scripts/make_flyers.py:137-142 | Every line index below the total line count of the first `n` bullets falls within the lines of one of those bullets. |
| `Flyer.RowAtBulletBounds` | scripts/make_flyers.py:141-143 | A line placed at its exact position is at the indented margin and between the start and the final cursor. |
| `Flyer.RowsAtBulletOrder` | scripts/make_flyers.py:141-143 | Two consecutive lines placed at their exact positions are at least one line step apart, also across a bullet gap. |
| `Flyer.RowsAtBulletsStacked` | scripts/make_flyers.py:136-143 | Exact per-line positions imply that the lines are stacked: at the indented margin, in order, a full line step apart, and between the start and the final cursor. |
| `Flyer.FirstBulletLines` | scripts/make_flyers.py:137-139 | A first bullet that holds a word wraps to at least one line, and its lines come first. |
| `Flyer.FirstBulletLine` | scripts/make_flyers.py:137-142 | When the first bullet holds a word, the first line drawn is at the cursor where the loop starts. |
| `Flyer.BulletsNotBlank` | scripts/make_flyers.py:130-134 | None of the three bullets is blank. |
| `Flyer.FlyerFirstBulletLine` | scripts/make_flyers.py:125-142 | On the flyer, the first bullet line is drawn at y = 810, which is 480 + 165 + 165, whatever the font. |
| `Flyer.BulletCanReachQr` | scripts/make_flyers.py:138-150 | The wrap test measures a line without its `"• "` mark, from the page margin. The line is drawn with the mark, 75 px further right. So with 20 px per character, a 61-letter word passes the test yet ends past `qr_x`. |
| `Flyer.StackedAppend` | scripts/make_flyers.py:137-143 | The lines of one more bullet, placed from the cursor, keep all lines in order and within the cursor range including the gap. |
| `Flyer.CentreX` | scripts/make_flyers.py:163 | `left + (box - width) // 2` leaves margins that differ by 0 or 1 px (the right one larger). A line no wider than the box stays inside it. |
| `Flyer.CentreXUnique` | scripts/make_flyers.py:163 | The floor-centred x is the only position whose margins differ by 0 or 1. |
| `Flyer.PlaceCentred` | scripts/make_flyers.py:161-164 | A label loop draws every line, in order, centred in the box, `step` px apart; the cursor ends one step per line lower. |
| `Flyer.CentredLines` | scripts/make_flyers.py:159-164 | A label block is the text wrapped to the box width, each line centred under the QR code. |
| `Flyer.DisplayUrl` | scripts/make_flyers.py:167 | Definition of the URL text under the QR code; properties in `Flyer.DisplayUrlDropsScheme`, `PyStr.RemoveAllAbsent` and `PyStr.RemoveAllSinglePass`. |
| `Flyer.DisplayUrlDropsScheme` | scripts/make_flyers.py:167 | A URL that starts with `https://` and holds no other occurrence is shown without the scheme. |
| `Flyer.OutputPaths` | scripts/make_flyers.py:207-208 | The PNG and PDF paths differ. Each is `flyer_<slug>_letter.png` or `.pdf` inside `out_dir`: the directory, a `/` when it is non-empty and lacks one, then the file name. |
| `Flyer.FlyerName` | scripts/make_flyers.py:207-208 | Definition of the file name `flyer_<slug>_letter.<ext>`; properties in `Flyer.FlyerNameInjective` and `Flyer.OutputPaths`. |
| `Flyer.FlyerNameInjective` | scripts/make_flyers.py:207-208 | Different slugs give different file names. |
| `Flyer.OutputPathsInjective` | scripts/make_flyers.py:207-208 | In one output directory, different slugs never write the same PNG or the same PDF. |
| `Flyer.PngNotPdf` | scripts/make_flyers.py:207-208 | A PNG path is never a PDF path. |
| `Flyer.RenderLetter` | scripts/make_flyers.py:99-208 | The bullet lines are the marked, wrapped bullets, in order. Line `k` of the whole bullet list, when it belongs to bullet `j`, is at x = 255 and y = 810 + 129·k + 30·j, and the first line is at y = 810. The primary QR's right edge is `W - pad` and its left edge `qr_x` equals `pad` plus the bullets' wrap width; the bullets themselves start 75 px further right with a mark, so the wrap width does not keep them clear of the QR code (see `Flyer.BulletCanReachQr`). Label and URL lines are the wrapped texts, centred under the QR and stepped 96 and 90 px. The second QR block exists iff its URL and label are both non-empty; it is right-aligned below the URL text with its label centred. The paths are those named after the slug. |
| `Flyer.Truthy` | scripts/make_flyers.py:175 | Definition of Python truthiness for an optional string: present and non-empty; used by `Flyer.ShowSecondary`. |
| `Flyer.ShowSecondary` | scripts/make_flyers.py:175 | Definition of the guard on the second QR code; `Flyer.RenderLetter` draws that block exactly when it holds, and `Flyer.MainSpecs` shows it holds for all three flyers. |
| `Flyer.MainSpecs` | scripts/make_flyers.py:230-258 | All three flyers `main` renders carry the second QR code, and together they write six different files. |

## Left out

- Drawing with PIL: rectangles, text rendering, image paste and resize. The model
  records where each text line goes, not the pixels drawn. The title, subtitle, call
  to action, header and footer bands and the footer text are drawn at fixed
  positions and are not listed. The QR borders are not listed either: each is a
  rectangle 18 px outside its QR code, so the first is at a fixed position and the
  second follows the second QR code's `y`, which `Flyer.RenderLetter` states.
- `_font`: a file-existence probe and a font-loading library call. Each font's
  string width is the parameter `bodyWidth` or `smallWidth`.
- `_qr`: QR encoding is done by the `qrcode` library.
- PNG saving, the `img2pdf` conversion and file reads and writes, and `main`'s
  `os.makedirs` and printing. `RenderLetter` returns the two paths without writing.
- The float expressions behind the layout constants: the integers they evaluate to
  are used instead.
- The unused `tbox` measurement of the title.
- `assets/copy-link.js` and `.github/scripts/summarize_open_ics_report.py` are not
  part of this model.
- `Flyer.DisplayUrlDropsScheme`: the displayed URL is proved for URLs with a single
  leading scheme; for other inputs the model is the single-pass `RemoveAll`, with no
  closed-form description beyond `PyStr.RemoveAllAbsent` and
  `PyStr.RemoveAllSinglePass`.
