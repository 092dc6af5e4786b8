# bn-falkon console loader and HTML report, in Dafny

This project models the two sequential cores of the BlazingNet Falcon toolkit.

The first is the console loader (`BaseLoader` in `bn_falkon/utils/customization.py`) with its nineteen
subclasses. A loader is configured with a description, an end text, a timeout and a position
(`"front"` or `"end"`), and holds the frame table of its class. Construction rejects an invalid
position first and an empty frame table second. `__enter__` clears the `done` flag and starts the
animation. Each pass of the `_animate` loop writes `"\r" + frame + " " + desc` (front) or
`"\r" + desc + " " + frame` (end) and advances the frame counter modulo the table length, until
`done` is set. `__exit__` sets `done`, blanks the line with `len(desc) + len(first frame) + 1`
spaces, writes the green completion line, and joins the thread.

In the model the loader is the class `Loader.BaseLoader`. The configuration is constant, and `done`,
the step counter and the thread's existence are fields. Standard output is a ghost `seq<string>`
with one entry per `print`. The animation thread is replaced by explicit calls to `Tick`, one pass
of the loop each. While `done` is false, the class invariant ties the output written since the
last `Enter` to the specification function `Loader.Animation`. The subclasses become the datatype `Loader.Style` and the
function `Loader.Frames`.

The second is `FileHandler.generate_report` in `bn_falkon/utils/file_handler.py`. It builds one HTML
table per scan result: a `<tr>` of `<th>` cells from `columns` and a `<tr>` of `<td>` cells from `rows`,
put into a fixed table template. The tables are joined with `<hr>`, and the page template's
`{styles}`, `{target}` and `{tables}` placeholders are filled in that order. `Report.GenerateReport`
keeps the source's loop that appends to `tables`. It takes the page template and the style sheet as
parameters and returns the page or the `KeyError` of the first missing index. Python's
`str.replace`, `str.split`, `str.join` and `str.strip` are modelled in module `Text`.

Notes on the code:
- Construction leaves `_done` False.
- Frames are not all single glyphs: `BounceLoader` frames are three characters, and `DotLoader`
  frames are up to four.
- The completion line has two blanks after the dot.
- The clearing width uses the first frame, not the longest. `Loader.DotLoaderUnderErases` shows
  that with `DotLoader` the blanks stop short of the widest frame's line.

Files: `wrappers.dfy` (Option, Result), `text.dfy` (module `Text`), `loader.dfy` (module `Loader`),
`report.dfy` (module `Report`).

## Model

| member | source | states |
|---|---|---|
| `Loader.AnimationSteps` | bn_falkon/utils/customization.py:12 | the frame table of a class: empty exactly for `BaseLoader` itself, each subclass's `ANIMATION_STEPS` otherwise |
| `Loader.Frames` | bn_falkon/utils/customization.py:121-194 | every subclass's `ANIMATION_STEPS` is non-empty, including the three built by `split(' ')` |
| `Loader.CheckConfig` | bn_falkon/utils/customization.py:38-41 | construction succeeds iff the position is `"front"` or `"end"` and the table is non-empty; an invalid position is the error reported even when the table is empty too |
| `Loader.BaseLoaderRejected` | bn_falkon/utils/customization.py:12-41 | `BaseLoader` itself never constructs: the position error for a bad position, otherwise the empty-table error |
| `Loader.StyledAccepted` | bn_falkon/utils/customization.py:38-41 | every subclass constructs exactly when the position is `"front"` or `"end"` |
| `Loader.DefaultsAccepted` | bn_falkon/utils/customization.py:15 | the default arguments construct every subclass |
| `Loader.CreateDefault` | bn_falkon/utils/customization.py:15-41 | a loader built with no arguments has description `"Loading..."`, end `"Done!"`, timeout 0.1 and position `"front"`, and construction fails with the empty-table error exactly for `BaseLoader` |
| `Loader.Spaces` | bn_falkon/utils/customization.py:112 | `" " * n` has length n and holds only blanks |
| `Loader.FrameLine` | bn_falkon/utils/customization.py:76-81 | the line one pass writes, chosen by the position; its layout is stated by `Loader.FrameLineParts` |
| `Loader.FrameLineParts` | bn_falkon/utils/customization.py:76-81 | a frame line has length frame + description + 2: `\r`, then the frame (front) or the description (end), then exactly one blank, then the other one as the whole rest of the line |
| `Loader.ClearLine` | bn_falkon/utils/customization.py:112 | the clear line is `\r` followed by `len(desc) + len(first frame) + 1` characters |
| `Loader.EndLine` | bn_falkon/utils/customization.py:115 | the completion line is 16 characters longer than the end text, starts with `\r`, has a blank just before the end text, holds the end text verbatim at offset 11 and ends with a newline |
| `Loader.ClearCoversFrameIff` | bn_falkon/utils/customization.py:112 | the clear line is `\r` and blanks only, and it is as long as frame k's line iff frame k is no longer than the first frame |
| `Loader.DotLoaderUnderErases` | bn_falkon/utils/customization.py:112 | with `DotLoader` the clear line is shorter than the line of its four-dot frame |
| `Loader.Advance` | bn_falkon/utils/customization.py:88 | one step of the counter stays below the table length; `Loader.AdvanceIsModulo` ties it to `%` |
| `Loader.StepAfter` | bn_falkon/utils/customization.py:88 | the counter after any number of passes is below the table length, so `ANIMATION_STEPS[step_count]` is in range |
| `Loader.StepFirstRound` | bn_falkon/utils/customization.py:66 | the counter starts at 0 and equals the number of frames drawn during the first round |
| `Loader.StepCycle` | bn_falkon/utils/customization.py:88 | after exactly `len(ANIMATION_STEPS)` passes the counter is 0 again, and the counter sequence is periodic with that length |
| `Loader.AdvanceIsModulo` | bn_falkon/utils/customization.py:88 | counting up by one and going back to 0 after the last frame is `(step_count + 1) % len(ANIMATION_STEPS)` |
| `Loader.Animation` | bn_falkon/utils/customization.py:69-88 | the lines k passes of `_animate` write, one per pass |
| `Loader.AnimationAt` | bn_falkon/utils/customization.py:69-88 | the line written by pass i is the line of the frame the counter points at after i passes |
| `Loader.AnimationPeriodic` | bn_falkon/utils/customization.py:88 | the frame lines repeat with the period of the frame table |
| `Loader.BaseLoader.constructor` | bn_falkon/utils/customization.py:29-41 | the configuration holds desc, end, timeout and position unchanged, `done` is false and nothing has been written |
| `Loader.Create` | bn_falkon/utils/customization.py:15-41 | construction returns a fresh loader, or the ValueError of the first failing check |
| `Loader.BaseLoader.Enter` | bn_falkon/utils/customization.py:43-58 | `done` becomes false whatever it was, the counter restarts at 0 and nothing is written |
| `Loader.BaseLoader.Tick` | bn_falkon/utils/customization.py:69-88 | when `done`, nothing is written and the loop stops; otherwise exactly the current frame line is appended and the counter becomes `(step_count + 1) % len` |
| `Loader.BaseLoader.Exit` | bn_falkon/utils/customization.py:107-118 | `done` becomes true, then exactly the clear line and one completion line are written; the join fails if `__enter__` never ran |
| `Text.ReplaceAll` | bn_falkon/utils/file_handler.py:21 | `str.replace` with a non-empty pattern: scan left to right, replace each match and resume after it; its behaviour is stated by the `Text.Replace…` and `Text.Placeholder…` lemmas |
| `Text.ReplaceAtFront` | bn_falkon/utils/file_handler.py:41 | `str.replace` replaces a match at the front and resumes after it |
| `Text.ReplaceAbsent` | bn_falkon/utils/file_handler.py:21 | `str.replace` leaves text without the pattern unchanged |
| `Text.ReplaceSkipsPrefix` | bn_falkon/utils/file_handler.py:41 | text without the pattern's first character is copied unchanged |
| `Text.ReplaceSplits` | bn_falkon/utils/file_handler.py:41 | when the text after a seam starts with a character not in the pattern, each side is replaced separately |
| `Text.PlaceholderSurvives` | bn_falkon/utils/file_handler.py:41 | replacing one `{name}` placeholder leaves a different one in place |
| `Text.PlaceholderKept` | bn_falkon/utils/file_handler.py:21 | text made of a `{`-free part, another placeholder and text the replacement leaves alone is left alone as a whole |
| `Text.ReplaceInside` | bn_falkon/utils/file_handler.py:43 | when the prefix and the closing tag hold no pattern character at the front, replacing in `pre + x + close + post` replaces in `x` and in `post` separately |
| `Text.Join` | bn_falkon/utils/file_handler.py:43 | `sep.join(xs)`: the pieces in order with `sep` between neighbours; `Text.JoinSplit` and `Text.SplitJoin` relate it to split |
| `Text.Split` | bn_falkon/utils/customization.py:158 | `split(' ')` yields at least one piece and no piece holds the separator |
| `Text.JoinSplit` | bn_falkon/utils/customization.py:158 | joining the pieces of `s.split(c)` with `c` gives back `s` |
| `Text.SplitJoin` | bn_falkon/utils/customization.py:158 | splitting a join of separator-free pieces gives back the pieces |
| `Text.Strip` | bn_falkon/utils/file_handler.py:41 | `str.strip()` as the right strip of the left strip, each stated by its `Spec` lemma |
| `Text.StripLeft` | bn_falkon/utils/file_handler.py:41 | the left-stripped text is a suffix of the input |
| `Text.StripLeftSpec` | bn_falkon/utils/file_handler.py:41 | everything the left strip drops is whitespace, and the result does not start with whitespace |
| `Text.StripRight` | bn_falkon/utils/file_handler.py:41 | the right-stripped text is a prefix of the input |
| `Text.StripRightSpec` | bn_falkon/utils/file_handler.py:41 | everything the right strip drops is whitespace, and the result does not end with whitespace |
| `Report.Cells` | bn_falkon/utils/file_handler.py:36-37 | one `<tag>elem</tag>\n` per element, in element order |
| `Report.Row` | bn_falkon/utils/file_handler.py:36-39 | a row, header or body, starts with `<tr>` and ends with `</tr>`, with the cells in between |
| `Report.HeaderRow` | bn_falkon/utils/file_handler.py:37-38 | the header row is the row of `<th>` cells of the columns |
| `Report.BodyRow` | bn_falkon/utils/file_handler.py:36-39 | the body row is the row of `<td>` cells of the row entries |
| `Report.CellsAppend` | bn_falkon/utils/file_handler.py:36-37 | the cells of a concatenation are the cells of each part in element order |
| `Report.CellsBraceFree` | bn_falkon/utils/file_handler.py:36-37 | the cells hold a `{` only if an element does |
| `Report.RowsSurviveStrip` | bn_falkon/utils/file_handler.py:38-41 | `strip()` changes neither row, since both start with `<` and end with `>` |
| `Report.TableHtml` | bn_falkon/utils/file_handler.py:25-41 | one table: the template with stripped header row, stripped body row and title substituted in that order; its layout is stated by `Report.TableLayout` and `Report.TableLiteral` |
| `Report.TableLayout` | bn_falkon/utils/file_handler.py:25-41 | the table is the template with the title inserted verbatim; a `{rows}` in a header cell is filled with the body row, and a `{title}` in any cell with the title |
| `Report.TableLiteral` | bn_falkon/utils/file_handler.py:25-41 | when no cell holds `{`, the table is the template with title, header row and body row in their slots, even if the title contains `{rows}` or `{columns}` |
| `Report.StyleBlock` | bn_falkon/utils/file_handler.py:21 | the style sheet wrapped in `<style>` and `</style>`: 15 characters longer, with the sheet verbatim at offset 7 |
| `Report.Page` | bn_falkon/utils/file_handler.py:21-43 | the page template with `{styles}`, `{target}` and `{tables}` substituted in that order; stated by `Report.PageLayout` |
| `Report.PageWithoutSlots` | bn_falkon/utils/file_handler.py:21-43 | a template without placeholders is the report itself |
| `Report.PageLayout` | bn_falkon/utils/file_handler.py:21-43 | for any style sheet and a template `a{styles}b{target}c{tables}d` with a..d free of `{` and a target free of `{`: the target and the `<hr>`-joined tables appear verbatim in their slots, and the style sheet appears inside `<style>…</style>` with its own `{target}` and `{tables}` filled too, because the later replacements rescan it |
| `Report.PagePlainStyles` | bn_falkon/utils/file_handler.py:21-43 | when the style sheet holds neither `{target}` nor `{tables}`, it appears verbatim inside `<style>…</style>` |
| `Report.Ordered` | bn_falkon/utils/file_handler.py:24 | the entries in index order 0 to n-1 |
| `Report.Tables` | bn_falkon/utils/file_handler.py:24-41 | one table per entry, in the same order |
| `Report.DenseKeysExactly` | bn_falkon/utils/file_handler.py:24-36 | every `results[i]` lookup succeeds iff the keys are exactly 0 to `len(results) - 1` |
| `Report.NoResultsNoTables` | bn_falkon/utils/file_handler.py:22-43 | with no results, `{tables}` is replaced by the empty string |
| `Report.GenerateReport` | bn_falkon/utils/file_handler.py:11-43 | the report is the page with `{styles}`, `{target}` and `{tables}` filled in that order, with the tables of entries 0 to n-1 joined by `<hr>`; otherwise the KeyError of the smallest missing index |

## Left out

- The animation thread, its daemon flag, the `Lock` and the blocking `join()` are replaced by sequential calls to `Tick`. Interleavings of the two threads cannot be expressed in this model.
- `sleep(timeout)` is left out. For a timeout that `sleep` accepts, it only affects timing. The timeout is kept as a configuration value, and construction accepts any value, as `__init__` does.
- The `KeyboardInterrupt` and `except Exception` handlers of `_animate` are left out. The first handles a user interrupt; the second prints `Animation thread error: …` for an exception raised inside the loop, such as one from `sleep`.
- Loader.BaseLoader.Tick: assumes that the sleep returns. A timeout that `sleep` rejects (negative, NaN or too large) makes the first pass end in the `except Exception` handler: after the first frame line is written, `Animation thread error: …` is printed and the animation stops with the counter not advanced. The model instead writes another frame line on every `Tick`.
- Flushing stdout is left out. The output is the ghost list of printed strings.
- Loader.BaseLoader.Tick: requires that `Enter` has run, because `_animate` only runs on the thread that `__enter__` starts. Entering twice while a thread is still running would start a second thread, and that is not modelled.
- Loader.StepFirstRound: the counter is not proved equal to "frames drawn modulo table length" in closed form. The first round and the period are proved instead, and together they determine it.
- The file reads of the template and the style sheet are left out. Their contents are parameters.
- `FileHandler.save_to_file` and the write of the report are left out. The report is returned.
- Text.ReplaceAll: the empty-pattern case of `str.replace` is not modelled, because every call site passes a non-empty placeholder.
- Text.Split: only the one-character separator used by the frame tables is modelled.
- Report.GenerateReport: a result entry that lacks a `title`, `rows` or `columns` key is not modelled, and neither is a cell value that is not a string. Entries are typed records of strings.
- `bn_falkon/cli.py` is left out. It is click command glue with a hard-coded example dictionary.
