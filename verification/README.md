# my-pdf-toolkit: the list, page-selection and unlock logic, in Dafny

my-pdf-toolkit is a browser app that merges, extracts, sorts, unlocks and
converts PDF files with pdf-lib and pdf.js. All of its logic lives in
`src/App.tsx`. This project models the parts of that file that decide
something, and proves what they promise:

- `js_builtins.dfy` (module `JsBuiltins`): the JavaScript built-ins this logic
  depends on, stated on Dafny strings. These are `split` with a one-character
  separator, `trim`, `parseInt` with no radix, `toLowerCase` and `includes`.
- `page_selection.dfy` (module `PageSelection`): the page-selection text of
  the extract tool.
  - A comma-separated list of page numbers and `a-b` ranges becomes 0-based
    indices.
  - The indices are de-duplicated and cut down to the document's pages.
  - An empty result aborts the extraction.
- `file_lists.dfy` (module `FileLists`):
  - `removeFile` and `moveFile`, which the merge tool (lines 144-156) and
    the image tool (lines 641-653) define identically;
  - the drag-to-reorder step `onDragOver` of the sort tool;
  - `emitFiles` of the file picker.
- `zoom.dfy` (module `PreviewZoom`): the zoom of the image preview. The zoom
  moves in steps of 0.25 and is clamped to [0.25, 3]. The model counts it in
  quarters, so its arithmetic is exact.
- `unlock.dfy` (module `UnlockPipeline`): removing the password from a PDF.
  - pdf.js checks the password.
  - The fast route loads the file with pdf-lib ignoring encryption, saves it,
    and has pdf.js probe the result.
  - When any step of the fast route throws, the rebuild route renders every
    page to a JPEG and draws it over a new page of the same size.
  - Errors are classified as "wrong password" or "could not unlock".

  pdf.js, pdf-lib and the canvas are oracles: records of functions that give
  each call's result or thrown error. The documents pdf.js holds open are a
  class (`PdfJsSessions`). The unlock tool's state is a class too
  (`UnlockTool`): the picked file, the password, the busy flag, the
  notifications shown and the files downloaded. Each imperative step is a
  method proved against a function that specifies it.

The unlock operation is meant to keep a single pdf.js document open at a
time, but the code does not: the source document stays open while the fast
route's probe is opened, so two are open during validation. The model
follows the code. `Unlock` proves the weaker promise that
does hold: every document that opens is destroyed on every path, the probe
included. The same holds when fetching the probe's first page throws. A
loading task whose document fails to open is never destroyed by the code,
and the model does not track it (see "Left out").

The check `if (!unlockedBytes) throw new Error(...)` at `src/App.tsx:407-409`
can never fire. A `Uint8Array` is always truthy, even when empty, and both
routes produce one. The model therefore has no such path.

## Model

| member | source | states |
|---|---|---|
| JsBuiltins.TrimStartShape | src/App.tsx:247-252 | `trim` drops exactly the leading whitespace. What is left is a suffix that does not start with whitespace, and everything before it is whitespace. |
| JsBuiltins.TrimEndShape | src/App.tsx:247-252 | `trim` drops exactly the trailing whitespace. What is left is a prefix that does not end with whitespace, and everything after it is whitespace. |
| JsBuiltins.TrimShape | src/App.tsx:247-252 | `trim` keeps one contiguous stretch of its input that neither starts nor ends with whitespace; everything before and after that stretch is whitespace. |
| JsBuiltins.Split | src/App.tsx:245-247 | `split` never returns an empty list. |
| JsBuiltins.SplitPiecesFree | src/App.tsx:245-247 | No piece of a split contains the separator. |
| JsBuiltins.SplitAtSeparator | src/App.tsx:246-247 | A string that contains the separator splits into at least two pieces, so both `start` and `end` exist for a range token. |
| JsBuiltins.JoinSplit | src/App.tsx:245-247 | Joining the pieces with the separator gives back the original string: nothing is lost, empty pieces included. |
| JsBuiltins.SplitJoin | src/App.tsx:245-247 | Splitting a join of separator-free pieces gives back exactly those pieces. |
| JsBuiltins.SplitPieceAlone | src/App.tsx:245-247 | A string without the separator splits into itself alone. |
| JsBuiltins.SplitPrefixed | src/App.tsx:245-247 | Splitting `p + sep + t`, where `p` has no separator, gives `p` followed by the pieces of `t`. |
| JsBuiltins.DigitPrefix | src/App.tsx:247-252 | `parseInt` reads the longest run of digits: a prefix of its input, all digits, and followed by a non-digit or the end. |
| JsBuiltins.DecimalTextValue | src/App.tsx:247-252 | A decimal numeral read back as digits denotes the number it was written from. |
| JsBuiltins.ParseIntDecimal | src/App.tsx:247-252 | `parseInt` returns `n` for any numeral of `n`, after any whitespace and before any non-digit. The exception is `0` followed by `x` or `X`, which starts a radix-16 number. |
| JsBuiltins.ParseIntShape | src/App.tsx:247-252 | `parseInt` yields a number only when the text, after its leading whitespace, starts with a sign or a digit, so a blank or non-numeric piece is NaN. The number is negative only after a minus sign. A leading decimal digit that does not open a `0x` prefix always yields a number. |
| JsBuiltins.TrimStartSkips | src/App.tsx:247-252 | Leading whitespace before a non-space is exactly what is skipped. |
| JsBuiltins.ToLowerCase | src/App.tsx:416 | `toLowerCase` keeps the length and lower-cases each letter in place. |
| JsBuiltins.Includes | src/App.tsx:417 | `includes` is true exactly when the token occurs at some position. |
| PageSelection.PageRange | src/App.tsx:249 | The range loop pushes `start-1, start, ..., end-1` in ascending order: `end-start+1` indices when `start <= end`, none otherwise. |
| PageSelection.CollectIndices | src/App.tsx:245-255 | The `forEach` over the comma-separated tokens pushes what each token asks for, token by token in order (`RequestedIndices`). |
| PageSelection.PushedIndicesStep | src/App.tsx:245-255 | Handling one more token appends exactly that token's indices. |
| PageSelection.PushToken | src/App.tsx:246-254 | One token appends exactly what it asks for (`TokenIndices`). A token containing `-` pushes its range only when both bounds parse, and nothing otherwise. Any other token pushes `page - 1` when it parses, and nothing otherwise. |
| PageSelection.PushRange | src/App.tsx:249 | The `for` loop appends `PageRange(start, end)` to what was already pushed. |
| PageSelection.Dedupe | src/App.tsx:257 | `[...new Set(indices)]` has no duplicates and holds exactly the values of its input. |
| PageSelection.KeepInRange | src/App.tsx:257 | The filter keeps exactly the values in `[0, totalPages)` and introduces no duplicates. |
| PageSelection.FirstIndex | src/App.tsx:257 | The first position of a value: it holds the value, and no earlier position does. |
| PageSelection.FirstIndexSnoc | src/App.tsx:257 | Pushing a value does not move the first occurrence of an earlier value. |
| PageSelection.FirstIndexUnique | src/App.tsx:257 | A position holding `x` with no `x` before it is the first occurrence of `x`. |
| PageSelection.DedupeOrder | src/App.tsx:257 | A `Set` keeps its values in the order in which they were first inserted. |
| PageSelection.KeepInRangeOrder | src/App.tsx:257 | Filtering keeps that order. |
| PageSelection.SelectedPagesSpec | src/App.tsx:245-257 | The indices extracted lie in range, have no duplicates, and are exactly the requested in-range indices. They come in the order in which the pages were first asked for. |
| PageSelection.Extract | src/App.tsx:235-270 | Without a file or with an empty selection, extraction stops with "Faltan datos". A document that does not load, or a selection with no valid page, ends in the page-number error. Otherwise the selected pages are copied in that order into `extraido_<name>`. |
| PageSelection.SinglePageToken | src/App.tsx:252-253 | The token `n`, with or without leading spaces, asks for index `n-1`. |
| PageSelection.RangeToken | src/App.tsx:246-250 | The token `a-b` asks for indices `a-1` to `b-1` in order, and for nothing when `a > b`. |
| PageSelection.RangeFromBounds | src/App.tsx:246-250 | A range token whose two pieces parse as `a` and `b` asks for `PageRange(a, b)`. |
| PageSelection.NumeralReads | src/App.tsx:247 | A numeral after whitespace contains no dash, and trims and parses back to its value. |
| PageSelection.NumeralsSplitAtDash | src/App.tsx:247 | `p-n`, for a dash-free `p` and a numeral `n`, splits at the dash into exactly `[p, n]`. |
| PageSelection.MissingRangeStart | src/App.tsx:247-248 | A range with nothing before its dash (`-5`) parses a NaN start and asks for nothing. |
| PageSelection.MissingRangeEnd | src/App.tsx:247-248 | A range with nothing after its dash (`3-`) parses a NaN end and asks for nothing. |
| PageSelection.TrimNumeral | src/App.tsx:247 | Trimming whitespace followed by a numeral leaves the numeral. |
| FileLists.RemoveAt | src/App.tsx:144-146 | `removeFile(idx)` keeps every file except the one at `idx`, in order. For an `idx` outside the list, the list is unchanged. |
| FileLists.RemoveAtMultiset | src/App.tsx:144-146 | Removing one file takes out exactly that file and nothing else. |
| FileLists.MoveFile | src/App.tsx:148-156 | `moveFile` produces `Moved(files, idx, direction)`. |
| FileLists.Moved | src/App.tsx:148-156 | Moving `up` swaps the file with the one above it, and moving `down` with the one below. At the top or bottom edge nothing changes, and no other position changes. The result is always a permutation of the input. |
| FileLists.Swapped | src/App.tsx:150-154 | Swapping two neighbours exchanges those two positions, keeps every other position, and keeps the same files. |
| FileLists.MoveUpThenDown | src/App.tsx:148-156 | Moving a file up and then moving it down again restores the list. |
| FileLists.SpliceInOut | src/App.tsx:549-551 | Splicing an item in at a position and removing it again leaves the list as it was. |
| FileLists.SpliceOut | src/App.tsx:549 | `splice(from, 1)` removes the item at `from`: the list is one shorter, the items before it stay, and the items after it move down by one. |
| FileLists.SpliceIn | src/App.tsx:550 | `splice(index, 0, x)` inserts `x` at `index`: the list is one longer, the items before it stay, and the items from `index` on move up by one. |
| FileLists.Dragged | src/App.tsx:547-551 | Dragging puts the dragged thumbnail at the hovered cell and keeps every other thumbnail in its order. The length and the collection of thumbnails are unchanged. |
| FileLists.DeterminedByElementAndRest | src/App.tsx:547-551 | A list is fixed by the element at one position together with the list without it. |
| FileLists.DragComposes | src/App.tsx:552-553 | `draggedItem` follows the hovered cell, so two drag-over steps amount to one drag from the first cell to the last. |
| FileLists.DragBack | src/App.tsx:543-554 | Dragging a thumbnail back to where it started restores the grid. |
| FileLists.OnDragOver | src/App.tsx:543-554 | With no drag under way, or over the dragged cell itself, nothing changes. Otherwise the dragged thumbnail moves to the hovered cell and that cell becomes the dragged one. |
| FileLists.EmitFiles | src/App.tsx:77-81 | An empty pick emits nothing. A multi-file picker emits every file; a single-file picker emits the first file only. |
| PreviewZoom.HandleZoom | src/App.tsx:793-795 | The new zoom is `zoom + delta` when that lies in [0.25, 3]. Otherwise it is the nearer bound. |
| PreviewZoom.ZoomStaysInRange | src/App.tsx:756-920 | Whatever sequence of zoom-in, zoom-out and open-preview the user performs, the zoom stays within [0.25, 3]. |
| PreviewZoom.RepeatedZoomIn | src/App.tsx:920 | `n` presses of zoom-in raise the zoom by `n` quarters, up to 3. |
| PreviewZoom.ZoomInThenOut | src/App.tsx:918-920 | Below 3, zooming in and then out returns to the same zoom. |
| PreviewZoom.ZoomOutThenIn | src/App.tsx:918-920 | Above 0.25, zooming out and then in returns to the same zoom. |
| UnlockPipeline.CanvasSide | src/App.tsx:356-357 | A canvas side is at least 1. For a viewport side of at least 1 it is the side rounded down. |
| UnlockPipeline.UnlockResult | src/App.tsx:378-421 | The outcome is "missing input" exactly when there is no file or the password is empty. |
| UnlockPipeline.IsWrongPassword | src/App.tsx:416-417 | An error means "wrong password" exactly when its name is `PasswordException` or its lower-cased message contains `password`. |
| UnlockPipeline.LowerCaseIncludes | src/App.tsx:416-417 | `includes` on the lower-cased message finds exactly the occurrences in it. |
| UnlockPipeline.ToastFor | src/App.tsx:378-421 | Each outcome shows its own notification. Missing input shows the "enter the file and password" error. An unlock shows the success message, and it is the only success. A failure shows the wrong-password message when the error is classified as a wrong password, and the generic failure message otherwise. |
| UnlockPipeline.NoWNoPassword | src/App.tsx:416-417 | A message with no letter `w` in either case never counts as a wrong password, unless the error's name does. |
| UnlockPipeline.PasswordInAnyCase | src/App.tsx:416-417 | "password" written in any mix of letter cases, anywhere in the message, counts as a wrong password. |
| UnlockPipeline.DirectRouteIsValidated | src/App.tsx:387-397 | The fast route's bytes are used only when all of the following succeeded: the source opened with the password, pdf-lib loaded and saved it, pdf.js opened the saved bytes, and pdf.js fetched their first page when there is one. |
| UnlockPipeline.FastRouteFailureFallsBack | src/App.tsx:392-405 | When the source opens but any step of the fast route throws, the outcome is the rebuild's: its bytes, or its error. |
| UnlockPipeline.SourceFailureAborts | src/App.tsx:383-421 | A file that cannot be read, or that pdf.js cannot open with the password, ends with that error and no document. |
| UnlockPipeline.WrongPasswordIsReported | src/App.tsx:387-418 | pdf.js rejecting the password with a `PasswordException` shows the wrong-password message. |
| UnlockPipeline.RenderedPagesInOrder | src/App.tsx:347-373 | The rebuild succeeds exactly when every page from 1 to `numPages` renders. It then holds one page per source page, in order. |
| UnlockPipeline.RenderedPageLayout | src/App.tsx:349-368 | Each rebuilt page has the source page's scale-1 size, and its image covers the page exactly from (0, 0). |
| UnlockPipeline.FirstFailureStops | src/App.tsx:347-373 | Once a page fails, the rebuild stops with that page's error. |
| UnlockPipeline.ValidateUnlockedPdf | src/App.tsx:331-341 | The probe's result is `Probe`. The probe document is destroyed on every path, including when fetching page 1 throws, so the open documents are as before. |
| UnlockPipeline.Probe | src/App.tsx:331-341 | The probe succeeds exactly when the candidate opens with no password and, if it has pages, its page 1 loads. When it cannot be opened, it fails with the opening error. |
| UnlockPipeline.FastRoute | src/App.tsx:392-397 | The fast route succeeds exactly when pdf-lib loads the source ignoring encryption, saves it, and the saved bytes pass the probe. Its result is then those saved bytes. |
| UnlockPipeline.PdfJsSessions.GetDocument | src/App.tsx:387-388 | `getDocument(...).promise` opens the document pdf.js's `open` gives and records it as live under a fresh id. When opening throws, nothing new is live and the error is passed on. |
| UnlockPipeline.PdfJsSessions.GetPage | src/App.tsx:348-350 | `getPage` answers with what pdf.js gives for the live document's page, and changes nothing. |
| UnlockPipeline.PdfJsSessions.Render | src/App.tsx:358 | `page.render` answers with what pdf.js gives for that page, viewport and canvas size, and changes nothing. |
| UnlockPipeline.PdfJsSessions.Destroy | src/App.tsx:423-424 | `destroy` takes exactly that document out of the live set. |
| UnlockPipeline.RenderOnePage | src/App.tsx:348-372 | One pass of the loop is `RenderPage`. It has these error paths: a page fetch that fails, a missing 2D context, a render that fails, a null JPEG blob, and an embed that fails. |
| UnlockPipeline.RebuildUnlockedPdfFromRender | src/App.tsx:343-376 | The loop over pages 1 to `numPages` produces `Rebuilt`: the first error, or the rebuilt document saved by pdf-lib. |
| UnlockPipeline.UnlockOpened | src/App.tsx:390-405 | Once the source is open, the outcome is the fast route's bytes when it succeeds, and otherwise the rebuild's. It opens a probe only when pdf-lib saved a candidate, and leaves the open documents as they were. |
| UnlockPipeline.UnlockTool.HandleFileSelected | src/App.tsx:315-317 | The tool keeps the first file picked, or none. |
| UnlockPipeline.UnlockTool.Unlock | src/App.tsx:378-428 | One press of the button has the outcome `UnlockResult`. It shows exactly one notification for that outcome. On success it downloads `desbloqueado_<name>` and clears the password. The busy flag ends off. Every pdf.js document it opens is destroyed. |

## Left out

- React rendering, styling and the other tools' asynchronous pdf-lib work are
  not part of this model. That work is merging, copying pages into a new
  document, saving the sorted order, and converting images to a PDF.
  `downloadBlob` is modelled only as a record of the bytes, name and MIME type.
- Loading pdf.js and pdf-lib from a CDN, and the pdf.js worker setup, are not
  modelled.
- Concurrency and `await` ordering are not modelled. Each modelled action runs
  to completion in the order the code awaits.
- `parseInt` is modelled on unbounded integers. JavaScript numbers lose
  precision above 2^53, and such inputs are not distinguished.
- Viewports are real numbers; floating-point rounding in `getViewport` and
  `Math.floor` is not modelled. A page's viewport at a scale is its scale-1
  size times the scale. Rotation is taken to be already part of that size.
- `toLowerCase` lower-cases ASCII letters only. No other character
  lower-cases to a letter of "password", so the wrong-password test is
  unaffected.
- PDFDocument.create, addPage and drawImage never fail in the model. Neither
  do `destroy` and `page.cleanup`.
- Resetting the canvas to 0×0 and calling `page.cleanup` only release memory.
  They are not modelled.
- If `blob.arrayBuffer()` rejects inside `canvasToJpgBytes`, the promise
  never settles and `unlock` hangs. This case is not modelled.
- FileLists.MoveFile: requires `idx` to be a position in the list. The
  buttons pass a rendered row's index. With an index past the end, the
  JavaScript swap would add holes to the array.
- FileLists.OnDragOver: requires both `draggedItem` and the hovered index to
  be positions in the grid. Both come from rendered thumbnails.
- `onDragStart`, `onDragEnd` and the file picker's drag-and-drop events are
  not modelled. They only set or clear `draggedItem`, or call `emitFiles`.
- PageSelection.Extract: loading the source is modelled by whether a page
  count is available. Failures of `copyPages` and `save` are not modelled;
  they would end in the same page-number error.
- UnlockPipeline.UnlockResult: byte buffers are modelled as values that every
  reader sees whole. pdf.js 3.x normally transfers a typed array passed as
  `data` to its worker, which leaves the caller's copy empty. So after
  `getDocument` at line 387, pdf-lib at line 394 may load an empty buffer.
  The fast route would then fail and fall back to the rebuild. After the probe
  at line 332, the bytes downloaded at line 411 may likewise be empty. The
  sort tool avoids this by giving pdf.js a `.slice(0)` copy (line 503). This
  transfer of ownership is not modelled.
- PageSelection.PushRange: a range is always pushed in full, however long.
  In JavaScript, a range longer than an array can hold (2^32 − 1 elements)
  throws a RangeError. The `catch` at lines 266-268 turns it into the
  page-number error. A range too large for memory fails the same way. Neither
  limit is modelled.
- PageSelection.PageRange: it is an unbounded sequence, with the same gap as
  `PushRange`. A range over 2^32 − 1 pages is not the page-number error here.
- UnlockPipeline.PdfJsSessions.GetDocument: only documents that open are
  counted as live. The code never destroys a `getDocument` loading task whose
  promise rejects: the source task at lines 387-388 (`sourcePdf` stays null,
  so the `finally` at line 423 skips it) and the probe task at lines 332-333.
  In pdf.js such a task keeps its worker until it is destroyed. That leak is
  not modelled, so `Unlock`'s promise that the live documents are as before
  covers only documents that opened.
- The logging is not modelled: `console.warn` at line 399, which reports and
  swallows the fast route's error, and `console.error` at line 415.
