# LaTeX-OCR snipping window, modelled in Dafny

This project models the pure logic of the LaTeX-OCR desktop front end
(`pix2tex/g5.py`). The front end lets the user drag a rectangle anywhere on
a possibly multi-monitor desktop. It grabs those pixels, runs the OCR model
on a worker thread and shows the LaTeX it returns. A successful
prediction on a picture from the screenshot tool is also recorded in a
per-day history log. The model covers five
pieces of that logic:

- `Geometry`: the virtual-desktop rectangle the snipping overlay covers,
  computed from the monitor list.
- `Capture`: how the pointer positions sampled at press and release become
  the grab box. This includes the retina factor and the single macOS retry.
- `Sanitize`: the escaping of `<` and `>` in the engine's output.
- `Temperature`: the spin box's clamping, and the replacement of a zero
  temperature by `1e-8`.
- `Journal` and `Session`: the main window as a record with pure
  transitions. The record holds the processing flag, the snip button's slot,
  the retry button, the shortcut, the worker, the in-memory history and the
  log file. The log file is a sequence of key/value rows, or `None` while it
  does not exist.

Collaborators the window cannot see are parameters:
- the screen grab is an oracle `Box -> bool` (`false` means it raised); a
  successful grab yields a picture without a file name;
- the OCR engine's answer is an `Option<string>` (`None` means it raised);
- the datastore's entry-to-row conversion is a function `toDict`;
- `sys.platform` is a `Platform` value.

`Wrappers` holds the `Option` type.

## Model

| member | source | states |
|---|---|---|
| Geometry.MinOf | pix2tex/g5.py:403 | the column minimum is one of the values and no value is smaller |
| Geometry.MaxOf | pix2tex/g5.py:404 | the column maximum is one of the values and no value is larger |
| Geometry.VirtualDesktop | pix2tex/g5.py:401-405 | an overlay geometry exists exactly when there is at least one monitor (the column reduction fails on an empty list) |
| Geometry.VirtualDesktopOrigin | pix2tex/g5.py:401-403 | the overlay origin is the componentwise minimum of the monitor origins: attained by some monitor and no larger than any |
| Geometry.VirtualDesktopExtent | pix2tex/g5.py:401-405 | origin plus size is the largest right edge (x + width) and the largest bottom edge (y + height) over the monitors |
| Geometry.VirtualDesktopCovers | pix2tex/g5.py:401-405 | every monitor lies inside the overlay |
| Geometry.VirtualDesktopIsSmallest | pix2tex/g5.py:401-405 | any rectangle covering every monitor also covers the overlay, so the overlay is the least covering rectangle |
| Geometry.SideBySide | pix2tex/g5.py:401-405 | two equal monitors of width w >= 0, the second starting at x = w, give the overlay (0, 0, 2w, h) |
| Geometry.SideBySideExample | pix2tex/g5.py:401-405 | two 1920x1080 monitors side by side give the overlay (0, 0, 3840, 1080) |
| Capture.Factor | pix2tex/g5.py:458 | the density factor is 2 on macOS and 1 on every other platform |
| Capture.Normalize | pix2tex/g5.py:458-463 | the grab box is ordered (x1 <= x2, y1 <= y2) and each corner is one of the scaled pointer coordinates |
| Capture.NormalizeIsScaledSelection | pix2tex/g5.py:460-463 | the box is the minimum and maximum of the two pointer positions, each multiplied by the factor |
| Capture.NormalizeSymmetric | pix2tex/g5.py:460-463 | swapping the press and release points gives the same box |
| Capture.DegenerateSelection | pix2tex/g5.py:460-463 | a click without a drag gives a zero-area box, and normalisation still succeeds |
| Capture.RetinaExample | pix2tex/g5.py:458-463 | press (100,100), release (50,50) on macOS gives the box (100,100,200,200) |
| Capture.RetryBox | pix2tex/g5.py:471-474 | floor-dividing by the factor keeps the box ordered, and with factor 1 it changes nothing |
| Capture.RetryRecoversSelection | pix2tex/g5.py:471-474 | for whole-pixel pointer positions the retry box is exactly the unscaled dragged rectangle |
| Capture.GrabSelection | pix2tex/g5.py:467-476 | the full-density box is tried first; a second attempt with the unscaled box happens exactly on macOS after a failed first grab; the handler yields a picture exactly when its last attempt succeeded, and that picture has no file name |
| Capture.NoRetryOffDarwin | pix2tex/g5.py:469-476 | off macOS the outcome depends only on the first grab, so a failure is re-raised without a retry |
| Capture.DarwinRaisesOnlyAfterRetry | pix2tex/g5.py:469-476 | on macOS the handler raises exactly when both the full-density and the unscaled grab fail |
| Sanitize.Replace | pix2tex/g5.py:385 | a replacement that lacks the replaced character leaves none of it in the result |
| Sanitize.ReplaceLength | pix2tex/g5.py:385 | each occurrence of the replaced character grows the string by the replacement length minus one |
| Sanitize.ReplaceKeepsOthers | pix2tex/g5.py:385 | a character that is neither the replaced one nor in the replacement is present afterwards exactly when it was before |
| Sanitize.Escape | pix2tex/g5.py:385 | the worker's two replace passes leave no `<` and no `>` in the prediction |
| Sanitize.TwoPassesAreOneMap | pix2tex/g5.py:385 | the two successive replace passes equal one character-wise escape map |
| Sanitize.EscapeProperties | pix2tex/g5.py:385 | the escaped prediction has no `<` and no `>`, and its length is the input length plus 3 per angle bracket |
| Sanitize.EscapeIdentity | pix2tex/g5.py:385 | a prediction without angle brackets is returned unchanged |
| Sanitize.EscapeIdempotent | pix2tex/g5.py:385 | escaping an escaped prediction changes nothing |
| Sanitize.EscapeExample | pix2tex/g5.py:385 | `x<5>y` becomes `x\lt 5\gt y` |
| Temperature.FieldValue | pix2tex/g5.py:140-142 | the spin box holds a value in [0, 1]; values already in range are kept and others are clamped to the nearer end |
| Temperature.EngineTemperature | pix2tex/g5.py:255-257 | a spin box value of exactly 0 becomes 1e-8; every other value passes unchanged; a value from [0, 1] becomes one in (0, 1] |
| Temperature.EngineTemperatureInRange | pix2tex/g5.py:140-142 | whatever the spin box was set to, the engine temperature lies in (0, 1] |
| Journal.Header | pix2tex/g5.py:355-360 | the header row has the entry row's keys in order, and each key maps to itself |
| Journal.SaveHistory | pix2tex/g5.py:354-366 | an absent file becomes [header, entry row]; on an existing file earlier rows stay as they were and the last entry's row is appended |
| Journal.UpdateHistory | pix2tex/g5.py:332-334 | the history gains the entry at its end; an absent log becomes the header of the entry's row followed by that row; an existing log gets the entry's row appended |
| Journal.SaveAddsOneEntry | pix2tex/g5.py:354-366 | each save adds exactly one entry row to a well-formed log |
| Journal.UpdateAllAppends | pix2tex/g5.py:332-334 | N updates on an existing log leave the earlier rows untouched, then add the N entry rows in order |
| Journal.UpdateAllFromAbsent | pix2tex/g5.py:332-366 | N >= 1 updates from an absent file give N + 1 rows: one header from the first entry, then the entry rows in order |
| Session.Init | pix2tex/g5.py:62-157 | a new window is idle with no worker and an empty text box; retry is disabled; the shortcut is enabled; the spin box holds the command-line temperature clamped into [0, 1] (lines 141-142) while the engine keeps the unclamped value; the history is empty |
| Session.ToggleProcessing | pix2tex/g5.py:186-202 | sets or flips the flag; the button slot and the shortcut follow the flag; leaving processing enables retry; nothing else changes |
| Session.ToggleTwice | pix2tex/g5.py:186-202 | flipping twice restores the flag, the button and the shortcut |
| Session.ReturnSnip | pix2tex/g5.py:249-264 | processing starts: retry is disabled, the shortcut is disabled, the button interrupts, a worker starts on the given value; a spin box value of 0 reaches the engine as 1e-8 and a value in [0, 1] as one in (0, 1]; history and log are unchanged |
| Session.RunModel | pix2tex/g5.py:381-391 | the worker succeeds exactly when the engine answers; a success carries the image value it was given and the escaped prediction, with no angle brackets |
| Session.Shows | pix2tex/g5.py:270 | a result is shown only when the worker succeeded, and the `False` that retry passes is shown, since it is not `None` |
| Session.Records | pix2tex/g5.py:270-287 | a result is recorded only when it is also shown; the `False` from retry is never recorded; a picture is recorded exactly when it has a file name to read at line 279 |
| Session.ReturnPrediction | pix2tex/g5.py:266-299 | processing stops with retry, shortcut and click slot restored; a success with an image value other than None shows the prediction; one entry is appended to history and log exactly when that value also has a file name; otherwise both are unchanged |
| Session.Interrupt | pix2tex/g5.py:214-218 | once a worker was started, processing stops and retry is enabled, and nothing but the processing state, the controls and retry changes; before any worker `self.thread` is Qt's `thread()` method, `terminate` raises at line 216 and the window is left as it was; history and log never change |
| Session.SetTemperature | pix2tex/g5.py:140-143 | an edited spin box value stays in [0, 1]; nothing else changes |
| Session.Release | pix2tex/g5.py:451-482 | a grabbed picture, without a file name, is handed to `returnSnip` (line 482), so the window is exactly what `Session.ReturnSnip` gives for it: processing, retry and shortcut disabled, a worker on the picture, 0 sent as 1e-8, history and log unchanged; when the last grab attempt raises, `returnSnip` is not reached (lines 476, 482) and the model leaves the window as it was |
| Session.Step | pix2tex/g5.py:147-157 | each event reaches its slot only through the wiring: a snip needs the click slot on the button or the enabled shortcut, retry needs the enabled retry button; every event leaves the history as it was or appends one entry, and the log changes only with the history |
| Session.Run | pix2tex/g5.py:147-157 | over a sequence of events the history keeps its earlier entries and grows by at most one entry per event |
| Session.InitInv | pix2tex/g5.py:62-157 | a new window with an absent or headed log satisfies the window invariant |
| Session.SaveKeepsLogSuffix | pix2tex/g5.py:332-366 | after an update the history's rows are still the last rows of the log |
| Session.RecordKeepsInv | pix2tex/g5.py:277-287 | recording one entry made at the engine temperature keeps every recorded temperature in (0, 1] and the history at the end of the log |
| Session.ReturnSnipInv | pix2tex/g5.py:249-264 | starting a worker keeps the window invariant |
| Session.ReturnPredictionInv | pix2tex/g5.py:266-299 | handling a worker result keeps the window invariant |
| Session.StepInv | pix2tex/g5.py:186-299 | every event keeps the window invariant: controls match the flag; a running worker means retry is disabled; temperatures are in range; the history ends the log |
| Session.RunInv | pix2tex/g5.py:186-299 | any sequence of events keeps the window invariant |
| Session.NoSecondWorker | pix2tex/g5.py:191-201 | while a worker runs, neither the snip button, the shortcut nor retry can start another worker |
| Session.FinishedGrowth | pix2tex/g5.py:266-299 | a worker's report adds exactly one entry to history and log iff the engine answered and the worker's image value has a file name; otherwise both are unchanged |
| Session.OverlaySnipRecordsNothing | pix2tex/g5.py:468-482 | a selection grabbed by the overlay is shown once the engine answers, but is never recorded, because the grabbed picture has no file name to read at line 279 |
| Session.RetryRecordsNothing | pix2tex/g5.py:155-157 | a retry is shown once the engine answers, but is never recorded, because the worker was given the False `checked` argument, which has no file name |
| Session.ToolSnipRecords | pix2tex/g5.py:233-242 | a picture saved by the screenshot tool carries its path, so an answered prediction on it is recorded with that path, the escaped prediction and the engine temperature |
| Session.InterruptRecordsNothing | pix2tex/g5.py:214-218 | interrupting a running worker returns to idle with retry enabled and records nothing |
| Session.RecordedTemperatures | pix2tex/g5.py:255-287 | from any fresh window, every recorded entry has a temperature in (0, 1] |

## Behaviour of the code worth knowing

- A capture request while processing cannot start. The snip button is
  rewired to the interrupt slot and the shortcut is disabled
  (pix2tex/g5.py:191-201), so no second worker is ever started
  (`Session.NoSecondWorker`).
- The retry button's `clicked` signal is connected to `returnSnip`, which
  has no slot decorator (pix2tex/g5.py:157). The signal's `checked` value,
  `False`, therefore arrives as the image. `False is not None` holds at
  line 270, so the prediction is shown. Line 279 then reads `filename`
  from `False`, which raises before `update_history`, so nothing is
  recorded (`Session.RetryRecordsNothing`). Whether the program survives
  that exception depends on the PyQt version (see "Left out").
- The overlay passes the grabbed picture to `returnSnip` without setting a
  file name (pix2tex/g5.py:468-482). Only the screenshot-tool path sets one
  (line 238). So only pictures from the screenshot tool are ever recorded
  (`Session.OverlaySnipRecordsNothing`, `Session.ToolSnipRecords`).
- The window's processing state is the single `isProcessing` flag plus the
  button wiring; the model keeps that flag.

## Left out

- Qt widget construction, layout, menus, toolbar, painting, opacity and
  cursors (pix2tex/g5.py:83-181, 412-449): user interface with no state
  the window logic reads.
- `displayPrediction`'s HTML and MathJax page (pix2tex/g5.py:301-330) and
  the "Prediction failed." message box: rendering only. The text box
  contents on success are modelled.
- Thread scheduling, `terminate()`/`wait()` and signal delivery. The worker's
  report is the `Finished` event. It is delivered only while processing, so
  a report queued before an interrupt and delivered after it is not
  modelled.
- The external screenshot tool path (pix2tex/g5.py:220-247): subprocess,
  temporary file and image I/O. Its outcome enters as `Snipped(img)`, with
  `None` when it produced nothing.
- Monitor query, pointer controller and screen grab: foreign calls, taken as
  inputs or as the grab oracle.
- Real file handling: CSV quoting, directories, hard-coded paths and dates.
  The log is a sequence of key/value rows.
- The datastore's entry-to-row conversion and the OCR engine are not part of
  this model. They are the parameter `toDict` and the `Option<string>`
  answer.
- Floating-point pointer positions and `int()` truncation: positions are
  whole pixels.
- Temperature.FieldValue: does not model the spin box's rounding to two
  decimals, because that rounding is done by Qt, whose code is not part of
  this model.
- Session.RunModel: the engine's sampling temperature is not an input to the
  oracle, because the engine is opaque.
- Session.ReturnPrediction: the `AttributeError` raised at line 279 for an
  image value without a file name is not modelled as an exception. The
  model continues as if the slot had returned after line 272: the
  prediction is shown, retry is enabled and nothing is recorded. The
  program installs no `sys.excepthook`, so depending on the PyQt version
  (5.5 and later abort on an exception that leaves a slot) the program
  terminates instead.
- Session.Release: a grab that raises on its last attempt (the re-raise at
  line 476, or the failed macOS retry) escapes `mouseReleaseEvent`. The
  model leaves the window as it was; depending on the PyQt version the
  program terminates instead, as for `returnPrediction`.
- Session.Interrupt: before any worker, `self.thread` is Qt's inherited
  `thread()` method, so `terminate` raises at line 216. The model leaves
  the window as it was and does not model the exception. The snip button
  is wired to `interrupt` only while processing, after a worker was started,
  so this path is not reached through the window's own wiring.
- A picture made from screen pixels is taken to have no `filename`
  attribute. This follows from the imaging library, which is not part of
  this model.
- `parse_args` and `main`: command-line and process plumbing.
