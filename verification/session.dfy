/** The main window's processing state machine: the snip button and its
    shortcut, the retry button, the worker thread that runs the OCR engine,
    and the history kept for successful predictions. Every event is a pure
    transition on an immutable `App` record. */
module Session {
  import opened Wrappers
  import opened Capture
  import opened Sanitize
  import opened Temperature
  import opened Journal

  /** The slot the snip button is connected to. */
  datatype Handler = OnClick | OnInterrupt

  /** The Python value `returnSnip` receives as its image: `None` (the
      screenshot tool produced nothing), `False` (the `checked` argument of
      the retry button's `clicked` signal, which reaches the undecorated
      slot) or a picture. */
  datatype ImageArg = NoneArg | FalseArg | Picture(image: Image) {

    /** The value's `filename` attribute; `None` when reading it raises. */
    function FileName(): Option<string> {
      if Picture? then image.filename else None
    }
  }

  /** The window's `thread` attribute. Before the first worker is started
      it is the `thread()` method every Qt object inherits (`NoWorker`);
      afterwards it is the last worker started and the image value it was
      given. */
  datatype Worker = NoWorker | Worker(img: ImageArg)

  /** The result the worker emits: the escaped prediction together with the
      image it was given, or a failure that carries neither. */
  datatype Prediction = Succeeded(prediction: string, img: ImageArg) | Failed

  datatype App = App(
    isProcessing: bool,
    retryEnabled: bool,
    shortcutEnabled: bool,
    handler: Handler,
    tempField: real,             // the spin box's value
    temperature: real,           // the temperature last handed to the engine
    worker: Worker,
    textbox: string,
    history: seq<SnipEntry>,
    log: Option<seq<Row>>)       // today's log file, `None` while absent

  /** The snip button's caption for the slot it is connected to. */
  function ButtonText(h: Handler): string {
    if h == OnInterrupt then "Interrupt" else "Snip [Alt+S]"
  }

  /** The snip button and the shortcut agree with the processing flag. */
  predicate ControlsMatch(s: App) {
    && s.handler == (if s.isProcessing then OnInterrupt else OnClick)
    && s.shortcutEnabled == !s.isProcessing
  }

  /** The window just built: idle, retry disabled, shortcut enabled, the
      spin box holding the command-line temperature clamped into [0, 1],
      and the engine still holding the unclamped command-line value. */
  function Init(argsTemperature: real, log: Option<seq<Row>>): (s: App)
    ensures ControlsMatch(s) && !s.isProcessing && !s.retryEnabled
    ensures 0.0 <= s.tempField <= 1.0 && s.history == [] && s.log == log
    ensures s.tempField == FieldValue(argsTemperature) && s.temperature == argsTemperature
    ensures s.worker.NoWorker? && s.textbox == ""
  {
    App(false, false, true, OnClick, FieldValue(argsTemperature), argsTemperature,
        NoWorker, "", [], log)
  }

  /** Setting the processing flag (or flipping it when no value is given),
      then rewiring the snip button and the shortcut to match. Leaving the
      processing state also enables retry. */
  function ToggleProcessing(s: App, value: Option<bool>): (r: App)
    ensures r.isProcessing == value.GetOr(!s.isProcessing)
    ensures ControlsMatch(r)
    ensures r.retryEnabled == (s.retryEnabled || !r.isProcessing)
    ensures r.(isProcessing := s.isProcessing, retryEnabled := s.retryEnabled,
               shortcutEnabled := s.shortcutEnabled, handler := s.handler) == s
  {
    var p := value.GetOr(!s.isProcessing);
    s.(isProcessing := p,
       handler := if p then OnInterrupt else OnClick,
       retryEnabled := s.retryEnabled || !p,
       shortcutEnabled := !p)
  }

  /** Flipping the processing flag twice restores the flag, the button and
      the shortcut; retry may have been enabled on the way. */
  lemma ToggleTwice(s: App)
    requires ControlsMatch(s)
    ensures var r := ToggleProcessing(ToggleProcessing(s, None), None);
      r.isProcessing == s.isProcessing && r.handler == s.handler
      && r.shortcutEnabled == s.shortcutEnabled
      && r.(retryEnabled := s.retryEnabled) == s
  {
  }

  /** A snip (or a retry, which passes `False`) arrives: processing starts,
      retry is disabled, the spin box's value goes to the engine with zero
      replaced by `Epsilon`, and a worker is started on the image. The
      history and the log are untouched. */
  function ReturnSnip(s: App, img: ImageArg): (r: App)
    ensures r.isProcessing && !r.retryEnabled && !r.shortcutEnabled
    ensures r.handler == OnInterrupt && ButtonText(r.handler) == "Interrupt"
    ensures r.worker == Worker(img)
    ensures s.tempField == 0.0 ==> r.temperature == Epsilon
    ensures s.tempField != 0.0 ==> r.temperature == s.tempField
    ensures 0.0 <= s.tempField <= 1.0 ==> 0.0 < r.temperature <= 1.0
    ensures r.history == s.history && r.log == s.log && r.textbox == s.textbox
    ensures r.tempField == s.tempField
  {
    var t := ToggleProcessing(s, Some(true));
    t.(retryEnabled := false,
       temperature := EngineTemperature(s.tempField),
       worker := Worker(img))
  }

  /** The worker's body: the engine's answer is escaped and reported with
      the image; an engine failure (`None`) is reported as a failure. */
  function RunModel(img: ImageArg, engine: Option<string>): (r: Prediction)
    ensures r.Succeeded? <==> engine.Some?
    ensures r.Succeeded? ==> r.img == img && r.prediction == Escape(engine.value)
    ensures r.Succeeded? ==> '<' !in r.prediction && '>' !in r.prediction
  {
    match engine
    case None => Failed
    case Some(p) =>
      EscapeProperties(p);
      Succeeded(Escape(p), img)
  }

  /** The worker's result is shown when it succeeded with an image value
      other than `None`. */
  predicate Shows(res: Prediction)
    ensures Shows(res) ==> res.Succeeded?
    ensures res.Succeeded? && res.img.FalseArg? ==> Shows(res)
  {
    res.Succeeded? && !res.img.NoneArg?
  }

  /** The result is recorded when, in addition, the image value has a file
      name: reading `filename` from anything else raises before the history
      is updated. */
  predicate Records(res: Prediction)
    ensures Records(res) ==> Shows(res)
    ensures res.Succeeded? && res.img.FalseArg? ==> !Records(res)
    ensures res.Succeeded? && res.img.Picture? ==>
      (Records(res) <==> res.img.image.filename.Some?)
  {
    res.Succeeded? && res.img.FileName().Some?
  }

  /** The worker's result arrives: processing stops and retry is enabled.
      A success with an image value shows the prediction; only when that
      value has a file name is one entry appended to the history and to the
      log. In every other case both stay as they were. */
  function ReturnPrediction(s: App, res: Prediction, toDict: SnipEntry -> Row): (r: App)
    ensures !r.isProcessing && r.retryEnabled && r.shortcutEnabled
    ensures r.handler == OnClick && ButtonText(r.handler) == "Snip [Alt+S]"
    ensures r.worker == s.worker && r.tempField == s.tempField && r.temperature == s.temperature
    ensures Shows(res) ==> r.textbox == "$" + res.prediction + "$"
    ensures !Shows(res) ==> r.textbox == s.textbox
    ensures Records(res) ==>
      && r.history == s.history + [SnipEntry(res.img.FileName().value, res.prediction, s.temperature)]
      && r.log == SaveHistory(s.log, r.history, toDict)
    ensures !Records(res) ==> r.history == s.history && r.log == s.log
  {
    var t := ToggleProcessing(s, Some(false));
    match res
    case Failed => t
    case Succeeded(p, img) =>
      if img.NoneArg? then t
      else
        var shown := t.(textbox := "$" + p + "$", retryEnabled := true);
        match img.FileName()
        case None => shown
        case Some(path) =>
          var step := UpdateHistory(shown.history, shown.log, SnipEntry(path, p, t.temperature), toDict);
          shown.(history := step.0, log := step.1)
  }

  /** The interrupt slot: once a worker has been started it is stopped and
      processing ends, retry enabled. Before any worker, `self.thread` is
      Qt's `thread()` method; calling `terminate` on it raises at g5.py:216
      and the window is left as it was. A stopped worker reports nothing, so
      the history and the log never change here. */
  function Interrupt(s: App): (r: App)
    ensures s.worker.NoWorker? ==> r == s
    ensures s.worker.Worker? ==>
      !r.isProcessing && r.retryEnabled && r.shortcutEnabled && r.handler == OnClick
    ensures r.history == s.history && r.log == s.log && r.worker == s.worker
    ensures r.textbox == s.textbox && r.tempField == s.tempField && r.temperature == s.temperature
  {
    if s.worker.Worker? then ToggleProcessing(s, Some(false)) else s
  }

  /** The user edits the spin box; the value is kept within its range. */
  function SetTemperature(s: App, v: real): (r: App)
    ensures 0.0 <= r.tempField <= 1.0
    ensures 0.0 <= v <= 1.0 ==> r.tempField == v
    ensures r.(tempField := s.tempField) == s
  {
    s.(tempField := FieldValue(v))
  }

  /** The snipping overlay's release handler, as far as the window is
      concerned: a grabbed image is handed to `returnSnip`, which starts a
      worker on it; a grab failure
      escapes the handler and the window is left as it was. */
  function Release(s: App, start: Point, end: Point, p: Platform, grab: Box -> bool): (r: App)
    ensures GrabSelection(start, end, p, grab).Raised? ==> r == s
    ensures GrabSelection(start, end, p, grab).Grabbed? ==>
      r.isProcessing && r.worker == Worker(Picture(Image(None)))
    ensures GrabSelection(start, end, p, grab).Grabbed? ==>
      r == ReturnSnip(s, Picture(Image(None)))
  {
    match GrabSelection(start, end, p, grab)
    case Grabbed(img, _) => ReturnSnip(s, Picture(img))
    case Raised(_) => s
  }

  /** What can happen to the window. `Snipped` is a finished selection
      (from the overlay or the external screenshot tool, `NoneArg` when that
      tool produced nothing); `Finished` is the worker reporting, carrying
      the engine's answer or `None` when the engine raised. */
  datatype Event =
    | Snipped(img: ImageArg)
    | RetryClicked
    | Finished(engine: Option<string>)
    | InterruptClicked
    | TemperatureEdited(v: real)

  /** One event. A selection can only be started from the snip button while
      it is connected to the click slot, or from the enabled shortcut; retry
      and interrupt need their button in that state; only a running worker
      reports. */
  function Step(s: App, e: Event, toDict: SnipEntry -> Row): (r: App)
    ensures |s.history| <= |r.history| <= |s.history| + 1
    ensures r.history[..|s.history|] == s.history
    ensures r.history == s.history ==> r.log == s.log
    ensures e.RetryClicked? && !s.retryEnabled ==> r == s
    ensures e.Snipped? && s.handler == OnInterrupt && !s.shortcutEnabled ==> r == s
  {
    match e
    case Snipped(img) =>
      if s.handler == OnClick || s.shortcutEnabled then ReturnSnip(s, img) else s
    case RetryClicked =>
      if s.retryEnabled then ReturnSnip(s, FalseArg) else s
    case Finished(engine) =>
      if s.isProcessing && s.worker.Worker? then
        ReturnPrediction(s, RunModel(s.worker.img, engine), toDict)
      else s
    case InterruptClicked =>
      if s.handler == OnInterrupt then Interrupt(s) else s
    case TemperatureEdited(v) =>
      SetTemperature(s, v)
  }

  /** A sequence of events, in order. The history only ever grows at its
      end, by at most one entry per event. */
  function Run(s: App, es: seq<Event>, toDict: SnipEntry -> Row): (r: App)
    ensures |s.history| <= |r.history| <= |s.history| + |es|
    ensures r.history[..|s.history|] == s.history
    decreases |es|
  {
    if |es| == 0 then s else Run(Step(s, es[0], toDict), es[1..], toDict)
  }

  /** The history's entries are the last rows of the log, in order. */
  predicate LogEndsWithHistory(history: seq<SnipEntry>, log: Option<seq<Row>>, toDict: SnipEntry -> Row) {
    && WellFormed(log)
    && (log.None? ==> |history| == 0)
    && (log.Some? ==>
          && |history| <= |log.value| - 1
          && log.value[|log.value| - |history|..] == Rows(history, toDict))
  }

  /** What holds of every window reachable from a freshly built one. */
  predicate Inv(s: App, toDict: SnipEntry -> Row) {
    && ControlsMatch(s)
    && (s.isProcessing ==> !s.retryEnabled && s.worker.Worker?)
    && 0.0 <= s.tempField <= 1.0
    && (s.worker.Worker? ==> 0.0 < s.temperature <= 1.0)
    && (forall i :: 0 <= i < |s.history| ==> 0.0 < s.history[i].temperature <= 1.0)
    && LogEndsWithHistory(s.history, s.log, toDict)
  }

  lemma InitInv(argsTemperature: real, log: Option<seq<Row>>, toDict: SnipEntry -> Row)
    requires WellFormed(log)
    ensures Inv(Init(argsTemperature, log), toDict)
  {
  }

  /** Saving one more entry keeps the history at the end of the log. */
  lemma SaveKeepsLogSuffix(history: seq<SnipEntry>, log: Option<seq<Row>>, e: SnipEntry,
                           toDict: SnipEntry -> Row)
    requires LogEndsWithHistory(history, log, toDict)
    ensures LogEndsWithHistory(history + [e], SaveHistory(log, history + [e], toDict), toDict)
  {
    var h := history + [e];
    var l := SaveHistory(log, h, toDict);
    var row := toDict(e);
    assert h[|h| - 1] == e;
    if log.None? {
      assert history == [] && h == [e];
      assert l.value[|l.value| - |h|..] == [row];
    } else {
      var rows := log.value;
      var n := |rows| - |history|;
      assert l.value == rows + [row];
      assert l.value[|l.value| - |h|..] == rows[n..] + [row];
      assert Rows(h, toDict) == Rows(history, toDict) + [row];
    }
  }

  lemma ReturnSnipInv(s: App, img: ImageArg, toDict: SnipEntry -> Row)
    requires Inv(s, toDict)
    ensures Inv(ReturnSnip(s, img), toDict)
  {
  }

  /** Recording one more entry, made at the current engine temperature,
      keeps the invariant's history clauses. */
  lemma RecordKeepsInv(s: App, r: App, e: SnipEntry, toDict: SnipEntry -> Row)
    requires Inv(s, toDict) && s.worker.Worker?
    requires e.temperature == s.temperature
    requires r.history == s.history + [e] && r.log == SaveHistory(s.log, r.history, toDict)
    ensures forall i :: 0 <= i < |r.history| ==> 0.0 < r.history[i].temperature <= 1.0
    ensures LogEndsWithHistory(r.history, r.log, toDict)
  {
    SaveKeepsLogSuffix(s.history, s.log, e, toDict);
    forall i | 0 <= i < |r.history|
      ensures 0.0 < r.history[i].temperature <= 1.0
    {
      if i < |s.history| {
        assert r.history[i] == s.history[i];
      } else {
        assert r.history[i] == e;
      }
    }
  }

  lemma ReturnPredictionInv(s: App, res: Prediction, toDict: SnipEntry -> Row)
    requires Inv(s, toDict) && s.worker.Worker?
    ensures Inv(ReturnPrediction(s, res, toDict), toDict)
  {
    var r := ReturnPrediction(s, res, toDict);
    if Records(res) {
      RecordKeepsInv(s, r, SnipEntry(res.img.FileName().value, res.prediction, s.temperature), toDict);
    } else {
      assert r.history == s.history && r.log == s.log;
    }
  }

  /** Every event keeps the invariant. */
  lemma StepInv(s: App, e: Event, toDict: SnipEntry -> Row)
    requires Inv(s, toDict)
    ensures Inv(Step(s, e, toDict), toDict)
  {
    match e
    case Snipped(img) => ReturnSnipInv(s, img, toDict);
    case RetryClicked => ReturnSnipInv(s, FalseArg, toDict);
    case Finished(engine) =>
      if s.isProcessing && s.worker.Worker? {
        ReturnPredictionInv(s, RunModel(s.worker.img, engine), toDict);
      }
    case InterruptClicked =>
    case TemperatureEdited(v) =>
  }

  lemma {:induction false} RunInv(s: App, es: seq<Event>, toDict: SnipEntry -> Row)
    requires Inv(s, toDict)
    ensures Inv(Run(s, es, toDict), toDict)
    decreases |es|
  {
    if |es| > 0 {
      StepInv(s, es[0], toDict);
      RunInv(Step(s, es[0], toDict), es[1..], toDict);
    }
  }

  /** While a worker runs, neither the snip button, nor the shortcut, nor
      the retry button can start another one. */
  lemma NoSecondWorker(s: App, img: ImageArg, toDict: SnipEntry -> Row)
    requires Inv(s, toDict) && s.isProcessing
    ensures Step(s, Snipped(img), toDict) == s
    ensures Step(s, RetryClicked, toDict) == s
  {
  }

  /** A worker's report grows the history and the log by exactly one entry
      when the engine answered and the worker's image value has a file
      name, and leaves both unchanged otherwise. */
  lemma FinishedGrowth(s: App, engine: Option<string>, toDict: SnipEntry -> Row)
    requires Inv(s, toDict) && s.isProcessing
    ensures var r := Step(s, Finished(engine), toDict);
      && WellFormed(r.log)
      && (engine.Some? && s.worker.img.FileName().Some? <==> |r.history| == |s.history| + 1)
      && (engine.Some? && s.worker.img.FileName().Some? <==> EntryCount(r.log) == EntryCount(s.log) + 1)
      && (!(engine.Some? && s.worker.img.FileName().Some?) ==> r.history == s.history && r.log == s.log)
  {
    var res := RunModel(s.worker.img, engine);
    if Records(res) {
      SaveAddsOneEntry(s.log, s.history + [SnipEntry(res.img.FileName().value, res.prediction, s.temperature)], toDict);
    }
  }

  /** A selection grabbed by the overlay is shown when the engine answers,
      but never recorded: the grabbed picture has no file name. */
  lemma OverlaySnipRecordsNothing(s: App, start: Point, end: Point, p: Platform, grab: Box -> bool,
                                  engine: Option<string>, toDict: SnipEntry -> Row)
    requires Inv(s, toDict) && !s.isProcessing
    ensures var r := Step(Release(s, start, end, p, grab), Finished(engine), toDict);
      && r.history == s.history && r.log == s.log
      && (GrabSelection(start, end, p, grab).Grabbed? && engine.Some? ==>
            r.textbox == "$" + Escape(engine.value) + "$")
  {
  }

  /** A retry is shown when the engine answers, but never recorded: the
      worker was given `False`, which has no file name. */
  lemma RetryRecordsNothing(s: App, engine: Option<string>, toDict: SnipEntry -> Row)
    requires Inv(s, toDict) && s.retryEnabled
    ensures var r := Step(Step(s, RetryClicked, toDict), Finished(engine), toDict);
      && r.history == s.history && r.log == s.log
      && (engine.Some? ==> r.textbox == "$" + Escape(engine.value) + "$")
  {
  }

  /** A picture loaded by the screenshot tool carries its saved path, so an
      answered prediction on it is recorded with that path, the escaped
      prediction and the engine temperature. */
  lemma ToolSnipRecords(s: App, path: string, prediction: string, toDict: SnipEntry -> Row)
    requires Inv(s, toDict) && !s.isProcessing
    ensures var mid := Step(s, Snipped(Picture(Image(Some(path)))), toDict);
      var r := Step(mid, Finished(Some(prediction)), toDict);
      r.history == s.history + [SnipEntry(path, Escape(prediction), EngineTemperature(s.tempField))]
  {
  }

  /** Interrupting a running worker returns to idle with retry available
      and records nothing. */
  lemma InterruptRecordsNothing(s: App, toDict: SnipEntry -> Row)
    requires Inv(s, toDict) && s.isProcessing
    ensures var r := Step(s, InterruptClicked, toDict);
      && !r.isProcessing && r.retryEnabled && r.shortcutEnabled && r.handler == OnClick
      && r.history == s.history && r.log == s.log
  {
  }

  /** Every recorded entry was predicted at a temperature the engine
      accepts, whatever was given on the command line or typed in. */
  lemma RecordedTemperatures(argsTemperature: real, log: Option<seq<Row>>, es: seq<Event>,
                             toDict: SnipEntry -> Row)
    requires WellFormed(log)
    ensures var r := Run(Init(argsTemperature, log), es, toDict);
      forall i :: 0 <= i < |r.history| ==> 0.0 < r.history[i].temperature <= 1.0
  {
    InitInv(argsTemperature, log, toDict);
    RunInv(Init(argsTemperature, log), es, toDict);
  }
}
