/** The `FileUpload` component of `frontend/`: the `extractPDF` job as a state
    machine over its React state, the status line, and the display guards.

    `extractPDF` is an async function; it is modelled as two transitions,
    `Begin` (everything before `await axios.post`) and `Settle` (everything
    after it, the `finally` included). The suspended call itself, with its
    local `start`, is the `pending` field. */
module FrontendUpload {
  import opened Values
  import Client

  const Analyzing := "Analyzing PDF..."
  const TextHint := "Text detected, using text extraction..."
  const OcrNotice := "No text found, switching to OCR..."
  const AwaitingFile := "Awaiting file upload..."
  const Ready := "Ready to extract"
  const Placeholder := "Results will appear here."
  const UnknownMode := "unknown"

  /** A suspended `extractPDF`: the `start` timestamp it took, the token of
      the hint timer it armed, and the value of `loading` its closure
      captured when it was called. */
  datatype Pending = Pending(start: int, token: nat, capturedLoading: bool)

  /** The component's state: `file`, `output`, `loading`,
      `processingStage` and `stats`, plus the suspended job, if any, and the
      number of jobs started so far (the source of hint tokens). */
  datatype Panel = Panel(
    file: Option<Client.Doc>,
    output: string,
    loading: bool,
    stage: string,
    stats: Client.Stats,
    pending: Option<Pending>,
    jobs: nat)

  /** The state on first render. */
  const Initial := Panel(None, "", false, "", Client.NoStats, None, 0)

  /** The result of a transition: the new state, the `alert` it raised if
      any, and the values it wrote to `processingStage`, in order. */
  datatype Step = Step(after: Panel, alert: Option<string>, stages: seq<string>)

  /** The events the component reacts to. */
  datatype Event =
    | FilePicked(doc: Option<Client.Doc>)
    | StartClicked(now: int)
    | HintFired(token: nat)
    | RequestDone(outcome: Client.Outcome, now: int)

  /** The `performance.now()` reading an event carries, if any. */
  function Time(e: Event): Option<int> {
    match e
    case StartClicked(now) => Some(now)
    case RequestDone(_, now) => Some(now)
    case _ => None
  }

  /** `performance.now()` never runs backwards: the clock readings carried by
      `events`, in order, never decrease and none is earlier than `since`. */
  predicate Chronological(since: int, events: seq<Event>)
    decreases |events|
  {
    if |events| == 0 then true
    else match Time(events[0])
      case None => Chronological(since, events[1..])
      case Some(t) => since <= t && Chronological(t, events[1..])
  }

  /** The job in flight, if any, took its start time no later than `since`. */
  predicate StartedBy(p: Panel, since: int) {
    p.pending.Some? ==> p.pending.value.start <= since
  }

  /** `disabled={loading || !file}` on the start button. */
  predicate StartDisabled(p: Panel) {
    p.loading || p.file.None?
  }

  /** `statusMessage()`: the stage while a job runs and a stage is set,
      otherwise a prompt that depends on whether a file is selected. */
  function StatusMessage(p: Panel): (r: string)
    ensures r != ""
    ensures r == p.stage || r == AwaitingFile || r == Ready
    ensures !p.loading ==> (r == AwaitingFile <==> p.file.None?)
  {
    if p.loading && p.stage != "" then p.stage
    else if p.file.None? then AwaitingFile
    else Ready
  }

  /** The stats card is shown when a mode is recorded and no job runs. */
  predicate ShowStats(p: Panel) {
    p.stats.mode != "" && !p.loading
  }

  /** The copy button is shown when there is output. */
  predicate ShowCopy(p: Panel) {
    p.output != ""
  }

  /** The results area: the status line while loading, otherwise the output
      or a placeholder. */
  function ResultsText(p: Panel): string {
    if p.loading then StatusMessage(p) else OrElse(Some(p.output), Placeholder)
  }

  /** `extractPDF` up to the `await`: without a file it alerts and changes
      nothing; otherwise it sets `loading`, shows the first stage, takes the
      start time and arms the hint timer. */
  function Begin(p: Panel, now: int): (r: Step)
    ensures p.file.None? ==> r == Step(p, Some(Client.NoFileAlert), [])
    ensures p.file.Some? ==>
              && r.alert.None?
              && r.after.loading && r.after.stage == Analyzing && r.stages == [Analyzing]
              && r.after.pending == Some(Pending(now, p.jobs, p.loading))
              && r.after.jobs == p.jobs + 1
              && r.after.(loading := p.loading, stage := p.stage, pending := p.pending, jobs := p.jobs) == p
  {
    if p.file.None? then
      Step(p, Some(Client.NoFileAlert), [])
    else
      Step(p.(loading := true, stage := Analyzing, pending := Some(Pending(now, p.jobs, p.loading)),
              jobs := p.jobs + 1),
           None, [Analyzing])
  }

  /** A click on the start button: ignored while the button is disabled. */
  function Press(p: Panel, now: int): (r: Step)
    ensures StartDisabled(p) ==> r == Step(p, None, [])
    ensures !StartDisabled(p) ==> r == Begin(p, now)
  {
    if StartDisabled(p) then Step(p, None, []) else Begin(p, now)
  }

  /** `extractPDF` after the `await`. On an answer it shows the OCR notice when
      the mode is `'ocr'`, stores the text or the sentinel and the mode or
      `'unknown'`; on a rejection it alerts the server's error or the
      connection message and leaves `output` and `stats` alone. Either way the
      `finally` clears `loading` and the stage. */
  function Settle(p: Panel, o: Client.Outcome, now: int): (r: Step)
    ensures p.pending.None? ==> r == Step(p, None, [])
    ensures p.pending.Some? ==>
              && !r.after.loading && r.after.stage == "" && r.after.pending.None?
              && |r.stages| >= 1 && r.stages[|r.stages| - 1] == ""
              && r.after.file == p.file && r.after.jobs == p.jobs
    ensures p.pending.Some? && o.Answered? ==>
              && r.alert.None?
              && r.after.output != ""
              && (Truthy(o.text) ==> r.after.output == o.text.value)
              && (!Truthy(o.text) ==> r.after.output == Client.Sentinel)
              && (Truthy(o.mode) ==> r.after.stats.mode == o.mode.value)
              && (!Truthy(o.mode) ==> r.after.stats.mode == UnknownMode)
              && r.after.stats.elapsed == Some(now - p.pending.value.start)
              && r.stages == (if o.mode == Some("ocr") then [OcrNotice, ""] else [""])
    ensures p.pending.Some? && !o.Answered? ==>
              && r.after.output == p.output && r.after.stats == p.stats
              && r.stages == [""]
              && (o.Rejected? && Truthy(o.error) ==> r.alert == Some(o.error.value))
              && (!(o.Rejected? && Truthy(o.error)) ==> r.alert == Some(Client.ConnectionError))
  {
    match p.pending
    case None => Step(p, None, [])
    case Some(job) =>
      var cleared := p.(loading := false, stage := "", pending := None);
      match o
      case Answered(text, mode) =>
        var notice := if mode == Some("ocr") then [OcrNotice] else [];
        Step(cleared.(output := OrElse(text, Client.Sentinel),
                      stats := Client.Stats(OrElse(mode, UnknownMode), Some(now - job.start))),
             None, notice + [""])
      case Rejected(error) =>
        Step(cleared, Some(if Truthy(error) then error.value else Client.ConnectionError), [""])
      case Unreachable =>
        Step(cleared, Some(Client.ConnectionError), [""])
  }

  /** The 500 ms hint timer as written: it tests the `loading` its closure
      captured, not the current one, and when that was true it writes the
      stage whatever has happened since. */
  function HintAsWritten(p: Panel, job: Pending): (r: Panel)
    ensures !job.capturedLoading ==> r == p
    ensures job.capturedLoading ==> r.stage == TextHint
    ensures r.(stage := p.stage) == p
  {
    if job.capturedLoading then p.(stage := TextHint) else p
  }

  /** The hint timer as intended: it writes the stage only while the job that
      armed it is still in flight. */
  function Hint(p: Panel, token: nat): (r: Panel)
    ensures r.(stage := p.stage) == p
    ensures r.stage != p.stage ==> r.stage == TextHint
  {
    if p.loading && p.pending.Some? && p.pending.value.token == token then p.(stage := TextHint) else p
  }

  /** The component's reaction to one event. The hint timer is the
      job-scoped `Hint`, not the one written; `HintAsWrittenNeverFires` shows
      that the one written changes nothing in any state it can fire in. Only
      picking a file changes the file, only a settling job raises an alert,
      and a timer changes nothing but the stage. */
  function Next(p: Panel, e: Event): (r: Step)
    ensures r.after.file == (if e.FilePicked? then e.doc else p.file)
    ensures r.alert.Some? ==> e.RequestDone? && p.pending.Some?
    ensures e.HintFired? ==> r.alert.None? && r.after.(stage := p.stage) == p
  {
    match e
    case FilePicked(doc) => Step(p.(file := doc), None, [])
    case StartClicked(now) => Press(p, now)
    case HintFired(token) =>
      var q := Hint(p, token);
      Step(q, None, if q == p then [] else [TextHint])
    case RequestDone(o, now) => Settle(p, o, now)
  }

  /** The state after a sequence of events. */
  function Replay(p: Panel, events: seq<Event>): Panel
    decreases |events|
  {
    if |events| == 0 then p else Replay(Next(p, events[0]).after, events[1..])
  }

  /** What holds in every state the component can reach: a job is in flight
      exactly while `loading`, and then a stage is shown; the pending job owns
      the latest hint token and its closure saw `loading` false; output and
      stats are filled together, and the recorded time is never negative. */
  ghost predicate Valid(p: Panel) {
    && (p.loading <==> p.pending.Some?)
    && (p.loading <==> p.stage != "")
    && (p.pending.Some? ==> p.pending.value.token + 1 == p.jobs && !p.pending.value.capturedLoading)
    && (p.output == "" <==> p.stats.mode == "")
    && (p.stats.mode == "" <==> p.stats.elapsed.None?)
    && (p.stats.elapsed.Some? ==> p.stats.elapsed.value >= 0)
  }

  /** The first render is valid. */
  lemma InitialValid()
    ensures Valid(Initial)
  {
  }

  /** Every transition whose clock reading is not earlier than `since` keeps
      the component valid, and its job in flight started by that reading. */
  lemma NextKeepsValid(p: Panel, since: int, e: Event)
    requires Valid(p) && StartedBy(p, since)
    requires Time(e).Some? ==> since <= Time(e).value
    ensures Valid(Next(p, e).after)
    ensures StartedBy(Next(p, e).after, if Time(e).Some? then Time(e).value else since)
  {
  }

  /** Validity is kept along any sequence of events read from a clock that
      does not run backwards. */
  lemma {:induction false} ReplayKeepsValid(p: Panel, since: int, events: seq<Event>)
    requires Valid(p) && StartedBy(p, since) && Chronological(since, events)
    ensures Valid(Replay(p, events))
    decreases |events|
  {
    if |events| > 0 {
      var e := events[0];
      NextKeepsValid(p, since, e);
      ReplayKeepsValid(Next(p, e).after, if Time(e).Some? then Time(e).value else since, events[1..]);
    }
  }

  /** Every state reached from the first render is valid; in particular the
      time in the stats card is never negative. */
  lemma ReachableValid(since: int, events: seq<Event>)
    requires Chronological(since, events)
    ensures Valid(Replay(Initial, events))
  {
    InitialValid();
    ReplayKeepsValid(Initial, since, events);
  }

  /** One job at a time: while a job is in flight the start button is
      disabled, a press changes nothing, and the job in flight keeps its start
      time and token. */
  lemma SecondPressIgnored(p: Panel, now: int)
    requires Valid(p) && p.loading
    ensures StartDisabled(p)
    ensures Next(p, StartClicked(now)) == Step(p, None, [])
  {
  }

  /** Pressing start and settling with an answer records the time between
      the two events, and the answered mode; the text is never empty. */
  lemma JobRoundTrip(p: Panel, t0: int, t1: int, text: Option<string>, mode: Option<string>)
    requires Valid(p) && !StartDisabled(p)
    ensures var s := Settle(Press(p, t0).after, Client.Answered(text, mode), t1);
            && s.after.stats.elapsed == Some(t1 - t0)
            && s.after.stats.mode == OrElse(mode, UnknownMode)
            && s.after.output != ""
            && !s.after.loading && s.after.stage == ""
            && s.after.file == p.file
  {
  }

  /** With no file the component goes nowhere: the button is disabled and a
      direct call only alerts. */
  lemma NoFileNoJob(p: Panel, now: int)
    requires p.file.None?
    ensures Next(p, StartClicked(now)) == Step(p, None, [])
    ensures Begin(p, now) == Step(p, Some(Client.NoFileAlert), [])
  {
  }

  /** The intended hint never touches a finished job, nor the job of another
      timer: only the latest job, while in flight, gets the text-extraction
      stage. */
  lemma HintOnlyWhileActive(p: Panel, token: nat)
    requires Valid(p)
    ensures Hint(p, token) != p <==>
              p.loading && token + 1 == p.jobs && p.stage != TextHint
    ensures !p.loading ==> Hint(p, token) == p
  {
  }

  /** The stale hint as written never fires: the closure that armed it was
      created while `loading` was false, so whenever its timer runs, while the
      job is in flight or after it settled, it changes nothing. */
  lemma HintAsWrittenNeverFires(p: Panel)
    requires Valid(p) && p.pending.Some?
    ensures HintAsWritten(p, p.pending.value) == p
    ensures forall q :: HintAsWritten(q, p.pending.value) == q
  {
  }

  /** An input that shows the stale hint: a file is chosen, start is pressed,
      and 500 ms later the server has not answered. The intended hint shows
      the text-extraction stage; the one written leaves "Analyzing PDF...". */
  lemma StaleHintCounterexample()
    ensures var doc := Client.Doc("report.pdf", 1000);
            var p := Press(Initial.(file := Some(doc)), 0).after;
            && p.loading
            && HintAsWritten(p, p.pending.value).stage == Analyzing
            && Hint(p, p.pending.value.token).stage == TextHint
  {
  }

  /** The status line, the results area and the paired display guards read
      sensibly in every valid state: while loading the status is the current
      stage, the results area is never blank, and once idle the stats card and
      the copy button appear together. */
  lemma DisplayConsistent(p: Panel)
    requires Valid(p)
    ensures p.loading ==> StatusMessage(p) == p.stage
    ensures ResultsText(p) != ""
    ensures !p.loading ==> ResultsText(p) == (if p.output != "" then p.output else Placeholder)
    ensures !p.loading ==> (ShowStats(p) <==> ShowCopy(p))
    ensures StartDisabled(p) <==> p.pending.Some? || p.file.None?
    ensures Client.ButtonLabel(p.loading) == Client.BusyLabel <==> p.pending.Some?
  {
  }
}
