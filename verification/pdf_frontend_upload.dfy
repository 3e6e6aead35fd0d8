/** The `FileUpload` component of `pdf-frontend/`: the same job as in
    `frontend/` without stages or a status line, with `"Standard"` as the
    default engine name and a single error message for every failure. The
    suspended `extractPDF` call, with its `startTime`, is the `pending`
    field. */
module PdfFrontendUpload {
  import opened Values
  import Client

  const DefaultMode := "Standard"
  const BusyText := "Running Smart Analysis..."
  const Placeholder := "Awaiting file upload... Results will appear here."

  /** The component's state: `file`, `output`, `loading` and `stats`, plus the
      start time of the suspended job, if any. The theme toggle is left out. */
  datatype Panel = Panel(
    file: Option<Client.Doc>,
    output: string,
    loading: bool,
    stats: Client.Stats,
    pending: Option<int>)

  /** The state on first render. */
  const Initial := Panel(None, "", false, Client.NoStats, None)

  /** The result of a transition: the new state and the `alert` it raised. */
  datatype Step = Step(after: Panel, alert: Option<string>)

  datatype Event =
    | FilePicked(doc: Option<Client.Doc>)
    | StartClicked(now: int)
    | RequestDone(outcome: Client.Outcome, now: int)

  /** The `performance.now()` reading an event carries, if any. */
  function Time(e: Event): Option<int> {
    match e
    case StartClicked(now) => Some(now)
    case RequestDone(_, now) => Some(now)
    case FilePicked(_) => None
  }

  /** `performance.now()` never runs backwards: the clock readings carried by
      `events`, in order, never decrease and none is earlier than `since`. */
  predicate Chronological(since: int, events: seq<Event>)
    decreases |events|
  {
    if |events| == 0 then true
    else match Time(events[0])
      case None => Chronological(since, events[1..])
      case Some(t) => since <= t && Chronological(t, events[1..])
  }

  /** The job in flight, if any, took its start time no later than `since`. */
  predicate StartedBy(p: Panel, since: int) {
    p.pending.Some? ==> p.pending.value <= since
  }

  /** `disabled={loading || !file}` on the start button. */
  predicate StartDisabled(p: Panel) {
    p.loading || p.file.None?
  }

  /** `stats.mode && !loading`: the stats card is shown. */
  predicate ShowStats(p: Panel) {
    p.stats.mode != "" && !p.loading
  }

  /** `output && …`: the copy button is shown. */
  predicate ShowCopy(p: Panel) {
    p.output != ""
  }

  /** The results area: a fixed line while loading, otherwise the output or
      the placeholder. */
  function ResultsText(p: Panel): string {
    if p.loading then BusyText else OrElse(Some(p.output), Placeholder)
  }

  /** `extractPDF` up to the `await`: without a file it alerts and changes
      nothing; otherwise it sets `loading` and takes the start time. */
  function Begin(p: Panel, now: int): (r: Step)
    ensures p.file.None? ==> r == Step(p, Some(Client.NoFileAlert))
    ensures p.file.Some? ==>
              r.alert.None? && r.after == p.(loading := true, pending := Some(now))
  {
    if p.file.None? then Step(p, Some(Client.NoFileAlert))
    else Step(p.(loading := true, pending := Some(now)), None)
  }

  /** A click on the start button: ignored while the button is disabled. */
  function Press(p: Panel, now: int): (r: Step)
    ensures StartDisabled(p) ==> r == Step(p, None)
    ensures !StartDisabled(p) ==> r == Begin(p, now)
  {
    if StartDisabled(p) then Step(p, None) else Begin(p, now)
  }

  /** `extractPDF` after the `await`: an answer stores the text or the
      sentinel and the mode or `"Standard"`; any failure alerts the one
      connection message, whatever the server said, and leaves `output` and
      `stats` alone; the `finally` clears `loading`. */
  function Settle(p: Panel, o: Client.Outcome, now: int): (r: Step)
    ensures p.pending.None? ==> r == Step(p, None)
    ensures p.pending.Some? ==> !r.after.loading && r.after.pending.None? && r.after.file == p.file
    ensures p.pending.Some? && o.Answered? ==>
              && r.alert.None?
              && r.after.output != "" && r.after.stats.mode != ""
              && (Truthy(o.text) ==> r.after.output == o.text.value)
              && (!Truthy(o.text) ==> r.after.output == Client.Sentinel)
              && (Truthy(o.mode) ==> r.after.stats.mode == o.mode.value)
              && (!Truthy(o.mode) ==> r.after.stats.mode == DefaultMode)
              && r.after.stats.elapsed == Some(now - p.pending.value)
    ensures p.pending.Some? && !o.Answered? ==>
              && r.alert == Some(Client.ConnectionError)
              && r.after.output == p.output && r.after.stats == p.stats
  {
    match p.pending
    case None => Step(p, None)
    case Some(start) =>
      var cleared := p.(loading := false, pending := None);
      match o
      case Answered(text, mode) =>
        Step(cleared.(output := OrElse(text, Client.Sentinel),
                      stats := Client.Stats(OrElse(mode, DefaultMode), Some(now - start))),
             None)
      case Rejected(_) => Step(cleared, Some(Client.ConnectionError))
      case Unreachable => Step(cleared, Some(Client.ConnectionError))
  }

  /** The component's reaction to one event: only picking a file changes the
      file, and only a settling job raises an alert. */
  function Next(p: Panel, e: Event): (r: Step)
    ensures r.after.file == (if e.FilePicked? then e.doc else p.file)
    ensures r.alert.Some? ==> e.RequestDone? && p.pending.Some?
  {
    match e
    case FilePicked(doc) => Step(p.(file := doc), None)
    case StartClicked(now) => Press(p, now)
    case RequestDone(o, now) => Settle(p, o, now)
  }

  /** The state after a sequence of events. */
  function Replay(p: Panel, events: seq<Event>): Panel
    decreases |events|
  {
    if |events| == 0 then p else Replay(Next(p, events[0]).after, events[1..])
  }

  /** What holds in every reachable state: a job is in flight exactly while
      `loading`, output and stats are filled together, and the recorded time
      is never negative. */
  ghost predicate Valid(p: Panel) {
    && (p.loading <==> p.pending.Some?)
    && (p.output == "" <==> p.stats.mode == "")
    && (p.stats.mode == "" <==> p.stats.elapsed.None?)
    && (p.stats.elapsed.Some? ==> p.stats.elapsed.value >= 0)
  }

  /** The first render is valid. */
  lemma InitialValid()
    ensures Valid(Initial)
  {
  }

  /** Every transition whose clock reading is not earlier than `since` keeps
      the component valid, and its job in flight started by that reading. */
  lemma NextKeepsValid(p: Panel, since: int, e: Event)
    requires Valid(p) && StartedBy(p, since)
    requires Time(e).Some? ==> since <= Time(e).value
    ensures Valid(Next(p, e).after)
    ensures StartedBy(Next(p, e).after, if Time(e).Some? then Time(e).value else since)
  {
  }

  /** Validity is kept along any sequence of events read from a clock that
      does not run backwards. */
  lemma {:induction false} ReplayKeepsValid(p: Panel, since: int, events: seq<Event>)
    requires Valid(p) && StartedBy(p, since) && Chronological(since, events)
    ensures Valid(Replay(p, events))
    decreases |events|
  {
    if |events| > 0 {
      var e := events[0];
      NextKeepsValid(p, since, e);
      ReplayKeepsValid(Next(p, e).after, if Time(e).Some? then Time(e).value else since, events[1..]);
    }
  }

  /** Every state reached from the first render is valid; in particular the
      time in the stats card is never negative. */
  lemma ReachableValid(since: int, events: seq<Event>)
    requires Chronological(since, events)
    ensures Valid(Replay(Initial, events))
  {
    InitialValid();
    ReplayKeepsValid(Initial, since, events);
  }

  /** While a job is in flight the start button is disabled and a press
      changes nothing, so no second job starts. */
  lemma OneJobAtATime(p: Panel, now: int)
    requires Valid(p) && p.loading
    ensures StartDisabled(p)
    ensures Next(p, StartClicked(now)) == Step(p, None)
  {
  }

  /** The failure message carries nothing from the server: two failures
      settle identically whatever their bodies. */
  lemma FailuresIndistinguishable(p: Panel, o1: Client.Outcome, o2: Client.Outcome, now: int)
    requires !o1.Answered? && !o2.Answered?
    ensures Settle(p, o1, now) == Settle(p, o2, now)
  {
  }

  /** The display in every valid state: the results area is never blank,
      and once idle the stats card and the copy button appear together. */
  lemma DisplayConsistent(p: Panel)
    requires Valid(p)
    ensures ResultsText(p) != ""
    ensures !p.loading ==> (ShowStats(p) <==> ShowCopy(p))
    ensures !p.loading ==> ResultsText(p) == (if p.output != "" then p.output else Placeholder)
    ensures p.loading ==> ResultsText(p) == BusyText
    ensures StartDisabled(p) <==> p.pending.Some? || p.file.None?
  {
  }
}
