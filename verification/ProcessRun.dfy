/** `runProcess`: one child process, its timers, its bounded output and its promise. */
module ProcessRun {
  import opened Common

  // ---------------------------------------------------------------- bounded output

  datatype Capture = Capture(text: string, truncatedChars: nat)

  const EMPTY: Capture := Capture("", 0)

  /** `text.slice(-n)`, which is the whole text for n = 0. */
  function SliceTail(text: string, n: nat): string {
    if n == 0 || |text| <= n then text else text[|text| - n..]
  }

  /** `appendBoundedProcessOutput` */
  function AppendBounded(capture: Capture, chunk: string, maxChars: nat): Capture {
    var nextText := capture.text + chunk;
    if |nextText| <= maxChars then Capture(nextText, capture.truncatedChars)
    else Capture(SliceTail(nextText, maxChars), capture.truncatedChars + |nextText| - maxChars)
  }

  ghost function CaptureAll(chunks: seq<string>, maxChars: nat): Capture {
    if chunks == [] then EMPTY
    else AppendBounded(CaptureAll(chunks[..|chunks| - 1], maxChars), chunks[|chunks| - 1], maxChars)
  }

  /** `tail` is what `all` ends with. */
  ghost predicate Ends(tail: string, all: string) { |tail| <= |all| && tail == all[|all| - |tail|..] }

  /** `capture` is the newest `maxChars` characters of `all` and counts exactly the dropped ones. */
  ghost predicate TailOf(capture: Capture, all: string, maxChars: nat) {
    && |capture.text| == (if |all| <= maxChars then |all| else maxChars)
    && capture.truncatedChars == |all| - |capture.text|
    && Ends(capture.text, all)
  }

  /** The text that is sliced still ends the stream. */
  lemma NextEnds(tail: string, all: string, chunk: string, maxChars: nat)
    requires Ends(tail, all)
    ensures Ends(tail + chunk, all + chunk)
    ensures |tail + chunk| > maxChars ==> Ends(SliceTail(tail + chunk, maxChars), all + chunk)
  {
  }

  lemma AppendKeepsTail(capture: Capture, all: string, chunk: string, maxChars: nat)
    requires maxChars >= 1 && TailOf(capture, all, maxChars)
    requires var next := capture.text + chunk;
             Ends(next, all + chunk) && (|next| > maxChars ==> Ends(SliceTail(next, maxChars), all + chunk))
    ensures TailOf(AppendBounded(capture, chunk, maxChars), all + chunk, maxChars)
  {
  }

  lemma {:induction false} CaptureIsTail(chunks: seq<string>, maxChars: nat)
    requires maxChars >= 1
    ensures TailOf(CaptureAll(chunks, maxChars), Concat(chunks), maxChars)
  {
    if chunks != [] {
      var init, chunk := chunks[..|chunks| - 1], chunks[|chunks| - 1];
      CaptureIsTail(init, maxChars);
      NextEnds(CaptureAll(init, maxChars).text, Concat(init), chunk, maxChars);
      AppendKeepsTail(CaptureAll(init, maxChars), Concat(init), chunk, maxChars);
    }
  }

  /** However the stream is cut into chunks, the capture is its tail, exactly when the limit is positive. */
  lemma CaptureIsTailIff(maxChars: nat)
    ensures (forall chunks :: TailOf(CaptureAll(chunks, maxChars), Concat(chunks), maxChars)) <==> maxChars >= 1
  {
    if maxChars >= 1 {
      forall chunks ensures TailOf(CaptureAll(chunks, maxChars), Concat(chunks), maxChars) {
        CaptureIsTail(chunks, maxChars);
      }
    } else {
      assert ["a"][..0] == [];
      assert CaptureAll(["a"], 0) == Capture("a", 1);
      assert !TailOf(CaptureAll(["a"], 0), Concat(["a"]), 0);
    }
  }

  const RUN_PROCESS_OUTPUT_MAX_CHARS := 1024 * 1024

  /** `resolveRunProcessOutputLimit` on a finite or absent limit: the default, or the whole part, at least one. */
  function OutputLimit(value: Option<real>): (limit: nat)
    ensures limit >= 1
    ensures value.None? || value.value <= 0.0 ==> limit == 1048576
    ensures value.Some? && 0.0 < value.value < 1.0 ==> limit == 1
    ensures value.Some? && value.value >= 1.0 ==> limit as real <= value.value < limit as real + 1.0
  {
    if value.None? || value.value <= 0.0 then RUN_PROCESS_OUTPUT_MAX_CHARS
    else if value.value.Floor < 1 then 1 else value.value.Floor
  }

  // ---------------------------------------------------------------- the event machine

  datatype Config = Config(maxOutputChars: nat, rejectOnFailure: bool)

  datatype Outcome =
    | Resolved(code: int, stderr: string, stdout: string)
    | TimedOut
    | Failed(detail: string)
    | Truncated
    | SpawnError(message: string)

  datatype Signal = SIGINT | SIGTERM | SIGHUP | SIGKILL

  datatype Close = Close(code: Option<int>, signal: Option<string>)

  /**
   * What can happen next: output, the two timers, the child closing (with the answer of the process-group
   * probe), a spawn or kill error, a relayed signal to the parent. Signalling the child leaves a note on
   * stderr when the group could not be signalled, and the empty note otherwise.
   */
  datatype Event =
    | Stdout(chunk: string)
    | Stderr(chunk: string)
    | TimeoutFires(note: string)
    | KillFires(note: string)
    | Closes(close: Close, groupAlive: bool)
    | Errors(message: string)
    | ParentSignal(signal: Signal, note: string)

  /** `settlements` lists every call of the promise's resolve or reject, in order. */
  datatype State = State(
    stdout: Capture, stderr: Capture,
    timedOut: bool, settled: bool, waitingForKillGrace: bool, closed: Option<Close>,
    timeoutArmed: bool, killArmed: bool, relaying: bool,
    sent: seq<Signal>, settlements: seq<Outcome>)

  const INITIAL: State := State(EMPTY, EMPTY, false, false, false, None, true, false, true, [], [])

  function FormatOutput(capture: Capture): string {
    if capture.truncatedChars == 0 then capture.text
    else "[output truncated " + Decimal(capture.truncatedChars) + " chars; showing tail]\n" + capture.text
  }

  function FirstNonEmpty(a: string, b: string, c: string): string {
    if a != "" then a else if b != "" then b else c
  }

  /** What `finishClose` settles with. */
  function Judge(cfg: Config, timedOut: bool, stdout: Capture, stderr: Capture, close: Close): Outcome {
    var code := if close.code.Some? then close.code.value else 1;
    if timedOut then TimedOut
    else if code != 0 && cfg.rejectOnFailure then
      Failed(FirstNonEmpty(Trim(FormatOutput(stderr)), Trim(FormatOutput(stdout)),
                           if close.signal.Some? then "terminated by " + close.signal.value else ""))
    else if code == 0 && stdout.truncatedChars > 0 then Truncated
    else Resolved(code, FormatOutput(stderr), stdout.text)
  }

  function Verdict(cfg: Config, s: State, close: Close): Outcome {
    Judge(cfg, s.timedOut, s.stdout, s.stderr, close)
  }

  function Settle(s: State, outcome: Outcome): State {
    if s.settled then s
    else s.(settled := true, timeoutArmed := false, killArmed := false, relaying := false,
            settlements := s.settlements + [outcome])
  }

  function AddNote(capture: Capture, note: string, maxChars: nat): Capture {
    if note == "" then capture else AppendBounded(capture, note, maxChars)
  }

  function Step(cfg: Config, s: State, e: Event): State {
    match e
    case Stdout(chunk) => s.(stdout := AppendBounded(s.stdout, chunk, cfg.maxOutputChars))
    case Stderr(chunk) => s.(stderr := AppendBounded(s.stderr, chunk, cfg.maxOutputChars))
    case TimeoutFires(note) =>
      s.(timedOut := true, timeoutArmed := false, waitingForKillGrace := true, killArmed := true,
         stderr := AddNote(s.stderr, note, cfg.maxOutputChars), sent := s.sent + [SIGTERM])
    case KillFires(note) =>
      var t := s.(waitingForKillGrace := false, killArmed := false,
                  stderr := AddNote(s.stderr, note, cfg.maxOutputChars), sent := s.sent + [SIGKILL]);
      if s.closed.Some? then Settle(t, Verdict(cfg, t, s.closed.value)) else t
    case Closes(close, groupAlive) =>
      if s.waitingForKillGrace && groupAlive then s.(closed := Some(close))
      else Settle(s, Verdict(cfg, s, close))
    case Errors(message) => Settle(s, SpawnError(message))
    case ParentSignal(signal, note) =>
      if s.relaying then
        s.(relaying := false, stderr := AddNote(s.stderr, note, cfg.maxOutputChars), sent := s.sent + [signal])
      else s
  }

  function Run(cfg: Config, events: seq<Event>): State {
    if events == [] then INITIAL else Step(cfg, Run(cfg, events[..|events| - 1]), events[|events| - 1])
  }

  /** Only armed timers fire, the child closes and errors at most once, and SIGKILL is not a signal to relay. */
  ghost predicate Enabled(cfg: Config, past: seq<Event>, e: Event) {
    match e
    case TimeoutFires(_) => Run(cfg, past).timeoutArmed
    case KillFires(_) => Run(cfg, past).killArmed
    case Closes(_, _) => forall i :: 0 <= i < |past| ==> !past[i].Closes?
    case Errors(_) => forall i :: 0 <= i < |past| ==> !past[i].Errors?
    case ParentSignal(signal, _) => signal != SIGKILL
    case _ => true
  }

  ghost predicate Possible(cfg: Config, events: seq<Event>) {
    events != [] ==>
      Possible(cfg, events[..|events| - 1]) && Enabled(cfg, events[..|events| - 1], events[|events| - 1])
  }

  // ---------------------------------------------------------------- the trace decides everything

  ghost predicate TimeoutIn(events: seq<Event>) { exists i :: 0 <= i < |events| && events[i].TimeoutFires? }
  ghost predicate KillIn(events: seq<Event>) { exists i :: 0 <= i < |events| && events[i].KillFires? }
  ghost predicate CloseIn(events: seq<Event>) { exists i :: 0 <= i < |events| && events[i].Closes? }
  ghost predicate ParentIn(events: seq<Event>) { exists i :: 0 <= i < |events| && events[i].ParentSignal? }

  /**
   * The i-th event settles the promise: an error, a close that need not wait for the grace period, or the
   * kill timer after a close that had to wait.
   */
  ghost predicate Settles(events: seq<Event>, i: nat)
    requires i < |events|
  {
    SettlesNow(events[i], TimeoutIn(events[..i]), KillIn(events[..i]), CloseIn(events[..i]))
  }

  ghost predicate SettlesNow(e: Event, timeoutIn: bool, killIn: bool, closeIn: bool) {
    match e
    case Errors(_) => true
    case Closes(_, alive) => !(alive && timeoutIn && !killIn)
    case KillFires(_) => closeIn
    case _ => false
  }

  ghost predicate SettledIn(events: seq<Event>) { exists i :: 0 <= i < |events| && Settles(events, i) }

  /** A parent signal is relayed when it is the first and the promise is open. */
  ghost predicate RelayOpen(events: seq<Event>) { !SettledIn(events) && !ParentIn(events) }

  ghost function StdoutChunks(events: seq<Event>): seq<string> {
    if events == [] then []
    else
      var last := events[|events| - 1];
      StdoutChunks(events[..|events| - 1]) + if last.Stdout? then [last.chunk] else []
  }

  ghost function Noted(note: string): seq<string> { if note == "" then [] else [note] }

  /** What an event adds to stderr. */
  ghost function StderrPiece(e: Event, relayOpen: bool): seq<string> {
    match e
    case Stderr(chunk) => [chunk]
    case TimeoutFires(note) => Noted(note)
    case KillFires(note) => Noted(note)
    case ParentSignal(_, note) => if relayOpen then Noted(note) else []
    case _ => []
  }

  /** The stderr chunks, and the notes of the signals that were sent. */
  ghost function StderrChunks(events: seq<Event>): seq<string> {
    if events == [] then []
    else
      var init := events[..|events| - 1];
      StderrChunks(init) + StderrPiece(events[|events| - 1], RelayOpen(init))
  }

  ghost function SignalPiece(e: Event, relayOpen: bool): seq<Signal> {
    match e
    case TimeoutFires(_) => [SIGTERM]
    case KillFires(_) => [SIGKILL]
    case ParentSignal(signal, _) => if relayOpen then [signal] else []
    case _ => []
  }

  /** The signals sent to the child: one at each timer, and the relayed parent signal. */
  ghost function Sent(events: seq<Event>): seq<Signal> {
    if events == [] then []
    else
      var init := events[..|events| - 1];
      Sent(init) + SignalPiece(events[|events| - 1], RelayOpen(init))
  }

  /** The close that had to wait: it came in the grace period while the group was alive. */
  ghost function Deferred(events: seq<Event>): Option<Close> {
    if events == [] then None
    else
      var init, last := events[..|events| - 1], events[|events| - 1];
      if last.Closes? && last.groupAlive && TimeoutIn(init) && !KillIn(init) then Some(last.close) else Deferred(init)
  }

  /** What a settling event settles with. */
  ghost function OutcomeOf(cfg: Config, e: Event, timeoutIn: bool, stdout: Capture, stderr: Capture): Outcome {
    match e
    case Errors(message) => SpawnError(message)
    case Closes(close, _) => Judge(cfg, timeoutIn, stdout, stderr, close)
    case _ => TimedOut
  }

  /** The first settling event decides. */
  ghost function Outcomes(cfg: Config, events: seq<Event>): seq<Outcome> {
    if events == [] then []
    else
      var init, last := events[..|events| - 1], events[|events| - 1];
      if SettledIn(init) || !SettlesNow(last, TimeoutIn(init), KillIn(init), CloseIn(init)) then Outcomes(cfg, init)
      else [OutcomeOf(cfg, last, TimeoutIn(init), CaptureAll(StdoutChunks(init), cfg.maxOutputChars),
                      CaptureAll(StderrChunks(init), cfg.maxOutputChars))]
  }

  /** Everything the trace says. */
  datatype Facts = Facts(
    settledIn: bool, timeoutIn: bool, killIn: bool, closeIn: bool, parentIn: bool, deferred: Option<Close>,
    stdout: Capture, stderr: Capture, sent: seq<Signal>, outcomes: seq<Outcome>)

  ghost function FactsOf(cfg: Config, events: seq<Event>): Facts {
    Facts(SettledIn(events), TimeoutIn(events), KillIn(events), CloseIn(events), ParentIn(events), Deferred(events),
          CaptureAll(StdoutChunks(events), cfg.maxOutputChars), CaptureAll(StderrChunks(events), cfg.maxOutputChars),
          Sent(events), Outcomes(cfg, events))
  }

  /** The state that belongs to the facts: nothing in it is left open. */
  ghost function StateOf(f: Facts): State {
    var grace := f.timeoutIn && !f.killIn;
    State(f.stdout, f.stderr, f.timeoutIn, f.settledIn, grace, f.deferred,
          !f.timeoutIn && !f.settledIn, grace && !f.settledIn, !f.settledIn && !f.parentIn, f.sent, f.outcomes)
  }

  /** What holds between the facts of a possible run. */
  ghost predicate Consistent(f: Facts) {
    && (f.killIn ==> f.timeoutIn)
    && (f.deferred.Some? ==> f.closeIn && f.timeoutIn)
    && (f.closeIn && !f.settledIn ==> f.deferred.Some? && f.timeoutIn && !f.killIn)
    && |f.outcomes| == (if f.settledIn then 1 else 0)
  }

  ghost function Extended(capture: Capture, piece: seq<string>, maxChars: nat): Capture {
    if piece == [] then capture else AppendBounded(capture, piece[0], maxChars)
  }

  /** The facts, one event later. */
  ghost function NextFacts(cfg: Config, f: Facts, e: Event): Facts {
    var settles := SettlesNow(e, f.timeoutIn, f.killIn, f.closeIn);
    var open := !f.settledIn && !f.parentIn;
    Facts(f.settledIn || settles, f.timeoutIn || e.TimeoutFires?, f.killIn || e.KillFires?, f.closeIn || e.Closes?,
          f.parentIn || e.ParentSignal?,
          if e.Closes? && e.groupAlive && f.timeoutIn && !f.killIn then Some(e.close) else f.deferred,
          Extended(f.stdout, if e.Stdout? then [e.chunk] else [], cfg.maxOutputChars),
          Extended(f.stderr, StderrPiece(e, open), cfg.maxOutputChars),
          f.sent + SignalPiece(e, open),
          if f.settledIn || !settles then f.outcomes else [OutcomeOf(cfg, e, f.timeoutIn, f.stdout, f.stderr)])
  }

  lemma StepOk(cfg: Config, f: Facts, e: Event)
    requires Consistent(f)
    requires (e.TimeoutFires? ==> !f.timeoutIn && !f.settledIn) && (e.Closes? ==> !f.closeIn)
    requires e.KillFires? ==> f.timeoutIn && !f.killIn && !f.settledIn
    ensures Step(cfg, StateOf(f), e) == StateOf(NextFacts(cfg, f, e)) && Consistent(NextFacts(cfg, f, e))
  {
    assert f.sent + [] == f.sent;
    assert !f.settledIn ==> f.outcomes == [];
  }

  lemma TraceSnoc(past: seq<Event>, e: Event)
    ensures var events := past + [e];
            && (TimeoutIn(events) <==> TimeoutIn(past) || e.TimeoutFires?)
            && (KillIn(events) <==> KillIn(past) || e.KillFires?)
            && (CloseIn(events) <==> CloseIn(past) || e.Closes?)
            && (ParentIn(events) <==> ParentIn(past) || e.ParentSignal?)
            && (SettledIn(events) <==> SettledIn(past) || SettlesNow(e, TimeoutIn(past), KillIn(past), CloseIn(past)))
  {
    var events := past + [e];
    assert forall i :: 0 <= i < |past| ==> events[i] == past[i] && events[..i] == past[..i];
    assert events[|past|] == e && events[..|past|] == past;
    assert Settles(events, |past|) <==> SettlesNow(e, TimeoutIn(past), KillIn(past), CloseIn(past));
    assert forall i :: 0 <= i < |past| ==> (Settles(events, i) <==> Settles(past, i));
    if TimeoutIn(past) {
      var i :| 0 <= i < |past| && past[i].TimeoutFires?;
      assert events[i].TimeoutFires?;
    }
    if KillIn(past) {
      var i :| 0 <= i < |past| && past[i].KillFires?;
      assert events[i].KillFires?;
    }
    if CloseIn(past) {
      var i :| 0 <= i < |past| && past[i].Closes?;
      assert events[i].Closes?;
    }
    if ParentIn(past) {
      var i :| 0 <= i < |past| && past[i].ParentSignal?;
      assert events[i].ParentSignal?;
    }
    if SettledIn(past) {
      var i :| 0 <= i < |past| && Settles(past, i);
      assert Settles(events, i);
    }
  }

  lemma CaptureMore(chunks: seq<string>, piece: seq<string>, maxChars: nat)
    requires |piece| <= 1
    ensures CaptureAll(chunks + piece, maxChars) == Extended(CaptureAll(chunks, maxChars), piece, maxChars)
  {
    if piece == [] {
      assert chunks + piece == chunks;
    } else {
      assert (chunks + piece)[..|chunks + piece| - 1] == chunks;
    }
  }

  lemma ListsSnoc(past: seq<Event>, e: Event)
    ensures StdoutChunks(past + [e]) == StdoutChunks(past) + if e.Stdout? then [e.chunk] else []
    ensures StderrChunks(past + [e]) == StderrChunks(past) + StderrPiece(e, RelayOpen(past))
    ensures Sent(past + [e]) == Sent(past) + SignalPiece(e, RelayOpen(past))
  {
    assert (past + [e])[..|past + [e]| - 1] == past;
  }

  lemma ChoicesSnoc(cfg: Config, past: seq<Event>, e: Event)
    ensures Deferred(past + [e]) ==
            if e.Closes? && e.groupAlive && TimeoutIn(past) && !KillIn(past) then Some(e.close) else Deferred(past)
    ensures Outcomes(cfg, past + [e]) ==
            if SettledIn(past) || !SettlesNow(e, TimeoutIn(past), KillIn(past), CloseIn(past)) then Outcomes(cfg, past)
            else [OutcomeOf(cfg, e, TimeoutIn(past), CaptureAll(StdoutChunks(past), cfg.maxOutputChars),
                            CaptureAll(StderrChunks(past), cfg.maxOutputChars))]
  {
    assert (past + [e])[..|past + [e]| - 1] == past;
  }

  lemma CapturesSnoc(past: seq<Event>, e: Event, maxChars: nat)
    ensures CaptureAll(StdoutChunks(past + [e]), maxChars) ==
            Extended(CaptureAll(StdoutChunks(past), maxChars), if e.Stdout? then [e.chunk] else [], maxChars)
    ensures CaptureAll(StderrChunks(past + [e]), maxChars) ==
            Extended(CaptureAll(StderrChunks(past), maxChars), StderrPiece(e, RelayOpen(past)), maxChars)
  {
    ListsSnoc(past, e);
    CaptureMore(StdoutChunks(past), if e.Stdout? then [e.chunk] else [], maxChars);
    CaptureMore(StderrChunks(past), StderrPiece(e, RelayOpen(past)), maxChars);
  }

  lemma FactsSnoc(cfg: Config, past: seq<Event>, e: Event)
    ensures FactsOf(cfg, past + [e]) == NextFacts(cfg, FactsOf(cfg, past), e)
  {
    var events := past + [e];
    TraceSnoc(past, e);
    ListsSnoc(past, e);
    ChoicesSnoc(cfg, past, e);
    CapturesSnoc(past, e, cfg.maxOutputChars);
    assert Sent(events) == NextFacts(cfg, FactsOf(cfg, past), e).sent;
    assert Outcomes(cfg, events) == NextFacts(cfg, FactsOf(cfg, past), e).outcomes;
  }

  /** The state of a run, read off its trace. */
  ghost predicate Explained(cfg: Config, events: seq<Event>) {
    Run(cfg, events) == StateOf(FactsOf(cfg, events)) && Consistent(FactsOf(cfg, events))
  }

  lemma {:induction false} RunExplained(cfg: Config, events: seq<Event>)
    requires Possible(cfg, events)
    ensures Explained(cfg, events)
  {
    if events != [] {
      var past, e := events[..|events| - 1], events[|events| - 1];
      assert events == past + [e];
      RunExplained(cfg, past);
      FactsSnoc(cfg, past, e);
      StepOk(cfg, FactsOf(cfg, past), e);
    }
  }

  /** What the lemmas below need of it. */
  ghost predicate Flags(cfg: Config, events: seq<Event>) {
    var s := Run(cfg, events);
    && (s.settled <==> SettledIn(events)) && |s.settlements| == (if s.settled then 1 else 0)
    && (s.timedOut <==> TimeoutIn(events))
    && (KillIn(events) ==> TimeoutIn(events))
    && (s.timeoutArmed <==> !TimeoutIn(events) && !s.settled)
    && (s.killArmed <==> TimeoutIn(events) && !KillIn(events) && !s.settled)
    && (s.waitingForKillGrace <==> TimeoutIn(events) && !KillIn(events))
    && (CloseIn(events) && !s.settled ==> s.closed.Some? && s.killArmed)
    && s.stdout == CaptureAll(StdoutChunks(events), cfg.maxOutputChars)
    && s.stderr == CaptureAll(StderrChunks(events), cfg.maxOutputChars)
    && s.sent == Sent(events)
  }

  lemma RunFlags(cfg: Config, events: seq<Event>)
    requires Possible(cfg, events)
    ensures Flags(cfg, events)
  {
    RunExplained(cfg, events);
  }

  /** Before the timeout no grace period runs. */
  lemma NoGraceYet(cfg: Config, events: seq<Event>)
    requires Possible(cfg, events) && Run(cfg, events).timeoutArmed
    ensures !Run(cfg, events).waitingForKillGrace
  {
    RunFlags(cfg, events);
  }

  /** The promise is settled at most once, exactly when a settling event has happened. */
  lemma SettlesAtMostOnce(cfg: Config, events: seq<Event>)
    requires Possible(cfg, events)
    ensures |Run(cfg, events).settlements| <= 1
    ensures Run(cfg, events).settlements != [] <==> SettledIn(events)
  {
    RunFlags(cfg, events);
  }

  /** Nothing that happens later changes the settlement. */
  lemma {:induction false} SettlementIsFinal(cfg: Config, events: seq<Event>, more: seq<Event>)
    requires Possible(cfg, events + more) && Run(cfg, events).settlements != []
    ensures Possible(cfg, events)
    ensures Run(cfg, events + more).settlements == Run(cfg, events).settlements
    decreases |more|
  {
    if more != [] {
      var init := more[..|more| - 1];
      assert (events + more)[..|events + more| - 1] == events + init;
      SettlementIsFinal(cfg, events, init);
      RunFlags(cfg, events + init);
    } else {
      assert events + more == events;
    }
  }

  /** A received close is never stranded: while unsettled the kill timer is armed, and firing it settles. */
  lemma CloseNeverStranded(cfg: Config, events: seq<Event>, note: string)
    requires Possible(cfg, events) && CloseIn(events) && !Run(cfg, events).settled
    ensures Run(cfg, events).killArmed
    ensures Possible(cfg, events + [KillFires(note)]) && Run(cfg, events + [KillFires(note)]).settled
  {
    RunFlags(cfg, events);
    var next := events + [KillFires(note)];
    assert next[..|next| - 1] == events;
  }

  /** A run whose timeout fired never resolves. */
  lemma {:induction false} TimedOutNeverResolves(cfg: Config, events: seq<Event>)
    requires Possible(cfg, events) && TimeoutIn(events)
    ensures forall o :: o in Run(cfg, events).settlements ==> !o.Resolved?
  {
    var past, e := events[..|events| - 1], events[|events| - 1];
    assert events == past + [e];
    RunFlags(cfg, past);
    TraceSnoc(past, e);
    if TimeoutIn(past) {
      TimedOutNeverResolves(cfg, past);
    }
  }

  /** The promise was settled by an event before which it was open; this is what it was settled with. */
  ghost predicate SettledAt(cfg: Config, events: seq<Event>, n: nat, o: Outcome) {
    && n < |events| && Possible(cfg, events[..n])
    && Run(cfg, events[..n]).settlements == [] && Run(cfg, events[..n + 1]).settlements == [o]
  }

  lemma {:induction false} SettledSomewhere(cfg: Config, events: seq<Event>) returns (n: nat)
    requires Possible(cfg, events) && Run(cfg, events).settlements != []
    ensures SettledAt(cfg, events, n, Run(cfg, events).settlements[0])
  {
    var past := events[..|events| - 1];
    if Run(cfg, past).settlements != [] {
      assert past + [events[|events| - 1]] == events;
      SettlementIsFinal(cfg, past, [events[|events| - 1]]);
      n := SettledSomewhere(cfg, past);
      SettledInPast(cfg, events, n, Run(cfg, events).settlements[0]);
    } else {
      n := |events| - 1;
      SettledLast(cfg, events);
    }
  }

  lemma SettledInPast(cfg: Config, events: seq<Event>, n: nat, o: Outcome)
    requires events != [] && SettledAt(cfg, events[..|events| - 1], n, o)
    ensures SettledAt(cfg, events, n, o)
  {
    var past := events[..|events| - 1];
    assert past[..n] == events[..n] && past[..n + 1] == events[..n + 1];
  }

  lemma SettledLast(cfg: Config, events: seq<Event>)
    requires Possible(cfg, events) && Run(cfg, events).settlements != []
    requires events != [] && Run(cfg, events[..|events| - 1]).settlements == []
    ensures SettledAt(cfg, events, |events| - 1, Run(cfg, events).settlements[0])
  {
    SettlesAtMostOnce(cfg, events);
    assert events[..|events|] == events;
  }

  lemma JudgeResolves(cfg: Config, timedOut: bool, stdout: Capture, stderr: Capture, close: Close)
    ensures var o := Judge(cfg, timedOut, stdout, stderr, close);
            && (o.Resolved? <==>
                  !timedOut && if close.code == Some(0) then stdout.truncatedChars == 0 else !cfg.rejectOnFailure)
            && (o.Resolved? ==> o.stdout == stdout.text && (o.code == 0 <==> close.code == Some(0)))
  {
  }

  /** What a step from an open promise settles with. */
  lemma StepSettles(cfg: Config, s: State, e: Event, o: Outcome)
    requires s.settlements == [] && Step(cfg, s, e).settlements == [o] && (e.KillFires? ==> s.timedOut)
    ensures o == OutcomeOf(cfg, e, s.timedOut, s.stdout, s.stderr)
    ensures e.Closes? || e.KillFires? || e.Errors?
  {
    match e
    case Closes(close, groupAlive) =>
      assert Settle(s, Verdict(cfg, s, close)).settlements[0] == o;
    case KillFires(note) =>
      assert Step(cfg, s, e).settlements[0] == o;
    case Errors(message) =>
      assert Settle(s, SpawnError(message)).settlements[0] == o;
    case _ =>
  }

  /** Which step resolves, and with what. */
  lemma StepResolvesIff(cfg: Config, s: State, e: Event, o: Outcome)
    requires s.settlements == [] && Step(cfg, s, e).settlements == [o] && (e.KillFires? ==> s.timedOut)
    ensures o.Resolved? <==>
            && e.Closes? && !s.timedOut
            && (if e.close.code == Some(0) then s.stdout.truncatedChars == 0 else !cfg.rejectOnFailure)
    ensures o.Resolved? ==> o.stdout == s.stdout.text && (o.code == 0 <==> e.close.code == Some(0))
  {
    StepSettles(cfg, s, e, o);
    if e.Closes? {
      JudgeResolves(cfg, s.timedOut, s.stdout, s.stderr, e.close);
    }
  }

  /** The resolve carries the newest `maxChars` characters of the text, and with code 0 all of it. */
  ghost predicate HandsOut(o: Outcome, all: string, maxChars: nat)
    requires o.Resolved?
  {
    && (o.code == 0 ==> o.stdout == all)
    && |o.stdout| == (if |all| <= maxChars then |all| else maxChars) && Ends(o.stdout, all)
  }

  /**
   * A resolved run hands out the newest stdout characters received before it settled, and with exit code 0
   * all of them.
   */
  lemma ResolvedOutput(cfg: Config, events: seq<Event>) returns (n: nat)
    requires cfg.maxOutputChars >= 1 && Possible(cfg, events)
    requires Run(cfg, events).settlements != [] && Run(cfg, events).settlements[0].Resolved?
    ensures SettledAt(cfg, events, n, Run(cfg, events).settlements[0])
    ensures HandsOut(Run(cfg, events).settlements[0], Concat(StdoutChunks(events[..n])), cfg.maxOutputChars)
  {
    n := SettledSomewhere(cfg, events);
    OutputAt(cfg, events, n, Run(cfg, events).settlements[0]);
  }

  lemma OutputAt(cfg: Config, events: seq<Event>, n: nat, o: Outcome)
    requires cfg.maxOutputChars >= 1 && Possible(cfg, events) && SettledAt(cfg, events, n, o) && o.Resolved?
    ensures HandsOut(o, Concat(StdoutChunks(events[..n])), cfg.maxOutputChars)
  {
    var chunks := StdoutChunks(events[..n]);
    LastStep(cfg, events, n, o);
    StepResolvesIff(cfg, Run(cfg, events[..n]), events[n], o);
    CaptureIsTail(chunks, cfg.maxOutputChars);
    TailText(CaptureAll(chunks, cfg.maxOutputChars), Concat(chunks), cfg.maxOutputChars);
  }

  lemma TailText(capture: Capture, all: string, maxChars: nat)
    requires TailOf(capture, all, maxChars)
    ensures |capture.text| == (if |all| <= maxChars then |all| else maxChars) && Ends(capture.text, all)
    ensures capture.truncatedChars == 0 <==> |all| <= maxChars
    ensures capture.truncatedChars == 0 ==> capture.text == all
  {
  }

  /** The step that settled the promise. */
  lemma LastStep(cfg: Config, events: seq<Event>, n: nat, o: Outcome)
    requires Possible(cfg, events) && SettledAt(cfg, events, n, o)
    ensures Step(cfg, Run(cfg, events[..n]), events[n]).settlements == [o]
    ensures Flags(cfg, events[..n]) && (events[n].KillFires? ==> Run(cfg, events[..n]).timedOut)
  {
    assert events[..n + 1][..n] == events[..n];
    PossibleUpTo(cfg, events, n + 1);
    RunFlags(cfg, events[..n]);
  }

  /**
   * Exactly when a settled run resolves: it settled at the child's close, no timeout had fired, and the child
   * either exited with 0 and printed no more than the limit, or failed and failures are allowed.
   */
  lemma ResolvesIff(cfg: Config, events: seq<Event>, n: nat, o: Outcome)
    requires cfg.maxOutputChars >= 1 && Possible(cfg, events) && SettledAt(cfg, events, n, o)
    ensures o.Resolved? <==>
            && events[n].Closes? && !TimeoutIn(events[..n])
            && (if events[n].close.code == Some(0) then |Concat(StdoutChunks(events[..n]))| <= cfg.maxOutputChars
                else !cfg.rejectOnFailure)
  {
    var chunks := StdoutChunks(events[..n]);
    LastStep(cfg, events, n, o);
    StepResolvesIff(cfg, Run(cfg, events[..n]), events[n], o);
    CaptureIsTail(chunks, cfg.maxOutputChars);
    TailText(CaptureAll(chunks, cfg.maxOutputChars), Concat(chunks), cfg.maxOutputChars);
  }

  /** A stream as messages show it: all of it, or a note and its newest characters. */
  ghost function Shown(all: string, maxChars: nat): string {
    if |all| <= maxChars then all
    else "[output truncated " + Decimal(|all| - maxChars) + " chars; showing tail]\n" + all[|all| - maxChars..]
  }

  /** What a failure names: the first of trimmed stderr, trimmed stdout and the signal that says anything. */
  ghost predicate Names(reason: string, out: string, err: string, close: Close) {
    && (Trim(err) != "" ==> reason == Trim(err))
    && (Trim(err) == "" && Trim(out) != "" ==> reason == Trim(out))
    && (Trim(err) == "" && Trim(out) == "" ==>
          reason == if close.signal.Some? then "terminated by " + close.signal.value else "")
  }

  /** Which kind of settlement belongs to the settling event; `overflow` says that stdout exceeded the limit. */
  ghost predicate KindIs(cfg: Config, e: Event, timedOut: bool, overflow: bool, o: Outcome) {
    && (o.SpawnError? <==> e.Errors?)
    && (o.TimedOut? <==> timedOut && !e.Errors?)
    && (o.Truncated? <==> e.Closes? && !timedOut && e.close.code == Some(0) && overflow)
    && (o.Failed? <==> e.Closes? && !timedOut && e.close.code != Some(0) && cfg.rejectOnFailure)
    && (o.Resolved? <==> e.Closes? && !timedOut && if e.close.code == Some(0) then !overflow else !cfg.rejectOnFailure)
  }

  /** What it carries, given both streams as messages show them. */
  ghost predicate CarriesOutput(e: Event, out: string, err: string, o: Outcome) {
    && (o.SpawnError? ==> e.Errors? && o.message == e.message)
    && (o.Failed? ==> e.Closes? && Names(o.detail, out, err, e.close))
    && (o.Resolved? ==> e.Closes? && o.code == (if e.close.code.Some? then e.close.code.value else 1) && o.stderr == err)
  }

  /** The settlement of an event, given all output before it and whether the timeout had fired. */
  ghost predicate SettlesAs(cfg: Config, e: Event, timedOut: bool, out: string, err: string, o: Outcome) {
    && KindIs(cfg, e, timedOut, |out| > cfg.maxOutputChars, o)
    && CarriesOutput(e, Shown(out, cfg.maxOutputChars), Shown(err, cfg.maxOutputChars), o)
    && (o.Resolved? ==> HandsOut(o, out, cfg.maxOutputChars))
  }

  lemma FormatShows(capture: Capture, all: string, maxChars: nat)
    requires TailOf(capture, all, maxChars)
    ensures FormatOutput(capture) == Shown(all, maxChars)
  {
    if |all| <= maxChars {
      assert capture.truncatedChars == 0 && capture.text == all;
    } else {
      assert capture.truncatedChars == |all| - maxChars && capture.text == all[|all| - maxChars..];
    }
  }

  lemma JudgeKind(cfg: Config, timedOut: bool, stdout: Capture, stderr: Capture, e: Event)
    requires e.Closes?
    ensures KindIs(cfg, e, timedOut, stdout.truncatedChars > 0, Judge(cfg, timedOut, stdout, stderr, e.close))
  {
  }

  lemma JudgeCarries(cfg: Config, timedOut: bool, stdout: Capture, stderr: Capture, e: Event, out: string, err: string)
    requires e.Closes? && FormatOutput(stdout) == out && FormatOutput(stderr) == err
    ensures CarriesOutput(e, out, err, Judge(cfg, timedOut, stdout, stderr, e.close))
  {
  }

  /** The verdict on a close, from the whole streams. */
  lemma JudgeSettles(cfg: Config, timedOut: bool, stdout: Capture, stderr: Capture, e: Event, out: string, err: string, o: Outcome)
    requires TailOf(stdout, out, cfg.maxOutputChars) && TailOf(stderr, err, cfg.maxOutputChars) && e.Closes?
    requires o == Judge(cfg, timedOut, stdout, stderr, e.close) && (o.Resolved? ==> HandsOut(o, out, cfg.maxOutputChars))
    ensures SettlesAs(cfg, e, timedOut, out, err, o)
  {
    FormatShows(stdout, out, cfg.maxOutputChars);
    FormatShows(stderr, err, cfg.maxOutputChars);
    TailText(stdout, out, cfg.maxOutputChars);
    JudgeKind(cfg, timedOut, stdout, stderr, e);
    JudgeCarries(cfg, timedOut, stdout, stderr, e, Shown(out, cfg.maxOutputChars), Shown(err, cfg.maxOutputChars));
  }

  /** Every settlement is the one that the trace calls for. */
  lemma SettlementIs(cfg: Config, events: seq<Event>, n: nat, o: Outcome)
    requires cfg.maxOutputChars >= 1 && Possible(cfg, events) && SettledAt(cfg, events, n, o)
    ensures SettlesAs(cfg, events[n], TimeoutIn(events[..n]), Concat(StdoutChunks(events[..n])), Concat(StderrChunks(events[..n])), o)
  {
    var s, out, err := Run(cfg, events[..n]), StdoutChunks(events[..n]), StderrChunks(events[..n]);
    LastStep(cfg, events, n, o);
    StepSettles(cfg, s, events[n], o);
    CaptureIsTail(out, cfg.maxOutputChars);
    CaptureIsTail(err, cfg.maxOutputChars);
    if events[n].Closes? {
      if o.Resolved? {
        OutputAt(cfg, events, n, o);
      }
      JudgeSettles(cfg, s.timedOut, s.stdout, s.stderr, events[n], Concat(out), Concat(err), o);
    }
  }

  lemma {:induction false} PossibleUpTo(cfg: Config, events: seq<Event>, n: nat)
    requires Possible(cfg, events) && n <= |events|
    ensures Possible(cfg, events[..n])
  {
    if n == |events| {
      assert events[..n] == events;
    } else {
      assert events[..|events| - 1][..n] == events[..n];
      PossibleUpTo(cfg, events[..|events| - 1], n);
    }
  }

  /** The signals of the two timers. */
  ghost function OwnSignals(events: seq<Event>): seq<Signal> {
    (if TimeoutIn(events) then [SIGTERM] else []) + (if KillIn(events) then [SIGKILL] else [])
  }

  /** The position of the relayed parent signal. */
  ghost function RelayAt(events: seq<Event>): Option<nat> {
    if events == [] then None
    else
      var init, last := events[..|events| - 1], events[|events| - 1];
      if last.ParentSignal? && RelayOpen(init) then Some(|init|) else RelayAt(init)
  }

  /** `sent` is the timers' own signals with the relayed parent signal, if any, in its place. */
  ghost predicate Interleaved(events: seq<Event>, sent: seq<Signal>) {
    match RelayAt(events)
    case None => sent == OwnSignals(events)
    case Some(n) =>
      n < |events| && events[n].ParentSignal? && RelayOpen(events[..n]) &&
      var before := OwnSignals(events[..n]);
      before <= OwnSignals(events) && sent == before + [events[n].signal] + OwnSignals(events)[|before|..]
  }

  /**
   * In every run the child group gets SIGTERM at the timeout and SIGKILL only after it; the first parent
   * signal, when it comes while the promise is open, is relayed in its place among them, and no other is.
   */
  lemma {:induction false} SignalsEscalate(cfg: Config, events: seq<Event>)
    requires Possible(cfg, events)
    ensures Interleaved(events, Run(cfg, events).sent)
    ensures RelayAt(events).None? ==> SettledIn(events) || !ParentIn(events)
  {
    if events == [] {
      assert OwnSignals(events) == [];
    } else {
      var past, e := events[..|events| - 1], events[|events| - 1];
      assert events == past + [e];
      SignalsEscalate(cfg, past);
      RunFlags(cfg, past);
      RunFlags(cfg, events);
      ListsSnoc(past, e);
      TraceSnoc(past, e);
      if e.ParentSignal? && RelayOpen(past) {
        RelayedNow(past, e, Sent(past));
      } else {
        OwnSnoc(past, e);
        NotRelayed(past, e, Sent(past));
      }
    }
  }

  lemma OwnSnoc(past: seq<Event>, e: Event)
    requires (e.TimeoutFires? ==> !TimeoutIn(past) && !KillIn(past)) && (e.KillFires? ==> !KillIn(past))
    ensures OwnSignals(past + [e]) == OwnSignals(past) + SignalPiece(e, false)
  {
    TraceSnoc(past, e);
  }

  lemma RelayedNow(past: seq<Event>, e: Event, sent: seq<Signal>)
    requires Interleaved(past, sent) && e.ParentSignal? && RelayOpen(past)
    ensures Interleaved(past + [e], sent + [e.signal])
  {
    var events := past + [e];
    assert events[..|past|] == past && events[|past|] == e;
    assert RelayAt(past).None?;
    TraceSnoc(past, e);
    assert OwnSignals(events) == OwnSignals(past);
    assert OwnSignals(events)[|OwnSignals(past)|..] == [];
  }

  lemma NotRelayed(past: seq<Event>, e: Event, sent: seq<Signal>)
    requires Interleaved(past, sent) && !(e.ParentSignal? && RelayOpen(past))
    requires OwnSignals(past + [e]) == OwnSignals(past) + SignalPiece(e, false)
    ensures Interleaved(past + [e], sent + SignalPiece(e, RelayOpen(past)))
  {
    var events := past + [e];
    assert events[..|past|] == past && events[|past|] == e;
    assert RelayAt(events) == RelayAt(past);
    if RelayAt(past).Some? {
      var n := RelayAt(past).value;
      OwnGoesOn(past, e, n);
      InsertedMore(OwnSignals(past[..n]), past[n].signal, OwnSignals(past)[|OwnSignals(past[..n])|..], SignalPiece(e, false));
    }
  }

  lemma InsertedMore(before: seq<Signal>, signal: Signal, after: seq<Signal>, piece: seq<Signal>)
    ensures before + [signal] + after + piece == before + [signal] + (after + piece)
  {
  }

  lemma OwnGoesOn(past: seq<Event>, e: Event, n: nat)
    requires n < |past| && OwnSignals(past[..n]) <= OwnSignals(past)
    requires OwnSignals(past + [e]) == OwnSignals(past) + SignalPiece(e, false)
    ensures (past + [e])[n] == past[n] && (past + [e])[..n] == past[..n]
    ensures var before, own := OwnSignals(past[..n]), OwnSignals(past + [e]);
            before <= own && own[|before|..] == OwnSignals(past)[|before|..] + SignalPiece(e, false)
  {
    var before := OwnSignals(past[..n]);
    assert OwnSignals(past + [e])[|before|..] == OwnSignals(past)[|before|..] + SignalPiece(e, false);
  }

  // ---------------------------------------------------------------- the imperative run

  /** The closure variables of `runProcess` and its event handlers. */
  class Supervisor {
    const cfg: Config
    var stdout: Capture
    var stderr: Capture
    var timedOut: bool
    var settled: bool
    var waitingForKillGrace: bool
    var childClosedResult: Option<Close>
    var timeoutArmed: bool
    var killArmed: bool
    var relaying: bool
    var sent: seq<Signal>
    var settlements: seq<Outcome>
    ghost var trace: seq<Event>

    ghost function View(): State
      reads this
    {
      State(stdout, stderr, timedOut, settled, waitingForKillGrace, childClosedResult,
            timeoutArmed, killArmed, relaying, sent, settlements)
    }

    /** The variables are those of the run so far. */
    ghost predicate Valid()
      reads this
    {
      Possible(cfg, trace) && View() == Run(cfg, trace)
    }

    constructor (cfg: Config)
      ensures Valid() && trace == [] && this.cfg == cfg
    {
      this.cfg := cfg;
      stdout, stderr := EMPTY, EMPTY;
      timedOut, settled, waitingForKillGrace, childClosedResult := false, false, false, None;
      timeoutArmed, killArmed, relaying := true, false, true;
      sent, settlements, trace := [], [], [];
    }

    ghost method Log(e: Event)
      requires Possible(cfg, trace) && Enabled(cfg, trace, e)
      requires View() == Step(cfg, Run(cfg, trace), e)
      modifies this`trace
      ensures Valid() && trace == old(trace) + [e]
    {
      trace := trace + [e];
      assert trace[..|trace| - 1] == old(trace);
    }

    method SettleWith(outcome: Outcome)
      modifies this`settled, this`timeoutArmed, this`killArmed, this`relaying, this`settlements
      ensures View() == Settle(old(View()), outcome)
    {
      if settled {
        return;
      }
      settled := true;
      timeoutArmed := false;
      if killArmed {
        killArmed := false;
      }
      relaying := false;
      settlements := settlements + [outcome];
    }

    method FinishClose(close: Close)
      modifies this`settled, this`timeoutArmed, this`killArmed, this`relaying, this`settlements
      ensures View() == Settle(old(View()), Verdict(cfg, old(View()), close))
    {
      var stdoutText := FormatOutput(stdout);
      var stderrText := FormatOutput(stderr);
      var code := if close.code.Some? then close.code.value else 1;
      if timedOut {
        SettleWith(TimedOut);
        return;
      }
      if code != 0 && cfg.rejectOnFailure {
        var reason := if close.signal.Some? then "terminated by " + close.signal.value else "";
        SettleWith(Failed(FirstNonEmpty(Trim(stderrText), Trim(stdoutText), reason)));
        return;
      }
      if code == 0 && stdout.truncatedChars > 0 {
        SettleWith(Truncated);
        return;
      }
      SettleWith(Resolved(code, stderrText, stdout.text));
    }

    method SignalChild(signal: Signal, note: string)
      modifies this`sent, this`stderr
      ensures sent == old(sent) + [signal] && stderr == AddNote(old(stderr), note, cfg.maxOutputChars)
    {
      sent := sent + [signal];
      if note != "" {
        stderr := AppendBounded(stderr, note, cfg.maxOutputChars);
      }
    }

    method OnStdout(chunk: string)
      requires Valid()
      modifies this
      ensures Valid() && trace == old(trace) + [Stdout(chunk)]
    {
      stdout := AppendBounded(stdout, chunk, cfg.maxOutputChars);
      Log(Stdout(chunk));
    }

    method OnStderr(chunk: string)
      requires Valid()
      modifies this
      ensures Valid() && trace == old(trace) + [Stderr(chunk)]
    {
      stderr := AppendBounded(stderr, chunk, cfg.maxOutputChars);
      Log(Stderr(chunk));
    }

    method OnTimeout(note: string)
      requires Valid() && timeoutArmed
      modifies this
      ensures Valid() && trace == old(trace) + [TimeoutFires(note)]
    {
      NoGraceYet(cfg, trace);
      timeoutArmed := false;
      timedOut := true;
      SignalChild(SIGTERM, note);
      if !waitingForKillGrace {
        waitingForKillGrace := true;
        killArmed := true;
      }
      Log(TimeoutFires(note));
    }

    method OnKillTimer(note: string)
      requires Valid() && killArmed
      modifies this
      ensures Valid() && trace == old(trace) + [KillFires(note)]
    {
      waitingForKillGrace := false;
      killArmed := false;
      SignalChild(SIGKILL, note);
      if childClosedResult.Some? {
        FinishClose(childClosedResult.value);
      }
      Log(KillFires(note));
    }

    method OnClose(close: Close, groupAlive: bool)
      requires Valid() && Enabled(cfg, trace, Closes(close, groupAlive))
      modifies this
      ensures Valid() && trace == old(trace) + [Closes(close, groupAlive)]
    {
      if waitingForKillGrace && groupAlive {
        childClosedResult := Some(close);
      } else {
        FinishClose(close);
      }
      Log(Closes(close, groupAlive));
    }

    method OnError(message: string)
      requires Valid() && Enabled(cfg, trace, Errors(message))
      modifies this
      ensures Valid() && trace == old(trace) + [Errors(message)]
    {
      SettleWith(SpawnError(message));
      Log(Errors(message));
    }

    method OnParentSignal(signal: Signal, note: string)
      requires Valid() && signal != SIGKILL
      modifies this
      ensures Valid() && trace == old(trace) + [ParentSignal(signal, note)]
    {
      if relaying {
        SignalChild(signal, note);
        relaying := false;
      }
      Log(ParentSignal(signal, note));
    }
  }
}
