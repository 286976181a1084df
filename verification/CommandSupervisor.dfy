/** Supervised commands of the cross-OS checks: the kill registry, signal forwarding and settlement. */
module CommandSupervisor {
  import opened Common

  datatype Signal = SIGHUP | SIGINT | SIGTERM

  function ExitCodeOf(signal: Signal): nat {
    match signal
    case SIGHUP => 129
    case SIGINT => 130
    case SIGTERM => 143
  }

  datatype Outcome =
    | Resolved(exitCode: int)
    | TimedOut
    | NotTerminated
    | CheckFailed(exitCode: int)
    | ChildError
    | LogFailed

  /** Why a command was finalized; the callback runs once the log stream has finished. */
  datatype Finish = OnClose(exitCode: int) | OnError | OnKillWait

  /** The closure variables of one `runCommandInvocation`. */
  datatype Child = Child(
    check: bool, timedOut: bool, settled: bool, timerArmed: bool, killWaitArmed: bool,
    finishing: Option<Finish>, settlements: seq<Outcome>)

  /** Children are numbered in spawn order. */
  datatype Event =
    | Spawn(check: bool, hasTimeout: bool)
    | Signalled(signal: Signal)
    | ForceKill
    | Timeout(id: nat)
    | KillWait(id: nat)
    | Close(id: nat, exitCode: Option<int>)
    | Errors(id: nat)
    | LogFinished(id: nat, failed: bool)

  /**
   * `forceKill` is the armed force-kill timer with the killers it captured, `killed` the children that were
   * sent SIGKILL, `exited` the code the process exited with, `forwarded` every forwarded signal with the
   * children it went to.
   */
  datatype World = World(
    children: seq<Child>, registry: set<nat>,
    exitCode: Option<nat>, forceKill: Option<set<nat>>, exited: Option<nat>, killed: set<nat>,
    forwarded: seq<(Signal, set<nat>)>)

  const INITIAL: World := World([], {}, None, None, None, {}, [])

  function Finalize(c: Child, finish: Finish): Child {
    if c.settled then c
    else c.(settled := true, timerArmed := false, killWaitArmed := false, finishing := Some(finish))
  }

  /** The callback of `finalize`, run when the log stream finished or failed. */
  function Verdict(c: Child, finish: Finish, logFailed: bool): Outcome {
    if logFailed then LogFailed
    else
      match finish
      case OnError => ChildError
      case OnKillWait => NotTerminated
      case OnClose(exitCode) =>
        if c.timedOut then TimedOut
        else if c.check && exitCode != 0 then CheckFailed(exitCode)
        else Resolved(exitCode)
  }

  predicate Enabled(w: World, e: Event) {
    w.exited.None? &&
    match e
    case Spawn(_, _) => true
    case Signalled(_) => true
    case ForceKill => w.forceKill.Some?
    case Timeout(id) => id < |w.children| && w.children[id].timerArmed
    case KillWait(id) => id < |w.children| && w.children[id].killWaitArmed
    case Close(id, _) => id < |w.children|
    case Errors(id) => id < |w.children|
    case LogFinished(id, _) => id < |w.children| && w.children[id].finishing.Some?
  }

  /** An event that is not enabled does not happen. */
  function Step(w: World, e: Event): World {
    if !Enabled(w, e) then w
    else
    match e
    case Spawn(check, hasTimeout) =>
      w.(children := w.children + [Child(check, false, false, hasTimeout, false, None, [])],
         registry := w.registry + {|w.children|})
    case Signalled(signal) =>
      var code := if w.exitCode.Some? then w.exitCode else Some(ExitCodeOf(signal));
      if w.registry == {} then w.(exitCode := code, exited := code)
      else w.(exitCode := code, forwarded := w.forwarded + [(signal, w.registry)],
              forceKill := if w.forceKill.Some? then w.forceKill else Some(w.registry))
    case ForceKill =>
      w.(killed := w.killed + w.forceKill.value, forceKill := None, exited := w.exitCode)
    case Timeout(id) =>
      w.(children := w.children[id := w.children[id].(timedOut := true, timerArmed := false, killWaitArmed := true)],
         killed := w.killed + {id})
    case KillWait(id) =>
      w.(children := w.children[id := Finalize(w.children[id].(killWaitArmed := false), OnKillWait)])
    case Errors(id) =>
      w.(registry := w.registry - {id}, children := w.children[id := Finalize(w.children[id], OnError)])
    case Close(id, exitCode) =>
      var v := w.(registry := w.registry - {id});
      if v.exitCode.Some? then v
      else
        var code := if exitCode.Some? then exitCode.value else 1;
        v.(children := v.children[id := Finalize(v.children[id], OnClose(code))])
    case LogFinished(id, failed) =>
      var c := w.children[id];
      w.(children := w.children[id := c.(finishing := None,
           settlements := c.settlements + [Verdict(c, c.finishing.value, failed)])])
  }

  ghost function Run(events: seq<Event>): World {
    if events == [] then INITIAL else Step(Run(events[..|events| - 1]), events[|events| - 1])
  }

  ghost predicate Possible(events: seq<Event>) {
    events != [] ==>
      Possible(events[..|events| - 1]) && Enabled(Run(events[..|events| - 1]), events[|events| - 1])
  }

  // ---------------------------------------------------------------- the trace decides everything

  ghost function SpawnCount(events: seq<Event>): nat {
    if events == [] then 0
    else SpawnCount(events[..|events| - 1]) + if events[|events| - 1].Spawn? then 1 else 0
  }

  ghost predicate ClosedIn(events: seq<Event>, id: nat) {
    exists i :: 0 <= i < |events| && events[i].Close? && events[i].id == id
  }

  ghost predicate ErroredIn(events: seq<Event>, id: nat) {
    exists i :: 0 <= i < |events| && events[i].Errors? && events[i].id == id
  }

  ghost predicate TimeoutIn(events: seq<Event>, id: nat) {
    exists i :: 0 <= i < |events| && events[i].Timeout? && events[i].id == id
  }

  ghost predicate ForceIn(events: seq<Event>) { exists i :: 0 <= i < |events| && events[i].ForceKill? }

  ghost predicate SignalIn(events: seq<Event>) { exists i :: 0 <= i < |events| && events[i].Signalled? }

  /** Spawned, and neither closed nor errored. */
  ghost predicate Live(events: seq<Event>, id: nat) {
    id < SpawnCount(events) && !ClosedIn(events, id) && !ErroredIn(events, id)
  }

  /** The exit code of the first signal. */
  ghost function FirstCode(events: seq<Event>): Option<nat> {
    if events == [] then None
    else
      var before, last := FirstCode(events[..|events| - 1]), events[|events| - 1];
      if before.None? && last.Signalled? then Some(ExitCodeOf(last.signal)) else before
  }

  /** The events up to the first signal, or all of them. */
  ghost function BeforeSignal(events: seq<Event>): seq<Event> {
    if events == [] then []
    else
      var init, last := events[..|events| - 1], events[|events| - 1];
      if SignalIn(init) then BeforeSignal(init) else if last.Signalled? then init else events
  }

  ghost function LiveSet(events: seq<Event>): set<nat> { set id | 0 <= id < SpawnCount(events) && Live(events, id) }

  /** Every signal that found live children, with all of them. */
  ghost function Forwards(events: seq<Event>): seq<(Signal, set<nat>)> {
    if events == [] then []
    else
      var init, last := events[..|events| - 1], events[|events| - 1];
      Forwards(init) + if last.Signalled? && LiveSet(init) != {} then [(last.signal, LiveSet(init))] else []
  }

  lemma EventsSnoc(past: seq<Event>, e: Event)
    ensures var events := past + [e];
            && events[..|events| - 1] == past && events[|events| - 1] == e
            && (forall id: nat :: ClosedIn(events, id) <==> ClosedIn(past, id) || (e.Close? && e.id == id))
            && (forall id: nat :: ErroredIn(events, id) <==> ErroredIn(past, id) || (e.Errors? && e.id == id))
            && (forall id: nat :: TimeoutIn(events, id) <==> TimeoutIn(past, id) || (e.Timeout? && e.id == id))
            && (ForceIn(events) <==> ForceIn(past) || e.ForceKill?)
            && (SignalIn(events) <==> SignalIn(past) || e.Signalled?)
  {
    var events := past + [e];
    assert events[|past|] == e;
    assert forall i :: 0 <= i < |past| ==> events[i] == past[i];
    forall id: nat | ClosedIn(past, id) ensures ClosedIn(events, id) {
      var i :| 0 <= i < |past| && past[i].Close? && past[i].id == id;
      assert events[i].Close? && events[i].id == id;
    }
    forall id: nat | ErroredIn(past, id) ensures ErroredIn(events, id) {
      var i :| 0 <= i < |past| && past[i].Errors? && past[i].id == id;
      assert events[i].Errors? && events[i].id == id;
    }
    forall id: nat | TimeoutIn(past, id) ensures TimeoutIn(events, id) {
      var i :| 0 <= i < |past| && past[i].Timeout? && past[i].id == id;
      assert events[i].Timeout? && events[i].id == id;
    }
    if ForceIn(past) {
      var i :| 0 <= i < |past| && past[i].ForceKill?;
      assert events[i].ForceKill?;
    }
    if SignalIn(past) {
      var i :| 0 <= i < |past| && past[i].Signalled?;
      assert events[i].Signalled?;
    }
  }

  /** The part before the first signal is a prefix, so what is live later was live then or spawned since. */
  lemma {:induction false} BeforeSignalLive(events: seq<Event>, id: nat)
    ensures !SignalIn(BeforeSignal(events))
    ensures !SignalIn(events) ==> BeforeSignal(events) == events
    ensures SpawnCount(BeforeSignal(events)) <= SpawnCount(events)
    ensures ClosedIn(BeforeSignal(events), id) ==> ClosedIn(events, id)
    ensures ErroredIn(BeforeSignal(events), id) ==> ErroredIn(events, id)
  {
    if events != [] {
      var init := events[..|events| - 1];
      BeforeSignalLive(init, id);
      assert events == init + [events[|events| - 1]];
      EventsSnoc(init, events[|events| - 1]);
    }
  }

  // ---------------------------------------------------------------- the registry and the exit

  /** How the registry and the exit code of a run relate to its trace. */
  ghost predicate Traced(events: seq<Event>) {
    var w := Run(events);
    && |w.children| == SpawnCount(events)
    && (forall id: nat :: id in w.registry <==> Live(events, id))
    && w.exitCode == FirstCode(events)
    && (w.exitCode.Some? <==> SignalIn(events))
  }

  /** How the exit and the kills of a run relate to its trace. */
  ghost predicate KillsTraced(events: seq<Event>) {
    var w := Run(events);
    && (w.exited.Some? ==> w.exited == w.exitCode && (ForceIn(events) || w.registry == {}))
    && (ForceIn(events) ==> w.exited.Some?)
    && (SignalIn(events) && w.exited.None? ==> w.forceKill.Some?)
    && (w.forceKill.Some? ==> SignalIn(events) && forall id: nat :: id in w.forceKill.value <==> Live(BeforeSignal(events), id))
    && (forall id: nat :: id in w.killed <==> TimeoutIn(events, id) || (ForceIn(events) && Live(BeforeSignal(events), id)))
  }

  lemma {:induction false} RegistryTraced(events: seq<Event>)
    requires Possible(events)
    ensures Traced(events)
  {
    if events != [] {
      var past, e := events[..|events| - 1], events[|events| - 1];
      assert events == past + [e];
      RegistryTraced(past);
      EventsSnoc(past, e);
      SpawnedIds(past);
    }
  }

  lemma {:induction false} RunTraced(events: seq<Event>)
    requires Possible(events)
    ensures Traced(events) && KillsTraced(events)
  {
    RegistryTraced(events);
    if events != [] {
      var past, e := events[..|events| - 1], events[|events| - 1];
      assert events == past + [e];
      RunTraced(past);
      EventsSnoc(past, e);
      BeforeSignalLive(past, 0);
    }
  }

  /** Only spawned children close, error or time out. */
  lemma {:induction false} SpawnedIds(events: seq<Event>)
    requires Possible(events)
    ensures forall id: nat :: ClosedIn(events, id) || ErroredIn(events, id) || TimeoutIn(events, id) ==> id < |Run(events).children|
  {
    if events != [] {
      var past, e := events[..|events| - 1], events[|events| - 1];
      assert events == past + [e];
      SpawnedIds(past);
      EventsSnoc(past, e);
    }
  }

  /** The kill registry is exactly the children spawned and not yet closed or errored. */
  lemma RegistryIsLive(events: seq<Event>, id: nat)
    requires Possible(events)
    ensures id in Run(events).registry <==> Live(events, id)
  {
    RunTraced(events);
  }

  /** Every signal goes to exactly the children that are live when it arrives. */
  lemma {:induction false} SignalsReachLiveChildren(events: seq<Event>)
    requires Possible(events)
    ensures Run(events).forwarded == Forwards(events)
  {
    if events != [] {
      var past := events[..|events| - 1];
      SignalsReachLiveChildren(past);
      RunTraced(past);
      assert Run(past).registry == LiveSet(past);
    }
  }

  /** The process exits when the force-kill timer fires, and when a signal finds no live child. */
  ghost predicate ExitIn(events: seq<Event>) {
    events != [] &&
    var init, last := events[..|events| - 1], events[|events| - 1];
    ExitIn(init) || last.ForceKill? || (last.Signalled? && LiveSet(init) == {})
  }

  /** The timer is armed from the first signal until it fires, for the children live at that signal, if any. */
  ghost function ArmedKill(events: seq<Event>): Option<set<nat>> {
    var known := LiveSet(BeforeSignal(events));
    if SignalIn(events) && !ForceIn(events) && known != {} then Some(known) else None
  }

  /** The children sent SIGKILL: those that timed out and, once the timer fired, those live at the first signal. */
  ghost function KilledSet(events: seq<Event>): set<nat> {
    set id | 0 <= id < SpawnCount(events) && (TimeoutIn(events, id) || (ForceIn(events) && Live(BeforeSignal(events), id)))
  }

  lemma RegistrySet(events: seq<Event>)
    requires Possible(events)
    ensures Run(events).registry == LiveSet(events)
  {
    RunTraced(events);
  }

  lemma {:induction false} ExitTraced(events: seq<Event>)
    requires Possible(events)
    ensures Run(events).exited == (if ExitIn(events) then FirstCode(events) else None)
    ensures ExitIn(events) ==> FirstCode(events).Some?
  {
    if events != [] {
      var past, e := events[..|events| - 1], events[|events| - 1];
      ExitTraced(past);
      RunTraced(past);
      RunTraced(events);
      RegistrySet(past);
    }
  }

  lemma {:induction false} TimerTraced(events: seq<Event>)
    requires Possible(events)
    ensures Run(events).forceKill == ArmedKill(events)
  {
    if events != [] {
      var past, e := events[..|events| - 1], events[|events| - 1];
      assert events == past + [e];
      TimerTraced(past);
      RunTraced(past);
      RegistrySet(past);
      EventsSnoc(past, e);
    }
  }

  /** The global state of a run, read off its trace: nothing in it is left open. */
  ghost predicate Explained(events: seq<Event>) {
    var w := Run(events);
    && |w.children| == SpawnCount(events)
    && w.registry == LiveSet(events)
    && w.exitCode == FirstCode(events)
    && w.exited == (if ExitIn(events) then FirstCode(events) else None)
    && w.forceKill == ArmedKill(events)
    && w.killed == KilledSet(events)
    && w.forwarded == Forwards(events)
  }

  lemma RunExplained(events: seq<Event>)
    requires Possible(events)
    ensures Explained(events)
  {
    RunTraced(events);
    ExitTraced(events);
    TimerTraced(events);
    RegistrySet(events);
    SignalsReachLiveChildren(events);
    SpawnedIds(events);
    BeforeSignalLive(events, 0);
    forall id: nat | id in Run(events).killed
      ensures id in KilledSet(events)
    {
      BeforeSignalLive(events, id);
    }
    assert Run(events).killed == KilledSet(events);
  }

  /** POSIX signal numbers. */
  ghost function SignalNumber(signal: Signal): nat {
    match signal
    case SIGHUP => 1
    case SIGINT => 2
    case SIGTERM => 15
  }

  /**
   * The forwarded exit code is 128 and the number of the first signal, whatever follows, and the code the
   * process exits with.
   */
  lemma {:induction false} FirstSignalDecides(events: seq<Event>, signal: Signal, more: seq<Event>)
    requires Possible(events + [Signalled(signal)] + more) && !SignalIn(events)
    ensures Run(events + [Signalled(signal)] + more).exitCode == Some(128 + SignalNumber(signal))
    ensures Run(events + [Signalled(signal)] + more).exited in {None, Some(128 + SignalNumber(signal))}
    decreases |more|
  {
    var all := events + [Signalled(signal)] + more;
    RunTraced(all);
    if more == [] {
      assert all == events + [Signalled(signal)];
      EventsSnoc(events, Signalled(signal));
      RunTraced(events);
    } else {
      var init, last := events + [Signalled(signal)] + more[..|more| - 1], more[|more| - 1];
      assert all == init + [last];
      EventsSnoc(init, last);
      FirstSignalDecides(events, signal, more[..|more| - 1]);
    }
  }

  /**
   * The signal path never exits over a child it knew: every child live at the first signal is either gone
   * or was sent SIGKILL by the time the process exits.
   */
  lemma ExitLeavesNoKnownChild(events: seq<Event>, id: nat)
    requires Possible(events) && Run(events).exited.Some?
    requires Live(BeforeSignal(events), id)
    ensures id !in Run(events).registry || id in Run(events).killed
  {
    RunTraced(events);
  }

  /**
   * What an exit does leave behind: exactly the live children that were spawned after the first signal and
   * have not timed out.
   */
  lemma ExitOrphans(events: seq<Event>, id: nat)
    requires Possible(events) && Run(events).exited.Some?
    ensures id in Run(events).registry && id !in Run(events).killed <==>
            Live(events, id) && SpawnCount(BeforeSignal(events)) <= id && !TimeoutIn(events, id)
  {
    RunTraced(events);
    BeforeSignalLive(events, id);
  }

  /** Such a run exists: a command started during the grace period survives the exit. */
  lemma OrphanExample()
    ensures var events := [Spawn(true, false), Signalled(SIGTERM), Spawn(true, false), ForceKill];
            Possible(events) && Run(events).exited == Some(143) && 1 in Run(events).registry && 1 !in Run(events).killed
  {
    var s0, s1 := [Spawn(true, false)], [Spawn(true, false), Signalled(SIGTERM)];
    var s2 := [Spawn(true, false), Signalled(SIGTERM), Spawn(true, false)];
    var s3 := [Spawn(true, false), Signalled(SIGTERM), Spawn(true, false), ForceKill];
    assert s0[..0] == [] && s1[..1] == s0 && s2[..2] == s1 && s3[..3] == s2;
    var child := Child(true, false, false, false, false, None, []);
    assert Run(s0) == World([child], {0}, None, None, None, {}, []);
    assert Run(s1) == World([child], {0}, Some(143), Some({0}), None, {}, [(SIGTERM, {0})]);
    assert Run(s2) == World([child, child], {0, 1}, Some(143), Some({0}), None, {}, [(SIGTERM, {0})]);
  }

  /** After a signal the process is always on its way out: it has exited or the force-kill timer is armed. */
  lemma SignalLeadsToExit(events: seq<Event>)
    requires Possible(events) && SignalIn(events) && Run(events).exited.None?
    ensures Possible(events + [ForceKill]) && Run(events + [ForceKill]).exited == FirstCode(events)
  {
    RunTraced(events);
    assert (events + [ForceKill])[..|events|] == events;
  }

  // ---------------------------------------------------------------- one command

  /** The `check` option of the command spawned as number `id`. */
  ghost predicate Checks(events: seq<Event>, id: nat) {
    events != [] &&
    var init, last := events[..|events| - 1], events[|events| - 1];
    if last.Spawn? && SpawnCount(init) == id then last.check else Checks(init, id)
  }

  ghost predicate HasTimeout(events: seq<Event>, id: nat) {
    events != [] &&
    var init, last := events[..|events| - 1], events[|events| - 1];
    if last.Spawn? && SpawnCount(init) == id then last.hasTimeout else HasTimeout(init, id)
  }

  /** How the event would finalize the command; a close after a signal does not. */
  ghost function Finishes(e: Event, id: nat, signalled: bool): Option<Finish> {
    match e
    case Close(i, exitCode) =>
      if i == id && !signalled then Some(OnClose(if exitCode.Some? then exitCode.value else 1)) else None
    case Errors(i) => if i == id then Some(OnError) else None
    case KillWait(i) => if i == id then Some(OnKillWait) else None
    case _ => None
  }

  /** The first event that finalizes the command decides how. */
  ghost function FinalizedBy(events: seq<Event>, id: nat): Option<Finish> {
    if events == [] then None
    else
      var init, last := events[..|events| - 1], events[|events| - 1];
      var before := FinalizedBy(init, id);
      if before.Some? then before else Finishes(last, id, SignalIn(init))
  }

  /** Whether the log stream has ended, and whether it failed. */
  ghost function LogEnd(events: seq<Event>, id: nat): Option<bool> {
    if events == [] then None
    else
      var init, last := events[..|events| - 1], events[|events| - 1];
      if last.LogFinished? && last.id == id then Some(last.failed) else LogEnd(init, id)
  }

  /** What the trace says about one command. */
  datatype Facts = Facts(check: bool, hasTimeout: bool, timedOut: bool, finalizedBy: Option<Finish>, logEnd: Option<bool>)

  ghost function FactsOf(events: seq<Event>, id: nat): Facts {
    Facts(Checks(events, id), HasTimeout(events, id), TimeoutIn(events, id), FinalizedBy(events, id), LogEnd(events, id))
  }

  /** What a finalized command settles with when its log ends. */
  ghost function Judge(f: Facts): Outcome
    requires f.finalizedBy.Some? && f.logEnd.Some?
  {
    if f.logEnd.value then LogFailed
    else
      match f.finalizedBy.value
      case OnError => ChildError
      case OnKillWait => NotTerminated
      case OnClose(exitCode) =>
        if f.timedOut then TimedOut else if f.check && exitCode != 0 then CheckFailed(exitCode) else Resolved(exitCode)
  }

  /** The variables that belong to the facts: nothing in them is left open. */
  ghost function ChildOf(f: Facts): Child
    requires f.logEnd.Some? ==> f.finalizedBy.Some?
  {
    var final := f.finalizedBy.Some?;
    Child(f.check, f.timedOut, final, f.hasTimeout && !f.timedOut && !final, f.timedOut && !final,
          if f.logEnd.Some? then None else f.finalizedBy, if f.logEnd.Some? then [Judge(f)] else [])
  }

  /** The facts, one event later. */
  ghost function NextFacts(f: Facts, e: Event, id: nat, signalled: bool): Facts {
    f.(timedOut := f.timedOut || (e.Timeout? && e.id == id),
       finalizedBy := if f.finalizedBy.Some? then f.finalizedBy else Finishes(e, id, signalled),
       logEnd := if e.LogFinished? && e.id == id then Some(e.failed) else f.logEnd)
  }

  lemma StepChild(w: World, e: Event, id: nat, f: Facts)
    requires Enabled(w, e) && id < |w.children|
    requires (f.logEnd.Some? ==> f.finalizedBy.Some?) && w.children[id] == ChildOf(f)
    ensures id < |Step(w, e).children|
    ensures var g := NextFacts(f, e, id, w.exitCode.Some?);
            (g.logEnd.Some? ==> g.finalizedBy.Some?) && Step(w, e).children[id] == ChildOf(g)
  {}

  lemma FactsSnoc(past: seq<Event>, e: Event, id: nat)
    requires id < SpawnCount(past)
    ensures FactsOf(past + [e], id) == NextFacts(FactsOf(past, id), e, id, SignalIn(past))
  {
    EventsSnoc(past, e);
  }

  /** The variables of a command, read off the trace. */
  ghost predicate ChildExplained(events: seq<Event>, id: nat)
    requires id < |Run(events).children|
  {
    && (LogEnd(events, id).Some? ==> FinalizedBy(events, id).Some?)
    && Run(events).children[id] == ChildOf(FactsOf(events, id))
  }

  /** Nothing happens to a command before it is spawned. */
  lemma {:induction false} NotYet(events: seq<Event>, id: nat)
    requires Possible(events) && |Run(events).children| <= id
    ensures FinalizedBy(events, id).None? && LogEnd(events, id).None? && !TimeoutIn(events, id)
  {
    if events != [] {
      var past, e := events[..|events| - 1], events[|events| - 1];
      assert events == past + [e];
      NotYet(past, id);
      EventsSnoc(past, e);
    }
  }

  lemma {:induction false} ChildrenExplained(events: seq<Event>, id: nat)
    requires Possible(events) && id < |Run(events).children|
    ensures ChildExplained(events, id)
  {
    var past, e := events[..|events| - 1], events[|events| - 1];
    assert events == past + [e];
    RunTraced(past);
    if id < |Run(past).children| {
      ChildrenExplained(past, id);
      StepChild(Run(past), e, id, FactsOf(past, id));
      FactsSnoc(past, e, id);
    } else {
      NotYet(past, id);
      EventsSnoc(past, e);
    }
  }

  /** A command resolves exactly when its log ended well after a close that came before any signal, in time and with an accepted code. */
  lemma ResolvesIff(events: seq<Event>, id: nat, exitCode: int)
    requires Possible(events) && id < |Run(events).children|
    ensures Run(events).children[id].settlements == [Resolved(exitCode)] <==>
            && LogEnd(events, id) == Some(false) && FinalizedBy(events, id) == Some(OnClose(exitCode))
            && !TimeoutIn(events, id) && (Checks(events, id) ==> exitCode == 0)
  {
    ChildrenExplained(events, id);
    var settlements := Run(events).children[id].settlements;
    assert settlements != [] ==> settlements == [settlements[0]];
  }

  /** Which settlement it is, by what finalized the command and how its log ended. */
  ghost predicate SettlesAs(logFailed: bool, how: Finish, timedOut: bool, check: bool, o: Outcome) {
    && (o.LogFailed? <==> logFailed)
    && (o.ChildError? <==> !logFailed && how.OnError?)
    && (o.NotTerminated? <==> !logFailed && how.OnKillWait?)
    && (o.TimedOut? <==> !logFailed && how.OnClose? && timedOut)
    && (o.CheckFailed? <==> !logFailed && how.OnClose? && !timedOut && check && how.exitCode != 0)
    && (o.Resolved? <==> !logFailed && how.OnClose? && !timedOut && (check ==> how.exitCode == 0))
    && (o.CheckFailed? || o.Resolved? ==> how.OnClose? && o.exitCode == how.exitCode)
  }

  /** A command settles when its log ends, and as its trace says. */
  lemma SettlementIs(events: seq<Event>, id: nat)
    requires Possible(events) && id < |Run(events).children|
    ensures var settlements := Run(events).children[id].settlements;
            if LogEnd(events, id).None? then settlements == []
            else
              && |settlements| == 1 && FinalizedBy(events, id).Some?
              && SettlesAs(LogEnd(events, id).value, FinalizedBy(events, id).value, TimeoutIn(events, id), Checks(events, id), settlements[0])
  {
    ChildrenExplained(events, id);
  }

  /** Event `i` finalizes the command: a close before any signal, an error, or the second timer. */
  ghost predicate Finalizing(events: seq<Event>, id: nat, i: nat)
    requires i < |events|
  {
    || (events[i].Close? && events[i].id == id && !SignalIn(events[..i]))
    || (events[i].Errors? && events[i].id == id)
    || (events[i].KillWait? && events[i].id == id)
  }

  /** Event `i` is the first that does, and this is how. */
  ghost predicate FinalizedAt(events: seq<Event>, id: nat, i: nat, finish: Finish) {
    && i < |events| && Finalizing(events, id, i) && (forall j :: 0 <= j < i ==> !Finalizing(events, id, j))
    && finish ==
       (if events[i].Close? then OnClose(if events[i].exitCode.Some? then events[i].exitCode.value else 1)
        else if events[i].Errors? then OnError
        else OnKillWait)
  }

  /** The first finalizing event, if there is one. */
  ghost predicate FirstFinish(events: seq<Event>, id: nat, r: Option<Finish>) {
    match r
    case None => forall i :: 0 <= i < |events| ==> !Finalizing(events, id, i)
    case Some(finish) => exists i: nat :: FinalizedAt(events, id, i, finish)
  }

  lemma FinishMore(init: seq<Event>, last: Event, id: nat, r: Option<Finish>)
    requires FirstFinish(init, id, r)
    ensures FirstFinish(init + [last], id, if r.Some? then r else Finishes(last, id, SignalIn(init)))
  {
    var events := init + [last];
    forall i | 0 <= i < |init|
      ensures Finalizing(events, id, i) <==> Finalizing(init, id, i)
    {
      assert events[i] == init[i] && events[..i] == init[..i];
    }
    assert events[|init|] == last && events[..|init|] == init;
    if r.Some? {
      var i: nat :| FinalizedAt(init, id, i, r.value);
      assert FinalizedAt(events, id, i, r.value);
    } else if Finishes(last, id, SignalIn(init)).Some? {
      assert FinalizedAt(events, id, |init|, Finishes(last, id, SignalIn(init)).value);
    }
  }

  /** `FinalizedBy` names the first finalizing event; there is none exactly when no event finalizes. */
  lemma {:induction false} FinalizedByFirst(events: seq<Event>, id: nat)
    ensures FirstFinish(events, id, FinalizedBy(events, id))
  {
    if events != [] {
      var init, last := events[..|events| - 1], events[|events| - 1];
      assert events == init + [last];
      FinalizedByFirst(init, id);
      FinishMore(init, last, id, FinalizedBy(init, id));
    }
  }

  /** Only a close before the first signal finalizes as a close. */
  lemma {:induction false} FinalizedEarly(events: seq<Event>, id: nat)
    ensures FinalizedBy(events, id).Some? && FinalizedBy(events, id).value.OnClose? ==> ClosedIn(BeforeSignal(events), id)
  {
    if events != [] {
      var init, last := events[..|events| - 1], events[|events| - 1];
      assert events == init + [last];
      FinalizedEarly(init, id);
      EventsSnoc(init, last);
      BeforeSignalLive(init, id);
    }
  }

  /** A command's promise is settled at most once. */
  lemma SettlesAtMostOnce(events: seq<Event>, id: nat)
    requires Possible(events) && id < |Run(events).children|
    ensures |Run(events).children[id].settlements| <= 1
  {
    ChildrenExplained(events, id);
  }

  /** A timed-out command never resolves. */
  lemma TimedOutNeverResolves(events: seq<Event>, id: nat)
    requires Possible(events) && id < |Run(events).children| && TimeoutIn(events, id)
    ensures forall o :: o in Run(events).children[id].settlements ==> !o.Resolved?
  {
    ChildrenExplained(events, id);
  }

  /** Only a close delivered before the first signal can lead to a resolve. */
  lemma CloseAfterSignalNeverResolves(events: seq<Event>, id: nat)
    requires Possible(events) && id < |Run(events).children| && !ClosedIn(BeforeSignal(events), id)
    ensures forall o :: o in Run(events).children[id].settlements ==> !o.Resolved?
  {
    ChildrenExplained(events, id);
    FinalizedEarly(events, id);
  }

  /** A timed-out command is never stuck: until it is finalized its second timer is armed, and firing it finalizes. */
  lemma TimedOutIsFinalized(events: seq<Event>, id: nat)
    requires Possible(events) && Run(events).exited.None?
    requires id < |Run(events).children| && TimeoutIn(events, id) && !Run(events).children[id].settled
    ensures Possible(events + [KillWait(id)]) && Run(events + [KillWait(id)]).children[id].settled
  {
    ChildrenExplained(events, id);
    assert (events + [KillWait(id)])[..|events|] == events;
  }

  // ---------------------------------------------------------------- the imperative supervisor

  /** The module-level variables and the event handlers. */
  class Supervisor {
    var children: seq<Child>
    var registry: set<nat>
    var forwardedSignalExitCode: Option<nat>
    var forceKillTimer: Option<set<nat>>
    var exited: Option<nat>
    var killed: set<nat>
    var forwarded: seq<(Signal, set<nat>)>
    ghost var trace: seq<Event>

    ghost function View(): World
      reads this
    {
      World(children, registry, forwardedSignalExitCode, forceKillTimer, exited, killed, forwarded)
    }

    ghost predicate Valid()
      reads this
    {
      Possible(trace) && View() == Run(trace)
    }

    constructor ()
      ensures Valid() && trace == []
    {
      children, registry, forwardedSignalExitCode, forceKillTimer, exited, killed := [], {}, None, None, None, {};
      forwarded, trace := [], [];
    }

    ghost method Log(e: Event)
      requires Possible(trace) && Enabled(Run(trace), e) && View() == Step(Run(trace), e)
      modifies this`trace
      ensures Valid() && trace == old(trace) + [e]
    {
      trace := trace + [e];
      assert trace[..|trace| - 1] == old(trace);
    }

    method SpawnChild(check: bool, hasTimeout: bool) returns (id: nat)
      requires Valid() && exited.None?
      modifies this
      ensures Valid() && trace == old(trace) + [Spawn(check, hasTimeout)] && id == |old(children)|
    {
      id := |children|;
      children := children + [Child(check, false, false, hasTimeout, false, None, [])];
      registry := registry + {id};
      Log(Spawn(check, hasTimeout));
    }

    /** Send SIGKILL to the captured children, one after the other. */
    method KillTrees(killers: set<nat>)
      modifies this`killed
      ensures killed == old(killed) + killers
    {
      var rest := killers;
      while rest != {}
        invariant rest <= killers && killed == old(killed) + (killers - rest)
        decreases |rest|
      {
        var id :| id in rest;
        killed := killed + {id};
        rest := rest - {id};
      }
    }

    method OnSignal(signal: Signal)
      requires Valid() && exited.None?
      modifies this
      ensures Valid() && trace == old(trace) + [Signalled(signal)]
    {
      if forwardedSignalExitCode.None? {
        forwardedSignalExitCode := Some(ExitCodeOf(signal));
      }
      if |registry| == 0 {
        exited := forwardedSignalExitCode;
      } else {
        var activeKillers := registry;
        forwarded := forwarded + [(signal, activeKillers)];
        if forceKillTimer.None? {
          forceKillTimer := Some(activeKillers);
        }
      }
      Log(Signalled(signal));
    }

    method OnForceKill()
      requires Valid() && exited.None? && forceKillTimer.Some?
      modifies this
      ensures Valid() && trace == old(trace) + [ForceKill]
    {
      KillTrees(forceKillTimer.value);
      forceKillTimer := None;
      exited := forwardedSignalExitCode;
      Log(ForceKill);
    }

    method FinalizeChild(id: nat, finish: Finish)
      requires id < |children|
      modifies this`children
      ensures children == old(children)[id := Finalize(old(children)[id], finish)]
    {
      var c := children[id];
      if c.settled {
        return;
      }
      c := c.(settled := true);
      c := c.(timerArmed := false, killWaitArmed := false);
      children := children[id := c.(finishing := Some(finish))];
    }

    method OnTimeout(id: nat)
      requires Valid() && Enabled(View(), Timeout(id))
      modifies this
      ensures Valid() && trace == old(trace) + [Timeout(id)]
    {
      children := children[id := children[id].(timedOut := true, timerArmed := false)];
      killed := killed + {id};
      children := children[id := children[id].(killWaitArmed := true)];
      Log(Timeout(id));
    }

    method OnKillWait(id: nat)
      requires Valid() && Enabled(View(), KillWait(id))
      modifies this
      ensures Valid() && trace == old(trace) + [KillWait(id)]
    {
      children := children[id := children[id].(killWaitArmed := false)];
      FinalizeChild(id, Finish.OnKillWait);
      Log(KillWait(id));
    }

    method OnError(id: nat)
      requires Valid() && Enabled(View(), Errors(id))
      modifies this
      ensures Valid() && trace == old(trace) + [Errors(id)]
    {
      registry := registry - {id};
      FinalizeChild(id, Finish.OnError);
      Log(Errors(id));
    }

    method OnClose(id: nat, exitCode: Option<int>)
      requires Valid() && Enabled(View(), Close(id, exitCode))
      modifies this
      ensures Valid() && trace == old(trace) + [Close(id, exitCode)]
    {
      registry := registry - {id};
      if forwardedSignalExitCode.None? {
        FinalizeChild(id, Finish.OnClose(if exitCode.Some? then exitCode.value else 1));
      }
      Log(Close(id, exitCode));
    }

    method OnLogFinished(id: nat, failed: bool)
      requires Valid() && Enabled(View(), LogFinished(id, failed))
      modifies this
      ensures Valid() && trace == old(trace) + [LogFinished(id, failed)]
    {
      var c := children[id];
      var outcome;
      if failed {
        outcome := LogFailed;
      } else if c.finishing.value.OnError? {
        outcome := ChildError;
      } else if c.finishing.value.OnKillWait? {
        outcome := NotTerminated;
      } else if c.timedOut {
        outcome := TimedOut;
      } else if c.check && c.finishing.value.exitCode != 0 {
        outcome := CheckFailed(c.finishing.value.exitCode);
      } else {
        outcome := Resolved(c.finishing.value.exitCode);
      }
      children := children[id := c.(finishing := None, settlements := c.settlements + [outcome])];
      Log(LogFinished(id, failed));
    }
  }
}
