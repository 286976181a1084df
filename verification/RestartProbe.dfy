/** `waitForRestartProbe`: polling one HTTP path across a gateway restart. */
module RestartProbe {
  import opened Common

  /** One request: when it was answered, its status, and the kind of failure. */
  datatype Attempt = Attempt(ms: real, status: Option<nat>, errorKind: Option<string>)

  /** What the loop sees before its next request, and what the request would bring. */
  datatype Poll = Poll(deadlinePassed: bool, processDone: bool, done: bool, attempt: Attempt)

  datatype Transition = Transition(ms: real, status: Option<nat>, errorKind: Option<string>)

  datatype ProbeResult = ProbeResult(
    downtimeMs: Option<real>, firstErrorKind: Option<string>, firstRecoveryMs: Option<real>, ms: Option<real>,
    status: Option<nat>, transitions: seq<Transition>, unavailableMs: Option<real>)

  /** What the loop compares to notice a change: the status, and the kind of failure or "ok". */
  datatype Key = Key(status: Option<nat>, kind: string)

  function StateKey(a: Attempt): Key {
    Key(a.status, if a.errorKind.Some? then a.errorKind.value else "ok")
  }

  /** The text the loop builds for a key. */
  function KeyText(k: Key): string {
    (if k.status.Some? then Decimal(k.status.value) else "none") + ":" + k.kind
  }

  /** Comparing the texts is comparing the keys. */
  lemma KeyTextInjective(a: Key, b: Key)
    requires KeyText(a) == KeyText(b)
    ensures a == b
  {
    var s := if a.status.Some? then Decimal(a.status.value) else "none";
    var t := if b.status.Some? then Decimal(b.status.value) else "none";
    assert ':' !in "none";
    CutUnique(s, a.kind, t, b.kind);
    assert "none"[0] == 'n';
  }

  /** The first colon of a text determines what is before and after it. */
  lemma {:induction false} CutUnique(s: string, x: string, t: string, y: string)
    requires ':' !in s && ':' !in t && s + ":" + x == t + ":" + y
    ensures s == t && x == y
  {
    var u, v := s + ":" + x, t + ":" + y;
    if s == "" {
      assert u == ":" + x && u[0] == ':' && t == "";
      assert v == ":" + y;
      assert u[1..] == x && v[1..] == y;
    } else {
      assert t != "" by { assert u[0] == s[0] && v[0] == u[0]; }
      assert u[1..] == s[1..] + ":" + x && v[1..] == t[1..] + ":" + y;
      assert u[1..] == v[1..];
      CutUnique(s[1..], x, t[1..], y);
      assert s[0] == u[0] == v[0] == t[0];
      assert s == [s[0]] + s[1..] && t == [t[0]] + t[1..];
    }
  }

  function Kind(a: Attempt): Option<string> { if a.errorKind == Some("") then None else a.errorKind }

  predicate Up(a: Attempt) { a.status == Some(200) }

  function TransitionOf(a: Attempt): Transition { Transition(a.ms, a.status, Kind(a)) }

  // ---------------------------------------------------------------- the specification

  ghost predicate NeverDown(attempts: seq<Attempt>) { forall i :: 0 <= i < |attempts| ==> Up(attempts[i]) }

  ghost predicate Recovered(attempts: seq<Attempt>) {
    |attempts| > 0 && Up(attempts[|attempts| - 1]) && !NeverDown(attempts)
  }

  ghost function AttemptsOf(polls: seq<Poll>, n: nat): seq<Attempt>
    requires n <= |polls|
  {
    seq(n, i requires 0 <= i < n => polls[i].attempt)
  }

  /** The probe stops after `n` requests. */
  ghost predicate StopsAfter(polls: seq<Poll>, n: nat)
    requires n <= |polls|
  {
    || Recovered(AttemptsOf(polls, n))
    || n == |polls| || polls[n].deadlinePassed || polls[n].processDone
    || (polls[n].done && n > 0 && NeverDown(AttemptsOf(polls, n)))
  }

  /** No reason to stop applied before any of the first `n` requests. */
  ghost predicate GoesOn(polls: seq<Poll>, n: nat)
    requires n <= |polls|
  {
    n == 0 || (GoesOn(polls, n - 1) && !StopsAfter(polls, n - 1))
  }

  /** The kind of the first failure. */
  ghost function FirstKind(attempts: seq<Attempt>): Option<string> {
    if attempts == [] then None
    else
      var before := FirstKind(attempts[..|attempts| - 1]);
      if before.Some? then before else Kind(attempts[|attempts| - 1])
  }

  /** When the first attempt failed. */
  ghost function DownSince(attempts: seq<Attempt>): Option<real> {
    if attempts == [] then None
    else
      var before, last := DownSince(attempts[..|attempts| - 1]), attempts[|attempts| - 1];
      if before.Some? then before else if Up(last) then None else Some(last.ms)
  }

  /** One transition for each attempt whose state differs from the one before. */
  ghost function Changes(attempts: seq<Attempt>): seq<Transition> {
    if attempts == [] then []
    else
      var init, last := attempts[..|attempts| - 1], attempts[|attempts| - 1];
      if init == [] || StateKey(last) != StateKey(init[|init| - 1]) then Changes(init) + [TransitionOf(last)]
      else Changes(init)
  }

  /** The result, computed from the attempts alone. */
  ghost function ReportOf(attempts: seq<Attempt>): ProbeResult {
    var down := DownSince(attempts);
    if attempts == [] then ProbeResult(None, None, None, None, None, [], None)
    else
      var last := attempts[|attempts| - 1];
      var recovered := Up(last) && down.Some?;
      ProbeResult(
        if recovered then Some(last.ms - down.value) else None,
        FirstKind(attempts),
        if recovered then Some(last.ms) else None,
        if recovered || down.None? then Some(last.ms) else None,
        last.status,
        Changes(attempts),
        down)
  }

  lemma {:induction false} DownSinceMeaning(attempts: seq<Attempt>)
    ensures DownSince(attempts).None? <==> NeverDown(attempts)
  {
    if attempts != [] {
      DownSinceMeaning(attempts[..|attempts| - 1]);
    }
  }

  /** The attempts are the first requests of the polls, and nothing stopped the loop before any of them. */
  ghost predicate Ran(polls: seq<Poll>, attempts: seq<Attempt>) {
    |attempts| <= |polls| && attempts == AttemptsOf(polls, |attempts|) && GoesOn(polls, |attempts|)
  }

  lemma RanOnce(polls: seq<Poll>, past: seq<Attempt>)
    requires Ran(polls, past) && |past| < |polls| && !StopsAfter(polls, |past|)
    ensures Ran(polls, past + [polls[|past|].attempt])
  {
  }

  /** The specification, one attempt further. */
  lemma OneMore(past: seq<Attempt>, a: Attempt)
    ensures FirstKind(past + [a]) == if FirstKind(past).Some? then FirstKind(past) else Kind(a)
    ensures DownSince(past + [a]) == if DownSince(past).Some? || Up(a) then DownSince(past) else Some(a.ms)
    ensures Changes(past + [a]) ==
            if past != [] && StateKey(past[|past| - 1]) == StateKey(a) then Changes(past) else Changes(past) + [TransitionOf(a)]
  {
    assert (past + [a])[..|past|] == past;
  }

  /** The variables of the loop. */
  datatype Seen = Seen(
    firstErrorKind: Option<string>, lastStatus: Option<nat>, lastStateKey: Option<Key>,
    lastSuccessMs: Option<real>, unavailableMs: Option<real>, transitions: seq<Transition>)

  /** They are those of the attempts so far, of which none recovered. */
  ghost predicate Tracks(v: Seen, attempts: seq<Attempt>) {
    && v.firstErrorKind == FirstKind(attempts) && v.unavailableMs == DownSince(attempts) && v.transitions == Changes(attempts)
    && (v.unavailableMs.None? <==> NeverDown(attempts))
    && if attempts == [] then v.lastStatus.None? && v.lastStateKey.None? && v.lastSuccessMs.None?
       else TracksLast(v, attempts[|attempts| - 1])
  }

  predicate TracksLast(v: Seen, last: Attempt) {
    && v.lastStatus == last.status && v.lastStateKey == Some(StateKey(last))
    && (v.unavailableMs.None? <==> Up(last)) && (v.unavailableMs.None? ==> v.lastSuccessMs == Some(last.ms))
  }

  /** The variables after one more attempt. */
  ghost function Noticed(v: Seen, a: Attempt): Seen {
    Seen(if v.firstErrorKind.Some? then v.firstErrorKind else Kind(a), a.status, Some(StateKey(a)),
         if Up(a) then Some(a.ms) else v.lastSuccessMs,
         if v.unavailableMs.Some? || Up(a) then v.unavailableMs else Some(a.ms),
         if v.lastStateKey == Some(StateKey(a)) then v.transitions else v.transitions + [TransitionOf(a)])
  }

  lemma NoticedTracks(v: Seen, past: seq<Attempt>, a: Attempt)
    requires Tracks(v, past) && (Up(a) ==> v.unavailableMs.None?)
    ensures Tracks(Noticed(v, a), past + [a])
  {
    OneMore(past, a);
    DownSinceMeaning(past + [a]);
  }

  /** A success after a failure ends the probe. */
  lemma RecoveredReport(v: Seen, past: seq<Attempt>, a: Attempt)
    requires Tracks(v, past) && Up(a) && v.unavailableMs.Some?
    ensures Recovered(past + [a])
    ensures var t := Noticed(v, a);
            ReportOf(past + [a]) == ProbeResult(Some(a.ms - v.unavailableMs.value), t.firstErrorKind, Some(a.ms), Some(a.ms),
                                                a.status, t.transitions, v.unavailableMs)
  {
    OneMore(past, a);
    DownSinceMeaning(past + [a]);
  }

  /** Any other end. */
  lemma PlainReport(v: Seen, attempts: seq<Attempt>)
    requires Tracks(v, attempts)
    ensures !Recovered(attempts)
    ensures ReportOf(attempts) == ProbeResult(None, v.firstErrorKind, None,
                                              if v.unavailableMs.None? then v.lastSuccessMs else None,
                                              v.lastStatus, v.transitions, v.unavailableMs)
  {
  }

  lemma AttemptsAre(polls: seq<Poll>, attempts: seq<Attempt>)
    requires Ran(polls, attempts)
    ensures AttemptsOf(polls, |attempts|) == attempts
  {
  }

  /** The assignments of the loop for one response. */
  method Notice(v: Seen, attempt: Attempt) returns (r: Seen)
    ensures r == Noticed(v, attempt)
  {
    r := v.(lastStatus := attempt.status);
    var stateKey := StateKey(attempt);
    if Some(stateKey) != r.lastStateKey {
      r := r.(transitions := r.transitions + [Transition(attempt.ms, attempt.status, Kind(attempt))]);
      r := r.(lastStateKey := Some(stateKey));
    }
    if Kind(attempt).Some? && r.firstErrorKind.None? {
      r := r.(firstErrorKind := attempt.errorKind);
    }
    if attempt.status != Some(200) && r.unavailableMs.None? {
      r := r.(unavailableMs := Some(attempt.ms));
    }
    if attempt.status == Some(200) {
      r := r.(lastSuccessMs := Some(attempt.ms));
    }
  }

  /** `waitForRestartProbe`; `attempts` are the requests it made. */
  method WaitForRestartProbe(polls: seq<Poll>) returns (r: ProbeResult, attempts: seq<Attempt>)
    ensures Ran(polls, attempts) && StopsAfter(polls, |attempts|)
    ensures r == ReportOf(attempts)
  {
    var v := Seen(None, None, None, None, None, []);
    attempts := [];
    while |attempts| < |polls| && !polls[|attempts|].deadlinePassed
      invariant Ran(polls, attempts) && Tracks(v, attempts)
      decreases |polls| - |attempts|
    {
      ghost var past := attempts;
      AttemptsAre(polls, past);
      PlainReport(v, past);
      var poll := polls[|attempts|];
      if poll.processDone {
        break;
      }
      if poll.done && v.unavailableMs.None? && v.lastSuccessMs.Some? {
        r := ProbeResult(None, v.firstErrorKind, None, v.lastSuccessMs, Some(200), v.transitions, None);
        return;
      }
      RanOnce(polls, past);
      var attempt := poll.attempt;
      attempts := attempts + [attempt];
      AttemptsAre(polls, attempts);
      if attempt.status == Some(200) && v.unavailableMs.Some? {
        RecoveredReport(v, past, attempt);
      } else {
        NoticedTracks(v, past, attempt);
      }
      v := Notice(v, attempt);
      if attempt.status == Some(200) && v.unavailableMs.Some? {
        r := ProbeResult(Some(attempt.ms - v.unavailableMs.value), v.firstErrorKind, Some(attempt.ms), Some(attempt.ms),
                         attempt.status, v.transitions, v.unavailableMs);
        return;
      }
    }
    PlainReport(v, attempts);
    r := ProbeResult(None, v.firstErrorKind, None, if v.unavailableMs.None? then v.lastSuccessMs else None,
                     v.lastStatus, v.transitions, v.unavailableMs);
  }

  // ---------------------------------------------------------------- what the specification means

  /** The first attempt that was not answered with 200. */
  ghost predicate FirstDown(attempts: seq<Attempt>, f: nat) {
    f < |attempts| && !Up(attempts[f]) && forall i :: 0 <= i < f ==> Up(attempts[i])
  }

  lemma {:induction false} FindFirstDown(attempts: seq<Attempt>) returns (f: nat)
    requires !NeverDown(attempts)
    ensures FirstDown(attempts, f) && DownSince(attempts) == Some(attempts[f].ms)
  {
    var init := attempts[..|attempts| - 1];
    DownSinceMeaning(init);
    if NeverDown(init) {
      f := |attempts| - 1;
    } else {
      f := FindFirstDown(init);
    }
  }

  /** A time is reported exactly when the probe recovered, or never failed and succeeded at least once. */
  lemma ReportsTimeIff(attempts: seq<Attempt>)
    ensures ReportOf(attempts).ms.Some? <==> Recovered(attempts) || (NeverDown(attempts) && attempts != [])
    ensures ReportOf(attempts).downtimeMs.Some? <==> Recovered(attempts)
    ensures ReportOf(attempts).unavailableMs.None? <==> NeverDown(attempts)
  {
    DownSinceMeaning(attempts);
  }

  /**
   * The whole report, from the attempts: the last status; the times of the last request where a time is due,
   * measured from the first failure for the downtime.
   */
  lemma ReportIs(attempts: seq<Attempt>) returns (f: nat)
    requires attempts != []
    ensures var r, last := ReportOf(attempts), attempts[|attempts| - 1];
            && r.status == last.status && r.transitions == Changes(attempts) && r.firstErrorKind == FirstKind(attempts)
            && (NeverDown(attempts) ==>
                  r.ms == Some(last.ms) && r.downtimeMs == None && r.firstRecoveryMs == None && r.unavailableMs == None)
            && (!NeverDown(attempts) ==>
                  FirstDown(attempts, f) && r.unavailableMs == Some(attempts[f].ms)
                  && if last.status == Some(200) then
                       r.ms == Some(last.ms) && r.firstRecoveryMs == Some(last.ms)
                       && r.downtimeMs == Some(last.ms - attempts[f].ms)
                     else r.ms == None && r.firstRecoveryMs == None && r.downtimeMs == None)
  {
    DownSinceMeaning(attempts);
    f := 0;
    if !NeverDown(attempts) {
      f := FindFirstDown(attempts);
    }
  }

  /** Request times never decrease, as `performance.now()` does not. */
  ghost predicate Monotone(attempts: seq<Attempt>) {
    forall i, j :: 0 <= i <= j < |attempts| ==> attempts[i].ms <= attempts[j].ms
  }

  /**
   * When the probe recovered, the outage is one solid stretch: everything before it was up, everything from
   * the reported start to the last request was down, and the downtime is its non-negative length.
   */
  lemma RecoveredOutage(polls: seq<Poll>, attempts: seq<Attempt>) returns (f: nat)
    requires Ran(polls, attempts)
    requires ReportOf(attempts).downtimeMs.Some? && Monotone(attempts)
    ensures FirstDown(attempts, f) && f < |attempts| - 1 && Up(attempts[|attempts| - 1])
    ensures forall i :: f <= i < |attempts| - 1 ==> !Up(attempts[i])
    ensures ReportOf(attempts).unavailableMs == Some(attempts[f].ms)
    ensures ReportOf(attempts).downtimeMs.value == attempts[|attempts| - 1].ms - attempts[f].ms >= 0.0
  {
    ReportsTimeIff(attempts);
    f := FindFirstDown(attempts);
    forall i | f < i < |attempts| - 1
      ensures !Up(attempts[i])
    {
      StillDown(polls, attempts, f, i, |attempts|);
    }
  }

  /** A success after a failure would have ended the probe. */
  lemma {:induction false} StillDown(polls: seq<Poll>, attempts: seq<Attempt>, f: nat, i: nat, n: nat)
    requires |attempts| <= |polls| && attempts == AttemptsOf(polls, |attempts|)
    requires f < i < n - 1 < |attempts| && !Up(attempts[f]) && GoesOn(polls, n)
    ensures !Up(attempts[i])
  {
    if i == n - 2 {
      var early := AttemptsOf(polls, n - 1);
      assert early[f] == attempts[f] && early[i] == attempts[i];
      assert !StopsAfter(polls, n - 1);
    } else {
      StillDown(polls, attempts, f, i, n - 1);
    }
  }

  /** The attempt names no kind of failure. */
  ghost predicate Unnamed(a: Attempt) { a.errorKind.None? || a.errorKind.value == "" }

  /** The reported kind is that of the first attempt that has one. */
  lemma {:induction false} FirstKindMeaning(attempts: seq<Attempt>)
    ensures match FirstKind(attempts)
            case None => forall i :: 0 <= i < |attempts| ==> Unnamed(attempts[i])
            case Some(kind) => exists i :: 0 <= i < |attempts| && attempts[i].errorKind == Some(kind) && kind != ""
                                           && forall j :: 0 <= j < i ==> Unnamed(attempts[j])
  {
    if attempts != [] {
      var init := attempts[..|attempts| - 1];
      FirstKindMeaning(init);
      assert forall i :: 0 <= i < |init| ==> init[i] == attempts[i];
    }
  }

  /** The same status and the same kind of failure; no kind is named like the kind "ok". */
  ghost predicate SameState(a: Attempt, b: Attempt) {
    a.status == b.status && (a.errorKind == b.errorKind || (Plain(a) && Plain(b)))
  }

  ghost predicate Plain(a: Attempt) { a.errorKind.None? || a.errorKind == Some("ok") }

  /** A transition holds the time, the status and the kind of failure, unless that is empty. */
  ghost predicate Records(t: Transition, a: Attempt) {
    && t.ms == a.ms && t.status == a.status
    && (a.errorKind == Some("") || a.errorKind == None ==> t.errorKind == None)
    && (a.errorKind.Some? && a.errorKind.value != "" ==> t.errorKind == a.errorKind)
  }

  lemma StateKeyIff(a: Attempt, b: Attempt)
    ensures StateKey(a) == StateKey(b) <==> SameState(a, b)
    ensures Records(TransitionOf(a), a)
  {
  }

  /** A run: consecutive attempts in one state. */
  ghost predicate OneState(run: seq<Attempt>) {
    run != [] && forall i :: 0 <= i < |run| ==> SameState(run[i], run[0])
  }

  /** The runs are maximal: neighbours are in different states. */
  ghost predicate Maximal(runs: seq<seq<Attempt>>) {
    && (forall j :: 0 <= j < |runs| ==> OneState(runs[j]))
    && (forall j :: 0 < j < |runs| ==> !SameState(runs[j][0], runs[j - 1][0]))
  }

  ghost function FirstOfEach(runs: seq<seq<Attempt>>): seq<Transition> {
    if runs == [] then []
    else
      var run := runs[|runs| - 1];
      FirstOfEach(runs[..|runs| - 1]) + if run == [] then [] else [TransitionOf(run[0])]
  }

  /**
   * The transitions are the run-length compression of the attempts: the attempts fall into maximal runs of
   * one state each, and the transitions are the first attempts of these runs, in order.
   */
  lemma TransitionsAreRuns(attempts: seq<Attempt>) returns (runs: seq<seq<Attempt>>)
    ensures Concat(runs) == attempts
    ensures Maximal(runs)
    ensures FirstOfEach(runs) == Changes(attempts) && Starts(Changes(attempts), runs)
  {
    runs := RunsOf(attempts);
    StartsOf(runs);
  }

  /** One transition for each run, made by its first attempt. */
  ghost predicate Starts(transitions: seq<Transition>, runs: seq<seq<Attempt>>) {
    && |transitions| == |runs|
    && forall j :: 0 <= j < |runs| ==> runs[j] != [] && Records(transitions[j], runs[j][0])
  }

  lemma {:induction false} StartsOf(runs: seq<seq<Attempt>>)
    requires forall j :: 0 <= j < |runs| ==> runs[j] != []
    ensures Starts(FirstOfEach(runs), runs)
  {
    if runs != [] {
      StartsOf(runs[..|runs| - 1]);
      StateKeyIff(runs[|runs| - 1][0], runs[|runs| - 1][0]);
    }
  }

  /** The attempts fall into these runs, and their transitions are the first attempts. */
  ghost predicate Compresses(runs: seq<seq<Attempt>>, attempts: seq<Attempt>) {
    Concat(runs) == attempts && Maximal(runs) && FirstOfEach(runs) == Changes(attempts)
  }

  lemma {:induction false} RunsOf(attempts: seq<Attempt>) returns (runs: seq<seq<Attempt>>)
    ensures Compresses(runs, attempts)
  {
    if attempts == [] {
      runs := [];
    } else {
      var init, last := attempts[..|attempts| - 1], attempts[|attempts| - 1];
      var before := RunsOf(init);
      assert attempts == init + [last];
      runs := OneMoreAttempt(before, init, last);
    }
  }

  /** One more attempt opens a run or extends the last one. */
  lemma OneMoreAttempt(before: seq<seq<Attempt>>, init: seq<Attempt>, last: Attempt) returns (runs: seq<seq<Attempt>>)
    requires Compresses(before, init)
    ensures Compresses(runs, init + [last])
  {
    JoinedLast(before);
    assert (init + [last])[..|init|] == init;
    if init == [] || !SameState(last, init[|init| - 1]) {
      OpenRun(before, last);
      runs := before + [[last]];
    } else {
      ExtendRun(before, last);
      runs := before[..|before| - 1] + [before[|before| - 1] + [last]];
    }
  }

  lemma JoinedLast(runs: seq<seq<Attempt>>)
    requires Maximal(runs)
    ensures runs == [] <==> Concat(runs) == []
    ensures runs != [] ==> Concat(runs) != [] && runs[|runs| - 1] != []
    ensures runs != [] ==> StateKey(Concat(runs)[|Concat(runs)| - 1]) == StateKey(runs[|runs| - 1][0])
  {
    if runs != [] {
      var run := runs[|runs| - 1];
      assert OneState(run);
      assert StateKey(run[|run| - 1]) == StateKey(run[0]);
    }
  }

  lemma Append(runs: seq<seq<Attempt>>, run: seq<Attempt>)
    ensures Concat(runs + [run]) == Concat(runs) + run
    ensures run != [] ==> FirstOfEach(runs + [run]) == FirstOfEach(runs) + [TransitionOf(run[0])]
  {
    assert (runs + [run])[..|runs|] == runs;
  }

  lemma AppendMaximal(runs: seq<seq<Attempt>>, run: seq<Attempt>)
    requires Maximal(runs) && OneState(run)
    requires runs != [] ==> runs[|runs| - 1] != [] && !SameState(run[0], runs[|runs| - 1][0])
    ensures Maximal(runs + [run])
  {}

  lemma OpenRun(before: seq<seq<Attempt>>, last: Attempt)
    requires Maximal(before)
    requires before != [] ==> before[|before| - 1] != [] && !SameState(last, before[|before| - 1][0])
    ensures Maximal(before + [[last]])
    ensures Concat(before + [[last]]) == Concat(before) + [last]
    ensures FirstOfEach(before + [[last]]) == FirstOfEach(before) + [TransitionOf(last)]
  {
    Append(before, [last]);
    AppendMaximal(before, [last]);
  }

  lemma ExtendRun(before: seq<seq<Attempt>>, last: Attempt)
    requires Maximal(before) && before != [] && before[|before| - 1] != []
    requires StateKey(last) == StateKey(before[|before| - 1][0])
    ensures var runs := before[..|before| - 1] + [before[|before| - 1] + [last]];
            Maximal(runs) && Concat(runs) == Concat(before) + [last] && FirstOfEach(runs) == FirstOfEach(before)
  {
    var init, run := before[..|before| - 1], before[|before| - 1];
    assert before == init + [run];
    Append(init, run);
    Append(init, run + [last]);
    assert OneState(run + [last]) by {
      assert OneState(before[|before| - 1]);
    }
    AppendMaximal(init, run + [last]);
  }
}
