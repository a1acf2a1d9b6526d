// What the audit log says of a run of hooks, reaps and title rows, told from the steps alone: one row
// per step that writes one, and what the recap reads back from them (internal/hook/hook.go,
// internal/recap/recap.go).
module Journal {
  import opened Wrappers
  import opened Rows
  import opened AuditLog
  import opened Store
  import opened Hook
  import opened Lifecycle
  import opened Situation
  import opened SessionSummary
  import Recap

  // ---- the row of one step ----------------------------------------------------------------

  // A session's state as the events tell it; idle when it has no row.
  ghost function StateTold(steps: seq<Step>, sid: string): string {
    if !InTurn(steps, sid) then "idle" else if Waiting(steps, sid) then "prompt" else "working"
  }

  predicate Writes(step: Step) {
    step.Title? || (step.Invoke? && step.h.session != "")
  }

  // What an invocation moved its session to, in the words of the log.
  ghost function MoveTold(before: seq<Step>, h: Invocation): string {
    var sid, step := h.session, Invoke(h);
    var told := StateTold(before + [step], sid);
    if Fired(step, sid, "SessionEnd") then "deleted"
    else if !Appears(step, sid) then if Present(before, sid) then "unchanged" else "ignored"
    else if Present(before, sid) && StateTold(before, sid) == told then "unchanged"
    else told
  }

  // The row an invocation writes: its clock, session and event, the move, the window the session is at
  // after it, and for a notification its message, cut at 300 bytes, and whether it was taken for a
  // prompt.
  ghost predicate HookRow(before: seq<Step>, h: Invocation, e: Event) {
    && e.ts == h.now && e.session == h.session && e.event == h.event && e.windowTitle == None
    && e.newState == MoveTold(before, h)
    && e.windowId == HeldIn(Exec(before + [Invoke(h)]), h.session, Window)
    && e.message == (
         if h.event != "Notification" || h.message == "" then None
         else if |h.message| <= 300 then Some(h.message)
         else Some(h.message[..300] + "\U{E2}\U{80}\U{A6}"))
    && e.matched == (
         if h.event != "Notification" then None
         else Some(h.asksPermission && StateTold(before, h.session) != "idle"))
  }

  ghost predicate RowFits(before: seq<Step>, step: Step, e: Event) {
    match step
    case Reap(_) => false
    case Title(sid, title, windowId, now) =>
      e == Event(now, sid, "TitleChanged", None, None, "unchanged", windowId, Some(title))
    case Invoke(h) => HookRow(before, h, e)
  }

  // The row of step i.
  ghost predicate RowSays(steps: seq<Step>, i: nat, e: Event)
    requires i < |steps|
  {
    RowFits(steps[..i], steps[i], e)
  }

  lemma RowOfSession(steps: seq<Step>, sid: string)
    requires sid != ""
    ensures sid in Exec(steps).sessions <==> Present(steps, sid)
    ensures InTurn(steps, sid) ==> Present(steps, sid)
    ensures StateOf(Exec(steps), sid) == StateTold(steps, sid)
  {
    RowMeaning(steps, sid);
  }

  // The row one invocation writes, whatever came before.
  lemma HookWrites(steps: seq<Step>, h: Invocation) returns (e: Event)
    requires h.session != ""
    ensures Exec(steps + [Invoke(h)]).events == Exec(steps).events + [e]
    ensures HookRow(steps, h, e)
  {
    var all, sid, t := steps + [Invoke(h)], h.session, Exec(steps);
    assert all[..|steps|] == steps;
    RowOfSession(steps, sid);
    RowOfSession(all, sid);
    RunReplayable(steps);
    TableMeans(h, BaseRow(t, h).state);
    HookLeaves(t, h);
    if Appears(Invoke(h), sid) {
      e := KnownRow(t, h);
    } else {
      e := HookStep(t, h).events[|t.events|];
    }
  }

  // What the step logs of an event of the table that does not end the session.
  lemma KnownRow(t: Tables, h: Invocation) returns (e: Event)
    requires h.session != "" && Appears(Invoke(h), h.session)
    requires h.session in t.sessions ==> t.sessions[h.session].id == h.session
    ensures HookStep(t, h).events == t.events + [e]
    ensures e.ts == h.now && e.session == h.session && e.event == h.event && e.windowTitle == None
    ensures var told, found := StateOf(HookStep(t, h), h.session), h.session in t.sessions;
      e.newState == if found && told == StateOf(t, h.session) then "unchanged" else told
    ensures e.windowId == HeldIn(HookStep(t, h), h.session, Window)
    ensures e.message == (
      if h.event != "Notification" || h.message == "" then None
      else if |h.message| <= 300 then Some(h.message)
      else Some(h.message[..300] + "\U{E2}\U{80}\U{A6}"))
    ensures e.matched == (
      if h.event != "Notification" then None else Some(h.asksPermission && StateOf(t, h.session) != "idle"))
  {
    TableMeans(h, BaseRow(t, h).state);
    HookLeaves(t, h);
    NextRowMoves(BaseRow(t, h), h);
    e := AuditRow(BaseRow(t, h), NextRow(BaseRow(t, h), h), h.session in t.sessions, h);
  }

  lemma RowSaysInit(steps: seq<Step>, s: Step, i: nat, e: Event)
    requires i < |steps|
    ensures RowSays(steps + [s], i, e) <==> RowSays(steps, i, e)
  {
    var all := steps + [s];
    assert all[..i] == steps[..i] && all[i] == steps[i];
  }

  // ---- the whole log -----------------------------------------------------------------------

  // The steps that write a row, in order.
  function Writers(steps: seq<Step>): (ws: seq<nat>)
    ensures forall k | 0 <= k < |ws| :: ws[k] < |steps| && Writes(steps[ws[k]])
    ensures forall i | 0 <= i < |steps| && Writes(steps[i]) :: i in ws
    ensures forall k, l | 0 <= k < l < |ws| :: ws[k] < ws[l]
  {
    if steps == [] then []
    else
      var n := |steps| - 1;
      Writers(steps[..n]) + if Writes(steps[n]) then [n] else []
  }

  lemma WritersSnoc(steps: seq<Step>, s: Step)
    ensures Writers(steps + [s]) == Writers(steps) + if Writes(s) then [|steps|] else []
  {
    assert (steps + [s])[..|steps|] == steps;
  }

  // The log is one row per writing step, in order, and each row says what its step did.
  ghost predicate LogSays(steps: seq<Step>, log: seq<Event>) {
    && |log| == |Writers(steps)|
    && forall k | 0 <= k < |log| :: RowSays(steps, Writers(steps)[k], log[k])
  }

  lemma LogSaysSnoc(steps: seq<Step>, log: seq<Event>, s: Step, e: Event)
    requires LogSays(steps, log) && Writes(s) && RowSays(steps + [s], |steps|, e)
    ensures LogSays(steps + [s], log + [e])
  {
    WritersSnoc(steps, s);
    forall k | 0 <= k < |log|
      ensures RowSays(steps + [s], Writers(steps)[k], log[k])
    {
      RowSaysInit(steps, s, Writers(steps)[k], log[k]);
    }
  }

  lemma LogSaysSkip(steps: seq<Step>, log: seq<Event>, s: Step)
    requires LogSays(steps, log) && !Writes(s)
    ensures LogSays(steps + [s], log)
  {
    WritersSnoc(steps, s);
    forall k | 0 <= k < |log|
      ensures RowSays(steps + [s], Writers(steps)[k], log[k])
    {
      RowSaysInit(steps, s, Writers(steps)[k], log[k]);
    }
  }

  // What one step adds to the log.
  lemma StepWrites(steps: seq<Step>, s: Step) returns (own: seq<Event>)
    ensures Exec(steps + [s]).events == Exec(steps).events + own
    ensures if Writes(s) then |own| == 1 && RowSays(steps + [s], |steps|, own[0]) else own == []
  {
    assert (steps + [s])[..|steps|] == steps;
    match s {
      case Invoke(h) =>
        if h.session == "" {
          own := [];
        } else {
          var e := HookWrites(steps, h);
          own := [e];
          assert (steps + [s])[|steps|] == s;
        }
      case Reap(_) =>
        own := [];
      case Title(sid, title, windowId, now) =>
        own := [Event(now, sid, "TitleChanged", None, None, "unchanged", windowId, Some(title))];
    }
  }

  lemma {:induction false} LogMeaning(steps: seq<Step>)
    ensures LogSays(steps, Exec(steps).events)
  {
    if steps != [] {
      var init, s := steps[..|steps| - 1], steps[|steps| - 1];
      assert steps == init + [s];
      LogMeaning(init);
      var own := StepWrites(init, s);
      if Writes(s) {
        LogSaysSnoc(init, Exec(init).events, s, own[0]);
        assert own == [own[0]];
      } else {
        LogSaysSkip(init, Exec(init).events, s);
        assert Exec(init).events + [] == Exec(init).events;
      }
    }
  }

  // ---- the mode the recap replays -----------------------------------------------------------

  // Step i puts the session into this mode: work began or went on, the turn ended or the session
  // started, or permission was asked for in the middle of work.
  ghost predicate Puts(steps: seq<Step>, sid: string, i: int, k: SpanKind)
    requires 0 <= i < |steps|
  {
    match k
    case SpanWorking => Works(steps[i], sid) || Fired(steps[i], sid, "SubagentStop")
    case SpanWaitUser => Rests(steps[i], sid)
    case SpanWaitPerm => Asks(steps[i], sid) && StateTold(steps[..i], sid) == "working"
  }

  ghost predicate PutsAny(steps: seq<Step>, sid: string, i: int)
    requires 0 <= i < |steps|
  {
    exists k :: Puts(steps, sid, i, k)
  }

  // The last step that put the session into a mode put it into k; before any it waits for the user.
  ghost predicate ModeTold(steps: seq<Step>, sid: string, k: SpanKind) {
    || (exists i | 0 <= i < |steps| ::
          Puts(steps, sid, i, k) && forall j | i < j < |steps| :: !PutsAny(steps, sid, j))
    || (k == SpanWaitUser && forall j | 0 <= j < |steps| :: !PutsAny(steps, sid, j))
  }

  lemma PutsInit(steps: seq<Step>, s: Step, sid: string, i: int)
    requires 0 <= i < |steps|
    ensures forall k :: Puts(steps + [s], sid, i, k) <==> Puts(steps, sid, i, k)
    ensures PutsAny(steps + [s], sid, i) <==> PutsAny(steps, sid, i)
  {
    var all := steps + [s];
    assert all[..i] == steps[..i] && all[i] == steps[i];
    forall k
      ensures Puts(all, sid, i, k) <==> Puts(steps, sid, i, k)
    {
    }
  }

  lemma ModeToldSnoc(steps: seq<Step>, s: Step, sid: string, k: SpanKind)
    ensures ModeTold(steps + [s], sid, k) <==>
      Puts(steps + [s], sid, |steps|, k) || (!PutsAny(steps + [s], sid, |steps|) && ModeTold(steps, sid, k))
  {
    var all, n := steps + [s], |steps|;
    forall i | 0 <= i < n
      ensures Puts(all, sid, i, k) <==> Puts(steps, sid, i, k)
      ensures PutsAny(all, sid, i) <==> PutsAny(steps, sid, i)
    {
      PutsInit(steps, s, sid, i);
    }
    if !PutsAny(all, sid, n) && ModeTold(steps, sid, k) {
      if i :| 0 <= i < n && Puts(steps, sid, i, k) && forall j | i < j < n :: !PutsAny(steps, sid, j) {
        assert Puts(all, sid, i, k) && forall j | i < j < |all| :: !PutsAny(all, sid, j);
      }
    }
  }

  // Where the moves lie: to prompt when asked in the middle of work, to idle by a Stop unless idle.
  lemma MoveMeans(before: seq<Step>, h: Invocation)
    requires h.session != ""
    ensures MoveTold(before, h) == "prompt" <==>
      Asks(Invoke(h), h.session) && StateTold(before, h.session) == "working"
    ensures Fired(Invoke(h), h.session, "Stop") ==>
      (MoveTold(before, h) == "idle" <==> (Present(before, h.session) ==> InTurn(before, h.session)))
  {
    InTurnSnoc(before, Invoke(h), h.session);
    WaitingSnoc(before, Invoke(h), h.session);
    RowOfSession(before, h.session);
  }

  // The row of a step decides the mode the step puts its session into.
  lemma RowDecides(steps: seq<Step>, sid: string, i: nat, e: Event, k: SpanKind)
    requires sid != "" && i < |steps| && RowSays(steps, i, e)
    ensures e.session == sid && Decides(e, k) <==> Puts(steps, sid, i, k)
  {
    if steps[i].Invoke? && e.session == sid {
      MoveMeans(steps[..i], steps[i].h);
    }
  }

  lemma StepMode(steps: seq<Step>, s: Step, sid: string, k: SpanKind)
    requires sid != "" && forall k' :: Mode(OfSession(Exec(steps).events, sid)) == k' <==> ModeTold(steps, sid, k')
    ensures Mode(OfSession(Exec(steps + [s]).events, sid)) == k <==> ModeTold(steps + [s], sid, k)
  {
    var log := Exec(steps).events;
    var own := StepWrites(steps, s);
    if Writes(s) {
      assert own == [own[0]];
      OfSessionSnoc(log, own[0], sid);
      assert OfSession(log, sid) + [] == OfSession(log, sid);
      ModeOneMore(steps, s, sid, k, OfSession(log, sid), own[0]);
    } else {
      assert log + [] == log;
      PutsNone(steps, s, sid);
      ModeToldSnoc(steps, s, sid, k);
    }
  }

  lemma PutsNone(steps: seq<Step>, s: Step, sid: string)
    requires sid != "" && !Writes(s)
    ensures !PutsAny(steps + [s], sid, |steps|)
    ensures forall k :: !Puts(steps + [s], sid, |steps|, k)
  {
    assert forall k :: !Puts(steps + [s], sid, |steps|, k);
  }

  // With the row a step writes the mode goes on being as told.
  lemma ModeOneMore(steps: seq<Step>, s: Step, sid: string, k: SpanKind, evs: seq<Event>, e: Event)
    requires sid != "" && RowSays(steps + [s], |steps|, e)
    requires forall k' :: Mode(evs) == k' <==> ModeTold(steps, sid, k')
    ensures Mode(if e.session == sid then evs + [e] else evs) == k <==> ModeTold(steps + [s], sid, k)
  {
    ModeToldSnoc(steps, s, sid, k);
    ModeRow(evs, e, k);
    RowPuts(steps + [s], sid, |steps|, e, k);
  }

  lemma RowPuts(steps: seq<Step>, sid: string, i: nat, e: Event, k: SpanKind)
    requires sid != "" && i < |steps| && RowSays(steps, i, e)
    ensures e.session == sid && Decides(e, k) <==> Puts(steps, sid, i, k)
    ensures e.session == sid && !Neutral(e) <==> PutsAny(steps, sid, i)
  {
    forall k'
      ensures e.session == sid && Decides(e, k') <==> Puts(steps, sid, i, k')
    {
      RowDecides(steps, sid, i, e, k');
    }
  }

  lemma ModeRow(evs: seq<Event>, e: Event, k: SpanKind)
    ensures Mode(evs + [e]) == k <==> Decides(e, k) || (Neutral(e) && Mode(evs) == k)
  {
    assert (evs + [e])[..|evs|] == evs;
    NextModeMeans(e, Mode(evs), k);
  }

  lemma {:induction false} LoggedMode(steps: seq<Step>, sid: string, k: SpanKind)
    requires sid != ""
    ensures Mode(OfSession(Exec(steps).events, sid)) == k <==> ModeTold(steps, sid, k)
    decreases |steps|
  {
    if steps != [] {
      var init, s := steps[..|steps| - 1], steps[|steps| - 1];
      assert steps == init + [s];
      forall k'
        ensures Mode(OfSession(Exec(init).events, sid)) == k' <==> ModeTold(init, sid, k')
      {
        LoggedMode(init, sid, k');
      }
      StepMode(init, s, sid, k);
    }
  }

  // ---- the counts the recap takes ------------------------------------------------------------

  // A turn ends: a Stop while in a turn, or as the first sign of the session.
  ghost predicate EndsTurn(steps: seq<Step>, sid: string, i: int)
    requires 0 <= i < |steps|
  {
    Fired(steps[i], sid, "Stop") && (Present(steps[..i], sid) ==> InTurn(steps[..i], sid))
  }

  ghost function TurnEnds(steps: seq<Step>, sid: string): set<int> {
    set i | 0 <= i < |steps| && EndsTurn(steps, sid, i)
  }

  ghost function PromptsSent(steps: seq<Step>, sid: string): set<int> {
    set i | 0 <= i < |steps| && Fired(steps[i], sid, "UserPromptSubmit")
  }

  // Permission is asked for in the middle of work.
  ghost function QuestionsAsked(steps: seq<Step>, sid: string): set<int> {
    set i | 0 <= i < |steps| && Puts(steps, sid, i, SpanWaitPerm)
  }

  lemma CountsSnoc(steps: seq<Step>, s: Step, sid: string)
    ensures var all, n := steps + [s], |steps|;
      && |TurnEnds(all, sid)| == |TurnEnds(steps, sid)| + (if EndsTurn(all, sid, n) then 1 else 0)
      && |PromptsSent(all, sid)| == |PromptsSent(steps, sid)| + (if Fired(s, sid, "UserPromptSubmit") then 1 else 0)
      && |QuestionsAsked(all, sid)| == |QuestionsAsked(steps, sid)| + (if Puts(all, sid, n, SpanWaitPerm) then 1 else 0)
  {
    var all, n := steps + [s], |steps|;
    forall i | 0 <= i < n
      ensures EndsTurn(all, sid, i) <==> EndsTurn(steps, sid, i)
      ensures Puts(all, sid, i, SpanWaitPerm) <==> Puts(steps, sid, i, SpanWaitPerm)
      ensures all[i] == steps[i]
    {
      assert all[..i] == steps[..i] && all[i] == steps[i];
    }
    assert all[n] == s;
    OneMore(TurnEnds(steps, sid), TurnEnds(all, sid), n, EndsTurn(all, sid, n));
    OneMore(PromptsSent(steps, sid), PromptsSent(all, sid), n, Fired(s, sid, "UserPromptSubmit"));
    OneMore(QuestionsAsked(steps, sid), QuestionsAsked(all, sid), n, Puts(all, sid, n, SpanWaitPerm));
  }

  lemma OneMore(a: set<int>, b: set<int>, n: int, more: bool)
    requires n !in a && forall i :: i in b <==> i in a || (more && i == n)
    ensures |b| == |a| + if more then 1 else 0
  {
    var grown := if more then a + {n} else a;
    forall i
      ensures i in b <==> i in grown
    {
      assert i in b <==> i in a || (more && i == n);
    }
    assert b == grown;
  }

  lemma RowCounts(steps: seq<Step>, sid: string, i: nat, e: Event)
    requires sid != "" && i < |steps| && RowSays(steps, i, e)
    ensures e.session == sid && e.event == "Stop" && e.newState == "idle" <==> EndsTurn(steps, sid, i)
    ensures e.session == sid && e.event == "UserPromptSubmit" <==> Fired(steps[i], sid, "UserPromptSubmit")
    ensures e.session == sid && e.newState == "prompt" <==> Puts(steps, sid, i, SpanWaitPerm)
  {
    if steps[i].Invoke? && e.session == sid {
      MoveMeans(steps[..i], steps[i].h);
    }
  }

  ghost predicate CountsTold(steps: seq<Step>, sid: string, evs: seq<Event>) {
    && Count(evs, IsTurn()) == |TurnEnds(steps, sid)|
    && Count(evs, IsPromptSubmit()) == |PromptsSent(steps, sid)|
    && Count(evs, IsQuestion()) == |QuestionsAsked(steps, sid)|
  }

  lemma CountsRow(steps: seq<Step>, s: Step, sid: string, evs: seq<Event>, e: Event)
    requires sid != "" && CountsTold(steps, sid, evs) && RowSays(steps + [s], |steps|, e)
    ensures CountsTold(steps + [s], sid, if e.session == sid then evs + [e] else evs)
  {
    CountsSnoc(steps, s, sid);
    RowCounts(steps + [s], sid, |steps|, e);
    CountSnoc(evs, e, IsTurn());
    CountSnoc(evs, e, IsPromptSubmit());
    CountSnoc(evs, e, IsQuestion());
  }

  lemma StepCounts(steps: seq<Step>, s: Step, sid: string)
    requires sid != "" && CountsTold(steps, sid, OfSession(Exec(steps).events, sid))
    ensures CountsTold(steps + [s], sid, OfSession(Exec(steps + [s]).events, sid))
  {
    var log := Exec(steps).events;
    var own := StepWrites(steps, s);
    if Writes(s) {
      assert own == [own[0]];
      OfSessionSnoc(log, own[0], sid);
      assert OfSession(log, sid) + [] == OfSession(log, sid);
      CountsRow(steps, s, sid, OfSession(log, sid), own[0]);
    } else {
      assert log + [] == log;
      PutsNone(steps, s, sid);
      CountsSnoc(steps, s, sid);
    }
  }

  lemma {:induction false} LoggedCounts(steps: seq<Step>, sid: string)
    requires sid != ""
    ensures CountsTold(steps, sid, OfSession(Exec(steps).events, sid))
  {
    if steps != [] {
      var init, s := steps[..|steps| - 1], steps[|steps| - 1];
      assert steps == init + [s];
      LoggedCounts(init, sid);
      StepCounts(init, s, sid);
    }
  }

  // What the recap reads back from the log of a run under a clock that does not go back: the mode is
  // that of the last step that put the session into one, and turns, prompts and questions are those
  // of the run.
  lemma ReplayTold(steps: seq<Step>, sid: string, k: SpanKind)
    requires sid != "" && AscendingTs(Exec(steps).events)
    ensures var evs := Recap.SessionEvents(Exec(steps).events, sid);
      (Mode(evs) == k <==> ModeTold(steps, sid, k)) && CountsTold(steps, sid, evs)
  {
    LogIsSorted(Exec(steps).events, sid);
    LoggedMode(steps, sid, k);
    LoggedCounts(steps, sid);
  }
}
