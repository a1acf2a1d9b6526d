// What a session row means after any run of hooks, reaps and title rows: each field the daemon
// renders is characterized by which events came since which, without replaying the transitions
// (internal/state/state.go, the table above MapEvent; internal/hook/hook.go).
module Lifecycle {
  import opened Wrappers
  import opened Rows
  import opened Grammar
  import opened Store
  import opened Hook

  predicate Fired(step: Step, sid: string, event: string) {
    step.Invoke? && step.h.session == sid && step.h.event == event
  }

  // Work goes on: the user submitted a prompt, or a tool finished.
  predicate Works(step: Step, sid: string) {
    Fired(step, sid, "UserPromptSubmit") || Fired(step, sid, "PostToolUse")
  }

  // The turn is over, or has not begun.
  predicate Rests(step: Step, sid: string) {
    Fired(step, sid, "SessionStart") || Fired(step, sid, "Stop")
  }

  predicate Asks(step: Step, sid: string) {
    Fired(step, sid, "Notification") && step.h.asksPermission
  }

  predicate Talks(step: Step, sid: string) {
    Rests(step, sid) || Fired(step, sid, "SubagentStop")
  }

  // The row goes: the session ended, or the daemon reaped it.
  predicate Drops(step: Step, sid: string) {
    (step.Reap? && sid in step.dead) || Fired(step, sid, "SessionEnd")
  }

  predicate Appears(step: Step, sid: string) {
    Works(step, sid) || Talks(step, sid) || Fired(step, sid, "Notification")
  }

  // ---- since when -------------------------------------------------------------------------

  ghost predicate Present(steps: seq<Step>, sid: string) {
    exists i | 0 <= i < |steps| :: Appears(steps[i], sid) && forall j | i < j < |steps| :: !Drops(steps[j], sid)
  }

  // Work began and has not rested since.
  ghost predicate InTurn(steps: seq<Step>, sid: string) {
    exists i | 0 <= i < |steps| ::
      Works(steps[i], sid) && forall j | i < j < |steps| :: !Rests(steps[j], sid) && !Drops(steps[j], sid)
  }

  // Permission was asked for, and work has not gone on since.
  ghost predicate Waiting(steps: seq<Step>, sid: string) {
    exists i | 0 <= i < |steps| :: Asks(steps[i], sid) && forall j | i < j < |steps| :: !Works(steps[j], sid)
  }

  ghost predicate TalkedAt(steps: seq<Step>, sid: string, i: int) {
    && 0 <= i < |steps| && Talks(steps[i], sid)
    && forall j | i < j < |steps| :: !Talks(steps[j], sid) && !Drops(steps[j], sid)
  }

  lemma PresentSnoc(steps: seq<Step>, s: Step, sid: string)
    ensures Present(steps + [s], sid) <==> Appears(s, sid) || (Present(steps, sid) && !Drops(s, sid))
  {
    var all := steps + [s];
    assert all[|steps|] == s;
    if Present(steps, sid) && !Drops(s, sid) {
      var i :| 0 <= i < |steps| && Appears(steps[i], sid) && forall j | i < j < |steps| :: !Drops(steps[j], sid);
      assert all[i] == steps[i];
    }
    if Present(all, sid) && !Appears(s, sid) {
      var i :| 0 <= i < |all| && Appears(all[i], sid) && forall j | i < j < |all| :: !Drops(all[j], sid);
      assert forall j | i <= j < |steps| :: steps[j] == all[j];
    }
  }

  lemma InTurnSnoc(steps: seq<Step>, s: Step, sid: string)
    ensures InTurn(steps + [s], sid) <==>
      Works(s, sid) || (InTurn(steps, sid) && !Rests(s, sid) && !Drops(s, sid))
  {
    var all := steps + [s];
    assert all[|steps|] == s;
    if InTurn(steps, sid) && !Rests(s, sid) && !Drops(s, sid) {
      var i :| 0 <= i < |steps| && Works(steps[i], sid)
        && forall j | i < j < |steps| :: !Rests(steps[j], sid) && !Drops(steps[j], sid);
      assert all[i] == steps[i];
    }
    if InTurn(all, sid) && !Works(s, sid) {
      var i :| 0 <= i < |all| && Works(all[i], sid)
        && forall j | i < j < |all| :: !Rests(all[j], sid) && !Drops(all[j], sid);
      assert forall j | i <= j < |steps| :: steps[j] == all[j];
    }
  }

  lemma WaitingSnoc(steps: seq<Step>, s: Step, sid: string)
    ensures Waiting(steps + [s], sid) <==> Asks(s, sid) || (Waiting(steps, sid) && !Works(s, sid))
  {
    var all := steps + [s];
    assert all[|steps|] == s;
    if Waiting(steps, sid) && !Works(s, sid) {
      var i :| 0 <= i < |steps| && Asks(steps[i], sid) && forall j | i < j < |steps| :: !Works(steps[j], sid);
      assert all[i] == steps[i];
    }
    if Waiting(all, sid) && !Asks(s, sid) {
      var i :| 0 <= i < |all| && Asks(all[i], sid) && forall j | i < j < |all| :: !Works(all[j], sid);
      assert forall j | i <= j < |steps| :: steps[j] == all[j];
    }
  }

  // ---- one step -------------------------------------------------------------------------------

  function StateOf(t: Tables, sid: string): string {
    if sid in t.sessions then t.sessions[sid].state else "idle"
  }

  function TalkOf(t: Tables, sid: string): Option<int> {
    if sid in t.sessions then t.sessions[sid].lastTalk else None
  }

  function StateAfter(s: Step, sid: string, prev: string): string {
    if Works(s, sid) then "working"
    else if Rests(s, sid) then "idle"
    else if Asks(s, sid) && prev != "idle" then "prompt"
    else prev
  }

  // How one step moves the row of sid, by the events alone.
  ghost predicate Moves(t: Tables, t': Tables, s: Step, sid: string) {
    && (sid in t'.sessions <==> Appears(s, sid) || (sid in t.sessions && !Drops(s, sid)))
    && (sid in t'.sessions ==>
          && t'.sessions[sid].state == StateAfter(s, sid, StateOf(t, sid))
          && t'.sessions[sid].lastTalk == if Talks(s, sid) then Some(s.h.now) else TalkOf(t, sid))
  }

  lemma NextRowMoves(base: Session, h: Invocation)
    ensures var s := NextRow(base, h);
      && s.id == base.id && s.lastTalk == (if MapEvent(h.event).bumpTalk then Some(h.now) else base.lastTalk)
      && s.state == NextState(h, base.state)
  {
  }

  // The transition table, event by event.
  lemma TableMeans(h: Invocation, prev: string)
    ensures var s, sid, tr := Invoke(h), h.session, MapEvent(h.event);
      && (tr.delete <==> Drops(s, sid)) && (tr.known <==> Appears(s, sid) || Drops(s, sid))
      && (Appears(s, sid) ==> !Drops(s, sid)) && (tr.bumpTalk <==> Talks(s, sid))
      && (Appears(s, sid) ==> NextState(h, prev) == StateAfter(s, sid, prev))
  {
  }

  // What a hook leaves of its own row, in terms of the table.
  lemma HookLeaves(t: Tables, h: Invocation)
    requires h.session != "" && (h.session in t.sessions ==> t.sessions[h.session].id == h.session)
    ensures var t', tr, sid := HookStep(t, h), MapEvent(h.event), h.session;
      if tr.delete then sid !in t'.sessions
      else if !tr.known then
        && (sid in t'.sessions <==> sid in t.sessions)
        && (sid in t.sessions ==> t'.sessions[sid] == t.sessions[sid].(lastSeen := h.now))
      else sid in t'.sessions && t'.sessions[sid] == NextRow(BaseRow(t, h), h)
  {
    NextRowMoves(BaseRow(t, h), h);
  }

  lemma HookSpares(t: Tables, h: Invocation, sid: string)
    requires sid != h.session && (h.session in t.sessions ==> t.sessions[h.session].id == h.session)
    ensures var t' := HookStep(t, h);
      (sid in t'.sessions <==> sid in t.sessions) && (sid in t.sessions ==> t'.sessions[sid] == t.sessions[sid])
  {
    if h.session != "" {
      NextRowMoves(BaseRow(t, h), h);
    }
  }

  lemma HookMoves(t: Tables, h: Invocation, sid: string)
    requires sid != "" && Replayable(t)
    ensures Moves(t, HookStep(t, h), Invoke(h), sid)
  {
    if h.session != sid {
      HookSpares(t, h, sid);
    } else {
      HookLeaves(t, h);
      TableMeans(h, BaseRow(t, h).state);
      NextRowMoves(BaseRow(t, h), h);
    }
  }

  lemma StepMoves(t: Tables, s: Step, sid: string)
    requires sid != "" && Replayable(t)
    ensures Moves(t, After(t, s), s, sid)
  {
    if s.Invoke? {
      HookMoves(t, s.h, sid);
    }
  }

  // ---- whole runs -----------------------------------------------------------------------------

  // A row exists exactly while some event has made it appear since it was last dropped. It says
  // working exactly in mid-turn, prompt exactly when permission was asked for in this turn and
  // work has not gone on since, and idle otherwise.
  lemma {:induction false} RowMeaning(steps: seq<Step>, sid: string)
    requires sid != ""
    ensures sid in Exec(steps).sessions <==> Present(steps, sid)
    ensures InTurn(steps, sid) ==> Present(steps, sid)
    ensures sid in Exec(steps).sessions ==>
      Exec(steps).sessions[sid].state ==
      if !InTurn(steps, sid) then "idle" else if Waiting(steps, sid) then "prompt" else "working"
  {
    if steps != [] {
      var init, s := steps[..|steps| - 1], steps[|steps| - 1];
      assert steps == init + [s];
      RowMeaning(init, sid);
      RunReplayable(init);
      StepMoves(Exec(init), s, sid);
      PresentSnoc(init, s, sid);
      InTurnSnoc(init, s, sid);
      WaitingSnoc(init, s, sid);
    }
  }

  lemma TalkedAtSnoc(steps: seq<Step>, s: Step, sid: string, i: int)
    ensures TalkedAt(steps + [s], sid, i) <==>
      if Talks(s, sid) then i == |steps| else TalkedAt(steps, sid, i) && !Drops(s, sid)
  {
    var all := steps + [s];
    assert all[|steps|] == s;
    assert forall j | 0 <= j < |steps| :: steps[j] == all[j];
  }

  lemma {:induction false} TalkIsStored(steps: seq<Step>, sid: string, i: int)
    requires sid != "" && TalkedAt(steps, sid, i)
    ensures sid in Exec(steps).sessions && Exec(steps).sessions[sid].lastTalk == Some(steps[i].h.now)
  {
    var init, s := steps[..|steps| - 1], steps[|steps| - 1];
    assert steps == init + [s];
    TalkedAtSnoc(init, s, sid, i);
    RunReplayable(init);
    StepMoves(Exec(init), s, sid);
    if !Talks(s, sid) {
      TalkIsStored(init, sid, i);
    }
  }

  lemma {:induction false} StoredIsTalk(steps: seq<Step>, sid: string) returns (i: int)
    requires sid != "" && sid in Exec(steps).sessions && Exec(steps).sessions[sid].lastTalk.Some?
    ensures TalkedAt(steps, sid, i)
  {
    var init, s := steps[..|steps| - 1], steps[|steps| - 1];
    assert steps == init + [s];
    RunReplayable(init);
    StepMoves(Exec(init), s, sid);
    if Talks(s, sid) {
      i := |init|;
    } else {
      i := StoredIsTalk(init, sid);
    }
    TalkedAtSnoc(init, s, sid, i);
  }

  // The clock a row fades by is that of the latest event that let Claude talk since the row was
  // last dropped; without one the row has none, and counts as dimmest.
  lemma FadesSinceLastTalk(steps: seq<Step>, sid: string, at: int)
    requires sid != "" && sid in Exec(steps).sessions
    ensures Exec(steps).sessions[sid].lastTalk == Some(at) <==>
      exists i :: TalkedAt(steps, sid, i) && steps[i].h.now == at
  {
    if Exec(steps).sessions[sid].lastTalk == Some(at) {
      var i := StoredIsTalk(steps, sid);
      TalkIsStored(steps, sid, i);
    }
    forall i | TalkedAt(steps, sid, i) && steps[i].h.now == at
      ensures Exec(steps).sessions[sid].lastTalk == Some(at)
    {
      TalkIsStored(steps, sid, i);
    }
  }

  // The prompt state is entered exactly by a permission notification in mid-work: never from
  // idle, and never by a session's first event.
  lemma PromptEntry(steps: seq<Step>, h: Invocation)
    requires h.session != "" && StateOf(Exec(steps), h.session) != "prompt"
    ensures StateOf(HookStep(Exec(steps), h), h.session) == "prompt" <==>
      h.event == "Notification" && h.asksPermission && StateOf(Exec(steps), h.session) == "working"
  {
    RunReplayable(steps);
    HookMoves(Exec(steps), h, h.session);
  }
}
