// internal/hook/hook.go: one hook invocation as a step on the tables, and the replay of the audit
// log it leaves behind.
module Hook {
  import opened Wrappers
  import opened Grammar
  import opened Sorting
  import opened Rows
  import opened AuditLog
  import opened Store
  import Recap

  // One invocation: the decoded event, the clock, and what the outside world answers. window is the
  // result of resolving the niri window, repo that of resolving and registering the repository, with
  // its branch; asksPermission is whether the message matches one of the permission patterns.
  datatype Invocation = Invocation(
    session: string, cwd: string, event: string, message: string, now: int,
    window: Option<(int, int)>, repo: Option<(int, string)>, asksPermission: bool)

  function NullString(s: string): Option<string> {
    if s == "" then None else Some(s)
  }

  const MESSAGE_LIMIT := 300

  function Truncate(s: string): string {
    if |s| <= MESSAGE_LIMIT then s else s[..MESSAGE_LIMIT] + "\U{E2}\U{80}\U{A6}"
  }

  function Audit(h: Invocation, newState: string, windowId: Option<int>): Event {
    Event(h.now, h.session, h.event, None, None, newState, windowId, None)
  }

  // A notification means a prompt only when it asks for permission in mid-work.
  function Matches(h: Invocation, prevState: string): bool {
    h.asksPermission && prevState != "idle"
  }

  function NextState(h: Invocation, prevState: string): string {
    if h.event == "Notification" then if Matches(h, prevState) then "prompt" else prevState
    else
      match MapEvent(h.event).newStatus
      case None => prevState
      case Some(st) => StatusName(st)
  }

  // The row before the event: the stored one, or a fresh idle one.
  function BaseRow(t: Tables, h: Invocation): Session {
    if h.session in t.sessions then t.sessions[h.session]
    else Session(h.session, None, None, None, None, "idle", None, None, None, 0, h.now)
  }

  // The window and the repository are found at the start, or later while they are missing.
  function Situated(s: Session, h: Invocation): Session {
    var s := if (h.event == "SessionStart" || s.windowId.None?) && h.window.Some?
      then s.(windowId := Some(h.window.value.0), terminalPid := Some(h.window.value.1)) else s;
    if (h.event == "SessionStart" || s.repoId.None?) && h.repo.Some? then s.(repoId := Some(h.repo.value.0)) else s
  }

  // A repository that is found is also linked to the session for good.
  function Recorded(t: Tables, s: Session, h: Invocation): Tables {
    if (h.event == "SessionStart" || s.repoId.None?) && h.repo.Some?
    then Linked(t, h.session, h.repo.value.0, NullString(h.repo.value.1), h.now) else t
  }

  function NextRow(base: Session, h: Invocation): Session {
    var tr := MapEvent(h.event);
    var s := base.(cwd := NullString(h.cwd), lastSeen := h.now, lastEvent := Some(h.now));
    var s := if tr.bumpTalk then s.(lastTalk := Some(h.now)) else s;
    var s := Situated(s, h);
    var s := if h.event == "Notification" && Matches(h, base.state)
      then s.(notifyKind := Some("prompt")) else s;
    s.(state := NextState(h, base.state))
  }

  function AuditRow(base: Session, s: Session, found: bool, h: Invocation): Event {
    var e := Audit(h, if found && s.state == base.state then "unchanged" else s.state, s.windowId);
    if h.event == "Notification"
    then e.(message := NullString(Truncate(h.message)), matched := Some(Matches(h, base.state)))
    else e
  }

  function HookStep(t: Tables, h: Invocation): Tables {
    var tr := MapEvent(h.event);
    var found := h.session in t.sessions;
    if h.session == "" then t
    else if tr.delete then Deleted(Logged(t, Audit(h, "deleted", None)), h.session)
    else if !tr.known then
      if found then
        var row := t.sessions[h.session];
        Upserted(Logged(t, Audit(h, "unchanged", row.windowId)), row.(lastSeen := h.now))
      else Logged(t, Audit(h, "ignored", None))
    else
      var base := BaseRow(t, h);
      var s := NextRow(base, h);
      Upserted(Logged(Recorded(t, base, h), AuditRow(base, s, found, h)), s)
  }

  method Run(db: Database, h: Invocation)
    modifies db
    ensures db.View() == HookStep(old(db.View()), h)
  {
    if h.session == "" {
      return;
    }
    var tr := MapEvent(h.event);
    var evt := Event(h.now, h.session, h.event, None, None, "", None, None);
    if tr.delete {
      db.InsertEvent(evt.(newState := "deleted"));
      db.Delete(h.session);
      return;
    }
    var existing := db.Get(h.session);
    if existing.Some? {
      evt := evt.(windowId := existing.value.windowId);
    }
    if !tr.known {
      if existing.Some? {
        db.InsertEvent(evt.(newState := "unchanged"));
        db.Upsert(existing.value.(lastSeen := h.now));
      } else {
        db.InsertEvent(evt.(newState := "ignored"));
      }
      return;
    }
    Apply(db, h, tr, existing);
  }

  method Situate(db: Database, row: Session, h: Invocation) returns (s: Session)
    modifies db`links
    ensures s == Situated(row, h)
    ensures db.View() == Recorded(old(db.View()), row, h)
  {
    s := row;
    if h.event == "SessionStart" || s.windowId.None? {
      if h.window.Some? {
        s := s.(windowId := Some(h.window.value.0), terminalPid := Some(h.window.value.1));
      }
    }
    if h.event == "SessionStart" || s.repoId.None? {
      if h.repo.Some? {
        s := s.(repoId := Some(h.repo.value.0));
        db.LinkSessionRepo(h.session, h.repo.value.0, NullString(h.repo.value.1), h.now);
      }
    }
  }

  // The path of a known event that does not delete: build the next row, record it and store it.
  method Apply(db: Database, h: Invocation, tr: Transition, existing: Option<Session>)
    requires tr == MapEvent(h.event)
    requires existing == if h.session in db.sessions then Some(db.sessions[h.session]) else None
    modifies db
    ensures var t := old(db.View());
      var s := NextRow(BaseRow(t, h), h);
      db.View() == Upserted(
        Logged(Recorded(t, BaseRow(t, h), h), AuditRow(BaseRow(t, h), s, h.session in t.sessions, h)), s)
  {
    var found := existing.Some?;
    var s := Session(h.session, None, None, None, None, "idle", None, None, None, 0, h.now);
    if found {
      s := existing.value;
    }
    var prevState := s.state;
    ghost var base := s;
    s := s.(cwd := NullString(h.cwd), lastSeen := h.now, lastEvent := Some(h.now));
    if tr.bumpTalk {
      s := s.(lastTalk := Some(h.now));
    }
    s := Situate(db, s, h);
    var message, matched := None, None;
    if h.event == "Notification" {
      var m := h.asksPermission && prevState != "idle";
      if m {
        s := s.(notifyKind := Some("prompt"));
      }
      message, matched := NullString(Truncate(h.message)), Some(m);
      if m {
        s := s.(state := "prompt");
      }
    } else if tr.newStatus.Some? {
      s := s.(state := StatusName(tr.newStatus.value));
    }
    assert s == NextRow(base, h);
    var newState;
    if !found {
      newState := s.state;
    } else if s.state == prevState {
      newState := "unchanged";
    } else {
      newState := s.state;
    }
    db.InsertEvent(Event(h.now, h.session, h.event, message, matched, newState, s.windowId, None));
    db.Upsert(s);
  }

  // ---- runs of hooks, reaps and title rows -----------------------------------------

  datatype Step =
    | Invoke(h: Invocation)
    | Reap(dead: set<string>)                              // the daemon's silent deletion
    | Title(session: string, title: string, windowId: Option<int>, now: int)

  function After(t: Tables, step: Step): Tables {
    match step
    case Invoke(h) => HookStep(t, h)
    case Reap(dead) => t.(sessions := t.sessions - dead)
    case Title(sid, title, windowId, now) =>
      Logged(t, Event(now, sid, "TitleChanged", None, None, "unchanged", windowId, Some(title)))
  }

  function Exec(steps: seq<Step>): Tables {
    if steps == [] then Tables(map[], [], map[]) else After(Exec(steps[..|steps| - 1]), steps[|steps| - 1])
  }

  predicate HookState(s: string) {
    s == "working" || s == "idle" || s == "prompt"
  }

  // Each stored row is keyed by its id, holds a state a hook can write, and that state is what
  // the session's log rows say.
  ghost predicate Replayable(t: Tables) {
    forall sid | sid in t.sessions ::
      && t.sessions[sid].id == sid && sid != ""
      && HookState(t.sessions[sid].state)
      && t.sessions[sid].state == EffectiveState(OfSession(t.events, sid))
  }

  lemma NextStateFacts(h: Invocation, prev: string)
    requires HookState(prev)
    ensures HookState(NextState(h, prev))
  {
  }

  lemma LoggedState(t: Tables, e: Event, sid: string)
    ensures EffectiveState(OfSession(Logged(t, e).events, sid)) ==
      if e.session == sid && IsState(e.newState) then e.newState else EffectiveState(OfSession(t.events, sid))
  {
    OfSessionSnoc(t.events, e, sid);
    if e.session == sid {
      EffectiveStateSnoc(OfSession(t.events, sid), e);
    } else {
      assert OfSession(t.events, sid) + [] == OfSession(t.events, sid);
    }
  }

  // One hook appends one row of its own session and touches no other session's state; a row it
  // leaves behind has the state it logs, or, when it logs none, the state it had.
  ghost predicate OneRow(t: Tables, t': Tables, e: Event) {
    && t'.events == t.events + [e]
    && (forall sid | sid != e.session :: sid in t'.sessions <==> sid in t.sessions)
    && (forall sid | sid != e.session && sid in t.sessions :: t'.sessions[sid] == t.sessions[sid])
    && (e.session in t'.sessions ==>
          && t'.sessions[e.session].id == e.session && HookState(t'.sessions[e.session].state)
          && if IsState(e.newState) then t'.sessions[e.session].state == e.newState
             else e.session in t.sessions && t'.sessions[e.session].state == t.sessions[e.session].state)
  }

  lemma KnownOneRow(t: Tables, h: Invocation)
    requires h.session in t.sessions ==> t.sessions[h.session].id == h.session && HookState(t.sessions[h.session].state)
    ensures var s := NextRow(BaseRow(t, h), h);
      var e := AuditRow(BaseRow(t, h), s, h.session in t.sessions, h);
      OneRow(t, Upserted(Logged(Recorded(t, BaseRow(t, h), h), e), s), e)
  {
    var base := BaseRow(t, h);
    NextStateFacts(h, base.state);
    AuditRowFacts(base, h, h.session in t.sessions);
    StoredOneRow(
      t, Recorded(t, base, h), NextRow(base, h), AuditRow(base, NextRow(base, h), h.session in t.sessions, h));
  }

  lemma AuditRowFacts(base: Session, h: Invocation, found: bool)
    requires HookState(base.state)
    ensures var s := NextRow(base, h);
      var e := AuditRow(base, s, found, h);
      && s.id == base.id && s.state == NextState(h, base.state) && e.session == h.session
      && (if IsState(e.newState) then s.state == e.newState else found && s.state == base.state)
  {
    NextStateFacts(h, base.state);
  }

  lemma StoredOneRow(t: Tables, t1: Tables, s: Session, e: Event)
    requires t1.sessions == t.sessions && t1.events == t.events
    requires s.id == e.session && HookState(s.state)
    requires if IsState(e.newState) then s.state == e.newState
      else e.session in t.sessions && s.state == t.sessions[e.session].state
    ensures OneRow(t, Upserted(Logged(t1, e), s), e)
  {
  }

  lemma HookOneRow(t: Tables, h: Invocation) returns (e: Event)
    requires h.session != ""
    requires h.session in t.sessions ==> t.sessions[h.session].id == h.session && HookState(t.sessions[h.session].state)
    ensures e.session == h.session && OneRow(t, HookStep(t, h), e)
  {
    var tr, found := MapEvent(h.event), h.session in t.sessions;
    if tr.delete {
      e := Audit(h, "deleted", None);
    } else if !tr.known {
      e := if found then Audit(h, "unchanged", t.sessions[h.session].windowId) else Audit(h, "ignored", None);
    } else {
      KnownOneRow(t, h);
      e := AuditRow(BaseRow(t, h), NextRow(BaseRow(t, h), h), found, h);
    }
  }

  lemma HookReplayable(t: Tables, h: Invocation)
    requires Replayable(t)
    ensures Replayable(HookStep(t, h))
  {
    if h.session != "" {
      var e := HookOneRow(t, h);
      forall sid
        ensures EffectiveState(OfSession(t.events + [e], sid)) ==
          if e.session == sid && IsState(e.newState) then e.newState else EffectiveState(OfSession(t.events, sid))
      {
        LoggedState(t, e, sid);
      }
    }
  }

  lemma StepReplayable(t: Tables, step: Step)
    requires Replayable(t)
    ensures Replayable(After(t, step))
  {
    match step {
      case Invoke(h) => HookReplayable(t, h);
      case Reap(dead) =>
      case Title(sid, title, windowId, now) =>
        forall id
          ensures EffectiveState(OfSession(After(t, step).events, id)) == EffectiveState(OfSession(t.events, id))
        {
          LoggedState(t, Event(now, sid, "TitleChanged", None, None, "unchanged", windowId, Some(title)), id);
        }
    }
  }

  lemma {:induction false} RunReplayable(steps: seq<Step>)
    ensures Replayable(Exec(steps))
  {
    if steps != [] {
      RunReplayable(steps[..|steps| - 1]);
      StepReplayable(Exec(steps[..|steps| - 1]), steps[|steps| - 1]);
    }
  }

  // ---- what the recap reads back -----------------------------------------------------

  lemma {:induction false} OfSessionAscending(evs: seq<Event>, sid: string)
    requires AscendingTs(evs)
    ensures AscendingTs(OfSession(evs, sid))
  {
    if evs != [] {
      var init, e := evs[..|evs| - 1], evs[|evs| - 1];
      OfSessionAscending(init, sid);
      OfSessionMembers(init, sid);
      var before := OfSession(init, sid);
      forall i | 0 <= i < |before|
        ensures before[i].ts <= e.ts
      {
        assert before[i] in init;
      }
    }
  }

  // A log written under a clock that does not go back is already in the order the recap sorts it.
  lemma LogIsSorted(evs: seq<Event>, sid: string)
    requires AscendingTs(evs)
    ensures Recap.SessionEvents(evs, sid) == OfSession(evs, sid)
  {
    var group := OfSession(evs, sid);
    OfSessionAscending(evs, sid);
    StableSortSorts(group, Recap.Ts());
    StableSortUnique(StableSort(group, Recap.Ts()), group, Recap.Ts());
  }

  // Replay recovers the row: over any interleaving of hooks, silent reaps and title rows under a
  // clock that does not go back, whenever a session has a row, its state is the one the recap
  // reconstructs from the session's log, and it is never the daemon-only shell state.
  lemma ReplayRecoversState(steps: seq<Step>, sid: string)
    requires AscendingTs(Exec(steps).events) && sid in Exec(steps).sessions
    ensures var t := Exec(steps);
      && t.sessions[sid].state == EffectiveState(Recap.SessionEvents(t.events, sid))
      && HookState(t.sessions[sid].state)
  {
    RunReplayable(steps);
    LogIsSorted(Exec(steps).events, sid);
  }
}
