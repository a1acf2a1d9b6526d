// From the hook to the bar: which glyph a workspace shows, told from the events the hook was called
// with (internal/hook/hook.go, internal/daemon/reconcile.go, internal/daemon/daemon.go).
module Glyphs {
  import opened Wrappers
  import opened Grammar
  import opened Rows
  import opened Aggregation
  import opened Lifecycle
  import opened Situation
  import Actor
  import Compositor
  import Hook
  import NiriHistory
  import Reconciler
  import Store

  // The list has exactly the rows of the table.
  ghost predicate RowsOf(t: Store.Tables, sessions: seq<Session>) {
    forall s :: s in sessions <==> s.id in t.sessions && t.sessions[s.id] == s
  }

  // The window the session was found in is known and on workspace ws.
  ghost predicate PlacedOn(hooks: seq<Hook.Step>, sid: string, windows: Windows, ws: int) {
    sid != "" &&
    exists i ::
      && FoundAt(hooks, sid, Window, i)
      && Sought(hooks[i].h, Window).value in windows
      && windows[Sought(hooks[i].h, Window).value].workspaceId == ws
  }

  ghost predicate Wanted(hooks: seq<Hook.Step>, windows: Windows, ws: int) {
    exists sid :: PlacedOn(hooks, sid, windows, ws)
  }

  // Some session on ws is in mid-turn and has not been asking for permission since.
  ghost predicate Working(hooks: seq<Hook.Step>, windows: Windows, ws: int) {
    exists sid :: PlacedOn(hooks, sid, windows, ws) && InTurn(hooks, sid) && !Waiting(hooks, sid)
  }

  // Some session on ws asked for permission in this turn, and work has not gone on since.
  ghost predicate Asking(hooks: seq<Hook.Step>, windows: Windows, ws: int) {
    exists sid :: PlacedOn(hooks, sid, windows, ws) && InTurn(hooks, sid) && Waiting(hooks, sid)
  }

  // No session on ws talked less than this long ago.
  ghost predicate QuietFor(hooks: seq<Hook.Step>, windows: Windows, now: int, ws: int, span: int) {
    forall sid, i | PlacedOn(hooks, sid, windows, ws) && TalkedAt(hooks, sid, i) :: span <= now - hooks[i].h.now
  }

  // What the bar is to show for ws: working over asking over fading.
  ghost predicate Glyph(hooks: seq<Hook.Step>, windows: Windows, now: int, ws: int, d: Desired) {
    if Working(hooks, windows, ws) then d == Desired(Status.Working, 0)
    else if Asking(hooks, windows, ws) then d == Desired(Prompt, 0)
    else
      && d.status == Idle && d.level < DECAY_LEVELS
      && forall j | 0 <= j < |DECAY_THRESHOLDS| ::
           j < d.level <==> QuietFor(hooks, windows, now, ws, DECAY_THRESHOLDS[j])
  }

  // ---- one row ----------------------------------------------------------------------------

  lemma RowIsKeyed(hooks: seq<Hook.Step>, sid: string)
    requires sid in Hook.Exec(hooks).sessions
    ensures sid != "" && Hook.Exec(hooks).sessions[sid].id == sid
  {
    Hook.RunReplayable(hooks);
  }

  // A row is on a workspace exactly if its session was placed there.
  lemma RowPlaced(hooks: seq<Hook.Step>, sid: string, windows: Windows, ws: int)
    ensures sid in Hook.Exec(hooks).sessions && OnWorkspace(Hook.Exec(hooks).sessions[sid], windows, ws) <==>
      PlacedOn(hooks, sid, windows, ws)
  {
    var t := Hook.Exec(hooks);
    if sid in t.sessions && OnWorkspace(t.sessions[sid], windows, ws) {
      RowIsKeyed(hooks, sid);
      var i := HeldIsFound(hooks, sid, Window);
      FoundIsHeld(hooks, sid, Window, i);
    }
    if PlacedOn(hooks, sid, windows, ws) {
      var i :| FoundAt(hooks, sid, Window, i) && Sought(hooks[i].h, Window).value in windows
        && windows[Sought(hooks[i].h, Window).value].workspaceId == ws;
      FoundIsHeld(hooks, sid, Window, i);
    }
  }

  // What a row on a workspace stores.
  lemma RowStores(hooks: seq<Hook.Step>, sid: string)
    requires sid in Hook.Exec(hooks).sessions
    ensures var state := Hook.Exec(hooks).sessions[sid].state;
      && (state == "working" <==> InTurn(hooks, sid) && !Waiting(hooks, sid))
      && (state == "prompt" <==> InTurn(hooks, sid) && Waiting(hooks, sid))
      && state != "shell"
  {
    RowIsKeyed(hooks, sid);
    RowMeaning(hooks, sid);
  }

  // A row is silent for as long as its session has been.
  lemma RowSilent(hooks: seq<Hook.Step>, sid: string, now: int, span: int)
    requires sid in Hook.Exec(hooks).sessions
    ensures var s := Hook.Exec(hooks).sessions[sid];
      (s.lastTalk.None? || span <= now - s.lastTalk.value) <==>
      forall i | TalkedAt(hooks, sid, i) :: span <= now - hooks[i].h.now
  {
    RowIsKeyed(hooks, sid);
    var s := Hook.Exec(hooks).sessions[sid];
    if s.lastTalk.Some? {
      var i := StoredIsTalk(hooks, sid);
      TalkIsStored(hooks, sid, i);
    }
    forall i | TalkedAt(hooks, sid, i)
      ensures s.lastTalk == Some(hooks[i].h.now)
    {
      TalkIsStored(hooks, sid, i);
    }
  }

  // ---- one workspace -----------------------------------------------------------------------

  // The rows on ws, by session: row s of the list is that of session s.id placed on ws.
  lemma RowsPlaced(hooks: seq<Hook.Step>, sessions: seq<Session>, windows: Windows, ws: int)
    requires RowsOf(Hook.Exec(hooks), sessions)
    ensures forall s | s in sessions && OnWorkspace(s, windows, ws) ::
      s.id in Hook.Exec(hooks).sessions && Hook.Exec(hooks).sessions[s.id] == s && PlacedOn(hooks, s.id, windows, ws)
    ensures forall sid | PlacedOn(hooks, sid, windows, ws) ::
      && sid in Hook.Exec(hooks).sessions && Hook.Exec(hooks).sessions[sid] in sessions
      && Hook.Exec(hooks).sessions[sid].id == sid && OnWorkspace(Hook.Exec(hooks).sessions[sid], windows, ws)
  {
    forall s | s in sessions && OnWorkspace(s, windows, ws)
      ensures s.id in Hook.Exec(hooks).sessions && Hook.Exec(hooks).sessions[s.id] == s
      ensures PlacedOn(hooks, s.id, windows, ws)
    {
      RowPlaced(hooks, s.id, windows, ws);
    }
    forall sid | PlacedOn(hooks, sid, windows, ws)
      ensures sid in Hook.Exec(hooks).sessions && Hook.Exec(hooks).sessions[sid] in sessions
      ensures Hook.Exec(hooks).sessions[sid].id == sid && OnWorkspace(Hook.Exec(hooks).sessions[sid], windows, ws)
    {
      RowPlaced(hooks, sid, windows, ws);
      RowIsKeyed(hooks, sid);
    }
  }

  lemma StoresMeaning(hooks: seq<Hook.Step>, sessions: seq<Session>, windows: Windows, ws: int)
    requires RowsOf(Hook.Exec(hooks), sessions)
    ensures Stores(sessions, windows, ws, "working") <==> Working(hooks, windows, ws)
    ensures Stores(sessions, windows, ws, "prompt") <==> Asking(hooks, windows, ws)
    ensures !Stores(sessions, windows, ws, "shell")
  {
    RowsPlaced(hooks, sessions, windows, ws);
    forall s | s in sessions && OnWorkspace(s, windows, ws)
      ensures s.state == "working" <==> InTurn(hooks, s.id) && !Waiting(hooks, s.id)
      ensures s.state == "prompt" <==> InTurn(hooks, s.id) && Waiting(hooks, s.id)
      ensures s.state != "shell"
    {
      RowStores(hooks, s.id);
    }
    if sid :| PlacedOn(hooks, sid, windows, ws) && InTurn(hooks, sid) && !Waiting(hooks, sid) {
      assert Hook.Exec(hooks).sessions[sid].state == "working";
    }
    if sid :| PlacedOn(hooks, sid, windows, ws) && InTurn(hooks, sid) && Waiting(hooks, sid) {
      assert Hook.Exec(hooks).sessions[sid].state == "prompt";
    }
  }

  lemma SilentMeaning(
    hooks: seq<Hook.Step>, sessions: seq<Session>, windows: Windows, now: int, ws: int, span: int)
    requires RowsOf(Hook.Exec(hooks), sessions)
    ensures SilentFor(sessions, windows, now, ws, span) <==> QuietFor(hooks, windows, now, ws, span)
  {
    RowsPlaced(hooks, sessions, windows, ws);
    forall s | s in sessions && OnWorkspace(s, windows, ws)
      ensures (s.lastTalk.None? || span <= now - s.lastTalk.value) <==>
        forall i | TalkedAt(hooks, s.id, i) :: span <= now - hooks[i].h.now
    {
      RowSilent(hooks, s.id, now, span);
    }
    if SilentFor(sessions, windows, now, ws, span) {
      forall sid, i | PlacedOn(hooks, sid, windows, ws) && TalkedAt(hooks, sid, i)
        ensures span <= now - hooks[i].h.now
      {
        assert Hook.Exec(hooks).sessions[sid] in sessions;
      }
    }
  }

  // The aggregate of the rows a run of the hook left: a workspace is wanted exactly if some session
  // was found there, and what it is to show is told by which events came since which.
  lemma GlyphMeaning(
    hooks: seq<Hook.Step>, sessions: seq<Session>, windows: Windows, now: int, out: map<int, Desired>, ws: int)
    requires RowsOf(Hook.Exec(hooks), sessions) && IsAggregate(sessions, windows, now, out)
    ensures ws in out <==> Wanted(hooks, windows, ws)
    ensures ws in out ==> Glyph(hooks, windows, now, ws, out[ws])
  {
    AskedMeaning(sessions, windows, now, out, ws);
    RowsPlaced(hooks, sessions, windows, ws);
    StoresMeaning(hooks, sessions, windows, ws);
    forall j | 0 <= j < |DECAY_THRESHOLDS|
      ensures SilentFor(sessions, windows, now, ws, DECAY_THRESHOLDS[j]) <==>
        QuietFor(hooks, windows, now, ws, DECAY_THRESHOLDS[j])
    {
      SilentMeaning(hooks, sessions, windows, now, ws, DECAY_THRESHOLDS[j]);
    }
  }

  // ---- on the bar ---------------------------------------------------------------------------

  // When the actor is quiescent after a reconcile without failures, and its last snapshot was of the
  // rows a run of the hook left, each workspace within reach shows on the compositor what those
  // events ask for, on the windows the compositor's events show; and a workspace on which they left
  // no session shows no name of the grammar.
  lemma BarMeaning(c: Compositor.Comp, steps: seq<Actor.Step>, ok: Reconciler.Outcomes, hooks: seq<Hook.Step>, v: int)
    requires Actor.Legal(Actor.Start(c), steps, ok) && Actor.AllCooperate(Actor.Start(c), steps, ok)
    requires var y := Actor.Exec(Actor.Start(c), steps, ok);
      y.a.adopted && !y.a.dirty && y.last.Some? && y.last.value.faultFree && v in y.c.spaces
    requires RowsOf(Hook.Exec(hooks), Actor.Received(steps))
    ensures
      var y := Actor.Exec(Actor.Start(c), steps, ok);
      var windows, name, slots := y.a.d.model.windows, y.c.spaces[v].name, y.a.d.slots.byWs;
      && (forall id, w :: NiriHistory.WindowSays(Actor.Heard(steps), y.a.d.model, id, w))
      && (!Wanted(hooks, windows, v) ==> ParseName(name).None?)
      && (Wanted(hooks, windows, v) && (v in y.a.d.managed || y.c.spaces[v].output == y.c.focusedOutput) ==>
            if v in slots
            then exists d :: Glyph(hooks, windows, y.last.value.now, v, d)
                   && name == Encode(d.status, Reconciler.Natural(slots[v]), d.level)
            else |slots.Keys| == MAX_SLOTS)
  {
    Actor.QuiescentNames(c, steps, ok, v);
    var y := Actor.Exec(Actor.Start(c), steps, ok);
    GlyphMeaning(
      hooks, Actor.Received(steps), y.a.d.model.windows, y.last.value.now, y.last.value.want, v);
  }
}
