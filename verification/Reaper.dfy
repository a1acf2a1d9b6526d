// internal/daemon/gc.go: which sessions the daemon's tick declares dead.
module Reaper {
  import opened Rows
  import Store
  import Niri

  const MISS_THRESHOLD := 3

  // What one garbage-collection tick observes: the session snapshot, and the ids Claude Code
  // lists, when that list is available.
  datatype Tick = Tick(sessions: seq<Session>, listed: set<string>, available: bool)

  function Misses(miss: map<string, nat>, id: string): nat {
    if id in miss then miss[id] else 0
  }

  function NoteOne(miss: map<string, nat>, s: Session, listed: set<string>): map<string, nat> {
    if s.windowId.None? then miss
    else if s.id in listed then miss - {s.id}
    else miss[s.id := Misses(miss, s.id) + 1]
  }

  function NoteAll(miss: map<string, nat>, sessions: seq<Session>, listed: set<string>): map<string, nat> {
    if sessions == [] then miss
    else NoteOne(NoteAll(miss, sessions[..|sessions| - 1], listed), sessions[|sessions| - 1], listed)
  }

  // The local sessions of the snapshot.
  function Seen(sessions: seq<Session>): set<string> {
    set s | s in sessions && s.windowId.Some? :: s.id
  }

  function MissStep(miss: map<string, nat>, tick: Tick): map<string, nat> {
    if !tick.available then map[]
    else
      var noted := NoteAll(miss, tick.sessions, tick.listed);
      map id | id in noted && id in Seen(tick.sessions) :: noted[id]
  }

  function DeadOf(miss: map<string, nat>, sessions: seq<Session>, listed: set<string>): set<string> {
    if sessions == [] then {}
    else
      var init, s := sessions[..|sessions| - 1], sessions[|sessions| - 1];
      DeadOf(miss, init, listed) +
      if s.windowId.Some? && s.id !in listed && Misses(NoteAll(miss, init, listed), s.id) + 1 >= MISS_THRESHOLD
      then {s.id} else {}
  }

  // The ids one tick declares dead.
  function DeclaredBy(miss: map<string, nat>, tick: Tick): set<string> {
    if tick.available then DeadOf(miss, tick.sessions, tick.listed) else {}
  }

  class MissCounter {
    var fpMiss: map<string, nat>

    constructor ()
      ensures fpMiss == map[]
    {
      fpMiss := map[];
    }

    method FirstPartyDead(tick: Tick) returns (dead: set<string>)
      modifies this
      ensures fpMiss == MissStep(old(fpMiss), tick)
      ensures dead == DeclaredBy(old(fpMiss), tick)
    {
      if !tick.available {
        fpMiss := map[];
        return {};
      }
      var seen;
      seen, dead := NoteSessions(tick.sessions, tick.listed);
      fpMiss := map id | id in fpMiss && id in seen :: fpMiss[id];
    }

    // The pass over the snapshot: count or clear each local session.
    method NoteSessions(sessions: seq<Session>, listed: set<string>) returns (seen: set<string>, dead: set<string>)
      modifies this
      ensures fpMiss == NoteAll(old(fpMiss), sessions, listed)
      ensures seen == Seen(sessions)
      ensures dead == DeadOf(old(fpMiss), sessions, listed)
    {
      seen, dead := {}, {};
      for i := 0 to |sessions|
        invariant Noted(old(fpMiss), sessions[..i], listed, fpMiss, seen, dead)
      {
        var s := sessions[i];
        assert sessions[..i + 1] == sessions[..i] + [s];
        NoteSnoc(old(fpMiss), sessions[..i], s, listed, fpMiss, seen, dead);
        if s.windowId.None? {
          continue;
        }
        seen := seen + {s.id};
        if s.id in listed {
          fpMiss := fpMiss - {s.id};
          continue;
        }
        fpMiss := fpMiss[s.id := (if s.id in fpMiss then fpMiss[s.id] else 0) + 1];
        if fpMiss[s.id] >= MISS_THRESHOLD {
          dead := dead + {s.id};
        }
      }
      assert sessions[..|sessions|] == sessions;
    }
  }

  // The counter, the sessions seen and those declared dead, after a part of the snapshot.
  ghost predicate Noted(
    miss: map<string, nat>, sessions: seq<Session>, listed: set<string>,
    now: map<string, nat>, seen: set<string>, dead: set<string>)
  {
    now == NoteAll(miss, sessions, listed) && seen == Seen(sessions) && dead == DeadOf(miss, sessions, listed)
  }

  lemma NoteSnoc(
    miss: map<string, nat>, sessions: seq<Session>, s: Session, listed: set<string>,
    now: map<string, nat>, seen: set<string>, dead: set<string>)
    requires Noted(miss, sessions, listed, now, seen, dead)
    ensures
      var local := if s.windowId.Some? then {s.id} else {};
      var late := if s.windowId.Some? && s.id !in listed && Misses(now, s.id) + 1 >= MISS_THRESHOLD then {s.id} else {};
      Noted(miss, sessions + [s], listed, NoteOne(now, s, listed), seen + local, dead + late)
  {
    assert (sessions + [s])[..|sessions|] == sessions;
    SeenSnoc(sessions, s);
  }

  lemma SeenSnoc(sessions: seq<Session>, s: Session)
    ensures Seen(sessions + [s]) == Seen(sessions) + if s.windowId.Some? then {s.id} else {}
  {
    assert s in sessions + [s];
    assert forall r | r in sessions :: r in sessions + [s];
  }

  // ---- the counter over whole histories --------------------------------------------

  function MissesAfter(history: seq<Tick>): map<string, nat> {
    if history == [] then map[]
    else MissStep(MissesAfter(history[..|history| - 1]), history[|history| - 1])
  }

  function DeadAt(history: seq<Tick>): set<string>
    requires history != []
  {
    var tick := history[|history| - 1];
    DeclaredBy(MissesAfter(history[..|history| - 1]), tick)
  }

  // The tick is evidence of absence: the list was available, and the session was local, in the
  // snapshot, and not listed.
  predicate Absent(tick: Tick, id: string) {
    tick.available && id in Seen(tick.sessions) && id !in tick.listed
  }

  // How many ticks in a row, up to the last, were evidence of absence.
  function TrailingRun(history: seq<Tick>, id: string): nat {
    if history == [] || !Absent(history[|history| - 1], id) then 0
    else 1 + TrailingRun(history[..|history| - 1], id)
  }

  // Session ids are the primary key of the snapshot's table.
  ghost predicate UniqueIds(sessions: seq<Session>) {
    forall i, j | 0 <= i < j < |sessions| :: sessions[i].id != sessions[j].id
  }

  lemma {:induction false} NoteAllOnce(miss: map<string, nat>, sessions: seq<Session>, listed: set<string>, id: string)
    requires UniqueIds(sessions)
    ensures var noted := NoteAll(miss, sessions, listed);
      if id !in Seen(sessions) then Misses(noted, id) == Misses(miss, id) && (id in noted <==> id in miss)
      else if id in listed then id !in noted
      else id in noted && noted[id] == Misses(miss, id) + 1
  {
    if sessions != [] {
      var init, s := sessions[..|sessions| - 1], sessions[|sessions| - 1];
      assert sessions == init + [s];
      assert UniqueIds(init);
      NoteAllOnce(miss, init, listed, id);
      SeenSnoc(init, s);
      NotSeenTwice(init, s);
      NoteOneAt(NoteAll(miss, init, listed), s, listed, id);
    }
  }

  lemma NoteOneAt(miss: map<string, nat>, s: Session, listed: set<string>, id: string)
    ensures var noted := NoteOne(miss, s, listed);
      if s.id != id || s.windowId.None? then Misses(noted, id) == Misses(miss, id) && (id in noted <==> id in miss)
      else if id in listed then id !in noted
      else id in noted && noted[id] == Misses(miss, id) + 1
  {
  }

  lemma NotSeenTwice(init: seq<Session>, s: Session)
    requires UniqueIds(init + [s])
    ensures s.id !in Seen(init)
  {
    forall r | r in init
      ensures r.id != s.id
    {
      var i :| 0 <= i < |init| && init[i] == r;
      assert (init + [s])[i].id != (init + [s])[|init|].id;
    }
  }

  lemma {:induction false} DeadOfOnce(miss: map<string, nat>, sessions: seq<Session>, listed: set<string>, id: string)
    requires UniqueIds(sessions)
    ensures id in DeadOf(miss, sessions, listed) <==>
      id in Seen(sessions) && id !in listed && Misses(miss, id) + 1 >= MISS_THRESHOLD
  {
    if sessions != [] {
      var init, s := sessions[..|sessions| - 1], sessions[|sessions| - 1];
      assert sessions == init + [s];
      DeadOfOnce(miss, init, listed, id);
      SeenSnoc(init, s);
      if s.id == id {
        NotSeenTwice(init, s);
        NoteAllOnce(miss, init, listed, id);
      }
    }
  }

  // The counter is exactly the length of the trailing run of absences, for every session and
  // every history, and holds no entry for a session without one.
  lemma {:induction false} CounterIsTrailingRun(history: seq<Tick>, id: string)
    requires forall tick | tick in history :: UniqueIds(tick.sessions)
    ensures Misses(MissesAfter(history), id) == TrailingRun(history, id)
    ensures id in MissesAfter(history) <==> TrailingRun(history, id) > 0
  {
    if history != [] {
      var init, tick := history[..|history| - 1], history[|history| - 1];
      assert tick in history && forall t | t in init :: t in history;
      CounterIsTrailingRun(init, id);
      NoteAllOnce(MissesAfter(init), tick.sessions, tick.listed, id);
    }
  }

  // A session is declared dead exactly when it was absent on the last three ticks in a row.
  lemma DeadIffThreeInARow(history: seq<Tick>, id: string)
    requires history != [] && forall tick | tick in history :: UniqueIds(tick.sessions)
    ensures id in DeadAt(history) <==> TrailingRun(history, id) >= 3
  {
    var init, tick := history[..|history| - 1], history[|history| - 1];
    assert tick in history && forall t | t in init :: t in history;
    CounterIsTrailingRun(init, id);
    DeadOfOnce(MissesAfter(init), tick.sessions, tick.listed, id);
  }

  // ---- the reaping predicate ---------------------------------------------------------

  // Dead when the window is gone, the terminal process is gone, or the session was declared dead.
  predicate IsDead(s: Session, windows: set<int>, alive: set<int>, declared: set<string>) {
    || (s.windowId.Some? && s.windowId.value !in windows)
    || (s.terminalPid.Some? && s.terminalPid.value !in alive)
    || s.id in declared
  }

  // The rows a sweep leaves.
  function Survivors(
    rows: map<string, Session>, windows: set<int>, alive: set<int>, declared: set<string>): map<string, Session>
  {
    map sid | sid in rows && !IsDead(rows[sid], windows, alive, declared) :: rows[sid]
  }

  // A row stays exactly if its window is null or known, its terminal is null or alive, and its
  // session was not declared dead; and it stays as it is.
  lemma SurvivorsMeaning(
    rows: map<string, Session>, windows: set<int>, alive: set<int>, declared: set<string>, sid: string)
    ensures sid in Survivors(rows, windows, alive, declared) <==>
      && sid in rows
      && (rows[sid].windowId.None? || rows[sid].windowId.value in windows)
      && (rows[sid].terminalPid.None? || rows[sid].terminalPid.value in alive)
      && rows[sid].id !in declared
    ensures sid in Survivors(rows, windows, alive, declared) ==>
      Survivors(rows, windows, alive, declared)[sid] == rows[sid]
  {
  }

  // What one sweep finds: the tick, the windows of the model, and the live processes.
  datatype Sweep = Sweep(tick: Tick, windows: set<int>, alive: set<int>)

  function Ticks(history: seq<Sweep>): seq<Tick> {
    seq(|history|, i requires 0 <= i < |history| => history[i].tick)
  }

  // The rows after a history of sweeps without any hook in between.
  function Swept(rows: map<string, Session>, history: seq<Sweep>): map<string, Session> {
    if history == [] then rows
    else
      var last := history[|history| - 1];
      Survivors(Swept(rows, history[..|history| - 1]), last.windows, last.alive, DeadAt(Ticks(history)))
  }

  lemma {:induction false} DeclaredAreSeen(miss: map<string, nat>, sessions: seq<Session>, listed: set<string>)
    ensures DeadOf(miss, sessions, listed) <= Seen(sessions)
  {
    if sessions != [] {
      var init, s := sessions[..|sessions| - 1], sessions[|sessions| - 1];
      assert sessions == init + [s];
      DeclaredAreSeen(miss, init, listed);
      SeenSnoc(init, s);
    }
  }

  // At no sweep had the session just been absent for three ticks in a row.
  ghost predicate NeverThree(history: seq<Sweep>, sid: string) {
    forall n | 0 < n <= |history| :: TrailingRun(Ticks(history[..n]), sid) < 3
  }

  // A row survives a whole history exactly if at every sweep its window was null or known, its
  // terminal null or alive, and its session had not just been absent for three ticks in a row.
  lemma {:induction false} SweptMeaning(rows: map<string, Session>, history: seq<Sweep>, sid: string)
    requires sid in rows && rows[sid].id == sid
    requires forall sweep | sweep in history :: UniqueIds(sweep.tick.sessions)
    ensures sid in Swept(rows, history) <==>
      && (rows[sid].windowId.Some? ==> forall sweep | sweep in history :: rows[sid].windowId.value in sweep.windows)
      && (rows[sid].terminalPid.Some? ==> forall sweep | sweep in history :: rows[sid].terminalPid.value in sweep.alive)
      && NeverThree(history, sid)
    ensures sid in Swept(rows, history) ==> Swept(rows, history)[sid] == rows[sid]
  {
    if history != [] {
      var init, last := history[..|history| - 1], history[|history| - 1];
      assert last in history && forall sweep | sweep in init :: sweep in history;
      SweptMeaning(rows, init, sid);
      SurvivorsMeaning(Swept(rows, init), last.windows, last.alive, DeadAt(Ticks(history)), sid);
      TicksUnique(history);
      DeadIffThreeInARow(Ticks(history), sid);
      RunsSnoc(history, sid);
      assert history == init + [last];
    }
  }

  lemma TicksUnique(history: seq<Sweep>)
    requires forall sweep | sweep in history :: UniqueIds(sweep.tick.sessions)
    ensures forall tick | tick in Ticks(history) :: UniqueIds(tick.sessions)
  {
    forall i | 0 <= i < |history|
      ensures UniqueIds(Ticks(history)[i].sessions)
    {
      assert history[i] in history;
    }
  }

  lemma RunsSnoc(history: seq<Sweep>, sid: string)
    requires history != []
    ensures NeverThree(history, sid) <==>
      NeverThree(history[..|history| - 1], sid) && TrailingRun(Ticks(history), sid) < 3
  {
    var init := history[..|history| - 1];
    assert history[..|history|] == history;
    assert forall n | 0 < n <= |init| :: init[..n] == history[..n];
    if NeverThree(history, sid) {
      assert TrailingRun(Ticks(history[..|history|]), sid) < 3;
    }
  }

  // So a row with neither window nor terminal, and no local row in any snapshot, is never reaped.
  lemma RemoteSurvives(rows: map<string, Session>, history: seq<Sweep>, sid: string)
    requires sid in rows && rows[sid].id == sid && rows[sid].windowId.None? && rows[sid].terminalPid.None?
    requires forall sweep, s | sweep in history && s in sweep.tick.sessions && s.id == sid :: s.windowId.None?
    ensures sid in Swept(rows, history) && Swept(rows, history)[sid] == rows[sid]
  {
    if history != [] {
      var init, last := history[..|history| - 1], history[|history| - 1];
      assert last in history && forall sweep | sweep in init :: sweep in history;
      RemoteSurvives(rows, init, sid);
      SurvivorsMeaning(Swept(rows, init), last.windows, last.alive, DeadAt(Ticks(history)), sid);
      assert Ticks(history)[|history| - 1] == last.tick;
      DeclaredAreSeen(MissesAfter(Ticks(history)[..|history| - 1]), last.tick.sessions, last.tick.listed);
    }
  }

  // One tick of the collector: count absences, then delete the dead rows.
  method Gc(counter: MissCounter, db: Store.Database, model: Niri.Model, tick: Tick, alive: set<int>)
    returns (n: nat, ghost declared: set<string>)
    modifies counter, db`sessions
    ensures counter.fpMiss == MissStep(old(counter.fpMiss), tick)
    ensures declared == DeclaredBy(old(counter.fpMiss), tick)
    ensures forall sid :: sid in db.sessions <==>
      && sid in old(db.sessions)
      && (old(db.sessions)[sid].windowId.None? || old(db.sessions)[sid].windowId.value in model.windows)
      && (old(db.sessions)[sid].terminalPid.None? || old(db.sessions)[sid].terminalPid.value in alive)
      && old(db.sessions)[sid].id !in declared
    ensures forall sid | sid in db.sessions :: db.sessions[sid] == old(db.sessions)[sid]
    ensures db.sessions == Survivors(old(db.sessions), model.windows.Keys, alive, declared)
    ensures n == |old(db.sessions)| - |db.sessions|
    ensures db.events == old(db.events)
  {
    var dead := counter.FirstPartyDead(tick);
    declared := dead;
    var windows := model.windows.Keys;
    n := db.ReapDead((s: Session) => IsDead(s, windows, alive, dead));
  }
}
