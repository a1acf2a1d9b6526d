// internal/daemon/reconcile.go: the desired visual state of each workspace, computed from the
// live session set in one pass, and the declarative meaning of that pass.
module Aggregation {
  import opened Wrappers
  import opened Collections
  import opened Grammar
  import opened Rows
  import Niri

  // The target state of one workspace; the level matters for Idle only.
  datatype Desired = Desired(status: Status, level: nat)

  type Windows = map<int, Niri.Window>

  // The activity a row stands for: an unexpected state string counts as idle.
  function SessionStatus(s: Session): Status {
    if s.state == "working" then Working
    else if s.state == "prompt" then Prompt
    else if s.state == "shell" then Shell
    else Idle
  }

  // The workspace a session is shown on: that of its window, when the window is known.
  function WorkspaceOf(s: Session, windows: Windows): Option<int> {
    if s.windowId.Some? && s.windowId.value in windows
    then Some(windows[s.windowId.value].workspaceId)
    else None
  }

  // ---- declarative form ---------------------------------------------------

  ghost predicate Has(sessions: seq<Session>, windows: Windows, ws: int, st: Status) {
    exists s :: s in sessions && WorkspaceOf(s, windows) == Some(ws) && SessionStatus(s) == st
  }

  // The level a single idle session would have on its own: no talk time is dimmest.
  function OwnLevel(s: Session, now: int): (level: nat)
    ensures level < DECAY_LEVELS
  {
    if s.lastTalk.Some? then DecayLevel(now - s.lastTalk.value) else DECAY_LEVELS - 1
  }

  predicate IdleOn(s: Session, windows: Windows, ws: int) {
    WorkspaceOf(s, windows) == Some(ws) && SessionStatus(s) == Idle
  }

  // level is the brightest (lowest) of the idle sessions' own levels.
  ghost predicate BrightestIdle(sessions: seq<Session>, windows: Windows, now: int, ws: int, level: nat) {
    && (forall s | s in sessions && IdleOn(s, windows, ws) :: level <= OwnLevel(s, now))
    && (exists s :: s in sessions && IdleOn(s, windows, ws) && level == OwnLevel(s, now))
  }

  // What the sessions ask of workspace ws: any working beats any prompt, beats any shell, beats
  // idle at the brightest level; a workspace without a session is not wanted.
  ghost predicate Asks(sessions: seq<Session>, windows: Windows, now: int, ws: int, d: Desired) {
    if Has(sessions, windows, ws, Working) then d == Desired(Working, 0)
    else if Has(sessions, windows, ws, Prompt) then d == Desired(Prompt, 0)
    else if Has(sessions, windows, ws, Shell) then d == Desired(Shell, 0)
    else d.status == Idle && BrightestIdle(sessions, windows, now, ws, d.level)
  }

  ghost predicate Hosts(sessions: seq<Session>, windows: Windows, ws: int) {
    exists s :: s in sessions && WorkspaceOf(s, windows) == Some(ws)
  }

  ghost predicate IsAggregate(sessions: seq<Session>, windows: Windows, now: int, out: map<int, Desired>) {
    && (forall ws :: ws in out <==> Hosts(sessions, windows, ws))
    && (forall ws | ws in out :: Asks(sessions, windows, now, ws, out[ws]))
  }

  // The declarative form determines the result, and only through which sessions there are: the
  // outcome is the same for any reordering or repetition of the rows.
  lemma AggregateOrderInvariant(
    a: seq<Session>, b: seq<Session>, windows: Windows, now: int,
    outA: map<int, Desired>, outB: map<int, Desired>)
    requires forall s :: s in a <==> s in b
    requires IsAggregate(a, windows, now, outA) && IsAggregate(b, windows, now, outB)
    ensures outA == outB
  {
    forall ws
      ensures ws in outA <==> ws in outB
    {
      assert Hosts(a, windows, ws) <==> Hosts(b, windows, ws);
    }
    assert outA.Keys == outB.Keys;
    forall ws | ws in outA
      ensures outA[ws] == outB[ws]
    {
      forall st: Status
        ensures Has(a, windows, ws, st) <==> Has(b, windows, ws, st)
      {
      }
      assert Asks(a, windows, now, ws, outA[ws]) && Asks(b, windows, now, ws, outB[ws]);
    }
  }

  // ---- what is asked, in terms of the stored rows ---------------------------

  // The row's window is known and on workspace ws.
  predicate OnWorkspace(s: Session, windows: Windows, ws: int) {
    s.windowId.Some? && s.windowId.value in windows && windows[s.windowId.value].workspaceId == ws
  }

  // Some row on ws stores this state.
  ghost predicate Stores(sessions: seq<Session>, windows: Windows, ws: int, state: string) {
    exists s :: s in sessions && OnWorkspace(s, windows, ws) && s.state == state
  }

  lemma StatusMeaning(s: Session)
    ensures s.state == "working" <==> SessionStatus(s) == Working
    ensures s.state == "prompt" <==> SessionStatus(s) == Prompt
    ensures s.state == "shell" <==> SessionStatus(s) == Shell
  {
  }

  lemma HasStores(sessions: seq<Session>, windows: Windows, ws: int)
    ensures Has(sessions, windows, ws, Working) <==> Stores(sessions, windows, ws, "working")
    ensures Has(sessions, windows, ws, Prompt) <==> Stores(sessions, windows, ws, "prompt")
    ensures Has(sessions, windows, ws, Shell) <==> Stores(sessions, windows, ws, "shell")
  {
    forall s: Session
      ensures s.state == "working" <==> SessionStatus(s) == Working
      ensures s.state == "prompt" <==> SessionStatus(s) == Prompt
      ensures s.state == "shell" <==> SessionStatus(s) == Shell
      ensures WorkspaceOf(s, windows) == Some(ws) <==> OnWorkspace(s, windows, ws)
    {
      StatusMeaning(s);
    }
  }

  // Every row on ws was silent for at least this long, or never talked.
  ghost predicate SilentFor(sessions: seq<Session>, windows: Windows, now: int, ws: int, span: int) {
    forall s | s in sessions && OnWorkspace(s, windows, ws) :: s.lastTalk.None? || span <= now - s.lastTalk.value
  }

  // A workspace is wanted exactly if some row is on it. It shows working if some row stores that,
  // else prompt, else shell if some row does; and else idle, at a level that counts the decay
  // thresholds for which every row on it has been silent.
  lemma AskedMeaning(sessions: seq<Session>, windows: Windows, now: int, out: map<int, Desired>, ws: int)
    requires IsAggregate(sessions, windows, now, out)
    ensures ws in out <==> exists s :: s in sessions && OnWorkspace(s, windows, ws)
    ensures ws in out ==>
      out[ws].status ==
      if Stores(sessions, windows, ws, "working") then Working
      else if Stores(sessions, windows, ws, "prompt") then Prompt
      else if Stores(sessions, windows, ws, "shell") then Shell
      else Idle
    ensures ws in out && out[ws].status != Idle ==> out[ws].level == 0
    ensures ws in out && out[ws].status == Idle ==>
      && out[ws].level < DECAY_LEVELS
      && forall j | 0 <= j < |DECAY_THRESHOLDS| ::
           j < out[ws].level <==> SilentFor(sessions, windows, now, ws, DECAY_THRESHOLDS[j])
  {
    HasStores(sessions, windows, ws);
    assert forall s :: WorkspaceOf(s, windows) == Some(ws) <==> OnWorkspace(s, windows, ws);
    assert ws in out <==> Hosts(sessions, windows, ws);
    if ws in out {
      assert Asks(sessions, windows, now, ws, out[ws]);
      if out[ws].status == Idle {
        forall s | s in sessions && OnWorkspace(s, windows, ws)
          ensures IdleOn(s, windows, ws)
        {
          assert WorkspaceOf(s, windows) == Some(ws);
        }
        forall j | 0 <= j < |DECAY_THRESHOLDS|
          ensures j < out[ws].level <==> SilentFor(sessions, windows, now, ws, DECAY_THRESHOLDS[j])
        {
          LevelMeaning(sessions, windows, now, ws, out[ws].level, j);
        }
      }
    }
  }

  lemma LevelMeaning(sessions: seq<Session>, windows: Windows, now: int, ws: int, level: nat, j: nat)
    requires BrightestIdle(sessions, windows, now, ws, level) && j < |DECAY_THRESHOLDS|
    requires forall s | s in sessions && OnWorkspace(s, windows, ws) :: IdleOn(s, windows, ws)
    ensures j < level <==> SilentFor(sessions, windows, now, ws, DECAY_THRESHOLDS[j])
  {
    var least :| least in sessions && IdleOn(least, windows, ws) && level == OwnLevel(least, now);
    assert OnWorkspace(least, windows, ws);
    OwnLevelMeaning(least, now, j);
    forall s | s in sessions && OnWorkspace(s, windows, ws)
      ensures level <= OwnLevel(s, now)
      ensures j < OwnLevel(s, now) <==> s.lastTalk.None? || DECAY_THRESHOLDS[j] <= now - s.lastTalk.value
    {
      OwnLevelMeaning(s, now, j);
    }
  }

  lemma OwnLevelMeaning(s: Session, now: int, j: nat)
    requires j < |DECAY_THRESHOLDS|
    ensures j < OwnLevel(s, now) <==> s.lastTalk.None? || DECAY_THRESHOLDS[j] <= now - s.lastTalk.value
  {
  }

  // ---- one pass -----------------------------------------------------------

  datatype Acc = Acc(
    hasWorking: bool, hasPrompt: bool, hasShell: bool, hasIdle: bool,
    maxIdleTalk: int, idleTalkSet: bool)

  const NO_ACC := Acc(false, false, false, false, 0, false)

  function Note(a: Acc, s: Session): Acc {
    match SessionStatus(s)
    case Working => a.(hasWorking := true)
    case Prompt => a.(hasPrompt := true)
    case Shell => a.(hasShell := true)
    case Idle =>
      if s.lastTalk.Some? && (!a.idleTalkSet || s.lastTalk.value > a.maxIdleTalk)
      then a.(hasIdle := true, maxIdleTalk := s.lastTalk.value, idleTalkSet := true)
      else a.(hasIdle := true)
  }

  function Conclude(a: Acc, now: int): Desired {
    if a.hasWorking then Desired(Working, 0)
    else if a.hasPrompt then Desired(Prompt, 0)
    else if a.hasShell then Desired(Shell, 0)
    else Desired(Idle, if a.idleTalkSet then DecayLevel(now - a.maxIdleTalk) else DECAY_LEVELS - 1)
  }

  ghost predicate FlagsOk(a: Acc, sessions: seq<Session>, windows: Windows, ws: int) {
    && a.hasWorking == Has(sessions, windows, ws, Working)
    && a.hasPrompt == Has(sessions, windows, ws, Prompt)
    && a.hasShell == Has(sessions, windows, ws, Shell)
    && a.hasIdle == Has(sessions, windows, ws, Idle)
  }

  predicate TalkedIdle(s: Session, windows: Windows, ws: int) {
    IdleOn(s, windows, ws) && s.lastTalk.Some?
  }

  ghost predicate TalkOk(a: Acc, sessions: seq<Session>, windows: Windows, ws: int) {
    && (forall s | s in sessions && TalkedIdle(s, windows, ws) :: a.idleTalkSet && s.lastTalk.value <= a.maxIdleTalk)
    && (a.idleTalkSet ==> exists s :: s in sessions && TalkedIdle(s, windows, ws) && s.lastTalk.value == a.maxIdleTalk)
  }

  // The accumulator of ws summarizes the sessions of ws seen so far.
  ghost predicate Summarizes(a: Acc, sessions: seq<Session>, windows: Windows, ws: int) {
    FlagsOk(a, sessions, windows, ws) && TalkOk(a, sessions, windows, ws)
  }

  lemma HasSnoc(sessions: seq<Session>, s: Session, windows: Windows, ws: int, st: Status)
    ensures Has(sessions + [s], windows, ws, st) <==>
      Has(sessions, windows, ws, st) || (WorkspaceOf(s, windows) == Some(ws) && SessionStatus(s) == st)
  {
    if Has(sessions, windows, ws, st) {
      var r :| r in sessions && WorkspaceOf(r, windows) == Some(ws) && SessionStatus(r) == st;
      assert r in sessions + [s];
    }
    if WorkspaceOf(s, windows) == Some(ws) && SessionStatus(s) == st {
      assert s in sessions + [s];
    }
  }

  function NoteOn(a: Acc, s: Session, windows: Windows, ws: int): Acc {
    if WorkspaceOf(s, windows) == Some(ws) then Note(a, s) else a
  }

  lemma FlagsSnoc(a: Acc, sessions: seq<Session>, s: Session, windows: Windows, ws: int)
    requires FlagsOk(a, sessions, windows, ws)
    ensures FlagsOk(NoteOn(a, s, windows, ws), sessions + [s], windows, ws)
  {
    HasSnoc(sessions, s, windows, ws, Working);
    HasSnoc(sessions, s, windows, ws, Prompt);
    HasSnoc(sessions, s, windows, ws, Shell);
    HasSnoc(sessions, s, windows, ws, Idle);
  }

  lemma TalkSnoc(a: Acc, sessions: seq<Session>, s: Session, windows: Windows, ws: int)
    requires TalkOk(a, sessions, windows, ws)
    ensures TalkOk(NoteOn(a, s, windows, ws), sessions + [s], windows, ws)
  {
    var a' := NoteOn(a, s, windows, ws);
    if a'.idleTalkSet {
      if a.idleTalkSet && a'.maxIdleTalk == a.maxIdleTalk {
        var r :| r in sessions && TalkedIdle(r, windows, ws) && r.lastTalk.value == a.maxIdleTalk;
        assert r in sessions + [s];
      } else {
        assert s in sessions + [s] && TalkedIdle(s, windows, ws);
      }
    }
  }

  lemma SummarizesSnoc(a: Acc, sessions: seq<Session>, s: Session, windows: Windows, ws: int)
    requires Summarizes(a, sessions, windows, ws)
    ensures Summarizes(NoteOn(a, s, windows, ws), sessions + [s], windows, ws)
  {
    FlagsSnoc(a, sessions, s, windows, ws);
    TalkSnoc(a, sessions, s, windows, ws);
  }

  // The accumulators cover exactly the hosting workspaces, each summarizing its own sessions.
  ghost predicate Covers(accs: map<int, Acc>, sessions: seq<Session>, windows: Windows) {
    && (forall ws :: ws in accs <==> Hosts(sessions, windows, ws))
    && (forall ws | ws in accs :: Summarizes(accs[ws], sessions, windows, ws))
  }

  function NoteIn(accs: map<int, Acc>, s: Session, windows: Windows): map<int, Acc> {
    match WorkspaceOf(s, windows)
    case None => accs
    case Some(ws) => accs[ws := Note(if ws in accs then accs[ws] else NO_ACC, s)]
  }

  lemma CoversSnoc(accs: map<int, Acc>, sessions: seq<Session>, s: Session, windows: Windows)
    requires Covers(accs, sessions, windows)
    ensures Covers(NoteIn(accs, s, windows), sessions + [s], windows)
  {
    HostsSnoc(sessions, s, windows);
    var accs' := NoteIn(accs, s, windows);
    forall ws | ws in accs'
      ensures Summarizes(accs'[ws], sessions + [s], windows, ws)
    {
      if ws in accs {
        SummarizesSnoc(accs[ws], sessions, s, windows, ws);
      } else {
        NothingToSummarize(sessions, windows, ws);
        SummarizesSnoc(NO_ACC, sessions, s, windows, ws);
      }
    }
  }

  lemma NothingToSummarize(sessions: seq<Session>, windows: Windows, ws: int)
    requires !Hosts(sessions, windows, ws)
    ensures Summarizes(NO_ACC, sessions, windows, ws)
  {
  }

  // The most recent talk gives the brightest level, because decay is monotone.
  lemma ConcludeAsks(a: Acc, sessions: seq<Session>, windows: Windows, now: int, ws: int)
    requires Summarizes(a, sessions, windows, ws) && Hosts(sessions, windows, ws)
    ensures Asks(sessions, windows, now, ws, Conclude(a, now))
  {
    var d := Conclude(a, now);
    if !a.hasWorking && !a.hasPrompt && !a.hasShell {
      var h :| h in sessions && WorkspaceOf(h, windows) == Some(ws);
      assert SessionStatus(h) == Idle;
      forall s | s in sessions && IdleOn(s, windows, ws)
        ensures d.level <= OwnLevel(s, now)
      {
        if s.lastTalk.Some? {
          assert TalkedIdle(s, windows, ws);
          DecayMonotone(now - a.maxIdleTalk, now - s.lastTalk.value);
        }
      }
      if a.idleTalkSet {
        var s :| s in sessions && TalkedIdle(s, windows, ws) && s.lastTalk.value == a.maxIdleTalk;
        assert d.level == OwnLevel(s, now);
      } else {
        assert d.level == OwnLevel(h, now);
      }
    }
  }

  method Aggregate(sessions: seq<Session>, model: Niri.Model, now: int) returns (out: map<int, Desired>)
    ensures IsAggregate(sessions, model.windows, now, out)
  {
    var accs: map<int, Acc> := map[];
    for i := 0 to |sessions|
      invariant Covers(accs, sessions[..i], model.windows)
    {
      var s := sessions[i];
      assert sessions[..i + 1] == sessions[..i] + [s];
      CoversSnoc(accs, sessions[..i], s, model.windows);
      if s.windowId.Some? && s.windowId.value in model.windows {
        var ws := model.windows[s.windowId.value].workspaceId;
        var a := if ws in accs then accs[ws] else NO_ACC;
        accs := accs[ws := Note(a, s)];
      }
    }
    assert sessions[..|sessions|] == sessions;
    out := ConcludeAll(accs, sessions, model.windows, now);
  }

  // What the accumulators taken so far ask for.
  ghost predicate Concluded(
    out: map<int, Desired>, todo: set<int>, accs: map<int, Acc>, sessions: seq<Session>, windows: Windows, now: int)
  {
    && todo <= accs.Keys && out.Keys == accs.Keys - todo
    && forall ws | ws in out :: Asks(sessions, windows, now, ws, out[ws])
  }

  lemma ConcludeStep(
    out: map<int, Desired>, todo: set<int>, accs: map<int, Acc>, sessions: seq<Session>, windows: Windows, now: int,
    ws: int, d: Desired)
    requires Concluded(out, todo, accs, sessions, windows, now) && ws in todo && Asks(sessions, windows, now, ws, d)
    ensures Concluded(out[ws := d], todo - {ws}, accs, sessions, windows, now)
  {
  }

  lemma AllConcluded(
    out: map<int, Desired>, accs: map<int, Acc>, sessions: seq<Session>, windows: Windows, now: int)
    requires Covers(accs, sessions, windows) && Concluded(out, {}, accs, sessions, windows, now)
    ensures IsAggregate(sessions, windows, now, out)
  {
    assert out.Keys == accs.Keys;
  }

  // The second loop: what each accumulator asks for, in any order.
  method ConcludeAll(accs: map<int, Acc>, ghost sessions: seq<Session>, ghost windows: Windows, now: int)
    returns (out: map<int, Desired>)
    requires Covers(accs, sessions, windows)
    ensures IsAggregate(sessions, windows, now, out)
  {
    out := map[];
    var todo := accs.Keys;
    while todo != {}
      invariant Concluded(out, todo, accs, sessions, windows, now)
      decreases |todo|
    {
      var _ := Pick(todo);
      var ws :| ws in todo;
      var d := Conclude(accs[ws], now);
      ConcludeAsks(accs[ws], sessions, windows, now, ws);
      ConcludeStep(out, todo, accs, sessions, windows, now, ws, d);
      todo := todo - {ws};
      out := out[ws := d];
    }
    AllConcluded(out, accs, sessions, windows, now);
  }

  lemma HostsSnoc(sessions: seq<Session>, s: Session, windows: Windows)
    ensures forall ws ::
      Hosts(sessions + [s], windows, ws) <==> Hosts(sessions, windows, ws) || WorkspaceOf(s, windows) == Some(ws)
  {
    forall ws
      ensures Hosts(sessions + [s], windows, ws) <==>
        Hosts(sessions, windows, ws) || WorkspaceOf(s, windows) == Some(ws)
    {
      if Hosts(sessions, windows, ws) {
        var r :| r in sessions && WorkspaceOf(r, windows) == Some(ws);
        assert r in sessions + [s];
      }
      if WorkspaceOf(s, windows) == Some(ws) {
        assert s in sessions + [s];
      }
    }
  }

  // A workspace whose sessions are all idle only fades as the clock advances.
  lemma AllIdleFades(
    sessions: seq<Session>, windows: Windows, ws: int, now: int, later: int,
    out: map<int, Desired>, out': map<int, Desired>)
    requires IsAggregate(sessions, windows, now, out) && IsAggregate(sessions, windows, later, out')
    requires now <= later && ws in out
    requires forall s | s in sessions && WorkspaceOf(s, windows) == Some(ws) :: SessionStatus(s) == Idle
    ensures ws in out' && out[ws].status == Idle && out'[ws].status == Idle
    ensures out[ws].level <= out'[ws].level < DECAY_LEVELS
  {
    assert Hosts(sessions, windows, ws);
    IdleAskFades(sessions, windows, ws, now, later, out[ws], out'[ws]);
  }

  lemma IdleAskFades(
    sessions: seq<Session>, windows: Windows, ws: int, now: int, later: int, d: Desired, d': Desired)
    requires Asks(sessions, windows, now, ws, d) && Asks(sessions, windows, later, ws, d') && now <= later
    requires forall s | s in sessions && WorkspaceOf(s, windows) == Some(ws) :: SessionStatus(s) == Idle
    ensures d.status == Idle && d'.status == Idle && d.level <= d'.level < DECAY_LEVELS
  {
    assert BrightestIdle(sessions, windows, now, ws, d.level) && BrightestIdle(sessions, windows, later, ws, d'.level);
    var s :| s in sessions && IdleOn(s, windows, ws) && d'.level == OwnLevel(s, later);
    OwnLevelFades(s, now, later);
  }

  lemma OwnLevelFades(s: Session, now: int, later: int)
    requires now <= later
    ensures OwnLevel(s, now) <= OwnLevel(s, later)
  {
    if s.lastTalk.Some? {
      DecayMonotone(now - s.lastTalk.value, later - s.lastTalk.value);
    }
  }
}
