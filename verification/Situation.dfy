// Where a session row says its session is: after any run of hooks, reaps and title rows, the window,
// the terminal and the repository of a row are those of one particular event, and every repository
// a session was found in stays linked to it (internal/hook/hook.go, internal/db/db.go).
module Situation {
  import opened Wrappers
  import opened Rows
  import opened Store
  import opened Hook
  import opened Lifecycle

  datatype Place = Window | Terminal | Repository

  // What an invocation found out.
  function Sought(h: Invocation, p: Place): Option<int> {
    match p
    case Window => if h.window.Some? then Some(h.window.value.0) else None
    case Terminal => if h.window.Some? then Some(h.window.value.1) else None
    case Repository => if h.repo.Some? then Some(h.repo.value.0) else None
  }

  function Held(s: Session, p: Place): Option<int> {
    match p
    case Window => s.windowId
    case Terminal => s.terminalPid
    case Repository => s.repoId
  }

  function HeldIn(t: Tables, sid: string, p: Place): Option<int> {
    if sid in t.sessions then Held(t.sessions[sid], p) else None
  }

  // An event that can place the session finds it.
  predicate Finds(step: Step, sid: string, p: Place) {
    Appears(step, sid) && Sought(step.h, p).Some?
  }

  // A SessionStart that finds it.
  predicate Restarts(step: Step, sid: string, p: Place) {
    Fired(step, sid, "SessionStart") && Sought(step.h, p).Some?
  }

  // ---- one step -------------------------------------------------------------------------------

  // A row has a window exactly if it has a terminal.
  ghost predicate Paired(t: Tables, sid: string) {
    HeldIn(t, sid, Window).Some? <==> HeldIn(t, sid, Terminal).Some?
  }

  // A place found at a SessionStart, or while the row holds none, is taken over.
  ghost predicate HoldsAfter(t: Tables, t': Tables, s: Step, sid: string, p: Place) {
    sid in t'.sessions ==>
      HeldIn(t', sid, p) ==
      if Restarts(s, sid, p) || (Finds(s, sid, p) && HeldIn(t, sid, p).None?) then Sought(s.h, p)
      else HeldIn(t, sid, p)
  }

  // Nothing but the resolution of window and repository moves them.
  lemma NextRowPlaces(base: Session, h: Invocation)
    ensures var s, placed := NextRow(base, h), Situated(base, h);
      s.windowId == placed.windowId && s.terminalPid == placed.terminalPid && s.repoId == placed.repoId
  {
  }

  lemma SituatedHolds(base: Session, h: Invocation, p: Place)
    requires base.windowId.Some? <==> base.terminalPid.Some?
    ensures Held(Situated(base, h), p) ==
      if (h.event == "SessionStart" || Held(base, p).None?) && Sought(h, p).Some? then Sought(h, p) else Held(base, p)
    ensures Situated(base, h).windowId.Some? <==> Situated(base, h).terminalPid.Some?
  {
  }

  lemma NextRowHolds(base: Session, h: Invocation, p: Place)
    requires base.windowId.Some? <==> base.terminalPid.Some?
    ensures Held(NextRow(base, h), p) ==
      if (h.event == "SessionStart" || Held(base, p).None?) && Sought(h, p).Some? then Sought(h, p) else Held(base, p)
    ensures NextRow(base, h).windowId.Some? <==> NextRow(base, h).terminalPid.Some?
  {
    NextRowPlaces(base, h);
    SituatedHolds(base, h, p);
  }

  lemma HookHolds(t: Tables, h: Invocation, sid: string, p: Place)
    requires sid != "" && Replayable(t) && Paired(t, sid)
    ensures HoldsAfter(t, HookStep(t, h), Invoke(h), sid, p) && Paired(HookStep(t, h), sid)
  {
    if h.session != sid {
      HookSpares(t, h, sid);
    } else {
      HookLeaves(t, h);
      TableMeans(h, BaseRow(t, h).state);
      NextRowHolds(BaseRow(t, h), h, p);
    }
  }

  lemma StepHolds(t: Tables, s: Step, sid: string, p: Place)
    requires sid != "" && Replayable(t) && Paired(t, sid)
    ensures HoldsAfter(t, After(t, s), s, sid, p) && Paired(After(t, s), sid)
  {
    if s.Invoke? {
      HookHolds(t, s.h, sid, p);
    }
  }

  // ---- whole runs -----------------------------------------------------------------------------

  // Some event has found it since the row was last dropped.
  ghost predicate Found(steps: seq<Step>, sid: string, p: Place) {
    exists i | 0 <= i < |steps| :: Finds(steps[i], sid, p) && forall j | i < j < |steps| :: !Drops(steps[j], sid)
  }

  lemma FoundSnoc(steps: seq<Step>, s: Step, sid: string, p: Place)
    ensures Found(steps + [s], sid, p) <==> Finds(s, sid, p) || (Found(steps, sid, p) && !Drops(s, sid))
  {
    var all := steps + [s];
    assert all[|steps|] == s;
    if Found(steps, sid, p) && !Drops(s, sid) {
      var i :| 0 <= i < |steps| && Finds(steps[i], sid, p) && forall j | i < j < |steps| :: !Drops(steps[j], sid);
      assert all[i] == steps[i];
    }
    if Found(all, sid, p) && !Finds(s, sid, p) {
      var i :| 0 <= i < |all| && Finds(all[i], sid, p) && forall j | i < j < |all| :: !Drops(all[j], sid);
      assert forall j | i <= j < |steps| :: steps[j] == all[j];
    }
  }

  // Step i decides the place: the latest SessionStart that found it, or, when none did, the first
  // event that found it since the row appeared.
  ghost predicate FoundAt(steps: seq<Step>, sid: string, p: Place, i: int) {
    && 0 <= i < |steps| && Finds(steps[i], sid, p)
    && (Restarts(steps[i], sid, p) || !Found(steps[..i], sid, p))
    && forall j | i < j < |steps| :: !Restarts(steps[j], sid, p) && !Drops(steps[j], sid)
  }

  lemma FoundAtSnoc(steps: seq<Step>, s: Step, sid: string, p: Place, i: int)
    ensures FoundAt(steps + [s], sid, p, i) <==>
      if i == |steps| then Finds(s, sid, p) && (Restarts(s, sid, p) || !Found(steps, sid, p))
      else FoundAt(steps, sid, p, i) && !Restarts(s, sid, p) && !Drops(s, sid)
  {
    var all := steps + [s];
    assert all[|steps|] == s;
    assert forall j | 0 <= j < |steps| :: steps[j] == all[j];
    if 0 <= i <= |steps| {
      assert all[..i] == steps[..i];
      assert steps[..|steps|] == steps;
    }
  }

  // A row holds a place exactly when some event has found one since the row was last dropped.
  lemma {:induction false} HeldIffFound(steps: seq<Step>, sid: string, p: Place)
    requires sid != ""
    ensures HeldIn(Exec(steps), sid, p).Some? <==> Found(steps, sid, p)
    ensures Paired(Exec(steps), sid)
  {
    if steps != [] {
      var init, s := steps[..|steps| - 1], steps[|steps| - 1];
      assert steps == init + [s];
      HeldIffFound(init, sid, p);
      RunReplayable(init);
      StepMoves(Exec(init), s, sid);
      StepHolds(Exec(init), s, sid, p);
      FoundSnoc(init, s, sid, p);
    }
  }

  // The last step of a run, from what the steps before it found.
  lemma LastStep(init: seq<Step>, s: Step, sid: string, p: Place)
    requires sid != ""
    ensures var t, t' := Exec(init), Exec(init + [s]);
      && HoldsAfter(t, t', s, sid, p) && (HeldIn(t, sid, p).Some? <==> Found(init, sid, p))
      && (sid in t'.sessions <==> Appears(s, sid) || (sid in t.sessions && !Drops(s, sid)))
  {
    assert (init + [s])[..|init|] == init;
    HeldIffFound(init, sid, p);
    RunReplayable(init);
    StepMoves(Exec(init), s, sid);
    StepHolds(Exec(init), s, sid, p);
  }

  lemma {:induction false} FoundIsHeld(steps: seq<Step>, sid: string, p: Place, i: int)
    requires sid != "" && FoundAt(steps, sid, p, i)
    ensures sid in Exec(steps).sessions && HeldIn(Exec(steps), sid, p) == Sought(steps[i].h, p)
  {
    var init, s := steps[..|steps| - 1], steps[|steps| - 1];
    assert steps == init + [s];
    FoundAtSnoc(init, s, sid, p, i);
    LastStep(init, s, sid, p);
    if i != |init| {
      FoundIsHeld(init, sid, p, i);
    }
  }

  lemma {:induction false} HeldIsFound(steps: seq<Step>, sid: string, p: Place) returns (i: int)
    requires sid != "" && HeldIn(Exec(steps), sid, p).Some?
    ensures FoundAt(steps, sid, p, i)
  {
    var init, s := steps[..|steps| - 1], steps[|steps| - 1];
    assert steps == init + [s];
    LastStep(init, s, sid, p);
    if Restarts(s, sid, p) || (Finds(s, sid, p) && HeldIn(Exec(init), sid, p).None?) {
      i := |init|;
    } else {
      i := HeldIsFound(init, sid, p);
    }
    StillFound(init, s, sid, p, i);
  }

  lemma StillFound(steps: seq<Step>, s: Step, sid: string, p: Place, i: int)
    requires if i == |steps| then Finds(s, sid, p) && (Restarts(s, sid, p) || !Found(steps, sid, p))
      else FoundAt(steps, sid, p, i) && !Restarts(s, sid, p) && !Drops(s, sid)
    ensures FoundAt(steps + [s], sid, p, i)
  {
    FoundAtSnoc(steps, s, sid, p, i);
  }

  // The window, the terminal and the repository of a row are those of the latest SessionStart that
  // found one since the row appeared, or else of the first event that found one; without such an
  // event the row has none.
  lemma PlaceMeaning(steps: seq<Step>, sid: string, p: Place, v: int)
    requires sid != "" && sid in Exec(steps).sessions
    ensures Held(Exec(steps).sessions[sid], p) == Some(v) <==>
      exists i :: FoundAt(steps, sid, p, i) && Sought(steps[i].h, p) == Some(v)
  {
    if Held(Exec(steps).sessions[sid], p) == Some(v) {
      var i := HeldIsFound(steps, sid, p);
      FoundIsHeld(steps, sid, p, i);
    }
    forall i | FoundAt(steps, sid, p, i) && Sought(steps[i].h, p) == Some(v)
      ensures Held(Exec(steps).sessions[sid], p) == Some(v)
    {
      FoundIsHeld(steps, sid, p, i);
    }
  }

  // ---- the links that stay --------------------------------------------------------------------

  // Step i finds the session in repository r when it is asked where the session is.
  ghost predicate LinksAt(steps: seq<Step>, sid: string, r: int, i: int) {
    && 0 <= i < |steps| && Finds(steps[i], sid, Repository) && steps[i].h.repo.value.0 == r
    && (Restarts(steps[i], sid, Repository) || !Found(steps[..i], sid, Repository))
  }

  ghost predicate FirstLink(steps: seq<Step>, sid: string, r: int, i: int) {
    LinksAt(steps, sid, r, i) && forall j | 0 <= j < i :: !LinksAt(steps, sid, r, j)
  }

  ghost predicate LastLink(steps: seq<Step>, sid: string, r: int, i: int) {
    LinksAt(steps, sid, r, i) && forall j | i < j < |steps| :: !LinksAt(steps, sid, r, j)
  }

  // A further step s would be one of them.
  ghost predicate LinksNext(steps: seq<Step>, s: Step, sid: string, r: int) {
    && Finds(s, sid, Repository) && s.h.repo.value.0 == r
    && (Restarts(s, sid, Repository) || !Found(steps, sid, Repository))
  }

  lemma LinksAtSnoc(steps: seq<Step>, s: Step, sid: string, r: int, i: int)
    ensures LinksAt(steps + [s], sid, r, i) <==>
      if i == |steps| then LinksNext(steps, s, sid, r) else LinksAt(steps, sid, r, i)
  {
    var all := steps + [s];
    assert all[|steps|] == s;
    if 0 <= i <= |steps| {
      assert all[..i] == steps[..i];
      assert steps[..|steps|] == steps;
    }
  }

  lemma FirstLinkSnoc(steps: seq<Step>, s: Step, sid: string, r: int, i: int)
    requires FirstLink(steps + [s], sid, r, i)
    ensures if i == |steps| then LinksNext(steps, s, sid, r) && !EverLinks(steps, sid, r)
      else FirstLink(steps, sid, r, i)
  {
    LinksAtSnoc(steps, s, sid, r, i);
    forall j | 0 <= j < i
      ensures !LinksAt(steps, sid, r, j)
    {
      LinksAtSnoc(steps, s, sid, r, j);
    }
  }

  lemma LastLinkSnoc(steps: seq<Step>, s: Step, sid: string, r: int, i: int)
    requires LastLink(steps + [s], sid, r, i)
    ensures if i == |steps| then LinksNext(steps, s, sid, r)
      else !LinksNext(steps, s, sid, r) && LastLink(steps, sid, r, i)
  {
    LinksAtSnoc(steps, s, sid, r, i);
    LinksAtSnoc(steps, s, sid, r, |steps|);
    forall j | i < j < |steps|
      ensures !LinksAt(steps, sid, r, j)
    {
      LinksAtSnoc(steps, s, sid, r, j);
    }
  }

  ghost predicate EverLinks(steps: seq<Step>, sid: string, r: int) {
    exists i :: LinksAt(steps, sid, r, i)
  }

  lemma EverLinksSnoc(steps: seq<Step>, s: Step, sid: string, r: int)
    ensures EverLinks(steps + [s], sid, r) <==> EverLinks(steps, sid, r) || LinksNext(steps, s, sid, r)
  {
    LinksAtSnoc(steps, s, sid, r, |steps|);
    if EverLinks(steps, sid, r) {
      var i :| LinksAt(steps, sid, r, i);
      LinksAtSnoc(steps, s, sid, r, i);
    }
    if EverLinks(steps + [s], sid, r) {
      var i :| LinksAt(steps + [s], sid, r, i);
      LinksAtSnoc(steps, s, sid, r, i);
    }
  }

  // The link of a session and a repository after a step: made or refreshed, or as before.
  ghost predicate LinkAfter(t: Tables, t': Tables, s: Step, sid: string, r: int) {
    var key := (sid, r);
    if Finds(s, sid, Repository) && s.h.repo.value.0 == r
       && (Restarts(s, sid, Repository) || HeldIn(t, sid, Repository).None?)
    then
      && key in t'.links && t'.links[key].branch == NullString(s.h.repo.value.1)
      && t'.links[key].firstSeen == if key in t.links then t.links[key].firstSeen else s.h.now
    else (key in t'.links <==> key in t.links) && (key in t.links ==> t'.links[key] == t.links[key])
  }

  lemma HookLinks(t: Tables, h: Invocation, sid: string, r: int)
    requires sid != ""
    ensures LinkAfter(t, HookStep(t, h), Invoke(h), sid, r)
  {
    TableMeans(h, BaseRow(t, h).state);
  }

  lemma StepLinks(t: Tables, s: Step, sid: string, r: int)
    requires sid != ""
    ensures LinkAfter(t, After(t, s), s, sid, r)
  {
    if s.Invoke? {
      HookLinks(t, s.h, sid, r);
    }
  }

  lemma LinksStep(init: seq<Step>, s: Step, sid: string, r: int)
    requires sid != ""
    ensures var before, after, key := Exec(init).links, Exec(init + [s]).links, (sid, r);
      if LinksNext(init, s, sid, r) then
        && key in after && after[key].branch == NullString(s.h.repo.value.1)
        && after[key].firstSeen == if key in before then before[key].firstSeen else s.h.now
      else (key in after <==> key in before) && (key in before ==> after[key] == before[key])
  {
    assert (init + [s])[..|init|] == init;
    StepLinks(Exec(init), s, sid, r);
    HeldIffFound(init, sid, Repository);
  }

  lemma {:induction false} LinkedIff(steps: seq<Step>, sid: string, r: int)
    requires sid != ""
    ensures (sid, r) in Exec(steps).links <==> EverLinks(steps, sid, r)
  {
    if steps != [] {
      var init, s := steps[..|steps| - 1], steps[|steps| - 1];
      assert steps == init + [s];
      LinkedIff(init, sid, r);
      LinksStep(init, s, sid, r);
      EverLinksSnoc(init, s, sid, r);
    }
  }

  lemma {:induction false} FirstLinkSeen(steps: seq<Step>, sid: string, r: int, i: int)
    requires sid != "" && FirstLink(steps, sid, r, i)
    ensures (sid, r) in Exec(steps).links && Exec(steps).links[(sid, r)].firstSeen == steps[i].h.now
  {
    var init, s := steps[..|steps| - 1], steps[|steps| - 1];
    assert steps == init + [s];
    LinksStep(init, s, sid, r);
    FirstLinkSnoc(init, s, sid, r, i);
    if i == |init| {
      LinkedIff(init, sid, r);
    } else {
      FirstLinkSeen(init, sid, r, i);
    }
  }

  lemma {:induction false} LastLinkBranch(steps: seq<Step>, sid: string, r: int, i: int)
    requires sid != "" && LastLink(steps, sid, r, i)
    ensures (sid, r) in Exec(steps).links
    ensures Exec(steps).links[(sid, r)].branch == NullString(steps[i].h.repo.value.1)
  {
    var init, s := steps[..|steps| - 1], steps[|steps| - 1];
    assert steps == init + [s];
    LinksStep(init, s, sid, r);
    LastLinkSnoc(init, s, sid, r, i);
    if i < |init| {
      LastLinkBranch(init, sid, r, i);
    }
  }

  // A link is there exactly if some event found the session in that repository when asked, whatever
  // ended the session since; it bears the time of the first such event and the branch of the last.
  lemma LinkMeaning(steps: seq<Step>, sid: string, r: int)
    requires sid != ""
    ensures (sid, r) in Exec(steps).links <==> EverLinks(steps, sid, r)
    ensures forall i | FirstLink(steps, sid, r, i) ::
      (sid, r) in Exec(steps).links && Exec(steps).links[(sid, r)].firstSeen == steps[i].h.now
    ensures forall i | LastLink(steps, sid, r, i) ::
      (sid, r) in Exec(steps).links && Exec(steps).links[(sid, r)].branch == NullString(steps[i].h.repo.value.1)
  {
    LinkedIff(steps, sid, r);
    forall i | FirstLink(steps, sid, r, i)
      ensures (sid, r) in Exec(steps).links && Exec(steps).links[(sid, r)].firstSeen == steps[i].h.now
    {
      FirstLinkSeen(steps, sid, r, i);
    }
    forall i | LastLink(steps, sid, r, i)
      ensures (sid, r) in Exec(steps).links && Exec(steps).links[(sid, r)].branch == NullString(steps[i].h.repo.value.1)
    {
      LastLinkBranch(steps, sid, r, i);
    }
  }

  // The repository a row holds is always linked, so it outlives the row.
  lemma HeldIsLinked(steps: seq<Step>, sid: string)
    requires sid != "" && HeldIn(Exec(steps), sid, Repository).Some?
    ensures (sid, HeldIn(Exec(steps), sid, Repository).value) in Exec(steps).links
  {
    var i := HeldIsFound(steps, sid, Repository);
    FoundIsHeld(steps, sid, Repository, i);
    var r := HeldIn(Exec(steps), sid, Repository).value;
    LinkedIff(steps, sid, r);
    assert LinksAt(steps, sid, r, i);
  }
}
