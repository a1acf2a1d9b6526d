// The remaining fields of a session row after any run of hooks, reaps and title rows: whose event gave
// the directory, the times and the notification kind (internal/hook/hook.go).
module RowFields {
  import opened Wrappers
  import opened Collections
  import opened Rows
  import opened Store
  import opened Hook
  import opened Lifecycle

  // An event of the table that does not end the session.
  function Known(sid: string): Step -> bool {
    (s: Step) => Appears(s, sid)
  }

  // Any invocation for the session.
  function Called(sid: string): Step -> bool {
    (s: Step) => s.Invoke? && s.h.session == sid
  }

  function GaveCwd(cwd: Option<string>): Step -> bool {
    (s: Step) => s.Invoke? && cwd == if s.h.cwd == "" then None else Some(s.h.cwd)
  }

  function CameAt(at: int): Step -> bool {
    (s: Step) => s.Invoke? && s.h.now == at
  }

  // Step i is what the row came from: the first event that made it appear since it was last dropped.
  ghost predicate Born(steps: seq<Step>, sid: string, i: int) {
    && 0 <= i < |steps| && Appears(steps[i], sid) && !Present(steps[..i], sid)
    && forall j | i < j < |steps| :: !Drops(steps[j], sid)
  }

  ghost predicate BornAt(steps: seq<Step>, sid: string, at: int) {
    exists i :: Born(steps, sid, i) && steps[i].h.now == at
  }

  // Step i asks for permission in mid-turn.
  ghost predicate AsksInTurn(steps: seq<Step>, sid: string, i: int)
    requires 0 <= i < |steps|
  {
    Asks(steps[i], sid) && InTurn(steps[..i], sid)
  }

  // Permission was asked for in mid-turn since the row was last dropped.
  ghost predicate Prompted(steps: seq<Step>, sid: string) {
    exists i | 0 <= i < |steps| :: AsksInTurn(steps, sid, i) && forall j | i < j < |steps| :: !Drops(steps[j], sid)
  }

  lemma BornAtSnoc(steps: seq<Step>, s: Step, sid: string, at: int)
    ensures BornAt(steps + [s], sid, at) <==>
      (Appears(s, sid) && !Present(steps, sid) && s.h.now == at) || (BornAt(steps, sid, at) && !Drops(s, sid))
  {
    var all, n := steps + [s], |steps|;
    assert all[n] == s && all[..n] == steps;
    forall i | 0 <= i < n
      ensures Born(all, sid, i) <==> Born(steps, sid, i) && !Drops(s, sid)
      ensures all[i] == steps[i]
    {
      assert all[..i] == steps[..i];
      assert forall j | i <= j < n :: all[j] == steps[j];
    }
    if Appears(s, sid) && !Present(steps, sid) && s.h.now == at {
      assert Born(all, sid, n);
    }
    if BornAt(steps, sid, at) && !Drops(s, sid) {
      var i :| Born(steps, sid, i) && steps[i].h.now == at;
      assert Born(all, sid, i);
    }
  }

  lemma AsksInTurnInit(steps: seq<Step>, s: Step, sid: string, i: int)
    requires 0 <= i < |steps|
    ensures AsksInTurn(steps + [s], sid, i) <==> AsksInTurn(steps, sid, i)
  {
    assert (steps + [s])[..i] == steps[..i] && (steps + [s])[i] == steps[i];
  }

  lemma PromptedSnoc(steps: seq<Step>, s: Step, sid: string)
    ensures Prompted(steps + [s], sid) <==>
      (Asks(s, sid) && InTurn(steps, sid)) || (Prompted(steps, sid) && !Drops(s, sid))
  {
    var all, n := steps + [s], |steps|;
    assert all[n] == s && all[..n] == steps;
    assert AsksInTurn(all, sid, n) <==> Asks(s, sid) && InTurn(steps, sid);
    if Prompted(steps, sid) && !Drops(s, sid) {
      var i :| 0 <= i < n && AsksInTurn(steps, sid, i) && forall j | i < j < n :: !Drops(steps[j], sid);
      AsksInTurnInit(steps, s, sid, i);
      assert AsksInTurn(all, sid, i) && forall j | i < j < |all| :: !Drops(all[j], sid);
    }
    if Prompted(all, sid) && !AsksInTurn(all, sid, n) {
      var i :| 0 <= i < |all| && AsksInTurn(all, sid, i) && forall j | i < j < |all| :: !Drops(all[j], sid);
      AsksInTurnInit(steps, s, sid, i);
      assert forall j | i < j < n :: all[j] == steps[j];
    }
  }

  // ---- one step -------------------------------------------------------------------------------

  lemma NextRowFields(base: Session, h: Invocation)
    ensures var s := NextRow(base, h);
      && s.cwd == (if h.cwd == "" then None else Some(h.cwd))
      && s.lastEvent == Some(h.now) && s.lastSeen == h.now && s.created == base.created
      && s.notifyKind ==
         if h.event == "Notification" && h.asksPermission && base.state != "idle" then Some("prompt")
         else base.notifyKind
  {
  }

  // A row that is there after step s, in terms of the row before.
  ghost predicate FieldsAfter(t: Tables, t': Tables, s: Step, sid: string) {
    sid in t'.sessions ==>
      var r := t'.sessions[sid];
      && (Appears(s, sid) ==>
            && r.cwd == (if s.h.cwd == "" then None else Some(s.h.cwd))
            && r.lastEvent == Some(s.h.now) && r.lastSeen == s.h.now
            && r.created == (if sid in t.sessions then t.sessions[sid].created else s.h.now)
            && r.notifyKind == (
                 if Asks(s, sid) && StateOf(t, sid) != "idle" then Some("prompt")
                 else if sid in t.sessions then t.sessions[sid].notifyKind else None))
      && (!Appears(s, sid) ==>
            && sid in t.sessions
            && r.cwd == t.sessions[sid].cwd && r.lastEvent == t.sessions[sid].lastEvent
            && r.created == t.sessions[sid].created && r.notifyKind == t.sessions[sid].notifyKind
            && r.lastSeen == if Called(sid)(s) then s.h.now else t.sessions[sid].lastSeen)
  }

  lemma HookFields(t: Tables, h: Invocation, sid: string)
    requires sid != "" && Replayable(t)
    ensures FieldsAfter(t, HookStep(t, h), Invoke(h), sid)
  {
    if h.session != sid {
      HookSpares(t, h, sid);
    } else {
      HookLeaves(t, h);
      TableMeans(h, BaseRow(t, h).state);
      NextRowFields(BaseRow(t, h), h);
    }
  }

  lemma StepFields(t: Tables, s: Step, sid: string)
    requires sid != "" && Replayable(t)
    ensures FieldsAfter(t, After(t, s), s, sid)
  {
    if s.Invoke? {
      HookFields(t, s.h, sid);
    }
  }

  // ---- whole runs -----------------------------------------------------------------------------

  ghost predicate CwdTold(steps: seq<Step>, sid: string, v: Option<string>) {
    forall cwd :: v == cwd <==> LastMeets(steps, Known(sid), GaveCwd(cwd))
  }

  ghost predicate EventTold(steps: seq<Step>, sid: string, v: Option<int>) {
    v.Some? && forall at :: v == Some(at) <==> LastMeets(steps, Known(sid), CameAt(at))
  }

  ghost predicate SeenTold(steps: seq<Step>, sid: string, v: int) {
    forall at :: v == at <==> LastMeets(steps, Called(sid), CameAt(at))
  }

  ghost predicate CreatedTold(steps: seq<Step>, sid: string, v: int) {
    forall at :: v == at <==> BornAt(steps, sid, at)
  }

  ghost predicate KindTold(steps: seq<Step>, sid: string, v: Option<string>) {
    v == if Prompted(steps, sid) then Some("prompt") else None
  }

  ghost predicate FieldsTold(steps: seq<Step>, t: Tables, sid: string) {
    sid in t.sessions ==>
      var r := t.sessions[sid];
      && CwdTold(steps, sid, r.cwd) && EventTold(steps, sid, r.lastEvent) && SeenTold(steps, sid, r.lastSeen)
      && CreatedTold(steps, sid, r.created) && KindTold(steps, sid, r.notifyKind)
  }

  lemma CwdSnoc(steps: seq<Step>, s: Step, sid: string, v: Option<string>)
    ensures Appears(s, sid) ==> CwdTold(steps + [s], sid, if s.h.cwd == "" then None else Some(s.h.cwd))
    ensures !Appears(s, sid) && CwdTold(steps, sid, v) ==> CwdTold(steps + [s], sid, v)
  {
    forall cwd
      ensures LastMeets(steps + [s], Known(sid), GaveCwd(cwd)) <==>
        if Appears(s, sid) then GaveCwd(cwd)(s) else LastMeets(steps, Known(sid), GaveCwd(cwd))
    {
      LastMeetsSnoc(steps, s, Known(sid), GaveCwd(cwd));
    }
  }

  lemma EventSnoc(steps: seq<Step>, s: Step, sid: string, v: Option<int>)
    ensures Appears(s, sid) ==> EventTold(steps + [s], sid, Some(s.h.now))
    ensures !Appears(s, sid) && EventTold(steps, sid, v) ==> EventTold(steps + [s], sid, v)
  {
    forall at
      ensures LastMeets(steps + [s], Known(sid), CameAt(at)) <==>
        if Appears(s, sid) then CameAt(at)(s) else LastMeets(steps, Known(sid), CameAt(at))
    {
      LastMeetsSnoc(steps, s, Known(sid), CameAt(at));
    }
  }

  lemma SeenSnoc(steps: seq<Step>, s: Step, sid: string, v: int)
    ensures Called(sid)(s) ==> SeenTold(steps + [s], sid, s.h.now)
    ensures !Called(sid)(s) && SeenTold(steps, sid, v) ==> SeenTold(steps + [s], sid, v)
  {
    forall at
      ensures LastMeets(steps + [s], Called(sid), CameAt(at)) <==>
        if Called(sid)(s) then CameAt(at)(s) else LastMeets(steps, Called(sid), CameAt(at))
    {
      LastMeetsSnoc(steps, s, Called(sid), CameAt(at));
    }
  }

  lemma CreatedSnoc(steps: seq<Step>, s: Step, sid: string, v: int)
    requires BornOnlyPresent(steps, sid) && !Drops(s, sid)
    ensures Appears(s, sid) && !Present(steps, sid) ==> CreatedTold(steps + [s], sid, s.h.now)
    ensures Present(steps, sid) && CreatedTold(steps, sid, v) ==> CreatedTold(steps + [s], sid, v)
  {
    forall at
      ensures BornAt(steps + [s], sid, at) <==>
        (Appears(s, sid) && !Present(steps, sid) && s.h.now == at) || (BornAt(steps, sid, at) && !Drops(s, sid))
    {
      BornAtSnoc(steps, s, sid, at);
    }
  }

  lemma FieldsToldSnoc(steps: seq<Step>, t: Tables, s: Step, t': Tables, sid: string)
    requires FieldsTold(steps, t, sid) && FieldsAfter(t, t', s, sid)
    requires sid in t.sessions <==> Present(steps, sid)
    requires sid in t.sessions ==> (StateOf(t, sid) != "idle" <==> InTurn(steps, sid))
    requires InTurn(steps, sid) ==> Present(steps, sid)
    requires sid in t'.sessions ==> !Drops(s, sid)
    requires BornOnlyPresent(steps, sid) && PromptedOnlyPresent(steps, sid)
    ensures FieldsTold(steps + [s], t', sid)
  {
    if sid in t'.sessions {
      var before := if sid in t.sessions then t.sessions[sid] else t'.sessions[sid];
      CwdSnoc(steps, s, sid, before.cwd);
      EventSnoc(steps, s, sid, before.lastEvent);
      SeenSnoc(steps, s, sid, before.lastSeen);
      CreatedSnoc(steps, s, sid, before.created);
      PromptedSnoc(steps, s, sid);
    }
  }

  ghost predicate BornOnlyPresent(steps: seq<Step>, sid: string) {
    forall at :: BornAt(steps, sid, at) ==> Present(steps, sid)
  }

  ghost predicate PromptedOnlyPresent(steps: seq<Step>, sid: string) {
    Prompted(steps, sid) ==> Present(steps, sid)
  }

  lemma OnlyPresent(steps: seq<Step>, sid: string)
    ensures BornOnlyPresent(steps, sid) && PromptedOnlyPresent(steps, sid)
  {
    if Prompted(steps, sid) {
      var i :| 0 <= i < |steps| && AsksInTurn(steps, sid, i) && forall j | i < j < |steps| :: !Drops(steps[j], sid);
      assert Appears(steps[i], sid);
    }
  }

  // Over any run: the directory and the event time of a row are those of the last event of the table
  // for its session, its last sign of life that of the last invocation of any kind, its creation that
  // of the event it came from, and its notification kind says whether permission was asked for in
  // mid-turn since.
  lemma {:induction false} FieldsMeaning(steps: seq<Step>, sid: string)
    requires sid != ""
    ensures FieldsTold(steps, Exec(steps), sid)
  {
    if steps != [] {
      var init, s := steps[..|steps| - 1], steps[|steps| - 1];
      assert steps == init + [s];
      FieldsMeaning(init, sid);
      RowMeaning(init, sid);
      RunReplayable(init);
      StepMoves(Exec(init), s, sid);
      StepFields(Exec(init), s, sid);
      OnlyPresent(init, sid);
      AppearsNotDrops(s, sid);
      FieldsToldSnoc(init, Exec(init), s, Exec(steps), sid);
    }
  }

  lemma AppearsNotDrops(s: Step, sid: string)
    ensures Appears(s, sid) ==> !Drops(s, sid)
  {
  }
}
