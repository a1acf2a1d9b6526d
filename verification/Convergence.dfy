// Whole runs of reconciles: convergence while focus moves across outputs, and the bound on the
// actions a fading workspace can cause.
module Convergence {
  import opened Collections
  import opened Grammar
  import opened Compositor
  import opened Reconciler
  import opened ReconcileProofs
  import opened Refinement

  // ---- convergence across focus changes --------------------------------------

  // The daemon's state together with the compositor's.
  datatype Joint = Joint(s: State, c: Comp)

  // One round: some output holds focus while a reconcile runs.
  datatype Round = Round(focus: string, clearOrder: seq<int>, nameOrder: seq<int>)

  function Refocus(j: Joint, focus: string): Joint {
    Joint(j.s.(model := j.s.model.(focusedOutput := focus)), j.c.(focusedOutput := focus))
  }

  function RoundState(s: State, want: Want, r: Round, ok: Outcomes): State {
    Reconcile(s, want, r.clearOrder, r.nameOrder, ok)
  }

  ghost function PlayRound(j: Joint, want: Want, r: Round, ok: Outcomes): Joint
    requires Linked(j.s, j.c) && LevelsOk(want)
    ensures Linked(PlayRound(j, want, r, ok).s, PlayRound(j, want, r, ok).c)
  {
    var f := Refocus(j, r.focus);
    RefocusLinked(j, r.focus);
    ReconcileRefines(f.s, f.c, want, r.clearOrder, r.nameOrder, ok);
    var s' := RoundState(f.s, want, r, ok);
    Joint(s', PerformAll(f.c, Since(f.s, s')))
  }

  ghost function Play(j: Joint, want: Want, rounds: seq<Round>, ok: Outcomes): Joint
    requires Linked(j.s, j.c) && LevelsOk(want)
    ensures Linked(Play(j, want, rounds, ok).s, Play(j, want, rounds, ok).c)
  {
    if rounds == [] then j
    else PlayRound(Play(j, want, rounds[..|rounds| - 1], ok), want, rounds[|rounds| - 1], ok)
  }

  lemma RefocusLinked(j: Joint, focus: string)
    requires Linked(j.s, j.c)
    ensures Linked(Refocus(j, focus).s, Refocus(j, focus).c)
  {
    var f := Refocus(j, focus);
    assert forall v | v in j.c.spaces :: AgreeAt(j.s, j.c, v) && AgreeAt(f.s, f.c, v);
  }

  // In each round the orders enumerate the managed and the wanted workspaces.
  ghost predicate Proper(j: Joint, want: Want, rounds: seq<Round>, ok: Outcomes)
    requires Linked(j.s, j.c) && LevelsOk(want)
  {
    rounds == [] ||
    (Proper(j, want, rounds[..|rounds| - 1], ok) &&
     var r := rounds[|rounds| - 1];
     Orders(Play(j, want, rounds[..|rounds| - 1], ok).s, want, r.clearOrder, r.nameOrder))
  }

  // No action of the last round failed.
  ghost predicate LastFaultFree(j: Joint, want: Want, rounds: seq<Round>, ok: Outcomes)
    requires Linked(j.s, j.c) && LevelsOk(want) && rounds != []
  {
    var s, s' := Play(j, want, rounds[..|rounds| - 1], ok).s, Play(j, want, rounds, ok).s;
    s.log <= s'.log && FaultFree(Since(s, s'))
  }

  // Some round of the run was fault-free while the given output held focus.
  ghost predicate HadFocus(j: Joint, want: Want, rounds: seq<Round>, ok: Outcomes, output: string)
    requires Linked(j.s, j.c) && LevelsOk(want)
  {
    rounds != [] &&
    (HadFocus(j, want, rounds[..|rounds| - 1], ok, output) ||
     (rounds[|rounds| - 1].focus == output && LastFaultFree(j, want, rounds, ok)))
  }

  ghost predicate HadFaultFree(j: Joint, want: Want, rounds: seq<Round>, ok: Outcomes)
    requires Linked(j.s, j.c) && LevelsOk(want)
  {
    rounds != [] && (HadFaultFree(j, want, rounds[..|rounds| - 1], ok) || LastFaultFree(j, want, rounds, ok))
  }

  // v carries the name it should have.
  ghost predicate Settled(s: State, want: Want, v: int) {
    && v in want && v in s.managed && v in s.slots.byWs
    && s.managed[v] == Encode(want[v].status, Natural(s.slots.byWs[v]), want[v].level)
  }

  // What every round keeps: the workspaces and their outputs, and that only workspaces managed at
  // the start or wanted are managed.
  ghost predicate Keeps(j: Joint, want: Want, j': Joint) {
    && j'.s.model.workspaces.Keys == j.s.model.workspaces.Keys
    && (forall v | v in j.s.model.workspaces :: j'.s.model.workspaces[v].output == j.s.model.workspaces[v].output)
    && j'.s.managed.Keys <= j.s.managed.Keys + want.Keys
  }

  lemma LinkedWeak(s: State, c: Comp)
    requires Linked(s, c)
    ensures Weak(s)
  {
  }

  lemma RoundKeeps(j: Joint, want: Want, r: Round, ok: Outcomes)
    requires Linked(j.s, j.c) && LevelsOk(want) && Orders(j.s, want, r.clearOrder, r.nameOrder)
    ensures Keeps(j, want, PlayRound(j, want, r, ok))
    ensures forall v | Settled(j.s, want, v) :: Settled(PlayRound(j, want, r, ok).s, want, v)
    ensures j.s.managed.Keys <= want.Keys ==> PlayRound(j, want, r, ok).s.managed.Keys <= want.Keys
  {
    var f, j' := Refocus(j, r.focus), PlayRound(j, want, r, ok);
    LinkedWeak(j.s, j.c);
    ReconcileFate(f.s, want, r.clearOrder, r.nameOrder, ok, 0);
    forall v | v in j'.s.managed
      ensures v in j.s.managed || v in want
    {
      ReconcileFate(f.s, want, r.clearOrder, r.nameOrder, ok, v);
    }
    forall v | Settled(j.s, want, v)
      ensures Settled(j'.s, want, v)
    {
      ReconcileFate(f.s, want, r.clearOrder, r.nameOrder, ok, v);
    }
  }

  // With room for every managed and wanted workspace, a fault-free round settles each wanted
  // workspace of the focused output.
  lemma RoundSettles(j: Joint, want: Want, r: Round, ok: Outcomes, v: int, room: set<int>)
    requires Linked(j.s, j.c) && LevelsOk(want) && Orders(j.s, want, r.clearOrder, r.nameOrder)
    requires var s' := PlayRound(j, want, r, ok).s; j.s.log <= s'.log && FaultFree(Since(j.s, s'))
    requires v in want && v in j.s.model.workspaces && j.s.model.workspaces[v].output == r.focus
    requires j.s.managed.Keys + want.Keys <= room && |room| <= MAX_SLOTS
    ensures Settled(PlayRound(j, want, r, ok).s, want, v)
  {
    RoundFacts(j, want, r, ok, v);
    RoundKeeps(j, want, r, ok);
    var s' := PlayRound(j, want, r, ok).s;
    HasSlot(s', v, room);
  }

  // What a fault-free round leaves at a wanted workspace of the focused output.
  lemma RoundFacts(j: Joint, want: Want, r: Round, ok: Outcomes, v: int)
    requires Linked(j.s, j.c) && LevelsOk(want) && Orders(j.s, want, r.clearOrder, r.nameOrder)
    requires var s' := PlayRound(j, want, r, ok).s; j.s.log <= s'.log && FaultFree(Since(j.s, s'))
    requires v in want && v in j.s.model.workspaces && j.s.model.workspaces[v].output == r.focus
    ensures var s' := PlayRound(j, want, r, ok).s;
      && s'.slots.byWs.Keys <= s'.managed.Keys
      && if v in s'.slots.byWs then Settled(s', want, v) else |s'.slots.byWs.Keys| == MAX_SLOTS
  {
    var f, j' := Refocus(j, r.focus), PlayRound(j, want, r, ok);
    LinkedWeak(j.s, j.c);
    LinkedWeak(j'.s, j'.c);
    assert Since(f.s, j'.s) == Since(j.s, j'.s);
    DoneAfterFaultFree(f.s, want, r.clearOrder, r.nameOrder, ok, v);
    ReconcileFate(f.s, want, r.clearOrder, r.nameOrder, ok, v);
  }

  // A full table leaves no room for one more workspace.
  lemma HasSlot(s: State, v: int, room: set<int>)
    requires s.slots.byWs.Keys <= room && v in room && |room| <= MAX_SLOTS
    requires v !in s.slots.byWs ==> |s.slots.byWs.Keys| == MAX_SLOTS
    ensures v in s.slots.byWs
  {
    if v !in s.slots.byWs {
      SubsetSize(s.slots.byWs.Keys + {v}, room);
    }
  }

  lemma RoundClears(j: Joint, want: Want, r: Round, ok: Outcomes)
    requires Linked(j.s, j.c) && LevelsOk(want) && Orders(j.s, want, r.clearOrder, r.nameOrder)
    requires var s' := PlayRound(j, want, r, ok).s; j.s.log <= s'.log && FaultFree(Since(j.s, s'))
    ensures PlayRound(j, want, r, ok).s.managed.Keys <= want.Keys
  {
    var f, j' := Refocus(j, r.focus), PlayRound(j, want, r, ok);
    LinkedWeak(j.s, j.c);
    assert Since(f.s, j'.s) == Since(j.s, j'.s);
    forall v | v in j'.s.managed
      ensures v in want
    {
      DoneAfterFaultFree(f.s, want, r.clearOrder, r.nameOrder, ok, v);
    }
  }

  // By the end of a run every wanted workspace whose output had focus is settled.
  lemma {:induction false} RunSettles(j: Joint, want: Want, rounds: seq<Round>, ok: Outcomes)
    requires Linked(j.s, j.c) && LevelsOk(want) && Proper(j, want, rounds, ok)
    requires |j.s.managed.Keys + want.Keys| <= MAX_SLOTS
    ensures Keeps(j, want, Play(j, want, rounds, ok))
    ensures forall v | v in want && v in j.s.model.workspaces
              && HadFocus(j, want, rounds, ok, j.s.model.workspaces[v].output) ::
              Settled(Play(j, want, rounds, ok).s, want, v)
    ensures HadFaultFree(j, want, rounds, ok) ==> Play(j, want, rounds, ok).s.managed.Keys <= want.Keys
  {
    if rounds != [] {
      var init, r := rounds[..|rounds| - 1], rounds[|rounds| - 1];
      RunSettles(j, want, init, ok);
      var j1 := Play(j, want, init, ok);
      RoundKeeps(j1, want, r, ok);
      if LastFaultFree(j, want, rounds, ok) {
        RoundClears(j1, want, r, ok);
      }
      forall v | v in want && v in j.s.model.workspaces
              && HadFocus(j, want, rounds, ok, j.s.model.workspaces[v].output)
        ensures Settled(Play(j, want, rounds, ok).s, want, v)
      {
        if !HadFocus(j, want, init, ok, j.s.model.workspaces[v].output) {
          RoundSettles(j1, want, r, ok, v, j.s.managed.Keys + want.Keys);
        }
      }
    }
  }

  // Every wanted existing workspace bears its name on the compositor.
  ghost predicate AllNamed(j: Joint, want: Want) {
    forall v | v in want && v in j.s.model.workspaces ::
      && v in j.s.slots.byWs && v in j.c.spaces
      && j.c.spaces[v].name == Encode(want[v].status, Natural(j.s.slots.byWs[v]), want[v].level)
  }

  // No reconcile, whatever output holds focus then, sends an action or changes anything.
  ghost predicate Quiet(j: Joint, want: Want, ok: Outcomes) {
    forall r: Round :: var s := Refocus(j, r.focus).s; RoundState(s, want, r, ok) == s
  }

  // Some fault-free round ran, and one while each output of a wanted existing workspace held focus.
  ghost predicate AllHadFocus(j: Joint, want: Want, rounds: seq<Round>, ok: Outcomes)
    requires Linked(j.s, j.c) && LevelsOk(want)
  {
    && HadFaultFree(j, want, rounds, ok)
    && forall v | v in want && v in j.s.model.workspaces ::
         HadFocus(j, want, rounds, ok, j.s.model.workspaces[v].output)
  }

  // Convergence: once a fault-free reconcile has run while each relevant output held focus, all
  // names are right and nothing is left to do.
  lemma Converges(j: Joint, want: Want, rounds: seq<Round>, ok: Outcomes)
    requires Linked(j.s, j.c) && LevelsOk(want) && Proper(j, want, rounds, ok)
    requires |j.s.managed.Keys + want.Keys| <= MAX_SLOTS
    ensures AllHadFocus(j, want, rounds, ok) ==>
      AllNamed(Play(j, want, rounds, ok), want) && Quiet(Play(j, want, rounds, ok), want, ok)
  {
    RunSettles(j, want, rounds, ok);
    if AllHadFocus(j, want, rounds, ok) {
      SettledIsNamedAndQuiet(Play(j, want, rounds, ok), want, ok);
    }
  }

  lemma SettledIsNamedAndQuiet(j: Joint, want: Want, ok: Outcomes)
    requires Linked(j.s, j.c) && j.s.managed.Keys <= want.Keys
    requires forall v | v in want && v in j.s.model.workspaces :: Settled(j.s, want, v)
    ensures AllNamed(j, want) && Quiet(j, want, ok)
  {
    LinkedWeak(j.s, j.c);
    forall v | v in want && v in j.s.model.workspaces
      ensures
        && v in j.s.slots.byWs && v in j.c.spaces
        && j.c.spaces[v].name == Encode(want[v].status, Natural(j.s.slots.byWs[v]), want[v].level)
    {
      assert Settled(j.s, want, v);
      assert v in j.c.spaces && AgreeAt(j.s, j.c, v);
    }
    forall r: Round
      ensures var s := Refocus(j, r.focus).s; RoundState(s, want, r, ok) == s
    {
      var s := Refocus(j, r.focus).s;
      forall v
        ensures Done(s, want, v)
      {
        if v in want && v in s.model.workspaces {
          assert Settled(j.s, want, v);
        }
      }
      ClearAllDone(s, want, r.clearOrder, ok);
      NameAllDone(s, want, r.nameOrder, ok);
    }
  }
}
