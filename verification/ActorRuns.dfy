// Convergence and the bound on renames, for the runs of the actor itself: events, snapshots, ticks
// and reconciles in any interleaving, from a state after adoption on.
module ActorRuns {
  import opened Wrappers
  import opened Grammar
  import opened Aggregation
  import opened Compositor
  import opened Reconciler
  import opened Refinement
  import opened Actor
  import opened Rows
  import Convergence
  import Decay
  import Niri

  // The system before step i of a run.
  ghost function At(c: Comp, steps: seq<Step>, i: nat, ok: Outcomes): Sys
    requires i <= |steps|
  {
    Exec(Start(c), steps[..i], ok)
  }

  lemma AtInit(c: Comp, steps: seq<Step>, i: nat, ok: Outcomes)
    requires i < |steps|
    ensures At(c, steps[..|steps| - 1], i, ok) == At(c, steps, i, ok)
  {
    assert steps[..|steps| - 1][..i] == steps[..i];
  }

  lemma AtEnd(c: Comp, steps: seq<Step>, ok: Outcomes)
    ensures At(c, steps, |steps|, ok) == Exec(Start(c), steps, ok)
  {
    assert steps[..|steps|] == steps;
  }

  // ---- convergence ----------------------------------------------------------------------------

  // The same workspaces on the same outputs; names and focus may differ.
  ghost predicate SamePlaces(t: Niri.Topology, t': Niri.Topology) {
    && t'.workspaces.Keys == t.workspaces.Keys
    && forall v | v in t.workspaces :: t'.workspaces[v].output == t.workspaces[v].output
  }

  // From step k on every reconcile wants the same, and events leave the workspaces in place.
  ghost predicate Steady(c: Comp, steps: seq<Step>, k: nat, want: Want, ok: Outcomes)
    requires k <= |steps|
  {
    forall i | k <= i < |steps| ::
      && (steps[i].Fire? ==> steps[i].want == want)
      && (steps[i].Event? ==> SamePlaces(At(c, steps, k, ok).a.d.model, steps[i].model))
  }

  // Step i is a reconcile in which no action failed.
  ghost predicate CleanFire(c: Comp, steps: seq<Step>, i: nat, ok: Outcomes)
    requires i < |steps|
  {
    steps[i].Fire? && After(At(c, steps, i, ok), steps[i], ok).last.value.faultFree
  }

  ghost predicate Cleared(c: Comp, steps: seq<Step>, k: nat, ok: Outcomes) {
    exists i | k <= i < |steps| :: CleanFire(c, steps, i, ok)
  }

  // Some reconcile without failures ran while the output held focus.
  ghost predicate Served(c: Comp, steps: seq<Step>, k: nat, ok: Outcomes, output: string) {
    exists i | k <= i < |steps| :: CleanFire(c, steps, i, ok) && At(c, steps, i, ok).c.focusedOutput == output
  }

  lemma CleanFireInit(c: Comp, steps: seq<Step>, i: nat, ok: Outcomes)
    requires i < |steps| - 1
    ensures CleanFire(c, steps[..|steps| - 1], i, ok) <==> CleanFire(c, steps, i, ok)
  {
    AtInit(c, steps, i, ok);
  }

  lemma ServedInit(c: Comp, steps: seq<Step>, k: nat, ok: Outcomes, output: string)
    requires k < |steps| && Served(c, steps, k, ok, output)
    ensures var init, n := steps[..|steps| - 1], |steps| - 1;
      Served(c, init, k, ok, output) || (CleanFire(c, steps, n, ok) && At(c, steps, n, ok).c.focusedOutput == output)
  {
    var i: nat :| k <= i < |steps| && CleanFire(c, steps, i, ok) && At(c, steps, i, ok).c.focusedOutput == output;
    if i < |steps| - 1 {
      CleanFireInit(c, steps, i, ok);
      AtInit(c, steps, i, ok);
    }
  }

  lemma ClearedInit(c: Comp, steps: seq<Step>, k: nat, ok: Outcomes)
    requires k < |steps| && Cleared(c, steps, k, ok)
    ensures Cleared(c, steps[..|steps| - 1], k, ok) || CleanFire(c, steps, |steps| - 1, ok)
  {
    var i: nat :| k <= i < |steps| && CleanFire(c, steps, i, ok);
    if i < |steps| - 1 {
      CleanFireInit(c, steps, i, ok);
      assert CleanFire(c, steps[..|steps| - 1], i, ok);
    }
  }

  // What has been reached at y since y0: the wanted workspaces of the served outputs are settled
  // and, once cleared, nothing else is managed.
  ghost predicate Reached(y0: Sys, y: Sys, want: Want, cleared: bool, served: iset<string>) {
    && y.a.adopted && SamePlaces(y0.a.d.model, y.a.d.model)
    && y.a.d.managed.Keys <= y0.a.d.managed.Keys + want.Keys
    && (cleared ==> y.a.d.managed.Keys <= want.Keys)
    && (forall v | v in want && v in y0.a.d.model.workspaces && y0.a.d.model.workspaces[v].output in served ::
          Convergence.Settled(y.a.d, want, v))
  }

  ghost function ServedSet(c: Comp, steps: seq<Step>, k: nat, ok: Outcomes): iset<string> {
    iset output | Served(c, steps, k, ok, output)
  }

  // What one step keeps and adds, from a linked state y towards want.
  lemma StepReaches(y: Sys, step: Step, want: Want, ok: Outcomes)
    requires Enabled(y, step) && y.a.adopted && Linked(y.a.d, y.c)
    requires step.Fire? ==> step.want == want
    requires step.Event? ==> SamePlaces(y.a.d.model, step.model)
    ensures var y' := After(y, step, ok);
      && y'.a.adopted && SamePlaces(y.a.d.model, y'.a.d.model)
      && y'.a.d.managed.Keys <= y.a.d.managed.Keys + want.Keys
      && (y.a.d.managed.Keys <= want.Keys ==> y'.a.d.managed.Keys <= want.Keys)
      && forall v | Convergence.Settled(y.a.d, want, v) :: Convergence.Settled(y'.a.d, want, v)
  {
    if step.Fire? {
      FireIsRound(y, step, ok);
      Convergence.RoundKeeps(
        Convergence.Joint(y.a.d, y.c), want, FireRound(y, step), ok);
    }
  }

  function FireRound(y: Sys, step: Step): Convergence.Round
    requires step.Fire?
  {
    Convergence.Round(y.c.focusedOutput, step.clearOrder, step.nameOrder)
  }

  // A reconcile of the actor is a round with the output that holds focus.
  lemma FireIsRound(y: Sys, step: Step, ok: Outcomes)
    requires Enabled(y, step) && step.Fire? && Linked(y.a.d, y.c)
    ensures LevelsOk(step.want)
    ensures Convergence.PlayRound(Convergence.Joint(y.a.d, y.c), step.want, FireRound(y, step), ok).s
      == After(y, step, ok).a.d
  {
    AggregateLevelsOk(y.a.sessions, y.a.d.model.windows, step.now, step.want);
    var j := Convergence.Joint(y.a.d, y.c);
    assert Convergence.Refocus(j, y.c.focusedOutput) == j;
  }

  lemma CleanFireReaches(y: Sys, step: Step, ok: Outcomes, room: set<int>)
    requires Enabled(y, step) && step.Fire? && y.a.adopted && Books(y) && Linked(y.a.d, y.c)
    requires After(y, step, ok).last.value.faultFree
    requires y.a.d.managed.Keys + step.want.Keys <= room && |room| <= MAX_SLOTS
    ensures var s' := After(y, step, ok).a.d;
      && s'.managed.Keys <= step.want.Keys
      && forall v | v in step.want && v in y.a.d.model.workspaces
             && y.a.d.model.workspaces[v].output == y.c.focusedOutput ::
             Convergence.Settled(s', step.want, v)
  {
    FireIsRound(y, step, ok);
    FireHits(y, step, ok);
    var j, r := Convergence.Joint(y.a.d, y.c), FireRound(y, step);
    Convergence.RoundClears(j, step.want, r, ok);
    forall v | v in step.want && v in y.a.d.model.workspaces
        && y.a.d.model.workspaces[v].output == y.c.focusedOutput
      ensures Convergence.Settled(After(y, step, ok).a.d, step.want, v)
    {
      Convergence.RoundSettles(j, step.want, r, ok, v, room);
    }
  }

  // What one more step can add to what was cleared and served.
  ghost predicate Extends(
    cleared: bool, served: iset<string>, cleared': bool, served': iset<string>, clean: bool, output: string)
  {
    && (cleared' ==> cleared || clean)
    && forall o | o in served' :: o in served || (clean && output == o)
  }

  lemma ReachedStep(
    y0: Sys, y: Sys, step: Step, want: Want, ok: Outcomes, cleared: bool, served: iset<string>,
    cleared': bool, served': iset<string>)
    requires Enabled(y, step) && Books(y) && Linked(y.a.d, y.c) && Reached(y0, y, want, cleared, served)
    requires step.Fire? ==> step.want == want
    requires step.Event? ==> SamePlaces(y0.a.d.model, step.model)
    requires |y0.a.d.managed.Keys + want.Keys| <= MAX_SLOTS
    requires var clean := step.Fire? && After(y, step, ok).last.value.faultFree;
      Extends(cleared, served, cleared', served', clean, y.c.focusedOutput)
    ensures Reached(y0, After(y, step, ok), want, cleared', served')
  {
    StepReaches(y, step, want, ok);
    if step.Fire? && After(y, step, ok).last.value.faultFree {
      CleanFireReaches(y, step, ok, y0.a.d.managed.Keys + want.Keys);
    }
  }

  // The state before the last step of a cooperative run.
  lemma BeforeLast(c: Comp, steps: seq<Step>, ok: Outcomes)
    requires steps != [] && Legal(Start(c), steps, ok) && AllCooperate(Start(c), steps, ok)
    ensures var n := |steps| - 1;
      var y := At(c, steps, n, ok);
      && Legal(Start(c), steps[..n], ok) && AllCooperate(Start(c), steps[..n], ok)
      && Enabled(y, steps[n]) && Books(y) && (y.a.adopted ==> Linked(y.a.d, y.c))
      && Exec(Start(c), steps, ok) == After(y, steps[n], ok) && Exec(Start(c), steps[..n], ok) == y
  {
    var init := steps[..|steps| - 1];
    RunStaysLinked(c, init, ok);
    RunBooks(c, init, ok);
  }

  lemma ServedSetInit(c: Comp, steps: seq<Step>, k: nat, ok: Outcomes)
    requires k < |steps|
    ensures var init, n := steps[..|steps| - 1], |steps| - 1;
      Extends(
        Cleared(c, init, k, ok), ServedSet(c, init, k, ok), Cleared(c, steps, k, ok), ServedSet(c, steps, k, ok),
        CleanFire(c, steps, n, ok), At(c, steps, n, ok).c.focusedOutput)
  {
    forall o | Served(c, steps, k, ok, o)
      ensures Served(c, steps[..|steps| - 1], k, ok, o)
        || (CleanFire(c, steps, |steps| - 1, ok) && At(c, steps, |steps| - 1, ok).c.focusedOutput == o)
    {
      ServedInit(c, steps, k, ok, o);
    }
    if Cleared(c, steps, k, ok) {
      ClearedInit(c, steps, k, ok);
    }
  }

  // The last step of a steady run.
  ghost predicate SteadyLast(c: Comp, steps: seq<Step>, k: nat, want: Want, ok: Outcomes)
    requires k < |steps|
  {
    var last := steps[|steps| - 1];
    && (last.Fire? ==> last.want == want)
    && (last.Event? ==> SamePlaces(At(c, steps, k, ok).a.d.model, last.model))
  }

  lemma ReachedAtStart(c: Comp, steps: seq<Step>, want: Want, ok: Outcomes)
    requires At(c, steps, |steps|, ok).a.adopted
    ensures Reached(
      At(c, steps, |steps|, ok), Exec(Start(c), steps, ok), want, Cleared(c, steps, |steps|, ok),
      ServedSet(c, steps, |steps|, ok))
  {
    AtEnd(c, steps, ok);
  }

  // From what was reached before the last step, at y, to what is reached after it, at y'.
  lemma ReachedByLast(
    c: Comp, steps: seq<Step>, k: nat, want: Want, ok: Outcomes, y0: Sys, y: Sys, y': Sys,
    cleared: bool, served: iset<string>, cleared': bool, served': iset<string>)
    requires k < |steps| && Legal(Start(c), steps, ok) && AllCooperate(Start(c), steps, ok)
    requires y0 == At(c, steps, k, ok) && y == At(c, steps, |steps| - 1, ok) && y' == Exec(Start(c), steps, ok)
    requires SteadyLast(c, steps, k, want, ok) && |y0.a.d.managed.Keys + want.Keys| <= MAX_SLOTS
    requires Reached(y0, y, want, cleared, served)
    requires Extends(cleared, served, cleared', served', CleanFire(c, steps, |steps| - 1, ok), y.c.focusedOutput)
    ensures Reached(y0, y', want, cleared', served')
  {
    BeforeLast(c, steps, ok);
    ReachedStep(y0, y, steps[|steps| - 1], want, ok, cleared, served, cleared', served');
  }

  lemma {:induction false} RunReaches(c: Comp, steps: seq<Step>, k: nat, want: Want, ok: Outcomes)
    requires k <= |steps| && Legal(Start(c), steps, ok) && AllCooperate(Start(c), steps, ok)
    requires At(c, steps, k, ok).a.adopted && Steady(c, steps, k, want, ok)
    requires |At(c, steps, k, ok).a.d.managed.Keys + want.Keys| <= MAX_SLOTS
    ensures Reached(
      At(c, steps, k, ok), Exec(Start(c), steps, ok), want, Cleared(c, steps, k, ok), ServedSet(c, steps, k, ok))
    decreases |steps|
  {
    if k == |steps| {
      ReachedAtStart(c, steps, want, ok);
    } else {
      var init := steps[..|steps| - 1];
      SteadyInit(c, steps, k, want, ok);
      BeforeLast(c, steps, ok);
      RunReaches(c, init, k, want, ok);
      ServedSetInit(c, steps, k, ok);
      ReachedByLast(
        c, steps, k, want, ok, At(c, steps, k, ok), At(c, steps, |steps| - 1, ok), Exec(Start(c), steps, ok),
        Cleared(c, init, k, ok), ServedSet(c, init, k, ok), Cleared(c, steps, k, ok), ServedSet(c, steps, k, ok));
    }
  }

  lemma SteadyInit(c: Comp, steps: seq<Step>, k: nat, want: Want, ok: Outcomes)
    requires k < |steps| && Steady(c, steps, k, want, ok)
    ensures Steady(c, steps[..|steps| - 1], k, want, ok)
    ensures At(c, steps[..|steps| - 1], k, ok) == At(c, steps, k, ok)
    ensures SteadyLast(c, steps, k, want, ok)
  {
    var init := steps[..|steps| - 1];
    AtInit(c, steps, k, ok);
    assert forall i | k <= i < |init| :: init[i] == steps[i];
  }

  // Every output of a wanted existing workspace held focus during some reconcile without failures.
  ghost predicate AllServed(c: Comp, steps: seq<Step>, k: nat, want: Want, ok: Outcomes)
    requires k <= |steps|
  {
    var ws := At(c, steps, k, ok).a.d.model.workspaces;
    Cleared(c, steps, k, ok) && forall v | v in want && v in ws :: Served(c, steps, k, ok, ws[v].output)
  }

  // Convergence of the actor: in a run that from some step after adoption on wants the same and
  // leaves the workspaces in place, once every relevant output was served every wanted workspace
  // bears its name on the compositor, and no later reconcile sends or changes anything.
  lemma ActorConverges(c: Comp, steps: seq<Step>, k: nat, want: Want, ok: Outcomes)
    requires k <= |steps| && Legal(Start(c), steps, ok) && AllCooperate(Start(c), steps, ok)
    requires At(c, steps, k, ok).a.adopted && Steady(c, steps, k, want, ok)
    requires |At(c, steps, k, ok).a.d.managed.Keys + want.Keys| <= MAX_SLOTS
    ensures AllServed(c, steps, k, want, ok) ==>
      var y := Exec(Start(c), steps, ok);
      && Convergence.AllNamed(Convergence.Joint(y.a.d, y.c), want)
      && forall step: Step | step.Fire? && Enabled(y, step) && step.want == want ::
           After(y, step, ok).a.d == y.a.d
  {
    if AllServed(c, steps, k, want, ok) {
      RunReaches(c, steps, k, want, ok);
      RunStaysLinked(c, steps, ok);
      ReachedIsQuiet(At(c, steps, k, ok), Exec(Start(c), steps, ok), want, ok, ServedSet(c, steps, k, ok));
    }
  }

  lemma ReachedIsQuiet(y0: Sys, y: Sys, want: Want, ok: Outcomes, served: iset<string>)
    requires Reached(y0, y, want, true, served) && Linked(y.a.d, y.c)
    requires forall v | v in want && v in y0.a.d.model.workspaces :: y0.a.d.model.workspaces[v].output in served
    ensures Convergence.AllNamed(Convergence.Joint(y.a.d, y.c), want)
    ensures forall step: Step | step.Fire? && Enabled(y, step) && step.want == want ::
      After(y, step, ok).a.d == y.a.d
  {
    var j := Convergence.Joint(y.a.d, y.c);
    Convergence.SettledIsNamedAndQuiet(j, want, ok);
    forall step: Step | step.Fire? && Enabled(y, step) && step.want == want
      ensures After(y, step, ok).a.d == y.a.d
    {
      var round := FireRound(y, step);
      assert Convergence.Refocus(j, round.focus) == j;
      assert Convergence.RoundState(Convergence.Refocus(j, round.focus).s, want, round, ok) == y.a.d;
    }
  }

  // ---- the bound on renames -------------------------------------------------------------------

  // From step k on every reconcile wants w idle, at levels that never brighten.
  ghost predicate FadesFrom(steps: seq<Step>, k: nat, w: int) {
    && (forall i | k <= i < |steps| && steps[i].Fire? ::
          w in steps[i].want && steps[i].want[w].status == Idle && steps[i].want[w].level < DECAY_LEVELS)
    && (forall i, j | k <= i <= j < |steps| && steps[i].Fire? && steps[j].Fire? ::
          w in steps[i].want && w in steps[j].want && steps[i].want[w].level <= steps[j].want[w].level)
  }

  ghost function LastLevel(steps: seq<Step>, k: nat, w: int): nat {
    if |steps| <= k then 0
    else
      var last := steps[|steps| - 1];
      if last.Fire? && w in last.want then last.want[w].level else LastLevel(steps[..|steps| - 1], k, w)
  }

  lemma {:induction false} LastLevelOf(steps: seq<Step>, k: nat, w: int)
    ensures LastLevel(steps, k, w) == 0 ||
      exists i ::
        && k <= i < |steps| && steps[i].Fire? && w in steps[i].want
        && steps[i].want[w].level == LastLevel(steps, k, w)
  {
    if |steps| > k {
      var init := steps[..|steps| - 1];
      LastLevelOf(init, k, w);
      assert forall i | 0 <= i < |init| :: init[i] == steps[i];
    }
  }

  lemma {:induction false} ActorPaid(c: Comp, steps: seq<Step>, k: nat, w: int, ok: Outcomes)
    requires k <= |steps| && Legal(Start(c), steps, ok) && FadesFrom(steps, k, w)
    requires At(c, steps, k, ok).a.adopted
    ensures var y0, y := At(c, steps, k, ok), Exec(Start(c), steps, ok);
      && y.a.adopted && y0.a.d.log <= y.a.d.log
      && Decay.Paid(y0.a.d, y.a.d, w, LastLevel(steps, k, w))
    decreases |steps|
  {
    AtEnd(c, steps, ok);
    if k == |steps| {
      assert Since(At(c, steps, k, ok).a.d, At(c, steps, k, ok).a.d) == [];
    } else {
      var n := |steps| - 1;
      AtInit(c, steps, k, ok);
      FadesInit(steps, k, w);
      ActorPaid(c, steps[..n], k, w, ok);
      PaidByLast(c, steps, k, w, ok, At(c, steps, k, ok).a.d, At(c, steps, n, ok), Exec(Start(c), steps, ok));
    }
  }

  lemma PaidByLast(c: Comp, steps: seq<Step>, k: nat, w: int, ok: Outcomes, s: State, y: Sys, y': Sys)
    requires k < |steps| && Legal(Start(c), steps, ok) && FadesFrom(steps, k, w)
    requires y == At(c, steps, |steps| - 1, ok) && y' == Exec(Start(c), steps, ok)
    requires y.a.adopted && s.log <= y.a.d.log && Decay.Paid(s, y.a.d, w, LastLevel(steps[..|steps| - 1], k, w))
    ensures y'.a.adopted && s.log <= y'.a.d.log && Decay.Paid(s, y'.a.d, w, LastLevel(steps, k, w))
  {
    var n := |steps| - 1;
    FadesInit(steps, k, w);
    RunBooks(c, steps[..n], ok);
    StepPaid(s, y, steps[n], w, ok, LastLevel(steps[..n], k, w));
  }

  lemma FadesInit(steps: seq<Step>, k: nat, w: int)
    requires k < |steps| && FadesFrom(steps, k, w)
    ensures var init, last := steps[..|steps| - 1], steps[|steps| - 1];
      && FadesFrom(init, k, w)
      && (last.Fire? ==>
            (w in last.want && last.want[w].status == Idle
             && LastLevel(init, k, w) <= last.want[w].level < DECAY_LEVELS))
  {
    var init := steps[..|steps| - 1];
    assert forall i | 0 <= i < |init| :: init[i] == steps[i];
    LastLevelOf(init, k, w);
  }

  lemma StepPaid(s: State, y: Sys, step: Step, w: int, ok: Outcomes, last: nat)
    requires Books(y) && y.a.adopted && Enabled(y, step)
    requires s.log <= y.a.d.log && Decay.Paid(s, y.a.d, w, last)
    requires step.Fire? ==> w in step.want && step.want[w].status == Idle && last <= step.want[w].level < DECAY_LEVELS
    ensures var s' := After(y, step, ok).a.d;
      s.log <= s'.log && Decay.Paid(s, s', w, if step.Fire? then step.want[w].level else last)
  {
    if step.Fire? {
      var b := Decay.Beat(y.a.d.model, step.want, step.clearOrder, step.nameOrder);
      Decay.BeatPaid(s, y.a.d, b, ok, w, last);
    } else {
      assert Since(s, After(y, step, ok).a.d) == Since(s, y.a.d);
    }
  }

  // Whatever the actor does from a step after adoption on, a workspace that only fades causes at most
  // one action per level, among them a bootstrap only if it was not managed at that step.
  lemma ActorFadingIsCheap(c: Comp, steps: seq<Step>, k: nat, w: int, ok: Outcomes)
    requires k <= |steps| && Legal(Start(c), steps, ok) && FadesFrom(steps, k, w)
    requires At(c, steps, k, ok).a.adopted
    ensures var s, s' := At(c, steps, k, ok).a.d, Exec(Start(c), steps, ok).a.d;
      s.log <= s'.log && Decay.Cheap(s, s', w)
  {
    ActorPaid(c, steps, k, w, ok);
    LastLevelOf(steps, k, w);
    Decay.PaidIsCheap(At(c, steps, k, ok).a.d, Exec(Start(c), steps, ok).a.d, w, LastLevel(steps, k, w));
  }

  // From step k on every reconcile sees the same sessions and windows, at a clock that does not
  // go back.
  ghost predicate OnlyAges(
    c: Comp, steps: seq<Step>, k: nat, ok: Outcomes, sessions: seq<Session>, windows: Windows) {
    && (forall i | k <= i < |steps| && steps[i].Fire? ::
          At(c, steps, i, ok).a.sessions == sessions && At(c, steps, i, ok).a.d.model.windows == windows)
    && (forall i, j | k <= i <= j < |steps| && steps[i].Fire? && steps[j].Fire? :: steps[i].now <= steps[j].now)
  }

  lemma {:induction false} LegalAt(c: Comp, steps: seq<Step>, i: nat, ok: Outcomes)
    requires i < |steps| && Legal(Start(c), steps, ok)
    ensures Enabled(At(c, steps, i, ok), steps[i])
    decreases |steps|
  {
    if i < |steps| - 1 {
      LegalAt(c, steps[..|steps| - 1], i, ok);
      AtInit(c, steps, i, ok);
    }
  }

  // The same bound from the sessions' side.
  lemma ActorAgingIsCheap(
    c: Comp, steps: seq<Step>, k: nat, w: int, ok: Outcomes, sessions: seq<Session>, windows: Windows)
    requires k <= |steps| && Legal(Start(c), steps, ok) && OnlyAges(c, steps, k, ok, sessions, windows)
    requires At(c, steps, k, ok).a.adopted
    requires Hosts(sessions, windows, w)
    requires forall r | r in sessions && WorkspaceOf(r, windows) == Some(w) :: SessionStatus(r) == Idle
    ensures var s, s' := At(c, steps, k, ok).a.d, Exec(Start(c), steps, ok).a.d;
      s.log <= s'.log && Decay.Cheap(s, s', w)
  {
    forall i, j | k <= i <= j < |steps| && steps[i].Fire? && steps[j].Fire?
      ensures w in steps[i].want && steps[i].want[w].status == Idle && w in steps[j].want
      ensures steps[i].want[w].level <= steps[j].want[w].level < DECAY_LEVELS
    {
      LegalAt(c, steps, i, ok);
      LegalAt(c, steps, j, ok);
      AllIdleFades(sessions, windows, w, steps[i].now, steps[j].now, steps[i].want, steps[j].want);
    }
    ActorFadingIsCheap(c, steps, k, w, ok);
  }
}
