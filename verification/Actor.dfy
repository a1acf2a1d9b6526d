// internal/daemon/daemon.go: startup adoption and the actor loop, as steps on values; and what
// holds in every state of every run.
module Actor {
  import opened Wrappers
  import opened Collections
  import opened Grammar
  import opened SlotTable
  import opened Aggregation
  import opened Compositor
  import opened Reconciler
  import opened ReconcileProofs
  import opened Refinement
  import opened Rows
  import opened NiriHistory
  import Niri

  // ---- adoption ---------------------------------------------------------------

  function AdoptOne(s: State, w: int): State {
    if w !in s.model.workspaces then s
    else
      var name := s.model.workspaces[w].name;
      match NameSlot(name)
      case None => s
      case Some(slot) => s.(slots := Adopt(s.slots, w, slot), managed := s.managed[w := name])
  }

  function AdoptAll(s: State, order: seq<int>): State {
    if order == [] then s else AdoptOne(AdoptAll(s, order[..|order| - 1]), order[|order| - 1])
  }

  // Workspace w bears a grammar-shaped name.
  predicate Shaped(t: Niri.Topology, w: int) {
    w in t.workspaces && NameSlot(t.workspaces[w].name).Some?
  }

  function SlotShown(t: Niri.Topology, w: int): int
    requires Shaped(t, w)
  {
    NameSlot(t.workspaces[w].name).value
  }

  // What a caller can check on the first snapshot: the slots shown are in range and pairwise
  // distinct.
  ghost predicate AdoptableCleanly(t: Niri.Topology) {
    && (forall w | Shaped(t, w) :: InRange(SlotShown(t, w)))
    && (forall v, w | Shaped(t, v) && Shaped(t, w) && SlotShown(t, v) == SlotShown(t, w) :: v == w)
  }

  ghost predicate Unnamed(s: State) {
    s.managed == map[] && s.slots == EMPTY_SLOTS
  }

  lemma {:induction false} AdoptAllFacts(s: State, order: seq<int>)
    requires Unnamed(s)
    ensures var s' := AdoptAll(s, order);
      && s'.model == s.model && s'.log == s.log
      && Weak(s')
      && (forall w :: w in s'.managed <==> w in order && Shaped(s.model, w))
      && (forall w | w in s'.managed :: s'.managed[w] == s.model.workspaces[w].name)
      && (forall w | w in s'.slots.byWs :: Shaped(s.model, w) && s'.slots.byWs[w] == SlotShown(s.model, w))
  {
    if order != [] {
      var rest, w := order[..|order| - 1], order[|order| - 1];
      AdoptAllFacts(s, rest);
      assert order == rest + [w];
      if Shaped(s.model, w) {
        AdoptConsistent(AdoptAll(s, rest).slots, w, SlotShown(s.model, w));
      }
    }
  }

  lemma {:induction false} AdoptAllHolds(s: State, order: seq<int>)
    requires Unnamed(s) && AdoptableCleanly(s.model) && NoDuplicates(order)
    ensures forall w | w in order && Shaped(s.model, w) :: w in AdoptAll(s, order).slots.byWs
  {
    if order != [] {
      var rest, w := order[..|order| - 1], order[|order| - 1];
      AdoptAllHolds(s, rest);
      AdoptAllFacts(s, rest);
      assert order == rest + [w];
    }
  }

  // Adoption leaves slots and names in agreement exactly when the slots shown were in range and
  // distinct; the bookkeeping invariant holds in any case, in any iteration order.
  lemma AdoptionCleanIff(s: State, order: seq<int>)
    requires Unnamed(s) && Enumerates(order, s.model.workspaces.Keys)
    ensures Weak(AdoptAll(s, order))
    ensures Clean(AdoptAll(s, order)) <==> AdoptableCleanly(s.model)
  {
    var s' := AdoptAll(s, order);
    AdoptAllFacts(s, order);
    if AdoptableCleanly(s.model) {
      AdoptAllHolds(s, order);
      assert forall w :: w in s'.managed.Keys <==> w in s'.slots.byWs.Keys;
    }
    if Clean(s') {
      forall w | Shaped(s.model, w)
        ensures w in s'.slots.byWs && InRange(SlotShown(s.model, w))
      {
        assert w in order;
      }
    }
  }

  // Two names of a previous run that show the same slot: one workspace ends up managed without a
  // slot, so the branch of reconcile that re-adopts such a workspace can be reached.
  lemma ManagedWithoutSlot(s: State)
    requires Unnamed(s)
    requires s.model.workspaces == map[
      1 := Niri.Workspace(1, 1, "cw3", "eDP-1", true), 2 := Niri.Workspace(2, 2, "cp3", "eDP-1", false)]
    ensures AdoptAll(s, [1, 2]).managed.Keys == {1, 2}
    ensures AdoptAll(s, [1, 2]).slots.byWs == map[1 := 3]
  {
    assert "cw3" == Encode(Working, 3, 0) && "cp3" == Encode(Prompt, 3, 0);
    ParseEncode(Working, 3, 0);
    ParseEncode(Prompt, 3, 0);
    assert [1, 2][..1] == [1] && [1][..0] == [];
    assert AdoptAll(s, [1]) == AdoptOne(s, 1);
    assert AdoptAll(s, [1, 2]) == AdoptOne(AdoptAll(s, [1]), 2);
  }

  // ---- the actor's steps ------------------------------------------------------

  datatype ActorState = ActorState(
    d: State,
    sessions: seq<Session>,
    adopted: bool,
    dirty: bool,
    armed: bool) // the debounce timer is running, or has fired and not been received

  function MarkDirty(a: ActorState): ActorState {
    if a.dirty then a else a.(dirty := true, armed := true)
  }

  // Folding a compositor event; model is the folded topology and order the iteration order of
  // the one-time adoption.
  function EventStep(a: ActorState, ev: Niri.Event, model: Niri.Topology, order: seq<int>): ActorState {
    var first := !a.adopted && ev.WorkspacesChanged?;
    var d := a.d.(model := model);
    var b := a.(d := if first then AdoptAll(d, order) else d, adopted := a.adopted || first);
    if Niri.Reports(a.d.model, ev) then MarkDirty(b) else b
  }

  function SnapshotStep(a: ActorState, sessions: seq<Session>): ActorState {
    MarkDirty(a.(sessions := sessions))
  }

  function TickStep(a: ActorState): ActorState {
    MarkDirty(a)
  }

  function FireStep(a: ActorState, want: Want, clearOrder: seq<int>, nameOrder: seq<int>, ok: Outcomes): ActorState {
    a.(dirty := false, armed := false, d := Reconcile(a.d, want, clearOrder, nameOrder, ok))
  }

  const INITIAL: ActorState :=
    ActorState(State(map[], EMPTY_SLOTS, Niri.Topology(map[], map[], ""), []), [], false, false, false)

  // ---- runs -------------------------------------------------------------------

  // The actor, the compositor, and what the last reconcile saw: the topology and the sessions,
  // and, if there was one, its clock, desired map and whether every action succeeded.
  datatype Sys = Sys(a: ActorState, c: Comp, seenModel: Niri.Topology, seenSessions: seq<Session>, last: Option<Last>)

  datatype Last = Last(now: int, want: Want, faultFree: bool)

  datatype Step =
    | Event(ev: Niri.Event, model: Niri.Topology, order: seq<int>, c: Comp)
    | Snapshot(sessions: seq<Session>)
    | Tick
    | Fire(now: int, want: Want, clearOrder: seq<int>, nameOrder: seq<int>)

  // The nondeterminism the code leaves open: map iteration orders and which feeder is ready.
  ghost predicate Enabled(y: Sys, step: Step) {
    match step
    case Event(ev, model, order, _) =>
      && Niri.Folds(y.a.d.model, ev, model)
      && Enumerates(order, model.workspaces.Keys)
    case Snapshot(_) => true
    case Tick => true
    case Fire(now, want, clearOrder, nameOrder) =>
      && y.a.armed
      && IsAggregate(y.a.sessions, y.a.d.model.windows, now, want)
      && Orders(y.a.d, want, clearOrder, nameOrder)
  }

  ghost function After(y: Sys, step: Step, ok: Outcomes): Sys {
    match step
    case Event(ev, model, order, c) => y.(a := EventStep(y.a, ev, model, order), c := c)
    case Snapshot(sessions) => y.(a := SnapshotStep(y.a, sessions))
    case Tick => y.(a := TickStep(y.a))
    case Fire(now, want, clearOrder, nameOrder) =>
      var a' := FireStep(y.a, want, clearOrder, nameOrder, ok);
      var sent := if y.a.d.log <= a'.d.log then Since(y.a.d, a'.d) else [];
      Sys(a', PerformAll(y.c, sent), y.a.d.model, y.a.sessions, Some(Last(now, want, FaultFree(sent))))
  }

  ghost function Start(c: Comp): Sys {
    Sys(INITIAL, c, INITIAL.d.model, INITIAL.sessions, None)
  }

  ghost function Exec(y: Sys, steps: seq<Step>, ok: Outcomes): Sys {
    if steps == [] then y else After(Exec(y, steps[..|steps| - 1], ok), steps[|steps| - 1], ok)
  }

  ghost predicate Legal(y: Sys, steps: seq<Step>, ok: Outcomes) {
    steps == [] ||
    (Legal(y, steps[..|steps| - 1], ok) && Enabled(Exec(y, steps[..|steps| - 1], ok), steps[|steps| - 1]))
  }

  // ---- what a run has been told, from its steps alone ----------------------------

  // The payload of the last snapshot received; none before the first.
  function Received(steps: seq<Step>): seq<Session> {
    if steps == [] then []
    else if steps[|steps| - 1].Snapshot? then steps[|steps| - 1].sessions
    else Received(steps[..|steps| - 1])
  }

  // The compositor events received, in order.
  function Heard(steps: seq<Step>): seq<Change> {
    if steps == [] then []
    else
      var step := steps[|steps| - 1];
      Heard(steps[..|steps| - 1]) + if step.Event? then [Folded(step.ev)] else []
  }

  // The sessions are those of the last snapshot; windows, workspaces and focus are as the events say.
  ghost predicate Told(steps: seq<Step>, a: ActorState) {
    && a.sessions == Received(steps)
    && (forall id, w :: WindowSays(Heard(steps), a.d.model, id, w))
    && (forall id, idx, output :: SpaceSays(Heard(steps), a.d.model, id, idx, output))
    && (forall id :: FocusSays(Heard(steps), a.d.model, id))
  }

  lemma EventTells(y: Sys, step: Step, ok: Outcomes)
    requires Enabled(y, step) && step.Event?
    ensures var a' := After(y, step, ok).a;
      Changes(y.a.d.model, Folded(step.ev), a'.d.model) && a'.sessions == y.a.sessions
  {
    AdoptAllKeepsModel(y.a.d.(model := step.model), step.order);
  }

  lemma ToldEvent(steps: seq<Step>, a: ActorState, step: Step, a': ActorState)
    requires Told(steps, a) && step.Event? && Changes(a.d.model, Folded(step.ev), a'.d.model)
    requires a'.sessions == a.sessions
    ensures Told(steps + [step], a')
  {
    var cs, t, t', c := Heard(steps), a.d.model, a'.d.model, Folded(step.ev);
    assert (steps + [step])[..|steps|] == steps;
    forall id, w
      ensures WindowSays(cs + [c], t', id, w)
    {
      WindowStep(cs, t, c, t', id, w);
    }
    forall id, idx, output
      ensures SpaceSays(cs + [c], t', id, idx, output)
    {
      SpaceStep(cs, t, c, t', id, idx, output);
    }
    forall id
      ensures FocusSays(cs + [c], t', id)
    {
      FocusStep(cs, t, c, t', id);
    }
  }

  lemma {:induction false} AdoptAllKeepsModel(s: State, order: seq<int>)
    ensures AdoptAll(s, order).model == s.model
  {
    if order != [] {
      AdoptAllKeepsModel(s, order[..|order| - 1]);
    }
  }

  // Anything but an event changes no more of the topology than names.
  lemma OtherKeeps(y: Sys, step: Step, ok: Outcomes)
    requires Books(y) && Enabled(y, step) && !step.Event?
    ensures var a' := After(y, step, ok).a;
      && SameTopology(y.a.d.model, a'.d.model)
      && a'.sessions == if step.Snapshot? then step.sessions else y.a.sessions
  {
    if step.Fire? {
      ReconcileFate(y.a.d, step.want, step.clearOrder, step.nameOrder, ok, 0);
    }
  }

  lemma ToldOther(steps: seq<Step>, a: ActorState, step: Step, a': ActorState)
    requires Told(steps, a) && !step.Event? && SameTopology(a.d.model, a'.d.model)
    requires a'.sessions == if step.Snapshot? then step.sessions else a.sessions
    ensures Told(steps + [step], a')
  {
    HeardOther(steps, step);
    ToldSame(steps, steps + [step], a, a');
  }

  lemma HeardOther(steps: seq<Step>, step: Step)
    requires !step.Event?
    ensures Heard(steps + [step]) == Heard(steps)
    ensures Received(steps + [step]) == if step.Snapshot? then step.sessions else Received(steps)
  {
    assert (steps + [step])[..|steps|] == steps;
    assert Heard(steps) + [] == Heard(steps);
  }

  lemma ToldSame(steps: seq<Step>, steps': seq<Step>, a: ActorState, a': ActorState)
    requires Told(steps, a) && SameTopology(a.d.model, a'.d.model)
    requires Heard(steps') == Heard(steps) && a'.sessions == Received(steps')
    ensures Told(steps', a')
  {
    forall id, w
      ensures WindowSays(Heard(steps), a'.d.model, id, w)
    {
      assert WindowSays(Heard(steps), a.d.model, id, w);
    }
    forall id, idx, output
      ensures SpaceSays(Heard(steps), a'.d.model, id, idx, output)
    {
      assert SpaceSays(Heard(steps), a.d.model, id, idx, output);
    }
    forall id
      ensures FocusSays(Heard(steps), a'.d.model, id)
    {
      assert FocusSays(Heard(steps), a.d.model, id);
    }
  }

  // In every state of every run the actor works on what it was told last.
  lemma {:induction false} RunIsTold(c: Comp, steps: seq<Step>, ok: Outcomes)
    requires Legal(Start(c), steps, ok)
    ensures Told(steps, Exec(Start(c), steps, ok).a)
  {
    if steps != [] {
      var init, step := steps[..|steps| - 1], steps[|steps| - 1];
      assert steps == init + [step];
      RunIsTold(c, init, ok);
      RunBooks(c, init, ok);
      if step.Event? {
        EventTells(Exec(Start(c), init, ok), step, ok);
        ToldEvent(init, Exec(Start(c), init, ok).a, step, Exec(Start(c), steps, ok).a);
      } else {
        OtherKeeps(Exec(Start(c), init, ok), step, ok);
        ToldOther(init, Exec(Start(c), init, ok).a, step, Exec(Start(c), steps, ok).a);
      }
    }
  }

  // Step i asks for a reconcile: a snapshot, a tick, or an event that is not a no-op, which the
  // closing of a window not heard of and an event of no known kind are.
  ghost predicate Stirs(steps: seq<Step>, i: int)
    requires 0 <= i < |steps|
  {
    match steps[i]
    case Snapshot(_) => true
    case Tick => true
    case Fire(_, _, _, _) => false
    case Event(ev, _, _, _) =>
      match ev
      case Unknown => false
      case WindowClosed(id) => exists w :: LastShowsWindow(Heard(steps[..i]), id, w)
      case _ => true
  }

  // Something has asked for a reconcile and none has run since.
  ghost predicate Stirred(steps: seq<Step>) {
    exists i | 0 <= i < |steps| :: Stirs(steps, i) && forall j | i < j < |steps| :: !steps[j].Fire?
  }

  lemma StirsInit(steps: seq<Step>, step: Step, i: int)
    requires 0 <= i < |steps|
    ensures Stirs(steps + [step], i) <==> Stirs(steps, i)
  {
    assert (steps + [step])[..i] == steps[..i];
  }

  lemma StirredSnoc(steps: seq<Step>, step: Step)
    ensures Stirred(steps + [step]) <==> Stirs(steps + [step], |steps|) || (Stirred(steps) && !step.Fire?)
  {
    var all := steps + [step];
    if Stirred(steps) && !step.Fire? {
      var i :| 0 <= i < |steps| && Stirs(steps, i) && forall j | i < j < |steps| :: !steps[j].Fire?;
      StirsInit(steps, step, i);
      assert Stirs(all, i) && forall j | i < j < |all| :: !all[j].Fire?;
    }
    if Stirred(all) && !Stirs(all, |steps|) {
      var i :| 0 <= i < |all| && Stirs(all, i) && forall j | i < j < |all| :: !all[j].Fire?;
      StirsInit(steps, step, i);
      assert all[|steps|] == step && forall j | i < j < |steps| :: all[j] == steps[j];
    }
  }

  lemma StirsReported(steps: seq<Step>, y: Sys, step: Step)
    requires Told(steps, y.a)
    ensures Stirs(steps + [step], |steps|) <==>
      step.Snapshot? || step.Tick? || (step.Event? && Niri.Reports(y.a.d.model, step.ev))
  {
    var all := steps + [step];
    assert all[..|steps|] == steps && all[|steps|] == step;
    if step.Event? && step.ev.WindowClosed? {
      var id := step.ev.windowId;
      if id in y.a.d.model.windows {
        assert WindowSays(Heard(steps), y.a.d.model, id, y.a.d.model.windows[id]);
      }
      if w :| LastShowsWindow(Heard(steps), id, w) {
        assert WindowSays(Heard(steps), y.a.d.model, id, w);
      }
    }
  }

  // The timer is armed exactly when something has asked for a reconcile and none has run since.
  lemma {:induction false} DirtyMeaning(c: Comp, steps: seq<Step>, ok: Outcomes)
    requires Legal(Start(c), steps, ok)
    ensures Exec(Start(c), steps, ok).a.dirty <==> Stirred(steps)
    ensures Exec(Start(c), steps, ok).a.armed <==> Stirred(steps)
  {
    if steps != [] {
      var init, step := steps[..|steps| - 1], steps[|steps| - 1];
      assert steps == init + [step];
      DirtyMeaning(c, init, ok);
      RunIsTold(c, init, ok);
      StirsReported(init, Exec(Start(c), init, ok), step);
      StirredSnoc(init, step);
    }
  }

  // ---- what every run keeps, for any environment --------------------------------

  // A topology without the workspace names, which reconcile writes but never reads.
  function Bare(t: Niri.Topology): Niri.Topology {
    t.(workspaces := map w | w in t.workspaces :: t.workspaces[w].(name := ""))
  }

  ghost predicate NothingForgotten(y: Sys) {
    && y.a.dirty == y.a.armed
    && (!y.a.dirty ==> Bare(y.a.d.model) == Bare(y.seenModel) && y.a.sessions == y.seenSessions)
    && (!y.a.dirty && y.last.Some? ==>
          IsAggregate(y.a.sessions, y.a.d.model.windows, y.last.value.now, y.last.value.want))
    && (!y.a.dirty && y.last.Some? && y.last.value.faultFree ==>
          forall v :: Done(y.a.d, y.last.value.want, v))
  }

  ghost predicate Books(y: Sys) {
    && Weak(y.a.d)
    && (!y.a.adopted ==> Unnamed(y.a.d) && y.a.d.model.workspaces == map[] && y.a.d.log == [])
    && (forall w | w in y.a.d.model.workspaces :: y.a.d.model.workspaces[w].id == w)
  }

  lemma {:induction false} IdleBeforeAdoption(
    s: State, want: Want, clearOrder: seq<int>, nameOrder: seq<int>, ok: Outcomes)
    requires s.managed == map[] && s.model.workspaces == map[]
    ensures ClearAll(s, want, clearOrder, ok) == s
    ensures NameAll(s, want, nameOrder, ok) == s
    decreases |clearOrder| + |nameOrder|
  {
    if clearOrder != [] {
      IdleBeforeAdoption(s, want, clearOrder[..|clearOrder| - 1], nameOrder, ok);
    } else if nameOrder != [] {
      IdleBeforeAdoption(s, want, clearOrder, nameOrder[..|nameOrder| - 1], ok);
    }
    if nameOrder != [] && clearOrder != [] {
      IdleBeforeAdoption(s, want, clearOrder, nameOrder[..|nameOrder| - 1], ok);
    }
  }

  lemma BareSame(t: Niri.Topology, t': Niri.Topology)
    requires SameTopology(t, t')
    ensures Bare(t) == Bare(t')
  {
    assert Bare(t).workspaces.Keys == Bare(t').workspaces.Keys;
    assert forall v | v in t.workspaces :: Bare(t).workspaces[v] == Bare(t').workspaces[v];
  }

  lemma FireBooks(y: Sys, step: Step, ok: Outcomes)
    requires Books(y) && Enabled(y, step) && step.Fire?
    ensures Books(After(y, step, ok))
  {
    ReconcileWeak(y.a.d, step.want, step.clearOrder, step.nameOrder, ok);
    ReconcileFate(y.a.d, step.want, step.clearOrder, step.nameOrder, ok, 0);
    if !y.a.adopted {
      IdleBeforeAdoption(y.a.d, step.want, step.clearOrder, step.nameOrder, ok);
    }
  }

  lemma EventBooks(y: Sys, step: Step, ok: Outcomes)
    requires Books(y) && Enabled(y, step) && step.Event?
    ensures Books(After(y, step, ok))
  {
    match step.ev {
      case WorkspacesChanged(list) =>
        Niri.WorkspacesByIdIds(list);
        if !y.a.adopted {
          AdoptAllFacts(y.a.d.(model := step.model), step.order);
        }
      case _ =>
    }
  }

  lemma {:induction false} RunBooks(c: Comp, steps: seq<Step>, ok: Outcomes)
    requires Legal(Start(c), steps, ok)
    ensures Books(Exec(Start(c), steps, ok))
  {
    if steps != [] {
      RunBooks(c, steps[..|steps| - 1], ok);
      var y, step := Exec(Start(c), steps[..|steps| - 1], ok), steps[|steps| - 1];
      match step {
        case Event(_, _, _, _) => EventBooks(y, step, ok);
        case Fire(_, _, _, _) => FireBooks(y, step, ok);
        case _ =>
      }
    }
  }

  lemma FireRemembers(y: Sys, step: Step, ok: Outcomes)
    requires Books(y) && Enabled(y, step) && step.Fire?
    ensures NothingForgotten(After(y, step, ok))
  {
    var s, s' := y.a.d, After(y, step, ok).a.d;
    ReconcileFate(s, step.want, step.clearOrder, step.nameOrder, ok, 0);
    BareSame(s.model, s'.model);
    if FaultFree(Since(s, s')) {
      forall v
        ensures Done(s', step.want, v)
      {
        DoneAfterFaultFree(s, step.want, step.clearOrder, step.nameOrder, ok, v);
      }
    }
  }

  lemma EventRemembers(y: Sys, step: Step, ok: Outcomes)
    requires NothingForgotten(y) && Enabled(y, step) && step.Event?
    ensures NothingForgotten(After(y, step, ok))
  {
    if !Niri.Reports(y.a.d.model, step.ev) {
      Niri.UnreportedIsNoOp(y.a.d.model, step.ev, step.model);
    }
  }

  // No lost update. In every state of every run the actor works on what it was told last; the timer
  // is armed exactly when the actor is dirty, and when it is not, what it was told is what the last
  // reconcile saw and asked for; if that reconcile had no failure, nothing is left to do.
  lemma RunForgetsNothing(c: Comp, steps: seq<Step>, ok: Outcomes)
    requires Legal(Start(c), steps, ok)
    ensures var y := Exec(Start(c), steps, ok);
      && NothingForgotten(y) && Told(steps, y.a)
      && (!y.a.dirty && y.last.Some? ==>
            IsAggregate(Received(steps), y.a.d.model.windows, y.last.value.now, y.last.value.want))
  {
    RunRemembers(c, steps, ok);
    RunIsTold(c, steps, ok);
  }

  lemma {:induction false} RunRemembers(c: Comp, steps: seq<Step>, ok: Outcomes)
    requires Legal(Start(c), steps, ok)
    ensures NothingForgotten(Exec(Start(c), steps, ok))
  {
    if steps != [] {
      RunRemembers(c, steps[..|steps| - 1], ok);
      RunBooks(c, steps[..|steps| - 1], ok);
      var y, step := Exec(Start(c), steps[..|steps| - 1], ok), steps[|steps| - 1];
      match step {
        case Event(_, _, _, _) => EventRemembers(y, step, ok);
        case Fire(_, _, _, _) => FireRemembers(y, step, ok);
        case _ =>
      }
    }
  }

  // ---- slots and names in every run, for any environment --------------------------------------

  ghost predicate IsSnapshot(step: Step) {
    step.Event? && step.ev.WorkspacesChanged?
  }

  // The first workspace snapshot of the run, if there is one, can be adopted cleanly.
  ghost predicate StartsCleanly(steps: seq<Step>) {
    forall i | 0 <= i < |steps| && IsSnapshot(steps[i]) && (forall j | 0 <= j < i :: !IsSnapshot(steps[j])) ::
      AdoptableCleanly(steps[i].model)
  }

  ghost predicate HasSnapshot(steps: seq<Step>) {
    exists i | 0 <= i < |steps| :: IsSnapshot(steps[i])
  }

  lemma HasSnapshotSnoc(steps: seq<Step>, last: Step)
    ensures HasSnapshot(steps + [last]) <==> HasSnapshot(steps) || IsSnapshot(last)
  {
    var all := steps + [last];
    assert all[|steps|] == last && forall i | 0 <= i < |steps| :: all[i] == steps[i];
  }

  lemma StartsCleanlyInit(steps: seq<Step>)
    requires steps != [] && StartsCleanly(steps)
    ensures var init, last := steps[..|steps| - 1], steps[|steps| - 1];
      StartsCleanly(init) && (IsSnapshot(last) && !HasSnapshot(init) ==> AdoptableCleanly(last.model))
  {
    var init := steps[..|steps| - 1];
    assert forall i | 0 <= i < |init| :: init[i] == steps[i];
  }

  lemma {:induction false} AdoptedIff(y: Sys, steps: seq<Step>, ok: Outcomes)
    ensures Exec(y, steps, ok).a.adopted <==> y.a.adopted || HasSnapshot(steps)
  {
    if steps != [] {
      var init, last := steps[..|steps| - 1], steps[|steps| - 1];
      AdoptedIff(y, init, ok);
      HasSnapshotSnoc(init, last);
      assert steps == init + [last];
    }
  }

  // In every state of every run whose first snapshot shows distinct slots in range, managed
  // workspaces and slot holders are the same and each managed name shows its workspace's slot:
  // whatever fails, and whatever the environment does.
  lemma {:induction false} RunStaysClean(c: Comp, steps: seq<Step>, ok: Outcomes)
    requires Legal(Start(c), steps, ok) && StartsCleanly(steps)
    ensures Clean(Exec(Start(c), steps, ok).a.d)
  {
    if steps == [] {
      InitialClean();
    } else {
      var init, step := steps[..|steps| - 1], steps[|steps| - 1];
      StartsCleanlyInit(steps);
      AdoptedIff(Start(c), init, ok);
      RunStaysClean(c, init, ok);
      RunBooks(c, init, ok);
      StepStaysClean(Exec(Start(c), init, ok), step, ok);
    }
  }

  lemma InitialClean()
    ensures Clean(INITIAL.d)
  {
  }

  lemma StepStaysClean(y: Sys, step: Step, ok: Outcomes)
    requires Books(y) && Enabled(y, step) && Clean(y.a.d)
    requires IsSnapshot(step) && !y.a.adopted ==> AdoptableCleanly(step.model)
    ensures Clean(After(y, step, ok).a.d)
  {
    if step.Fire? {
      AggregateLevelsOk(y.a.sessions, y.a.d.model.windows, step.now, step.want);
      ReconcileClean(y.a.d, step.want, step.clearOrder, step.nameOrder, ok);
    } else if IsSnapshot(step) && !y.a.adopted {
      AdoptionCleanIff(y.a.d.(model := step.model), step.order);
    }
  }

  // So no two managed workspaces ever have the same name in the daemon's books.
  lemma RunNamesDistinct(c: Comp, steps: seq<Step>, ok: Outcomes, v: int, w: int)
    requires Legal(Start(c), steps, ok) && StartsCleanly(steps) && v != w
    requires v in Exec(Start(c), steps, ok).a.d.managed && w in Exec(Start(c), steps, ok).a.d.managed
    ensures Exec(Start(c), steps, ok).a.d.managed[v] != Exec(Start(c), steps, ok).a.d.managed[w]
  {
    RunStaysClean(c, steps, ok);
    CleanNamesDistinct(Exec(Start(c), steps, ok).a.d, v, w);
  }

  // ---- what every run keeps on the compositor -----------------------------------

  function SpacesOf(ws: map<int, Niri.Workspace>): map<int, Space> {
    map w | w in ws :: Space(ws[w].idx, ws[w].output, ws[w].name)
  }

  // The environment's side of a step. Compositor changes come with their event; a snapshot shows
  // the focused workspaces on the focused output; managed names are left alone and no other
  // workspace is given a grammar-shaped name; the first snapshot can be adopted cleanly.
  ghost predicate Cooperates(y: Sys, step: Step) {
    step.Event? ==>
      && UniqueIdx(step.c)
      && match step.ev
         case WorkspacesChanged(_) =>
           && step.c.spaces == SpacesOf(step.model.workspaces)
           && (exists w :: w in step.model.workspaces && step.model.workspaces[w].isFocused)
           && (forall w | w in step.model.workspaces && step.model.workspaces[w].isFocused ::
                 step.model.workspaces[w].output == step.c.focusedOutput)
           && (if y.a.adopted
               then forall w | w in step.c.spaces ::
                      if w in y.a.d.managed then step.c.spaces[w].name == y.a.d.managed[w]
                      else NameSlot(step.c.spaces[w].name).None?
               else AdoptableCleanly(step.model))
         case WorkspaceActivated(id, focused) =>
           && step.c.spaces == y.c.spaces
           && (if focused && y.a.adopted
               then id in y.c.spaces && step.c.focusedOutput == y.c.spaces[id].output
               else step.c.focusedOutput == y.c.focusedOutput)
         case _ => step.c == y.c
  }

  ghost predicate AllCooperate(y: Sys, steps: seq<Step>, ok: Outcomes) {
    steps == [] ||
    (AllCooperate(y, steps[..|steps| - 1], ok) && Cooperates(Exec(y, steps[..|steps| - 1], ok), steps[|steps| - 1]))
  }

  lemma SnapshotLinked(y: Sys, step: Step, ok: Outcomes)
    requires Books(y) && Enabled(y, step) && step.Event? && step.ev.WorkspacesChanged? && Cooperates(y, step)
    requires y.a.adopted ==> Linked(y.a.d, y.c)
    ensures Linked(After(y, step, ok).a.d, step.c)
  {
    var s' := After(y, step, ok).a.d;
    if !y.a.adopted {
      var d := y.a.d.(model := step.model);
      AdoptionCleanIff(d, step.order);
      AdoptAllFacts(d, step.order);
    }
    forall w | w in step.c.spaces
      ensures AgreeAt(s', step.c, w)
    {
      assert w in step.order;
    }
  }

  lemma ActivatedLinked(y: Sys, step: Step, ok: Outcomes)
    requires Books(y) && Enabled(y, step) && step.Event? && step.ev.WorkspaceActivated? && Cooperates(y, step)
    requires y.a.adopted && Linked(y.a.d, y.c)
    ensures Linked(After(y, step, ok).a.d, step.c)
  {
    var s' := After(y, step, ok).a.d;
    if step.ev.focused {
      assert step.model.workspaces[step.ev.workspaceId].isFocused;
      assert step.model.focusedOutput == step.c.focusedOutput;
    }
    forall w | w in step.c.spaces
      ensures AgreeAt(s', step.c, w)
    {
      assert AgreeAt(y.a.d, y.c, w);
    }
  }

  lemma OtherEventLinked(y: Sys, step: Step, ok: Outcomes)
    requires Enabled(y, step) && step.Event? && Cooperates(y, step)
    requires !step.ev.WorkspacesChanged? && !step.ev.WorkspaceActivated?
    requires Linked(y.a.d, y.c)
    ensures Linked(After(y, step, ok).a.d, step.c)
  {
    var s' := After(y, step, ok).a.d;
    forall w | w in step.c.spaces
      ensures AgreeAt(s', step.c, w)
    {
      assert AgreeAt(y.a.d, y.c, w);
    }
  }

  // With a cooperating environment, in every state after adoption the slots are clean, the
  // model, the managed names and the compositor agree, and every action of a reconcile hit the
  // workspace it meant.
  lemma {:induction false} RunStaysLinked(c: Comp, steps: seq<Step>, ok: Outcomes)
    requires Legal(Start(c), steps, ok) && AllCooperate(Start(c), steps, ok)
    ensures var y := Exec(Start(c), steps, ok); y.a.adopted ==> Linked(y.a.d, y.c)
    ensures forall step: Step | step.Fire? && Enabled(Exec(Start(c), steps, ok), step) ::
              var y := Exec(Start(c), steps, ok);
              var y' := After(y, step, ok);
              y.a.d.log <= y'.a.d.log && AllHit(y.c, Since(y.a.d, y'.a.d))
  {
    if steps != [] {
      RunStaysLinked(c, steps[..|steps| - 1], ok);
      RunBooks(c, steps[..|steps| - 1], ok);
      var y, step := Exec(Start(c), steps[..|steps| - 1], ok), steps[|steps| - 1];
      match step {
        case Event(ev, _, _, _) =>
          if ev.WorkspacesChanged? {
            SnapshotLinked(y, step, ok);
          } else if y.a.adopted {
            if ev.WorkspaceActivated? {
              ActivatedLinked(y, step, ok);
            } else {
              OtherEventLinked(y, step, ok);
            }
          }
        case Fire(now, want, clearOrder, nameOrder) =>
          FireHits(y, step, ok);
        case _ =>
      }
    }
    RunBooks(c, steps, ok);
    forall step: Step | step.Fire? && Enabled(Exec(Start(c), steps, ok), step)
      ensures
        var y := Exec(Start(c), steps, ok);
        var y' := After(y, step, ok);
        y.a.d.log <= y'.a.d.log && AllHit(y.c, Since(y.a.d, y'.a.d))
    {
      FireHits(Exec(Start(c), steps, ok), step, ok);
    }
  }

  lemma FireHits(y: Sys, step: Step, ok: Outcomes)
    requires Books(y) && Enabled(y, step) && step.Fire?
    requires y.a.adopted ==> Linked(y.a.d, y.c)
    ensures var y' := After(y, step, ok);
      && y.a.d.log <= y'.a.d.log
      && AllHit(y.c, Since(y.a.d, y'.a.d))
      && (y'.a.adopted ==> Linked(y'.a.d, y'.c))
  {
    if y.a.adopted {
      AggregateLevelsOk(y.a.sessions, y.a.d.model.windows, step.now, step.want);
      ReconcileRefines(y.a.d, y.c, step.want, step.clearOrder, step.nameOrder, ok);
    } else {
      IdleBeforeAdoption(y.a.d, step.want, step.clearOrder, step.nameOrder, ok);
      SentNothing(y.a.d, After(y, step, ok).a.d, y.c);
    }
  }

  // Safety on the bar: managed workspaces never share a name, and no unmanaged one bears a
  // grammar-shaped name.
  lemma NamesNeverCollide(c: Comp, steps: seq<Step>, ok: Outcomes, v: int, w: int)
    requires Legal(Start(c), steps, ok) && AllCooperate(Start(c), steps, ok)
    requires var y := Exec(Start(c), steps, ok); y.a.adopted && v in y.c.spaces && w in y.c.spaces && v != w
    ensures
      var y := Exec(Start(c), steps, ok);
      && (NameSlot(y.c.spaces[v].name).Some? <==> v in y.a.d.managed)
      && (v in y.a.d.managed && w in y.a.d.managed ==>
            NameSlot(y.c.spaces[v].name) != NameSlot(y.c.spaces[w].name))
  {
    RunStaysLinked(c, steps, ok);
    var y := Exec(Start(c), steps, ok);
    assert AgreeAt(y.a.d, y.c, v) && AgreeAt(y.a.d, y.c, w);
  }

  // When the actor is quiescent after a reconcile without failures, the compositor shows what
  // the sessions of the last snapshot asked for at that reconcile's clock, on the windows heard of:
  // every wanted workspace within reach bears its encoded name unless all slots are held, and nothing
  // unwanted bears a name of the grammar.
  lemma QuiescentNames(c: Comp, steps: seq<Step>, ok: Outcomes, v: int)
    requires Legal(Start(c), steps, ok) && AllCooperate(Start(c), steps, ok)
    requires var y := Exec(Start(c), steps, ok);
      y.a.adopted && !y.a.dirty && y.last.Some? && y.last.value.faultFree && v in y.c.spaces
    ensures
      var y := Exec(Start(c), steps, ok);
      var want := y.last.value.want;
      && IsAggregate(Received(steps), y.a.d.model.windows, y.last.value.now, want)
      && (forall id, w :: WindowSays(Heard(steps), y.a.d.model, id, w))
      && (v !in want ==> NameSlot(y.c.spaces[v].name).None?)
      && (v in want && (v in y.a.d.managed || y.c.spaces[v].output == y.c.focusedOutput) ==>
            if v in y.a.d.slots.byWs
            then y.c.spaces[v].name == Encode(want[v].status, Natural(y.a.d.slots.byWs[v]), want[v].level)
            else |y.a.d.slots.byWs.Keys| == MAX_SLOTS)
  {
    RunStaysLinked(c, steps, ok);
    RunForgetsNothing(c, steps, ok);
    var y := Exec(Start(c), steps, ok);
    assert AgreeAt(y.a.d, y.c, v);
    assert Done(y.a.d, y.last.value.want, v);
  }
}
