// internal/daemon/daemon.go: the daemon object, updated in place by its actor loop. Each method
// is tied to the step function of the same name in Actor and Reconciler.
module DaemonProcess {
  import opened Wrappers
  import opened Collections
  import opened Grammar
  import opened SlotTable
  import opened Aggregation
  import opened Compositor
  import opened Reconciler
  import opened ReconcileProofs
  import opened Actor
  import opened Rows
  import Reaper
  import Store
  import Niri

  // The rename operations of the compositor as the daemon sees them: each is recorded and
  // succeeds or fails. The ws argument records which workspace the caller means.
  class Actuator {
    var log: seq<Sent>
    const outcome: Outcomes

    constructor (outcome: Outcomes)
      ensures log == [] && this.outcome == outcome
    {
      log := [];
      this.outcome := outcome;
    }

    method SetWorkspaceNameByIndex(ws: int, idx: int, name: string) returns (ok: bool)
      modifies this
      ensures ok == outcome(|old(log)|) && log == old(log) + [Sent(ws, ByIndex(idx, name), ok)]
    {
      ok := outcome(|log|);
      log := log + [Sent(ws, ByIndex(idx, name), ok)];
    }

    method SetWorkspaceNameByName(ws: int, current: string, name: string) returns (ok: bool)
      modifies this
      ensures ok == outcome(|old(log)|) && log == old(log) + [Sent(ws, ByName(current, name), ok)]
    {
      ok := outcome(|log|);
      log := log + [Sent(ws, ByName(current, name), ok)];
    }

    method UnsetWorkspaceName(ws: int, name: string) returns (ok: bool)
      modifies this
      ensures ok == outcome(|old(log)|) && log == old(log) + [Sent(ws, Unset(name), ok)]
    {
      ok := outcome(|log|);
      log := log + [Sent(ws, Unset(name), ok)];
    }
  }

  predicate Ascending(ids: seq<int>) {
    forall i, j | 0 <= i < j < |ids| :: ids[i] < ids[j]
  }

  // The keys of a desired map in ascending order.
  method SortedWorkspaceIds(want: Want) returns (ids: seq<int>)
    ensures Enumerates(ids, want.Keys) && Ascending(ids)
  {
    ids := [];
    var todo := want.Keys;
    while todo != {}
      invariant todo <= want.Keys
      invariant Enumerates(ids, want.Keys - todo) && Ascending(ids)
      decreases |todo|
    {
      var _ := Pick(todo);
      var w :| w in todo;
      ids := InsertAscending(ids, w);
      assert want.Keys - (todo - {w}) == (want.Keys - todo) + {w};
      todo := todo - {w};
    }
    assert want.Keys - todo == want.Keys;
  }

  method InsertAscending(ids: seq<int>, w: int) returns (out: seq<int>)
    requires Ascending(ids) && w !in ids
    ensures Ascending(out) && NoDuplicates(out)
    ensures forall x :: x in out <==> x in ids || x == w
  {
    var i := 0;
    while i < |ids| && ids[i] < w
      invariant 0 <= i <= |ids|
      invariant forall j | 0 <= j < i :: ids[j] < w
    {
      i := i + 1;
    }
    out := ids[..i] + [w] + ids[i..];
    assert forall x :: x in ids <==> x in ids[..i] || x in ids[i..];
  }

  class Daemon {
    const model: Niri.Model
    const act: Actuator
    const slots: SlotAllocator
    const misses: Reaper.MissCounter
    const db: Store.Database
    var managed: map<int, string>
    var sessions: seq<Session>
    var adopted: bool
    var dirty: bool
    var armed: bool

    ghost function View(): State
      reads this, model, slots, act
    {
      State(managed, slots.View(), model.View(), act.log)
    }

    ghost function ActorView(): ActorState
      reads this, model, slots, act
    {
      ActorState(View(), sessions, adopted, dirty, armed)
    }

    constructor (outcome: Outcomes, db: Store.Database)
      ensures fresh(model) && fresh(slots) && fresh(act) && fresh(misses) && this.db == db
      ensures act.outcome == outcome && misses.fpMiss == map[]
      ensures ActorView() == INITIAL
    {
      model := new Niri.Model();
      act := new Actuator(outcome);
      slots := new SlotAllocator();
      misses := new Reaper.MissCounter();
      this.db := db;
      managed, sessions, adopted, dirty, armed := map[], [], false, false, false;
    }

    method MarkDirty()
      modifies this`dirty, this`armed
      ensures ActorView() == Actor.MarkDirty(old(ActorView()))
    {
      if !dirty {
        dirty := true;
        armed := true;
      }
    }

    // Reclaims slots and names left by a previous run.
    method AdoptExistingNames() returns (ghost order: seq<int>)
      modifies this`managed, slots
      ensures Enumerates(order, model.workspaces.Keys)
      ensures View() == AdoptAll(old(View()), order)
    {
      order := [];
      var todo := model.workspaces.Keys;
      while todo != {}
        invariant todo <= model.workspaces.Keys
        invariant Enumerates(order, model.workspaces.Keys - todo)
        invariant View() == AdoptAll(old(View()), order)
        decreases |todo|
      {
        var _ := Pick(todo);
        var w :| w in todo;
        TakeNext(order, model.workspaces.Keys, todo, w);
        assert (order + [w])[..|order|] == order;
        todo := todo - {w};
        ghost var before := View();
        var name := model.workspaces[w].name;
        var parsed := ParseName(name);
        if parsed.Some? {
          slots.AdoptSlot(w, parsed.value.slot);
          managed := managed[w := name];
        }
        assert View() == AdoptOne(before, w);
        order := order + [w];
      }
      assert model.workspaces.Keys - todo == model.workspaces.Keys;
    }

    // One event received in the actor's select.
    method OnEvent(ev: Niri.Event) returns (ghost order: seq<int>)
      modifies this`managed, this`adopted, this`dirty, this`armed, slots, model
      ensures Niri.Folds(old(model.View()), ev, model.View())
      ensures Enumerates(order, model.workspaces.Keys)
      ensures ActorView() == EventStep(old(ActorView()), ev, model.View(), order)
    {
      var changed := model.ApplyEvent(ev);
      if !adopted && ev.WorkspacesChanged? {
        order := AdoptExistingNames();
        adopted := true;
      } else {
        order := AnyOrder(model.workspaces.Keys);
      }
      if changed {
        MarkDirty();
      }
    }

    method OnSnapshot(snap: seq<Session>)
      modifies this`sessions, this`dirty, this`armed
      ensures ActorView() == SnapshotStep(old(ActorView()), snap)
      ensures sessions == snap && dirty && View() == old(View())
    {
      sessions := snap;
      MarkDirty();
    }

    // What the collector observes: no list, or an empty one, counts as not available.
    function Observed(listed: Option<set<string>>): Reaper.Tick
      reads this
    {
      if listed.None? || listed.value == {} then Reaper.Tick(sessions, {}, false)
      else Reaper.Tick(sessions, listed.value, true)
    }

    // The tick deletes the rows of dead sessions, then has the decay levels recomputed. Without a list
    // no session is declared dead, and every count starts anew.
    method OnTick(listed: Option<set<string>>, alive: set<int>)
      modifies this`dirty, this`armed, misses, db`sessions
      ensures ActorView() == TickStep(old(ActorView()))
      ensures misses.fpMiss == Reaper.MissStep(old(misses.fpMiss), old(Observed(listed)))
      ensures forall sid :: sid in db.sessions <==>
        && sid in old(db.sessions)
        && (old(db.sessions)[sid].windowId.None? || old(db.sessions)[sid].windowId.value in model.windows)
        && (old(db.sessions)[sid].terminalPid.None? || old(db.sessions)[sid].terminalPid.value in alive)
        && old(db.sessions)[sid].id !in Reaper.DeclaredBy(old(misses.fpMiss), old(Observed(listed)))
      ensures forall sid | sid in db.sessions :: db.sessions[sid] == old(db.sessions)[sid]
      ensures old(Observed(listed)).sessions == sessions && db.events == old(db.events)
      ensures if listed.None? || listed.value == {}
        then misses.fpMiss == map[] && Reaper.DeclaredBy(old(misses.fpMiss), old(Observed(listed))) == {}
        else old(Observed(listed)).available && old(Observed(listed)).listed == listed.value
    {
      var tick := Observed(listed);
      var n, declared := Reaper.Gc(misses, db, model, tick, alive);
      MarkDirty();
    }

    method OnTimer(now: int) returns (ghost want: Want, ghost clearOrder: seq<int>, ghost nameOrder: seq<int>)
      requires armed
      modifies this`managed, this`dirty, this`armed, slots, model, act
      ensures IsAggregate(sessions, old(model.windows), now, want)
      ensures Orders(old(View()), want, clearOrder, nameOrder) && Ascending(nameOrder)
      ensures ActorView() == FireStep(old(ActorView()), want, clearOrder, nameOrder, act.outcome)
    {
      dirty := false;
      armed := false;
      want, clearOrder, nameOrder := Reconcile(now);
    }

    // The sole mutator of workspace names.
    method Reconcile(now: int) returns (ghost wanted: Want, ghost clearOrder: seq<int>, ghost nameOrder: seq<int>)
      modifies this`managed, slots, model, act
      ensures IsAggregate(sessions, old(model.windows), now, wanted)
      ensures Orders(old(View()), wanted, clearOrder, nameOrder) && Ascending(nameOrder)
      ensures View() == Reconciler.Reconcile(old(View()), wanted, clearOrder, nameOrder, act.outcome)
    {
      var want := Aggregate(sessions, model, now);
      wanted := want;
      clearOrder := ClearUnwanted(want);
      ghost var cleared := View();

      var ids := SortedWorkspaceIds(want);
      for i := 0 to |ids|
        invariant View() == NameAll(cleared, want, ids[..i], act.outcome)
      {
        assert ids[..i + 1][..i] == ids[..i];
        assert ids[i] in want;
        NameWorkspace(ids[i], want[ids[i]], want);
      }
      assert ids[..|ids|] == ids;
      nameOrder := ids;
    }

    // Pass 1: drop the names of managed workspaces that are no longer wanted, in any order.
    method ClearUnwanted(want: Want) returns (ghost order: seq<int>)
      modifies this`managed, slots, model, act
      ensures Enumerates(order, old(managed).Keys)
      ensures View() == ClearAll(old(View()), want, order, act.outcome)
    {
      order := [];
      var todo := managed.Keys;
      while todo != {}
        invariant todo <= old(managed).Keys && todo <= managed.Keys
        invariant Enumerates(order, old(managed).Keys - todo)
        invariant View() == ClearAll(old(View()), want, order, act.outcome)
        decreases |todo|
      {
        var _ := Pick(todo);
        var w :| w in todo;
        TakeNext(order, old(managed).Keys, todo, w);
        ClearAllSnoc(old(View()), want, order, w, act.outcome);
        todo := todo - {w};
        ClearWorkspace(w, want);
        order := order + [w];
      }
      assert old(managed).Keys - todo == old(managed).Keys;
    }

    // Pass 1 on one workspace.
    method ClearWorkspace(w: int, want: Want)
      requires w in managed
      modifies this`managed, slots, model, act
      ensures View() == ClearOne(old(View()), want, w, act.outcome)
      ensures old(managed).Keys - {w} <= managed.Keys
    {
      if w in want {
        return;
      }
      if w !in model.workspaces {
        slots.FreeSlot(w);
        managed := managed - {w};
        return;
      }
      var ok := act.UnsetWorkspaceName(w, managed[w]);
      if !ok {
        return;
      }
      model.SetName(w, "");
      slots.FreeSlot(w);
      managed := managed - {w};
    }

    // Pass 2 on one workspace.
    method NameWorkspace(w: int, d: Desired, ghost want: Want)
      requires w in want && want[w] == d
      modifies this`managed, slots, model, act
      ensures View() == NameOne(old(View()), want, w, act.outcome)
    {
      if w !in model.workspaces {
        return;
      }
      var ws := model.workspaces[w];
      if w in managed {
        var slot := slots.SlotOf(w);
        if slot.None? {
          slot := slots.AssignSlot(w);
          if slot.None? {
            return;
          }
        }
        var name := Encode(d.status, Natural(slot.value), d.level);
        if name == managed[w] {
          return;
        }
        var ok := act.SetWorkspaceNameByName(w, managed[w], name);
        if ok {
          model.SetName(w, name);
          managed := managed[w := name];
        }
        return;
      }
      if ws.output != model.focusedOutput {
        return;
      }
      var slot := slots.AssignSlot(w);
      if slot.None? {
        return;
      }
      var name := Encode(d.status, Natural(slot.value), d.level);
      var ok := act.SetWorkspaceNameByIndex(w, ws.idx, name);
      if !ok {
        slots.FreeSlot(w);
        return;
      }
      model.SetName(w, name);
      managed := managed[w := name];
    }
  }

  lemma AnyOrder(s: set<int>) returns (order: seq<int>)
    ensures Enumerates(order, s)
  {
    if s == {} {
      order := [];
    } else {
      var x := Pick(s);
      order := AnyOrder(s - {x});
      SnocEnumerates(order, s - {x}, x);
      assert s - {x} + {x} == s;
      order := order + [x];
    }
  }
}
