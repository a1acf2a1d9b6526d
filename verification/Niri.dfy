// internal/niri/model.go and the decoded events of internal/niri/eventstream.go: the live
// window/workspace topology and its fold over compositor events.
module Niri {
  import opened Collections

  datatype Window = Window(id: int, pid: int, appId: string, title: string, workspaceId: int)

  datatype Workspace = Workspace(id: int, idx: int, name: string, output: string, isFocused: bool)

  datatype Event =
    | Unknown
    | WorkspacesChanged(workspaces: seq<Workspace>)
    | WindowsChanged(windows: seq<Window>)
    | WindowOpenedOrChanged(window: Window)
    | WindowClosed(windowId: int)
    | WorkspaceActivated(workspaceId: int, focused: bool)

  // The value of a Model object.
  datatype Topology = Topology(windows: map<int, Window>, workspaces: map<int, Workspace>, focusedOutput: string)

  // A list of records as a map by id; a repeated id keeps its last record.
  function WorkspacesById(ws: seq<Workspace>): map<int, Workspace> {
    if ws == [] then map[]
    else WorkspacesById(ws[..|ws| - 1])[ws[|ws| - 1].id := ws[|ws| - 1]]
  }

  function WindowsById(ws: seq<Window>): map<int, Window> {
    if ws == [] then map[]
    else WindowsById(ws[..|ws| - 1])[ws[|ws| - 1].id := ws[|ws| - 1]]
  }

  lemma {:induction false} WorkspacesByIdIds(ws: seq<Workspace>)
    ensures forall i | i in WorkspacesById(ws) :: WorkspacesById(ws)[i].id == i && WorkspacesById(ws)[i] in ws
    ensures forall w | w in ws :: w.id in WorkspacesById(ws)
  {
    if ws != [] {
      WorkspacesByIdIds(ws[..|ws| - 1]);
      assert ws == ws[..|ws| - 1] + [ws[|ws| - 1]];
    }
  }

  function Activate(workspaces: map<int, Workspace>, id: int): map<int, Workspace> {
    map i | i in workspaces :: workspaces[i].(isFocused := workspaces[i].id == id)
  }

  // What a scan of the workspaces in some order may leave as the focused output: the output of
  // some focused workspace, or the previous value when none is focused.
  ghost predicate FocusScan(workspaces: map<int, Workspace>, prev: string, next: string) {
    if exists i :: i in workspaces && workspaces[i].isFocused
    then exists i :: i in workspaces && workspaces[i].isFocused && workspaces[i].output == next
    else next == prev
  }

  // Whether folding the event reports that desired names may have changed.
  predicate Reports(t: Topology, ev: Event) {
    match ev
    case Unknown => false
    case WindowClosed(id) => id in t.windows
    case _ => true
  }

  // t' is a possible result of folding ev into t. The focused output is the only part that
  // depends on the iteration order of the workspaces map.
  ghost predicate Folds(t: Topology, ev: Event, t': Topology) {
    match ev
    case Unknown => t' == t
    case WorkspacesChanged(ws) =>
      && t'.windows == t.windows
      && t'.workspaces == WorkspacesById(ws)
      && FocusScan(t'.workspaces, t.focusedOutput, t'.focusedOutput)
    case WindowsChanged(ws) => t' == t.(windows := WindowsById(ws))
    case WindowOpenedOrChanged(w) => t' == t.(windows := t.windows[w.id := w])
    case WindowClosed(id) => t' == t.(windows := t.windows - {id})
    case WorkspaceActivated(id, focused) =>
      if !focused then t' == t
      else
        && t'.windows == t.windows
        && t'.workspaces == Activate(t.workspaces, id)
        && FocusScan(t'.workspaces, t.focusedOutput, t'.focusedOutput)
  }

  // An event that is reported as a no-op leaves the topology as it was, so skipping the
  // reconcile for it loses nothing.
  lemma UnreportedIsNoOp(t: Topology, ev: Event, t': Topology)
    requires Folds(t, ev, t') && !Reports(t, ev)
    ensures t' == t
  {
    if ev.WindowClosed? {
      assert t.windows - {ev.windowId} == t.windows;
    }
  }

  function WithName(t: Topology, id: int, name: string): Topology {
    if id in t.workspaces then t.(workspaces := t.workspaces[id := t.workspaces[id].(name := name)]) else t
  }

  class Model {
    var windows: map<int, Window>
    var workspaces: map<int, Workspace>
    var focusedOutput: string

    ghost function View(): Topology
      reads this
    {
      Topology(windows, workspaces, focusedOutput)
    }

    constructor ()
      ensures View() == Topology(map[], map[], "")
    {
      windows, workspaces, focusedOutput := map[], map[], "";
    }

    method ApplyEvent(ev: Event) returns (changed: bool)
      modifies this
      ensures Folds(old(View()), ev, View())
      ensures changed == Reports(old(View()), ev)
    {
      changed := true;
      match ev
      case WorkspacesChanged(list) =>
        var next: map<int, Workspace> := map[];
        for i := 0 to |list|
          invariant unchanged(this)
          invariant next == WorkspacesById(list[..i])
        {
          assert list[..i + 1][..i] == list[..i];
          next := next[list[i].id := list[i]];
        }
        assert list[..|list|] == list;
        workspaces := next;
        RefreshFocusedOutput();
      case WindowsChanged(list) =>
        var next: map<int, Window> := map[];
        for i := 0 to |list|
          invariant unchanged(this)
          invariant next == WindowsById(list[..i])
        {
          assert list[..i + 1][..i] == list[..i];
          next := next[list[i].id := list[i]];
        }
        assert list[..|list|] == list;
        windows := next;
      case WindowOpenedOrChanged(w) =>
        windows := windows[w.id := w];
      case WindowClosed(id) =>
        if id !in windows {
          UnreportedWindowClosed(windows, id);
          return false;
        }
        windows := windows - {id};
      case WorkspaceActivated(id, focused) =>
        if focused {
          MarkFocused(id);
          RefreshFocusedOutput();
        }
      case Unknown =>
        changed := false;
    }

    // The loop of ApplyEvent over the workspaces map, in any order.
    method MarkFocused(id: int)
      modifies this`workspaces
      ensures workspaces == Activate(old(workspaces), id)
    {
      var todo := workspaces.Keys;
      while todo != {}
        invariant todo <= workspaces.Keys == old(workspaces).Keys
        invariant forall i | i in workspaces ::
          workspaces[i] == if i in todo then old(workspaces)[i] else Activate(old(workspaces), id)[i]
        decreases |todo|
      {
        var _ := Pick(todo);
        var i :| i in todo;
        todo := todo - {i};
        workspaces := workspaces[i := workspaces[i].(isFocused := workspaces[i].id == id)];
      }
      assert workspaces.Keys == Activate(old(workspaces), id).Keys;
      assert forall i | i in workspaces :: i !in todo && workspaces[i] == Activate(old(workspaces), id)[i];
    }

    method RefreshFocusedOutput()
      modifies this`focusedOutput
      ensures FocusScan(workspaces, old(focusedOutput), focusedOutput)
    {
      var todo := workspaces.Keys;
      while todo != {}
        invariant todo <= workspaces.Keys
        invariant focusedOutput == old(focusedOutput)
        invariant forall i | i in workspaces && workspaces[i].isFocused :: i in todo
        decreases |todo|
      {
        var _ := Pick(todo);
        var i :| i in todo;
        if workspaces[i].isFocused {
          focusedOutput := workspaces[i].output;
          return;
        }
        todo := todo - {i};
      }
    }

    // Records the name the daemon assigned, without waiting for the compositor's echo.
    method SetName(id: int, name: string)
      modifies this`workspaces
      ensures View() == WithName(old(View()), id, name)
    {
      if id in workspaces {
        workspaces := workspaces[id := workspaces[id].(name := name)];
      }
    }
  }

  lemma UnreportedWindowClosed(windows: map<int, Window>, id: int)
    requires id !in windows
    ensures windows - {id} == windows
  {
  }
}
