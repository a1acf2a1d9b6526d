// What the model of the compositor holds after any list of events and recorded names, told from the
// list alone: which windows and workspaces there are, and where each field comes from
// (internal/niri/model.go).
module NiriHistory {
  import opened Collections
  import opened Niri

  // An event folded into the model, or a name the daemon recorded after an action of its own.
  datatype Change =
    | Folded(ev: Event)
    | Named(id: int, name: string)

  ghost predicate Changes(t: Topology, c: Change, t': Topology) {
    match c
    case Folded(ev) => Folds(t, ev, t')
    case Named(id, name) => t' == WithName(t, id, name)
  }

  // The topologies before, between and after the changes, from an empty model on.
  ghost predicate History(cs: seq<Change>, ts: seq<Topology>) {
    && |ts| == |cs| + 1 && ts[0] == Topology(map[], map[], "")
    && forall i | 0 <= i < |cs| :: Changes(ts[i], cs[i], ts[i + 1])
  }

  lemma HistoryInit(cs: seq<Change>, ts: seq<Topology>)
    requires History(cs, ts) && cs != []
    ensures var n := |cs| - 1;
      History(cs[..n], ts[..n + 1]) && Changes(ts[n], cs[n], ts[n + 1]) && cs == cs[..n] + [cs[n]]
  {
  }

  // ---- lists of records -------------------------------------------------------------------

  function WindowId(id: int): Window -> bool {
    (w: Window) => w.id == id
  }

  function WorkspaceId(id: int): Workspace -> bool {
    (w: Workspace) => w.id == id
  }

  // The last record of the id in the list is w.
  ghost predicate ListsWindow(list: seq<Window>, id: int, w: Window) {
    LastMeets(list, WindowId(id), (x: Window) => x == w)
  }

  ghost predicate ListsWorkspace(list: seq<Workspace>, id: int, w: Workspace) {
    LastMeets(list, WorkspaceId(id), (x: Workspace) => x == w)
  }

  // A list becomes the map of its last records.
  lemma {:induction false} WindowsByIdMeaning(list: seq<Window>, id: int, w: Window)
    ensures id in WindowsById(list) && WindowsById(list)[id] == w <==> ListsWindow(list, id, w)
  {
    if list != [] {
      var init, last := list[..|list| - 1], list[|list| - 1];
      assert list == init + [last];
      WindowsByIdMeaning(init, id, w);
      LastMeetsSnoc(init, last, WindowId(id), (x: Window) => x == w);
    }
  }

  lemma {:induction false} WorkspacesByIdMeaning(list: seq<Workspace>, id: int, w: Workspace)
    ensures id in WorkspacesById(list) && WorkspacesById(list)[id] == w <==> ListsWorkspace(list, id, w)
  {
    if list != [] {
      var init, last := list[..|list| - 1], list[|list| - 1];
      assert list == init + [last];
      WorkspacesByIdMeaning(init, id, w);
      LastMeetsSnoc(init, last, WorkspaceId(id), (x: Workspace) => x == w);
    }
  }

  // ---- windows ------------------------------------------------------------------------------

  // The change says whether there is a window of this id: a window list, an opening or a closing.
  function AboutWindow(id: int): Change -> bool {
    (c: Change) =>
      c.Folded? &&
      match c.ev
      case WindowsChanged(_) => true
      case WindowOpenedOrChanged(w) => w.id == id
      case WindowClosed(k) => k == id
      case _ => false
  }

  ghost function ShowsWindow(id: int, w: Window): Change -> bool {
    (c: Change) =>
      c.Folded? &&
      match c.ev
      case WindowsChanged(list) => ListsWindow(list, id, w)
      case WindowOpenedOrChanged(x) => x == w && w.id == id
      case _ => false
  }

  ghost predicate LastShowsWindow(cs: seq<Change>, id: int, w: Window) {
    LastMeets(cs, AboutWindow(id), ShowsWindow(id, w))
  }

  // The model holds window w under id exactly if the last change about id shows it.
  ghost predicate WindowSays(cs: seq<Change>, t: Topology, id: int, w: Window) {
    id in t.windows && t.windows[id] == w <==> LastShowsWindow(cs, id, w)
  }

  lemma WindowStep(cs: seq<Change>, t: Topology, c: Change, t': Topology, id: int, w: Window)
    requires Changes(t, c, t') && WindowSays(cs, t, id, w)
    ensures WindowSays(cs + [c], t', id, w)
  {
    LastMeetsSnoc(cs, c, AboutWindow(id), ShowsWindow(id, w));
    if c.Folded? && c.ev.WindowsChanged? {
      WindowsByIdMeaning(c.ev.windows, id, w);
    }
  }

  // A window is in the model exactly when the last window list, opening or closing about its id
  // shows it, with the record that event gave.
  lemma {:induction false} WindowMeaning(cs: seq<Change>, ts: seq<Topology>, id: int, w: Window)
    requires History(cs, ts)
    ensures id in ts[|cs|].windows && ts[|cs|].windows[id] == w <==> LastShowsWindow(cs, id, w)
    decreases |cs|
  {
    if cs != [] {
      var n := |cs| - 1;
      HistoryInit(cs, ts);
      WindowMeaning(cs[..n], ts[..n + 1], id, w);
      WindowStep(cs[..n], ts[n], cs[n], ts[n + 1], id, w);
    }
  }

  // ---- workspaces ----------------------------------------------------------------------------

  function IsList(): Change -> bool {
    (c: Change) => c.Folded? && c.ev.WorkspacesChanged?
  }

  ghost function ShowsSpace(id: int, idx: int, output: string): Change -> bool {
    (c: Change) =>
      && c.Folded? && c.ev.WorkspacesChanged?
      && exists w :: ListsWorkspace(c.ev.workspaces, id, w) && w.idx == idx && w.output == output
  }

  // The last workspace list shows id at this index of this output.
  ghost predicate LastShowsSpace(cs: seq<Change>, id: int, idx: int, output: string) {
    LastMeets(cs, IsList(), ShowsSpace(id, idx, output))
  }

  ghost predicate Holds(t: Topology, id: int, idx: int, output: string) {
    id in t.workspaces && t.workspaces[id].idx == idx && t.workspaces[id].output == output
  }

  ghost predicate SpaceSays(cs: seq<Change>, t: Topology, id: int, idx: int, output: string) {
    && (Holds(t, id, idx, output) <==> LastShowsSpace(cs, id, idx, output))
    && (id in t.workspaces ==> t.workspaces[id].id == id)
  }

  lemma ListedSpace(list: seq<Workspace>, id: int, idx: int, output: string)
    ensures var all := WorkspacesById(list);
      id in all && all[id].idx == idx && all[id].output == output <==>
      exists w :: ListsWorkspace(list, id, w) && w.idx == idx && w.output == output
    ensures id in WorkspacesById(list) ==> WorkspacesById(list)[id].id == id
  {
    WorkspacesByIdIds(list);
    forall w
      ensures id in WorkspacesById(list) && WorkspacesById(list)[id] == w <==> ListsWorkspace(list, id, w)
    {
      WorkspacesByIdMeaning(list, id, w);
    }
  }

  lemma SpaceStep(cs: seq<Change>, t: Topology, c: Change, t': Topology, id: int, idx: int, output: string)
    requires Changes(t, c, t') && SpaceSays(cs, t, id, idx, output)
    ensures SpaceSays(cs + [c], t', id, idx, output)
  {
    LastMeetsSnoc(cs, c, IsList(), ShowsSpace(id, idx, output));
    if IsList()(c) {
      ListedSpace(c.ev.workspaces, id, idx, output);
    }
  }

  // The workspaces are those of the last workspace list, each at the index and on the output shown
  // there.
  lemma {:induction false} SpaceMeaning(cs: seq<Change>, ts: seq<Topology>, id: int, idx: int, output: string)
    requires History(cs, ts)
    ensures Holds(ts[|cs|], id, idx, output) <==> LastShowsSpace(cs, id, idx, output)
    ensures id in ts[|cs|].workspaces ==> ts[|cs|].workspaces[id].id == id
    decreases |cs|
  {
    if cs != [] {
      var n := |cs| - 1;
      HistoryInit(cs, ts);
      SpaceMeaning(cs[..n], ts[..n + 1], id, idx, output);
      SpaceStep(cs[..n], ts[n], cs[n], ts[n + 1], id, idx, output);
    }
  }

  // ---- focus ---------------------------------------------------------------------------------

  function MovesFocus(): Change -> bool {
    (c: Change) => c.Folded? && (c.ev.WorkspacesChanged? || (c.ev.WorkspaceActivated? && c.ev.focused))
  }

  ghost function GivesFocus(id: int): Change -> bool {
    (c: Change) =>
      c.Folded? &&
      match c.ev
      case WorkspacesChanged(list) => exists w :: ListsWorkspace(list, id, w) && w.isFocused
      case WorkspaceActivated(k, _) => k == id
      case _ => false
  }

  ghost predicate LastGivesFocus(cs: seq<Change>, id: int) {
    LastMeets(cs, MovesFocus(), GivesFocus(id))
  }

  ghost predicate FocusSays(cs: seq<Change>, t: Topology, id: int) {
    id in t.workspaces ==>
      t.workspaces[id].id == id && (t.workspaces[id].isFocused <==> LastGivesFocus(cs, id))
  }

  lemma ListedFocus(list: seq<Workspace>, id: int)
    requires id in WorkspacesById(list)
    ensures WorkspacesById(list)[id].isFocused <==> exists w :: ListsWorkspace(list, id, w) && w.isFocused
    ensures WorkspacesById(list)[id].id == id
  {
    WorkspacesByIdIds(list);
    forall w
      ensures WorkspacesById(list)[id] == w <==> ListsWorkspace(list, id, w)
    {
      WorkspacesByIdMeaning(list, id, w);
    }
  }

  lemma FocusStep(cs: seq<Change>, t: Topology, c: Change, t': Topology, id: int)
    requires Changes(t, c, t') && FocusSays(cs, t, id)
    ensures FocusSays(cs + [c], t', id)
  {
    LastMeetsSnoc(cs, c, MovesFocus(), GivesFocus(id));
    if IsList()(c) && id in t'.workspaces {
      ListedFocus(c.ev.workspaces, id);
    }
  }

  lemma {:induction false} FocusSaysAt(cs: seq<Change>, ts: seq<Topology>, id: int)
    requires History(cs, ts)
    ensures FocusSays(cs, ts[|cs|], id)
    decreases |cs|
  {
    if cs != [] {
      var n := |cs| - 1;
      HistoryInit(cs, ts);
      FocusSaysAt(cs[..n], ts[..n + 1], id);
      FocusStep(cs[..n], ts[n], cs[n], ts[n + 1], id);
    }
  }

  // A workspace is focused exactly when the last workspace list or focused activation says so.
  lemma FocusMeaning(cs: seq<Change>, ts: seq<Topology>, id: int)
    requires History(cs, ts) && id in ts[|cs|].workspaces
    ensures ts[|cs|].workspaces[id].isFocused <==> LastGivesFocus(cs, id)
  {
    FocusSaysAt(cs, ts, id);
  }

  ghost predicate SomeFocus(t: Topology) {
    exists i :: i in t.workspaces && t.workspaces[i].isFocused
  }

  // The focused output is that of some focused workspace, if there is one.
  ghost predicate OutputOfFocus(t: Topology) {
    SomeFocus(t) ==> exists i ::
      i in t.workspaces && t.workspaces[i].isFocused && t.workspaces[i].output == t.focusedOutput
  }

  lemma FocusedOutputStep(t: Topology, c: Change, t': Topology)
    requires Changes(t, c, t') && OutputOfFocus(t)
    ensures OutputOfFocus(t') && (!SomeFocus(t') ==> t'.focusedOutput == t.focusedOutput)
  {
    if !MovesFocus()(c) {
      assert forall i :: i in t'.workspaces <==> i in t.workspaces;
      assert forall i | i in t.workspaces ::
        t'.workspaces[i].isFocused == t.workspaces[i].isFocused && t'.workspaces[i].output == t.workspaces[i].output;
    }
  }

  // The focused output is that of a focused workspace, and stays what it was while none is focused.
  lemma {:induction false} FocusedOutputMeaning(cs: seq<Change>, ts: seq<Topology>)
    requires History(cs, ts)
    ensures OutputOfFocus(ts[|cs|])
    ensures cs != [] && !SomeFocus(ts[|cs|]) ==> ts[|cs|].focusedOutput == ts[|cs| - 1].focusedOutput
    decreases |cs|
  {
    if cs != [] {
      var n := |cs| - 1;
      HistoryInit(cs, ts);
      FocusedOutputMeaning(cs[..n], ts[..n + 1]);
      FocusedOutputStep(ts[n], cs[n], ts[n + 1]);
    }
  }

  // ---- names ---------------------------------------------------------------------------------

  function AboutName(id: int): Change -> bool {
    (c: Change) => if c.Named? then c.id == id else c.ev.WorkspacesChanged?
  }

  ghost function GivesName(id: int, name: string): Change -> bool {
    (c: Change) =>
      match c
      case Named(_, n) => n == name
      case Folded(ev) => ev.WorkspacesChanged? && exists w :: ListsWorkspace(ev.workspaces, id, w) && w.name == name
  }

  ghost predicate LastGivesName(cs: seq<Change>, id: int, name: string) {
    LastMeets(cs, AboutName(id), GivesName(id, name))
  }

  ghost predicate NameSays(cs: seq<Change>, t: Topology, id: int, name: string) {
    id in t.workspaces ==> (t.workspaces[id].name == name <==> LastGivesName(cs, id, name))
  }

  lemma ListedName(list: seq<Workspace>, id: int, name: string)
    requires id in WorkspacesById(list)
    ensures WorkspacesById(list)[id].name == name <==> exists w :: ListsWorkspace(list, id, w) && w.name == name
  {
    forall w
      ensures WorkspacesById(list)[id] == w <==> ListsWorkspace(list, id, w)
    {
      WorkspacesByIdMeaning(list, id, w);
    }
  }

  lemma NameStep(cs: seq<Change>, t: Topology, c: Change, t': Topology, id: int, name: string)
    requires Changes(t, c, t') && NameSays(cs, t, id, name)
    ensures NameSays(cs + [c], t', id, name)
  {
    LastMeetsSnoc(cs, c, AboutName(id), GivesName(id, name));
    if IsList()(c) && id in t'.workspaces {
      ListedName(c.ev.workspaces, id, name);
    }
  }

  lemma {:induction false} NameSaysAt(cs: seq<Change>, ts: seq<Topology>, id: int, name: string)
    requires History(cs, ts)
    ensures NameSays(cs, ts[|cs|], id, name)
    decreases |cs|
  {
    if cs != [] {
      var n := |cs| - 1;
      HistoryInit(cs, ts);
      NameSaysAt(cs[..n], ts[..n + 1], id, name);
      NameStep(cs[..n], ts[n], cs[n], ts[n + 1], id, name);
    }
  }

  // A workspace bears the name the daemon recorded last, if no workspace list came since, and else
  // the one that list shows.
  lemma NameMeaning(cs: seq<Change>, ts: seq<Topology>, id: int, name: string)
    requires History(cs, ts) && id in ts[|cs|].workspaces
    ensures ts[|cs|].workspaces[id].name == name <==> LastGivesName(cs, id, name)
  {
    NameSaysAt(cs, ts, id, name);
  }
}
