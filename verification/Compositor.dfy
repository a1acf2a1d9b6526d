// The compositor the daemon talks to: its workspaces, the two ways an action can refer to one
// (internal/niri/model.go, reference semantics), and the effect of a list of actions.
module Compositor {

  datatype Space = Space(idx: int, output: string, name: string)

  datatype Comp = Comp(spaces: map<int, Space>, focusedOutput: string)

  datatype Call =
    | ByIndex(idx: int, name: string)      // set-workspace-name --workspace <idx> <name>
    | ByName(current: string, name: string)   // set-workspace-name --workspace <old> <name>
    | Unset(current: string)                  // unset-workspace-name <name>

  // One action the reconciler sent: the workspace it meant, the action, and whether it succeeded.
  datatype Sent = Sent(ws: int, call: Call, ok: bool)

  // The workspaces a reference denotes: an index counts on the focused output only, a name on any.
  predicate Denotes(c: Comp, call: Call, id: int) {
    id in c.spaces &&
    match call
    case ByIndex(idx, _) => c.spaces[id].output == c.focusedOutput && c.spaces[id].idx == idx
    case ByName(current, _) => current != "" && c.spaces[id].name == current
    case Unset(current) => current != "" && c.spaces[id].name == current
  }

  ghost predicate DenotesOnly(c: Comp, call: Call, id: int) {
    Denotes(c, call, id) && forall v | Denotes(c, call, v) :: v == id
  }

  function NewName(call: Call): string {
    if call.Unset? then "" else call.name
  }

  function Renamed(c: Comp, id: int, name: string): Comp
    requires id in c.spaces
  {
    c.(spaces := c.spaces[id := c.spaces[id].(name := name)])
  }

  // A failed action has no effect; a successful one renames a workspace the reference denotes.
  // Which one an ambiguous reference picks is left open.
  ghost function Perform(c: Comp, sent: Sent): Comp {
    if sent.ok && exists id :: Denotes(c, sent.call, id)
    then
      var id :| Denotes(c, sent.call, id);
      Renamed(c, id, NewName(sent.call))
    else c
  }

  ghost function PerformAll(c: Comp, log: seq<Sent>): Comp {
    if log == [] then c else Perform(PerformAll(c, log[..|log| - 1]), log[|log| - 1])
  }

  // Every action of the log refers, at the moment it is sent, to the workspace it means and to
  // no other.
  ghost predicate AllHit(c: Comp, log: seq<Sent>) {
    log == [] ||
    (AllHit(c, log[..|log| - 1]) &&
     DenotesOnly(PerformAll(c, log[..|log| - 1]), log[|log| - 1].call, log[|log| - 1].ws))
  }

  lemma PerformSnoc(c: Comp, log: seq<Sent>, sent: Sent)
    ensures PerformAll(c, log + [sent]) == Perform(PerformAll(c, log), sent)
    ensures AllHit(c, log + [sent]) <==> AllHit(c, log) && DenotesOnly(PerformAll(c, log), sent.call, sent.ws)
  {
    assert (log + [sent])[..|log|] == log;
  }

  lemma {:induction false} PerformConcat(c: Comp, a: seq<Sent>, b: seq<Sent>)
    ensures PerformAll(c, a + b) == PerformAll(PerformAll(c, a), b)
    ensures AllHit(c, a + b) <==> AllHit(c, a) && AllHit(PerformAll(c, a), b)
  {
    if b == [] {
      assert a + b == a;
    } else {
      var b', x := b[..|b| - 1], b[|b| - 1];
      assert a + b == (a + b') + [x];
      assert b == b' + [x];
      PerformConcat(c, a, b');
      PerformSnoc(c, a + b', x);
    }
  }

  // An action that hits only its workspace renames that workspace, or nothing when it fails.
  lemma PerformHit(c: Comp, sent: Sent)
    requires DenotesOnly(c, sent.call, sent.ws)
    ensures Perform(c, sent) == if sent.ok then Renamed(c, sent.ws, NewName(sent.call)) else c
  {
  }
}
