// internal/daemon/daemon.go, reconcile: the two passes as functions on the daemon's state, and
// what they do to the compositor.
module Reconciler {
  import opened Grammar
  import opened SlotTable
  import opened Aggregation
  import opened Compositor
  import Niri

  // The part of the daemon's state the reconciler reads and writes. The log holds every action
  // sent so far.
  datatype State = State(
    managed: map<int, string>,
    slots: Slots,
    model: Niri.Topology,
    log: seq<Sent>)

  type Want = map<int, Desired>

  // The outcome of the k-th action ever sent; any action may fail.
  type Outcomes = nat -> bool

  function SendNext(s: State, w: int, call: Call, ok: Outcomes): Sent {
    Sent(w, call, ok(|s.log|))
  }

  // Pass 1 on one managed workspace: drop it when it is no longer wanted.
  function ClearOne(s: State, want: Want, w: int, ok: Outcomes): State
    requires w in s.managed
  {
    if w in want then s
    else if w !in s.model.workspaces then
      s.(slots := Free(s.slots, w), managed := s.managed - {w})
    else
      var sent := SendNext(s, w, Unset(s.managed[w]), ok);
      if !sent.ok then s.(log := s.log + [sent])
      else
        State(s.managed - {w}, Free(s.slots, w), Niri.WithName(s.model, w, ""), s.log + [sent])
  }

  // Pass 2 on one wanted workspace: rename it by name, or bootstrap it by index.
  function NameOne(s: State, want: Want, w: int, ok: Outcomes): State
    requires w in want
  {
    if w !in s.model.workspaces then s
    else
      var d := want[w];
      if w in s.managed then
        match Assigned(s.slots, w)
        case None => s
        case Some(slot) =>
          var s := s.(slots := Assign(s.slots, w));
          var name := Encode(d.status, Natural(slot), d.level);
          if name == s.managed[w] then s
          else
            var sent := SendNext(s, w, ByName(s.managed[w], name), ok);
            if !sent.ok then s.(log := s.log + [sent]) else Record(s, w, name, sent)
      else if s.model.workspaces[w].output != s.model.focusedOutput then s
      else
        match Assigned(s.slots, w)
        case None => s
        case Some(slot) =>
          var s := s.(slots := Assign(s.slots, w));
          var name := Encode(d.status, Natural(slot), d.level);
          var sent := SendNext(s, w, ByIndex(s.model.workspaces[w].idx, name), ok);
          if !sent.ok then s.(slots := Free(s.slots, w), log := s.log + [sent])
          else Record(s, w, name, sent)
  }

  function Record(s: State, w: int, name: string, sent: Sent): State {
    s.(managed := s.managed[w := name], model := Niri.WithName(s.model, w, name), log := s.log + [sent])
  }

  // Slots are positive wherever they come from the allocator.
  function Natural(slot: int): nat {
    if slot < 0 then 0 else slot
  }

  function ClearAll(s: State, want: Want, order: seq<int>, ok: Outcomes): State {
    if order == [] then s
    else
      var s := ClearAll(s, want, order[..|order| - 1], ok);
      var w := order[|order| - 1];
      if w in s.managed then ClearOne(s, want, w, ok) else s
  }

  lemma ClearAllSnoc(s: State, want: Want, order: seq<int>, w: int, ok: Outcomes)
    ensures ClearAll(s, want, order + [w], ok) ==
      var t := ClearAll(s, want, order, ok); if w in t.managed then ClearOne(t, want, w, ok) else t
  {
    assert (order + [w])[..|order|] == order;
  }

  function NameAll(s: State, want: Want, order: seq<int>, ok: Outcomes): State {
    if order == [] then s
    else
      var s := NameAll(s, want, order[..|order| - 1], ok);
      var w := order[|order| - 1];
      if w in want then NameOne(s, want, w, ok) else s
  }

  // The whole reconcile: clear in the iteration order of the managed map, then name in the given
  // order of the wanted workspaces (the code takes them ascending).
  function Reconcile(s: State, want: Want, clearOrder: seq<int>, nameOrder: seq<int>, ok: Outcomes): State {
    NameAll(ClearAll(s, want, clearOrder, ok), want, nameOrder, ok)
  }

  // The actions s' sent since s.
  function Since(s: State, s': State): seq<Sent>
    requires s.log <= s'.log
  {
    s'.log[|s.log|..]
  }

  predicate FaultFree(log: seq<Sent>) {
    forall i | 0 <= i < |log| :: log[i].ok
  }
}
