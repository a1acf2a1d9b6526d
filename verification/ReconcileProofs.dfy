// What one reconcile does: bookkeeping it keeps, what happens to each workspace, refinement of
// the compositor, and idempotence.
module ReconcileProofs {
  import opened Collections
  import opened Grammar
  import opened SlotTable
  import opened Compositor
  import opened Reconciler
  import Niri

  // ---- bookkeeping ----------------------------------------------------------

  // Kept in every state, whatever was adopted and whichever actions failed.
  ghost predicate Weak(s: State) {
    Consistent(s.slots) && s.slots.byWs.Keys <= s.managed.Keys
  }

  // The two states agree about workspace v.
  ghost predicate SameAt(s: State, s': State, v: int) {
    && (v in s.managed <==> v in s'.managed)
    && (v in s.managed ==> s'.managed[v] == s.managed[v])
    && (v in s.slots.byWs <==> v in s'.slots.byWs)
    && (v in s.slots.byWs ==> s'.slots.byWs[v] == s.slots.byWs[v])
    && (v in s.model.workspaces <==> v in s'.model.workspaces)
    && (v in s.model.workspaces ==> s'.model.workspaces[v] == s.model.workspaces[v])
  }

  // Names aside, the topology the daemon sees is not changed by reconciling.
  ghost predicate SameTopology(m: Niri.Topology, m': Niri.Topology) {
    && m.windows == m'.windows && m.focusedOutput == m'.focusedOutput
    && m.workspaces.Keys == m'.workspaces.Keys
    && forall v | v in m.workspaces :: m'.workspaces[v] == m.workspaces[v].(name := m'.workspaces[v].name)
  }

  // A step that touches at most workspace w and sends at most one action, about w.
  ghost predicate Local(s: State, s': State, w: int) {
    && (forall v | v != w :: SameAt(s, s', v))
    && SameTopology(s.model, s'.model)
    && s.log <= s'.log && |s'.log| <= |s.log| + 1
    && (forall i | |s.log| <= i < |s'.log| :: s'.log[i].ws == w)
  }

  lemma FreeAt(s: Slots, w: int)
    ensures forall v | v != w :: v in Free(s, w).byWs <==> v in s.byWs
    ensures forall v | v != w && v in s.byWs :: Free(s, w).byWs[v] == s.byWs[v]
    ensures w !in Free(s, w).byWs
  {
  }

  lemma AssignAt(s: Slots, w: int)
    ensures forall v | v != w :: v in Assign(s, w).byWs <==> v in s.byWs
    ensures forall v | v != w && v in s.byWs :: Assign(s, w).byWs[v] == s.byWs[v]
    ensures Assigned(s, w).Some? ==> w in Assign(s, w).byWs && Assign(s, w).byWs[w] == Assigned(s, w).value
  {
  }

  lemma ClearOneLocal(s: State, want: Want, w: int, ok: Outcomes)
    requires w in s.managed
    ensures Local(s, ClearOne(s, want, w, ok), w)
  {
    forall v | v != w
      ensures SameAt(s, ClearOne(s, want, w, ok), v)
    {
      ClearOneElsewhere(s, want, w, ok, v);
    }
  }

  lemma ClearOneElsewhere(s: State, want: Want, w: int, ok: Outcomes, v: int)
    requires w in s.managed && v != w
    ensures SameAt(s, ClearOne(s, want, w, ok), v)
  {
    FreeAt(s.slots, w);
  }

  lemma NameOneLocal(s: State, want: Want, w: int, ok: Outcomes)
    requires w in want
    ensures Local(s, NameOne(s, want, w, ok), w)
  {
    forall v | v != w
      ensures SameAt(s, NameOne(s, want, w, ok), v)
    {
      NameOneElsewhere(s, want, w, ok, v);
    }
  }

  lemma NameOneElsewhere(s: State, want: Want, w: int, ok: Outcomes, v: int)
    requires w in want && v != w
    ensures SameAt(s, NameOne(s, want, w, ok), v)
  {
    AssignAt(s.slots, w);
    FreeAt(Assign(s.slots, w), w);
  }

  lemma ClearOneWeak(s: State, want: Want, w: int, ok: Outcomes)
    requires w in s.managed && Weak(s)
    ensures Weak(ClearOne(s, want, w, ok))
  {
    FreeConsistent(s.slots, w);
  }

  // Pass 2 keeps every slot holder, so a full table stays full.
  lemma NameOneWeak(s: State, want: Want, w: int, ok: Outcomes)
    requires w in want && Weak(s)
    ensures Weak(NameOne(s, want, w, ok))
    ensures s.slots.byWs.Keys <= NameOne(s, want, w, ok).slots.byWs.Keys
  {
    AssignConsistent(s.slots, w);
    AssignAt(s.slots, w);
    if w !in s.managed {
      FreeUndoesAssign(s.slots, w);
    }
  }

  // ---- the fate of each workspace -------------------------------------------

  ghost predicate FailedFor(log: seq<Sent>, w: int) {
    exists i :: 0 <= i < |log| && log[i].ws == w && !log[i].ok
  }

  lemma FailedForConcat(a: seq<Sent>, b: seq<Sent>, w: int)
    ensures FailedFor(a + b, w) <==> FailedFor(a, w) || FailedFor(b, w)
  {
    if FailedFor(a, w) {
      var i :| 0 <= i < |a| && a[i].ws == w && !a[i].ok;
      assert (a + b)[i] == a[i];
    }
    if FailedFor(b, w) {
      var i :| 0 <= i < |b| && b[i].ws == w && !b[i].ok;
      assert (a + b)[|a| + i] == b[i];
    }
  }

  lemma SinceConcat(s: State, s': State, s'': State)
    requires s.log <= s'.log <= s''.log
    ensures s.log <= s''.log
    ensures Since(s, s'') == Since(s, s') + Since(s', s'')
  {
  }

  // Pass 1 on a managed workspace v.
  ghost predicate ClearFate(s: State, s': State, want: Want, v: int)
    requires s.log <= s'.log
  {
    if v in want then SameAt(s, s', v) && !FailedFor(Since(s, s'), v)
    else if FailedFor(Since(s, s'), v) then SameAt(s, s', v)
    else
      && v !in s'.managed && v !in s'.slots.byWs
      && (v in s.model.workspaces <==> v in s'.model.workspaces)
      && (v in s.model.workspaces ==> s'.model.workspaces[v] == s.model.workspaces[v].(name := ""))
  }

  // Which wanted workspaces pass 2 can reach: by name wherever they are, by index only on the
  // focused output.
  ghost predicate Reachable(s: State, v: int) {
    v in s.model.workspaces &&
    (v in s.managed || s.model.workspaces[v].output == s.model.focusedOutput)
  }

  // Pass 2 on a wanted workspace v.
  ghost predicate NameFate(s: State, s': State, want: Want, v: int)
    requires s.log <= s'.log && v in want
  {
    if !Reachable(s, v) then SameAt(s, s', v)
    else if FailedFor(Since(s, s'), v) then
      && (v in s.managed <==> v in s'.managed)
      && (v in s.managed ==> s'.managed[v] == s.managed[v])
      && (v in s.slots.byWs || v !in s.managed ==> SameAt(s, s', v))
    else if v in s'.slots.byWs then
      && v in s'.managed && v in s'.model.workspaces
      && s'.managed[v] == Encode(want[v].status, Natural(s'.slots.byWs[v]), want[v].level)
      && (if v in s.managed && s'.managed[v] == s.managed[v]
          then s'.model.workspaces[v] == s.model.workspaces[v]
          else s'.model.workspaces[v].name == s'.managed[v])
      && (v in s.slots.byWs ==> s'.slots.byWs[v] == s.slots.byWs[v])
    else SameAt(s, s', v) && |s'.slots.byWs.Keys| == MAX_SLOTS
  }

  lemma ClearOneFate(s: State, want: Want, w: int, ok: Outcomes)
    requires w in s.managed
    ensures s.log <= ClearOne(s, want, w, ok).log
    ensures ClearFate(s, ClearOne(s, want, w, ok), want, w)
  {
    var s' := ClearOne(s, want, w, ok);
    FreeAt(s.slots, w);
    if s'.log != s.log {
      assert Since(s, s') == [s'.log[|s.log|]];
    } else {
      assert Since(s, s') == [];
    }
  }

  lemma NameOneFate(s: State, want: Want, w: int, ok: Outcomes)
    requires w in want && Weak(s)
    ensures s.log <= NameOne(s, want, w, ok).log
    ensures NameFate(s, NameOne(s, want, w, ok), want, w)
  {
    var s' := NameOne(s, want, w, ok);
    AssignAt(s.slots, w);
    AssignFailsWhenFull(s.slots, w);
    if w !in s.managed {
      FreeUndoesAssign(s.slots, w);
    }
    if s'.log != s.log {
      assert Since(s, s') == [s'.log[|s.log|]];
    } else {
      assert Since(s, s') == [];
    }
  }

  // ---- whole passes ----------------------------------------------------------

  // A pass touches at most the workspaces of its order, and every action it sends is about one
  // of them.
  ghost predicate Within(s: State, s': State, order: seq<int>) {
    && (forall v | v !in order :: SameAt(s, s', v))
    && SameTopology(s.model, s'.model)
    && s.log <= s'.log
    && (forall i | |s.log| <= i < |s'.log| :: s'.log[i].ws in order)
  }

  lemma WithinSnoc(s: State, s1: State, s2: State, order: seq<int>, w: int)
    requires Within(s, s1, order) && Local(s1, s2, w)
    ensures Within(s, s2, order + [w])
  {
    forall v | v !in order + [w]
      ensures SameAt(s, s2, v)
    {
      assert SameAt(s, s1, v) && SameAt(s1, s2, v);
    }
    forall i | |s.log| <= i < |s2.log|
      ensures s2.log[i].ws in order + [w]
    {
      if i < |s1.log| {
        assert s2.log[i] == s1.log[i];
      }
    }
  }

  lemma LocalIsWithin(s: State, s': State, w: int)
    requires Local(s, s', w)
    ensures Within(s, s', [w])
  {
    WithinSnoc(s, s, s', [], w);
    assert [] + [w] == [w];
  }

  lemma OthersNotFailed(s: State, s': State, order: seq<int>, v: int)
    requires Within(s, s', order) && v !in order
    ensures !FailedFor(Since(s, s'), v)
  {
    forall i | 0 <= i < |Since(s, s')|
      ensures Since(s, s')[i].ws != v
    {
      assert Since(s, s')[i] == s'.log[|s.log| + i];
    }
  }

  lemma {:induction false} ClearAllWithin(s: State, want: Want, order: seq<int>, ok: Outcomes)
    ensures Within(s, ClearAll(s, want, order, ok), order)
  {
    if order != [] {
      var rest, w := order[..|order| - 1], order[|order| - 1];
      ClearAllWithin(s, want, rest, ok);
      var s1 := ClearAll(s, want, rest, ok);
      if w in s1.managed {
        ClearOneLocal(s1, want, w, ok);
      }
      WithinSnoc(s, s1, ClearAll(s, want, order, ok), rest, w);
      assert order == rest + [w];
    }
  }

  lemma {:induction false} NameAllWithin(s: State, want: Want, order: seq<int>, ok: Outcomes)
    ensures Within(s, NameAll(s, want, order, ok), order)
  {
    if order != [] {
      var rest, w := order[..|order| - 1], order[|order| - 1];
      NameAllWithin(s, want, rest, ok);
      var s1 := NameAll(s, want, rest, ok);
      if w in want {
        NameOneLocal(s1, want, w, ok);
      }
      WithinSnoc(s, s1, NameAll(s, want, order, ok), rest, w);
      assert order == rest + [w];
    }
  }

  lemma {:induction false} ClearAllWeak(s: State, want: Want, order: seq<int>, ok: Outcomes)
    requires Weak(s)
    ensures Weak(ClearAll(s, want, order, ok))
  {
    if order != [] {
      ClearAllWeak(s, want, order[..|order| - 1], ok);
      var s1, w := ClearAll(s, want, order[..|order| - 1], ok), order[|order| - 1];
      if w in s1.managed {
        ClearOneWeak(s1, want, w, ok);
      }
    }
  }

  lemma {:induction false} NameAllWeak(s: State, want: Want, order: seq<int>, ok: Outcomes)
    requires Weak(s)
    ensures Weak(NameAll(s, want, order, ok))
    ensures s.slots.byWs.Keys <= NameAll(s, want, order, ok).slots.byWs.Keys
  {
    if order != [] {
      NameAllWeak(s, want, order[..|order| - 1], ok);
      var s1, w := NameAll(s, want, order[..|order| - 1], ok), order[|order| - 1];
      if w in want {
        NameOneWeak(s1, want, w, ok);
      }
    }
  }

  // The bookkeeping invariant survives every reconcile, whatever fails.
  lemma ReconcileWeak(s: State, want: Want, clearOrder: seq<int>, nameOrder: seq<int>, ok: Outcomes)
    requires Weak(s)
    ensures Weak(Reconcile(s, want, clearOrder, nameOrder, ok))
  {
    ClearAllWeak(s, want, clearOrder, ok);
    NameAllWeak(ClearAll(s, want, clearOrder, ok), want, nameOrder, ok);
  }

  // A fate settled at s1 stands when later steps leave v alone.
  lemma ClearFateStands(s: State, s1: State, s2: State, want: Want, v: int)
    requires s.log <= s1.log && ClearFate(s, s1, want, v)
    requires s1.log <= s2.log && SameAt(s1, s2, v) && !FailedFor(Since(s1, s2), v)
    ensures s.log <= s2.log && ClearFate(s, s2, want, v)
  {
    SinceConcat(s, s1, s2);
    FailedForConcat(Since(s, s1), Since(s1, s2), v);
  }

  lemma NameFateStands(s: State, s1: State, s2: State, want: Want, v: int)
    requires v in want && s.log <= s1.log && NameFate(s, s1, want, v)
    requires s1.log <= s2.log && SameAt(s1, s2, v) && !FailedFor(Since(s1, s2), v)
    requires Weak(s2) && s1.slots.byWs.Keys <= s2.slots.byWs.Keys
    ensures s.log <= s2.log && NameFate(s, s2, want, v)
  {
    SinceConcat(s, s1, s2);
    FailedForConcat(Since(s, s1), Since(s1, s2), v);
    SubsetSize(s1.slots.byWs.Keys, s2.slots.byWs.Keys);
    HolderCount(s2.slots);
  }

  // A fate decided at s1 is a fate since s when earlier steps left v alone.
  lemma ClearFateSince(s: State, s1: State, s2: State, want: Want, v: int)
    requires s.log <= s1.log && SameAt(s, s1, v) && !FailedFor(Since(s, s1), v)
    requires s1.log <= s2.log && ClearFate(s1, s2, want, v)
    ensures s.log <= s2.log && ClearFate(s, s2, want, v)
  {
    SinceConcat(s, s1, s2);
    FailedForConcat(Since(s, s1), Since(s1, s2), v);
  }

  lemma NameFateSince(s: State, s1: State, s2: State, want: Want, v: int)
    requires v in want && s.log <= s1.log && SameAt(s, s1, v) && !FailedFor(Since(s, s1), v)
    requires s.model.focusedOutput == s1.model.focusedOutput
    requires s1.log <= s2.log && NameFate(s1, s2, want, v)
    ensures s.log <= s2.log && NameFate(s, s2, want, v)
  {
    SinceConcat(s, s1, s2);
    FailedForConcat(Since(s, s1), Since(s1, s2), v);
  }

  lemma {:induction false} ClearAllFate(s: State, want: Want, order: seq<int>, ok: Outcomes)
    requires NoDuplicates(order) && forall v | v in order :: v in s.managed
    ensures s.log <= ClearAll(s, want, order, ok).log
    ensures forall v | v in order :: ClearFate(s, ClearAll(s, want, order, ok), want, v)
  {
    ClearAllWithin(s, want, order, ok);
    if order != [] {
      var rest, w := order[..|order| - 1], order[|order| - 1];
      assert order == rest + [w] && w !in rest;
      ClearAllFate(s, want, rest, ok);
      ClearAllWithin(s, want, rest, ok);
      var s1, s2 := ClearAll(s, want, rest, ok), ClearAll(s, want, order, ok);
      assert SameAt(s, s1, w);
      ClearOneLocal(s1, want, w, ok);
      LocalIsWithin(s1, s2, w);
      forall v | v in order
        ensures ClearFate(s, s2, want, v)
      {
        if v == w {
          ClearOneFate(s1, want, w, ok);
          OthersNotFailed(s, s1, rest, w);
          ClearFateSince(s, s1, s2, want, w);
        } else {
          OthersNotFailed(s1, s2, [w], v);
          ClearFateStands(s, s1, s2, want, v);
        }
      }
    }
  }

  lemma {:induction false} NameAllFate(s: State, want: Want, order: seq<int>, ok: Outcomes)
    requires Weak(s) && NoDuplicates(order) && forall v | v in order :: v in want
    ensures s.log <= NameAll(s, want, order, ok).log
    ensures forall v | v in order :: NameFate(s, NameAll(s, want, order, ok), want, v)
  {
    NameAllWithin(s, want, order, ok);
    if order != [] {
      var rest, w := order[..|order| - 1], order[|order| - 1];
      assert order == rest + [w] && w !in rest;
      NameAllFate(s, want, rest, ok);
      NameAllWithin(s, want, rest, ok);
      NameAllWeak(s, want, rest, ok);
      var s1, s2 := NameAll(s, want, rest, ok), NameAll(s, want, order, ok);
      assert s2 == NameOne(s1, want, w, ok);
      NameOneLocal(s1, want, w, ok);
      NameOneWeak(s1, want, w, ok);
      LocalIsWithin(s1, s2, w);
      forall v | v in order
        ensures NameFate(s, s2, want, v)
      {
        if v == w {
          NameOneFate(s1, want, w, ok);
          OthersNotFailed(s, s1, rest, w);
          NameFateSince(s, s1, s2, want, w);
        } else {
          OthersNotFailed(s1, s2, [w], v);
          NameFateStands(s, s1, s2, want, v);
        }
      }
    }
  }

  // ---- one reconcile ---------------------------------------------------------

  ghost predicate Orders(s: State, want: Want, clearOrder: seq<int>, nameOrder: seq<int>) {
    Enumerates(clearOrder, s.managed.Keys) && Enumerates(nameOrder, want.Keys)
  }

  // What becomes of workspace v over a whole reconcile.
  ghost predicate Fate(s: State, s': State, want: Want, v: int)
    requires s.log <= s'.log
  {
    if v in want then NameFate(s, s', want, v)
    else if v in s.managed then ClearFate(s, s', want, v)
    else SameAt(s, s', v) && !FailedFor(Since(s, s'), v)
  }

  // Every workspace meets its fate, whatever the iteration orders and the failures.
  lemma ReconcileFate(s: State, want: Want, clearOrder: seq<int>, nameOrder: seq<int>, ok: Outcomes, v: int)
    requires Weak(s) && Orders(s, want, clearOrder, nameOrder)
    ensures var s' := Reconcile(s, want, clearOrder, nameOrder, ok);
      s.log <= s'.log && SameTopology(s.model, s'.model) && Fate(s, s', want, v)
  {
    var s1 := ClearAll(s, want, clearOrder, ok);
    var s2 := NameAll(s1, want, nameOrder, ok);
    ClearAllWithin(s, want, clearOrder, ok);
    ClearAllFate(s, want, clearOrder, ok);
    ClearAllWeak(s, want, clearOrder, ok);
    NameAllWithin(s1, want, nameOrder, ok);
    NameAllFate(s1, want, nameOrder, ok);
    NameAllWeak(s1, want, nameOrder, ok);
    if v in want {
      if v !in s.managed {
        OthersNotFailed(s, s1, clearOrder, v);
      }
      NameFateSince(s, s1, s2, want, v);
    } else {
      OthersNotFailed(s1, s2, nameOrder, v);
      if v in s.managed {
        ClearFateStands(s, s1, s2, want, v);
      } else {
        OthersNotFailed(s, s1, clearOrder, v);
        SinceConcat(s, s1, s2);
        FailedForConcat(Since(s, s1), Since(s1, s2), v);
      }
    }
  }

  lemma FaultFreeNeverFails(log: seq<Sent>, v: int)
    requires FaultFree(log)
    ensures !FailedFor(log, v)
  {
  }

  // Nothing is left to do for v: pass 1 keeps it and pass 2 has no action to send about it.
  ghost predicate Done(s: State, want: Want, v: int) {
    && (v in s.managed ==> v in want)
    && (v in want && Reachable(s, v) ==>
          if v in s.slots.byWs
          then v in s.managed && s.managed[v] == Encode(want[v].status, Natural(s.slots.byWs[v]), want[v].level)
          else |s.slots.byWs.Keys| == MAX_SLOTS)
  }

  lemma DoneAfterFaultFree(s: State, want: Want, clearOrder: seq<int>, nameOrder: seq<int>, ok: Outcomes, v: int)
    requires Weak(s) && Orders(s, want, clearOrder, nameOrder)
    requires var s' := Reconcile(s, want, clearOrder, nameOrder, ok);
      s.log <= s'.log && FaultFree(Since(s, s'))
    ensures Done(Reconcile(s, want, clearOrder, nameOrder, ok), want, v)
  {
    var s' := Reconcile(s, want, clearOrder, nameOrder, ok);
    ReconcileFate(s, want, clearOrder, nameOrder, ok, v);
    ReconcileWeak(s, want, clearOrder, nameOrder, ok);
    FaultFreeNeverFails(Since(s, s'), v);
  }

  lemma {:induction false} ClearAllDone(s: State, want: Want, order: seq<int>, ok: Outcomes)
    requires forall v :: Done(s, want, v)
    ensures ClearAll(s, want, order, ok) == s
  {
    if order != [] {
      ClearAllDone(s, want, order[..|order| - 1], ok);
      assert Done(s, want, order[|order| - 1]);
    }
  }

  lemma {:induction false} NameAllDone(s: State, want: Want, order: seq<int>, ok: Outcomes)
    requires Weak(s) && forall v :: Done(s, want, v)
    ensures NameAll(s, want, order, ok) == s
  {
    if order != [] {
      NameAllDone(s, want, order[..|order| - 1], ok);
      var w := order[|order| - 1];
      assert Done(s, want, w);
      AssignFailsWhenFull(s.slots, w);
    }
  }

  // A second reconcile on the same inputs, after one in which no action failed, sends nothing and
  // changes nothing: also when the slots ran out, and with wanted workspaces that have vanished.
  lemma ReconcileIdempotent(
    s: State, want: Want, clearOrder: seq<int>, nameOrder: seq<int>, ok: Outcomes,
    clearOrder': seq<int>, nameOrder': seq<int>, ok': Outcomes)
    requires Weak(s) && Orders(s, want, clearOrder, nameOrder)
    requires var s' := Reconcile(s, want, clearOrder, nameOrder, ok);
      s.log <= s'.log && FaultFree(Since(s, s'))
    ensures var s' := Reconcile(s, want, clearOrder, nameOrder, ok);
      Reconcile(s', want, clearOrder', nameOrder', ok') == s'
  {
    var s' := Reconcile(s, want, clearOrder, nameOrder, ok);
    ReconcileWeak(s, want, clearOrder, nameOrder, ok);
    forall v
      ensures Done(s', want, v)
    {
      DoneAfterFaultFree(s, want, clearOrder, nameOrder, ok, v);
    }
    ClearAllDone(s', want, clearOrder', ok');
    NameAllDone(s', want, nameOrder', ok');
  }
}
