// Reconcile against the compositor: every reference hits the workspace it means, the daemon's
// view and the compositor keep agreeing through any failures, and the names come out as wanted.
module Refinement {
  import opened Wrappers
  import opened Collections
  import opened Grammar
  import opened SlotTable
  import opened Aggregation
  import opened Compositor
  import opened Reconciler
  import opened ReconcileProofs
  import Niri
  import Rows

  // The slot a workspace name carries, if it is grammar-shaped.
  function NameSlot(name: string): Option<int> {
    match ParseName(name)
    case None => None
    case Some(p) => Some(p.slot)
  }

  // Slots and managed names tell the same story: each managed workspace holds the slot its name
  // carries, and nothing else holds a slot.
  ghost predicate Clean(s: State) {
    && Consistent(s.slots)
    && s.managed.Keys == s.slots.byWs.Keys
    && forall w | w in s.managed :: NameSlot(s.managed[w]) == Some(s.slots.byWs[w])
  }

  lemma CleanNamesDistinct(s: State, v: int, w: int)
    requires Clean(s) && v in s.managed && w in s.managed && v != w
    ensures s.managed[v] != s.managed[w]
  {
  }

  // The daemon's model, its managed names and the compositor describe the same workspaces, and
  // no unmanaged workspace carries a grammar-shaped name.
  ghost predicate Agree(s: State, c: Comp) {
    && s.model.workspaces.Keys == c.spaces.Keys
    && s.model.focusedOutput == c.focusedOutput
    && (forall v | v in c.spaces :: AgreeAt(s, c, v))
  }

  ghost predicate AgreeAt(s: State, c: Comp, v: int)
    requires v in c.spaces && v in s.model.workspaces
  {
    && s.model.workspaces[v].idx == c.spaces[v].idx
    && s.model.workspaces[v].output == c.spaces[v].output
    && s.model.workspaces[v].name == c.spaces[v].name
    && (if v in s.managed then c.spaces[v].name == s.managed[v] else NameSlot(c.spaces[v].name).None?)
  }

  ghost predicate UniqueIdx(c: Comp) {
    forall v, w | v in c.spaces && w in c.spaces &&
      c.spaces[v].output == c.spaces[w].output && c.spaces[v].idx == c.spaces[w].idx :: v == w
  }

  // Names aside, the compositor is as before.
  ghost predicate SameShape(c: Comp, c': Comp) {
    && c.focusedOutput == c'.focusedOutput && c.spaces.Keys == c'.spaces.Keys
    && forall v | v in c.spaces :: c'.spaces[v] == c.spaces[v].(name := c'.spaces[v].name)
  }

  ghost predicate Linked(s: State, c: Comp) {
    Clean(s) && Agree(s, c) && UniqueIdx(c)
  }

  ghost predicate RefinesTo(s: State, c: Comp, s': State) {
    && s.log <= s'.log
    && AllHit(c, Since(s, s'))
    && var c' := PerformAll(c, Since(s, s'));
       SameShape(c, c') && Linked(s', c')
  }

  ghost predicate LevelsOk(want: Want) {
    forall w | w in want :: want[w].level < DECAY_LEVELS
  }

  lemma AggregateLevelsOk(sessions: seq<Rows.Session>, windows: Windows, now: int, want: Want)
    requires IsAggregate(sessions, windows, now, want)
    ensures LevelsOk(want)
  {
    forall w | w in want
      ensures want[w].level < DECAY_LEVELS
    {
      assert Asks(sessions, windows, now, w, want[w]);
    }
  }

  lemma EncodeSlot(st: Status, slot: int, level: nat)
    requires InRange(slot) && level < DECAY_LEVELS
    ensures NameSlot(Encode(st, Natural(slot), level)) == Some(slot)
  {
    ParseEncode(st, Natural(slot), level);
  }

  lemma EmptyNameParses()
    ensures NameSlot("").None?
  {
  }

  // ---- slots and names, whatever the compositor does ----------------------------------------

  // Clean depends on the managed names and the slots only.
  lemma CleanOnly(s: State, s': State)
    requires Clean(s) && s'.managed == s.managed && s'.slots == s.slots
    ensures Clean(s')
  {
  }

  lemma ForgetClean(s: State, s': State, w: int)
    requires Clean(s) && s'.managed == s.managed - {w} && s'.slots == Free(s.slots, w)
    ensures Clean(s')
  {
    FreeConsistent(s.slots, w);
    assert s'.managed.Keys == s.managed.Keys - {w} && s'.slots.byWs.Keys == s.slots.byWs.Keys - {w};
  }

  lemma NamedClean(s: State, s': State, w: int, name: string)
    requires Clean(s) && s'.managed == s.managed[w := name] && Consistent(s'.slots)
    requires w in s'.slots.byWs && NameSlot(name) == Some(s'.slots.byWs[w])
    requires forall v | v != w :: v in s'.slots.byWs <==> v in s.slots.byWs
    requires forall v | v != w && v in s.slots.byWs :: s'.slots.byWs[v] == s.slots.byWs[v]
    ensures Clean(s')
  {
    assert forall v :: v in s'.managed.Keys <==> v in s'.slots.byWs.Keys;
  }

  lemma ClearOutcome(s: State, want: Want, w: int, ok: Outcomes)
    requires w in s.managed
    ensures var s' := ClearOne(s, want, w, ok);
      || (s'.managed == s.managed && s'.slots == s.slots)
      || (s'.managed == s.managed - {w} && s'.slots == Free(s.slots, w))
  {
  }

  lemma ClearOneClean(s: State, want: Want, w: int, ok: Outcomes)
    requires Clean(s) && w in s.managed
    ensures Clean(ClearOne(s, want, w, ok))
  {
    ClearOutcome(s, want, w, ok);
    ClearedClean(s, ClearOne(s, want, w, ok), w);
  }

  lemma ClearedClean(s: State, s': State, w: int)
    requires Clean(s)
    requires (s'.managed == s.managed && s'.slots == s.slots)
      || (s'.managed == s.managed - {w} && s'.slots == Free(s.slots, w))
    ensures Clean(s')
  {
    if s'.managed == s.managed && s'.slots == s.slots {
      CleanOnly(s, s');
    } else {
      ForgetClean(s, s', w);
    }
  }

  // What pass 2 does to a workspace that is managed and holds a slot.
  lemma RenameOutcome(s: State, want: Want, w: int, ok: Outcomes)
    requires w in want && w in s.managed && w in s.slots.byWs
    ensures var s' := NameOne(s, want, w, ok);
      var name := Encode(want[w].status, Natural(s.slots.byWs[w]), want[w].level);
      s'.slots == s.slots && (s'.managed == s.managed || s'.managed == s.managed[w := name])
  {
  }

  lemma RenamedClean(s: State, s': State, w: int, d: Desired)
    requires Clean(s) && w in s.managed && d.level < DECAY_LEVELS && s'.slots == s.slots
    requires s'.managed == s.managed
      || s'.managed == s.managed[w := Encode(d.status, Natural(s.slots.byWs[w]), d.level)]
    ensures Clean(s')
  {
    var name := Encode(d.status, Natural(s.slots.byWs[w]), d.level);
    EncodeSlot(d.status, s.slots.byWs[w], d.level);
    if s'.managed == s.managed {
      CleanOnly(s, s');
    } else {
      NamedClean(s, s', w, name);
    }
  }

  lemma RenameClean(s: State, want: Want, w: int, ok: Outcomes)
    requires Clean(s) && w in want && LevelsOk(want) && w in s.managed
    ensures Clean(NameOne(s, want, w, ok))
  {
    RenameOutcome(s, want, w, ok);
    RenamedClean(s, NameOne(s, want, w, ok), w, want[w]);
  }

  lemma BootstrapClean(s: State, want: Want, w: int, ok: Outcomes)
    requires Clean(s) && w in want && LevelsOk(want) && w !in s.managed
    ensures Clean(NameOne(s, want, w, ok))
  {
    var s' := NameOne(s, want, w, ok);
    if w !in s'.managed {
      FreeUndoesAssign(s.slots, w);
      CleanOnly(s, s');
    } else {
      AssignConsistent(s.slots, w);
      EncodeSlot(want[w].status, Assigned(s.slots, w).value, want[w].level);
      NamedClean(s, s', w, s'.managed[w]);
    }
  }

  lemma NameOneClean(s: State, want: Want, w: int, ok: Outcomes)
    requires Clean(s) && w in want && LevelsOk(want)
    ensures Clean(NameOne(s, want, w, ok))
  {
    if w in s.managed {
      RenameClean(s, want, w, ok);
    } else {
      BootstrapClean(s, want, w, ok);
    }
  }

  lemma {:induction false} ClearAllClean(s: State, want: Want, order: seq<int>, ok: Outcomes)
    requires Clean(s)
    ensures Clean(ClearAll(s, want, order, ok))
  {
    if order != [] {
      var init, w := order[..|order| - 1], order[|order| - 1];
      ClearAllClean(s, want, init, ok);
      var t := ClearAll(s, want, init, ok);
      if w in t.managed {
        ClearOneClean(t, want, w, ok);
      }
    }
  }

  lemma {:induction false} NameAllClean(s: State, want: Want, order: seq<int>, ok: Outcomes)
    requires Clean(s) && LevelsOk(want)
    ensures Clean(NameAll(s, want, order, ok))
  {
    if order != [] {
      var init, w := order[..|order| - 1], order[|order| - 1];
      NameAllClean(s, want, init, ok);
      var t := NameAll(s, want, init, ok);
      if w in want {
        NameOneClean(t, want, w, ok);
      }
    }
  }

  // Slots and names go on telling the same story through any failures and whatever the
  // compositor shows.
  lemma ReconcileClean(s: State, want: Want, clearOrder: seq<int>, nameOrder: seq<int>, ok: Outcomes)
    requires Clean(s) && LevelsOk(want)
    ensures Clean(Reconcile(s, want, clearOrder, nameOrder, ok))
  {
    ClearAllClean(s, want, clearOrder, ok);
    NameAllClean(ClearAll(s, want, clearOrder, ok), want, nameOrder, ok);
  }

  // What a reconcile without failures leaves at workspace v, with room for every wanted one.
  lemma HealedAt(s: State, want: Want, clearOrder: seq<int>, nameOrder: seq<int>, ok: Outcomes, v: int)
    requires Weak(s) && LevelsOk(want) && Orders(s, want, clearOrder, nameOrder)
    requires |want.Keys| <= MAX_SLOTS && want.Keys <= s.model.workspaces.Keys
    requires var s' := Reconcile(s, want, clearOrder, nameOrder, ok);
      && s.log <= s'.log && FaultFree(Since(s, s'))
      && s'.managed.Keys <= want.Keys && Weak(s')
    ensures var s' := Reconcile(s, want, clearOrder, nameOrder, ok);
      v in s'.managed ==> v in s'.slots.byWs && NameSlot(s'.managed[v]) == Some(s'.slots.byWs[v])
  {
    var s' := Reconcile(s, want, clearOrder, nameOrder, ok);
    DoneAfterFaultFree(s, want, clearOrder, nameOrder, ok, v);
    ReconcileFate(s, want, clearOrder, nameOrder, ok, v);
    if v in s'.managed {
      if v !in s'.slots.byWs {
        SubsetSize(s'.slots.byWs.Keys + {v}, want.Keys);
      }
      EncodeSlot(want[v].status, s'.slots.byWs[v], want[v].level);
    }
  }

  // Any bookkeeping heals: once a reconcile runs without failures while at most MAX_SLOTS
  // workspaces are wanted and all of them exist, slots and names agree, whatever was adopted.
  lemma ReconcileHeals(s: State, want: Want, clearOrder: seq<int>, nameOrder: seq<int>, ok: Outcomes)
    requires Weak(s) && LevelsOk(want) && Orders(s, want, clearOrder, nameOrder)
    requires |want.Keys| <= MAX_SLOTS && want.Keys <= s.model.workspaces.Keys
    requires var s' := Reconcile(s, want, clearOrder, nameOrder, ok);
      s.log <= s'.log && FaultFree(Since(s, s'))
    ensures Clean(Reconcile(s, want, clearOrder, nameOrder, ok))
  {
    var s' := Reconcile(s, want, clearOrder, nameOrder, ok);
    ReconcileWeak(s, want, clearOrder, nameOrder, ok);
    forall v | v in s'.managed
      ensures v in want
    {
      DoneAfterFaultFree(s, want, clearOrder, nameOrder, ok, v);
    }
    forall v | v in s'.managed
      ensures v in s'.slots.byWs && NameSlot(s'.managed[v]) == Some(s'.slots.byWs[v])
    {
      HealedAt(s, want, clearOrder, nameOrder, ok, v);
    }
  }

  // ---- references --------------------------------------------------------------------------------

  // A managed name refers to its workspace and to no other.
  lemma NameHits(s: State, c: Comp, w: int, call: Call)
    requires Linked(s, c) && w in s.managed && w in c.spaces
    requires call == Unset(s.managed[w]) || (call.ByName? && call.current == s.managed[w])
    ensures DenotesOnly(c, call, w)
  {
    EmptyNameParses();
    forall v | Denotes(c, call, v)
      ensures v == w
    {
      assert AgreeAt(s, c, v) && AgreeAt(s, c, w);
    }
    assert AgreeAt(s, c, w);
  }

  // An index reference to a workspace of the focused output hits it and no other.
  lemma IndexHits(s: State, c: Comp, w: int, name: string)
    requires Linked(s, c) && w in c.spaces && c.spaces[w].output == c.focusedOutput
    ensures DenotesOnly(c, ByIndex(s.model.workspaces[w].idx, name), w)
  {
    assert AgreeAt(s, c, w);
  }

  lemma SentOne(s: State, s': State, c: Comp, sent: Sent)
    requires s'.log == s.log + [sent] && DenotesOnly(c, sent.call, sent.ws)
    ensures AllHit(c, Since(s, s'))
    ensures PerformAll(c, Since(s, s')) == if sent.ok then Renamed(c, sent.ws, NewName(sent.call)) else c
  {
    assert Since(s, s') == [] + [sent];
    PerformSnoc(c, [], sent);
    PerformHit(c, sent);
  }

  lemma SentNothing(s: State, s': State, c: Comp)
    requires s'.log == s.log
    ensures AllHit(c, Since(s, s')) && PerformAll(c, Since(s, s')) == c
  {
    assert Since(s, s') == [];
  }

  // Renaming w on both sides keeps the agreement.
  lemma RenameAgrees(s: State, c: Comp, s': State, w: int, name: string)
    requires Agree(s, c) && w in c.spaces && UniqueIdx(c)
    requires s'.model == Niri.WithName(s.model, w, name)
    requires forall v | v != w :: v in s.managed <==> v in s'.managed
    requires forall v | v != w && v in s.managed :: s'.managed[v] == s.managed[v]
    requires if w in s'.managed then s'.managed[w] == name else NameSlot(name).None?
    ensures Agree(s', Renamed(c, w, name)) && UniqueIdx(Renamed(c, w, name))
    ensures SameShape(c, Renamed(c, w, name))
  {
    var c' := Renamed(c, w, name);
    forall v | v in c'.spaces
      ensures AgreeAt(s', c', v)
    {
      assert AgreeAt(s, c, v);
    }
    forall v, u | v in c'.spaces && u in c'.spaces &&
      c'.spaces[v].output == c'.spaces[u].output && c'.spaces[v].idx == c'.spaces[u].idx
      ensures v == u
    {
      assert c.spaces[v].output == c.spaces[u].output && c.spaces[v].idx == c.spaces[u].idx;
    }
  }

  lemma RefinesSelf(s: State, c: Comp)
    requires Linked(s, c)
    ensures RefinesTo(s, c, s)
  {
    SentNothing(s, s, c);
  }

  lemma ClearOneRefines(s: State, c: Comp, want: Want, w: int, ok: Outcomes)
    requires Linked(s, c) && w in s.managed
    ensures RefinesTo(s, c, ClearOne(s, want, w, ok))
  {
    var s' := ClearOne(s, want, w, ok);
    FreeConsistent(s.slots, w);
    if w in want {
      SentNothing(s, s', c);
    } else if w !in s.model.workspaces {
      SentNothing(s, s', c);
      assert forall v | v in c.spaces :: AgreeAt(s, c, v) && AgreeAt(s', c, v);
    } else {
      var sent := SendNext(s, w, Unset(s.managed[w]), ok);
      NameHits(s, c, w, sent.call);
      SentOne(s, s', c, sent);
      EmptyNameParses();
      if sent.ok {
        RenameAgrees(s, c, s', w, "");
      } else {
        assert forall v | v in c.spaces :: AgreeAt(s, c, v) && AgreeAt(s', c, v);
      }
    }
  }

  // A failed action that left the daemon's state alone.
  lemma FailedRefines(s: State, c: Comp, s': State, sent: Sent)
    requires Linked(s, c) && DenotesOnly(c, sent.call, sent.ws) && !sent.ok
    requires s' == s.(log := s.log + [sent])
    ensures RefinesTo(s, c, s')
  {
    SentOne(s, s', c, sent);
    assert forall v | v in c.spaces :: AgreeAt(s, c, v) && AgreeAt(s', c, v);
  }

  // A successful action, recorded with a name that carries the workspace's slot.
  lemma RecordRefines(s: State, c: Comp, slots: Slots, w: int, name: string, sent: Sent)
    requires Linked(s, c) && w in c.spaces && DenotesOnly(c, sent.call, sent.ws)
    requires sent.ok && sent.ws == w && NewName(sent.call) == name
    requires Consistent(slots) && w in slots.byWs && NameSlot(name) == Some(slots.byWs[w])
    requires forall v | v != w :: v in slots.byWs <==> v in s.slots.byWs
    requires forall v | v != w && v in s.slots.byWs :: slots.byWs[v] == s.slots.byWs[v]
    ensures RefinesTo(s, c, Record(s.(slots := slots), w, name, sent))
  {
    var s' := Record(s.(slots := slots), w, name, sent);
    assert forall v :: v in slots.byWs.Keys <==> v in s.slots.byWs.Keys + {w};
    assert s'.managed.Keys == s.managed.Keys + {w} == slots.byWs.Keys;
    SentOne(s, s', c, sent);
    RenameAgrees(s, c, s', w, name);
  }

  lemma RenameOneRefines(s: State, c: Comp, want: Want, w: int, ok: Outcomes)
    requires Linked(s, c) && w in want && LevelsOk(want) && w in s.managed && w in c.spaces
    ensures RefinesTo(s, c, NameOne(s, want, w, ok))
  {
    var slot := s.slots.byWs[w];
    var name := Encode(want[w].status, Natural(slot), want[w].level);
    EncodeSlot(want[w].status, slot, want[w].level);
    if name == s.managed[w] {
      RefinesSelf(s, c);
    } else {
      var sent := SendNext(s, w, ByName(s.managed[w], name), ok);
      NameHits(s, c, w, sent.call);
      if sent.ok {
        RecordRefines(s, c, s.slots, w, name, sent);
      } else {
        FailedRefines(s, c, NameOne(s, want, w, ok), sent);
      }
    }
  }

  lemma BootstrapRefines(s: State, c: Comp, want: Want, w: int, ok: Outcomes)
    requires Linked(s, c) && w in want && LevelsOk(want) && w !in s.managed && w in c.spaces
    requires c.spaces[w].output == c.focusedOutput && Assigned(s.slots, w).Some?
    ensures RefinesTo(s, c, NameOne(s, want, w, ok))
  {
    assert AgreeAt(s, c, w);
    var slot := Assigned(s.slots, w).value;
    var slots := Assign(s.slots, w);
    AssignConsistent(s.slots, w);
    assert InRange(slots.byWs[w]);
    var name := Encode(want[w].status, Natural(slot), want[w].level);
    EncodeSlot(want[w].status, slot, want[w].level);
    var sent := SendNext(s, w, ByIndex(s.model.workspaces[w].idx, name), ok);
    IndexHits(s, c, w, name);
    if sent.ok {
      RecordRefines(s, c, slots, w, name, sent);
      assert NameOne(s, want, w, ok) == Record(s.(slots := slots), w, name, sent);
    } else {
      FreeUndoesAssign(s.slots, w);
      FailedRefines(s, c, NameOne(s, want, w, ok), sent);
    }
  }

  lemma NameOneRefines(s: State, c: Comp, want: Want, w: int, ok: Outcomes)
    requires Linked(s, c) && w in want && LevelsOk(want)
    ensures RefinesTo(s, c, NameOne(s, want, w, ok))
  {
    if w in c.spaces {
      assert AgreeAt(s, c, w);
      if w in s.managed {
        RenameOneRefines(s, c, want, w, ok);
      } else if c.spaces[w].output == c.focusedOutput && Assigned(s.slots, w).Some? {
        BootstrapRefines(s, c, want, w, ok);
      } else {
        RefinesSelf(s, c);
      }
    } else {
      RefinesSelf(s, c);
    }
  }

  lemma RefinesTransitive(s: State, c: Comp, s1: State, s2: State)
    requires RefinesTo(s, c, s1)
    requires RefinesTo(s1, PerformAll(c, Since(s, s1)), s2)
    ensures RefinesTo(s, c, s2)
    ensures PerformAll(c, Since(s, s2)) == PerformAll(PerformAll(c, Since(s, s1)), Since(s1, s2))
  {
    SinceConcat(s, s1, s2);
    PerformConcat(c, Since(s, s1), Since(s1, s2));
  }

  lemma {:induction false} ClearAllRefines(s: State, c: Comp, want: Want, order: seq<int>, ok: Outcomes)
    requires Linked(s, c)
    ensures RefinesTo(s, c, ClearAll(s, want, order, ok))
  {
    if order == [] {
      RefinesSelf(s, c);
    } else {
      ClearAllRefines(s, c, want, order[..|order| - 1], ok);
      var s1, w := ClearAll(s, want, order[..|order| - 1], ok), order[|order| - 1];
      if w in s1.managed {
        var c1 := PerformAll(c, Since(s, s1));
        ClearOneRefines(s1, c1, want, w, ok);
        RefinesTransitive(s, c, s1, ClearAll(s, want, order, ok));
      }
    }
  }

  lemma {:induction false} NameAllRefines(s: State, c: Comp, want: Want, order: seq<int>, ok: Outcomes)
    requires Linked(s, c) && LevelsOk(want)
    ensures RefinesTo(s, c, NameAll(s, want, order, ok))
  {
    if order == [] {
      RefinesSelf(s, c);
    } else {
      NameAllRefines(s, c, want, order[..|order| - 1], ok);
      var s1, w := NameAll(s, want, order[..|order| - 1], ok), order[|order| - 1];
      if w in want {
        var c1 := PerformAll(c, Since(s, s1));
        NameOneRefines(s1, c1, want, w, ok);
        RefinesTransitive(s, c, s1, NameAll(s, want, order, ok));
      }
    }
  }

  // Whatever fails, every action hits exactly the workspace it means, the shape of the compositor
  // is untouched, and model, managed names and compositor agree again with clean slots.
  lemma ReconcileRefines(
    s: State, c: Comp, want: Want, clearOrder: seq<int>, nameOrder: seq<int>, ok: Outcomes)
    requires Linked(s, c) && LevelsOk(want)
    ensures RefinesTo(s, c, Reconcile(s, want, clearOrder, nameOrder, ok))
  {
    ClearAllRefines(s, c, want, clearOrder, ok);
    var s1 := ClearAll(s, want, clearOrder, ok);
    var c1 := PerformAll(c, Since(s, s1));
    NameAllRefines(s1, c1, want, nameOrder, ok);
    RefinesTransitive(s, c, s1, Reconcile(s, want, clearOrder, nameOrder, ok));
  }

  // The name of each workspace after a reconcile: a wanted one within reach gets its encoded name
  // unless every slot is held, a managed one no longer wanted loses its name, and every other
  // workspace, like one whose action failed, keeps the name it had.
  lemma ReconcileNames(
    s: State, c: Comp, want: Want, clearOrder: seq<int>, nameOrder: seq<int>, ok: Outcomes, v: int)
    requires Linked(s, c) && LevelsOk(want) && Orders(s, want, clearOrder, nameOrder)
    requires v in c.spaces
    ensures var s' := Reconcile(s, want, clearOrder, nameOrder, ok);
      s.log <= s'.log && v in PerformAll(c, Since(s, s')).spaces
    ensures
      var s' := Reconcile(s, want, clearOrder, nameOrder, ok);
      var name := PerformAll(c, Since(s, s')).spaces[v].name;
      var withinReach := v in s.managed || c.spaces[v].output == c.focusedOutput;
      if FailedFor(Since(s, s'), v) then name == c.spaces[v].name
      else if v in want && withinReach && v in s'.slots.byWs then
        v in s'.managed && name == Encode(want[v].status, Natural(s'.slots.byWs[v]), want[v].level)
      else if v in want && withinReach then
        name == c.spaces[v].name && v !in s'.managed && |s'.slots.byWs.Keys| == MAX_SLOTS
      else if v !in want && v in s.managed then name == "" && v !in s'.managed
      else name == c.spaces[v].name
  {
    var s' := Reconcile(s, want, clearOrder, nameOrder, ok);
    ReconcileRefines(s, c, want, clearOrder, nameOrder, ok);
    ReconcileFate(s, want, clearOrder, nameOrder, ok, v);
    var c' := PerformAll(c, Since(s, s'));
    assert AgreeAt(s, c, v) && AgreeAt(s', c', v);
  }
}
