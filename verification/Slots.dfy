// internal/daemon/reconcile.go: the slot allocator, its value-level specification, and the
// methods that update it in place.
module SlotTable {
  import opened Wrappers
  import opened Collections
  import opened Grammar

  // The value of a SlotAllocator object.
  datatype Slots = Slots(byWs: map<int, int>, used: set<int>)

  const EMPTY_SLOTS := Slots(map[], {})

  predicate InRange(slot: int) {
    1 <= slot <= MAX_SLOTS
  }

  // The bookkeeping invariant: used is exactly the range of byWs, which is injective into 1..MAX_SLOTS.
  ghost predicate Consistent(s: Slots) {
    && (forall w | w in s.byWs :: InRange(s.byWs[w]) && s.byWs[w] in s.used)
    && (forall n | n in s.used :: exists w :: w in s.byWs && s.byWs[w] == n)
    && (forall v, w | v in s.byWs && w in s.byWs && s.byWs[v] == s.byWs[w] :: v == w)
  }

  // The lowest free slot at or above from, if any is left.
  function LowestFree(used: set<int>, from: int): (slot: Option<int>)
    requires 1 <= from <= MAX_SLOTS + 1
    ensures slot.Some? ==>
      && from <= slot.value <= MAX_SLOTS && slot.value !in used
      && forall n | from <= n < slot.value :: n in used
    ensures slot.None? ==> forall n | from <= n <= MAX_SLOTS :: n in used
    decreases MAX_SLOTS + 1 - from
  {
    if from > MAX_SLOTS then None
    else if from !in used then Some(from)
    else LowestFree(used, from + 1)
  }

  // The slot assign returns for w: the one it holds, else the lowest free one.
  function Assigned(s: Slots, w: int): Option<int> {
    if w in s.byWs then Some(s.byWs[w]) else LowestFree(s.used, 1)
  }

  function Assign(s: Slots, w: int): Slots {
    match Assigned(s, w)
    case None => s
    case Some(n) => if w in s.byWs then s else Slots(s.byWs[w := n], s.used + {n})
  }

  function Free(s: Slots, w: int): Slots {
    if w in s.byWs then Slots(s.byWs - {w}, s.used - {s.byWs[w]}) else s
  }

  function Adopt(s: Slots, w: int, slot: int): Slots {
    if !InRange(slot) || w in s.byWs || slot in s.used then s
    else Slots(s.byWs[w := slot], s.used + {slot})
  }

  lemma AssignConsistent(s: Slots, w: int)
    requires Consistent(s)
    ensures Consistent(Assign(s, w))
    ensures Assigned(s, w).Some? ==> w in Assign(s, w).byWs && Assign(s, w).byWs[w] == Assigned(s, w).value
    ensures w in s.byWs ==> Assigned(s, w) == Some(s.byWs[w])
    ensures w !in s.byWs && Assigned(s, w).Some? ==>
      Assigned(s, w).value !in s.used && forall n | 1 <= n < Assigned(s, w).value :: n in s.used
    ensures forall v | v != w :: v in Assign(s, w).byWs <==> v in s.byWs
    ensures forall v | v != w && v in s.byWs :: Assign(s, w).byWs[v] == s.byWs[v]
  {
    var s' := Assign(s, w);
    forall n | n in s'.used
      ensures exists v :: v in s'.byWs && s'.byWs[v] == n
    {
      if n in s.used {
        var v :| v in s.byWs && s.byWs[v] == n;
        assert v in s'.byWs && s'.byWs[v] == n;
      } else {
        assert w in s'.byWs && s'.byWs[w] == n;
      }
    }
  }

  lemma FreeConsistent(s: Slots, w: int)
    requires Consistent(s)
    ensures Consistent(Free(s, w))
    ensures Free(s, w).byWs == s.byWs - {w}
  {
    var s' := Free(s, w);
    forall n | n in s'.used
      ensures exists v :: v in s'.byWs && s'.byWs[v] == n
    {
      var v :| v in s.byWs && s.byWs[v] == n;
      assert v in s'.byWs && s'.byWs[v] == n;
    }
  }

  lemma AdoptConsistent(s: Slots, w: int, slot: int)
    requires Consistent(s)
    ensures Consistent(Adopt(s, w, slot))
  {
    var s' := Adopt(s, w, slot);
    forall n | n in s'.used
      ensures exists v :: v in s'.byWs && s'.byWs[v] == n
    {
      if n in s.used {
        var v :| v in s.byWs && s.byWs[v] == n;
        assert v in s'.byWs && s'.byWs[v] == n;
      } else {
        assert w in s'.byWs && s'.byWs[w] == n;
      }
    }
  }

  // A failed bootstrap gives its slot back: freeing right after a fresh assignment restores the table.
  lemma FreeUndoesAssign(s: Slots, w: int)
    requires Consistent(s) && w !in s.byWs
    ensures Free(Assign(s, w), w) == s
  {
    var s' := Assign(s, w);
    if w in s'.byWs {
      assert s'.byWs - {w} == s.byWs;
      assert s'.used - {s'.byWs[w]} == s.used;
    }
  }

  // ---- pigeonhole --------------------------------------------------------

  predicate UpTo(i: int, n: nat) {
    1 <= i <= n
  }

  ghost function SlotRange(n: nat): set<int> {
    set i | 1 <= i <= n && UpTo(i, n)
  }

  lemma {:induction false} SlotRangeSize(n: nat)
    ensures |SlotRange(n)| == n
  {
    if n == 0 {
      assert SlotRange(0) == {};
    } else {
      SlotRangeSize(n - 1);
      assert SlotRange(n) == SlotRange(n - 1) + {n};
    }
  }

  lemma {:induction false} HoldersAreUsed(m: map<int, int>, used: set<int>)
    requires forall w | w in m :: m[w] in used
    requires forall n | n in used :: exists w :: w in m && m[w] == n
    requires forall v, w | v in m && w in m && m[v] == m[w] :: v == w
    ensures |m.Keys| == |used|
    decreases |m.Keys|
  {
    if m.Keys != {} {
      var w := Pick(m.Keys);
      var m', used' := m - {w}, used - {m[w]};
      assert m'.Keys == m.Keys - {w};
      forall n | n in used'
        ensures exists v :: v in m' && m'[v] == n
      {
        var v :| v in m && m[v] == n;
        assert v in m' && m'[v] == n;
      }
      HoldersAreUsed(m', used');
    } else if used != {} {
      var n := Pick(used);
      assert false;
    }
  }

  lemma HolderCount(s: Slots)
    requires Consistent(s)
    ensures |s.byWs.Keys| == |s.used| <= 20
    ensures |s.used| == MAX_SLOTS ==> s.used == SlotRange(MAX_SLOTS)
  {
    HoldersAreUsed(s.byWs, s.used);
    SlotRangeSize(MAX_SLOTS);
    forall n | n in s.used
      ensures n in SlotRange(MAX_SLOTS)
    {
      var v :| v in s.byWs && s.byWs[v] == n;
      assert InRange(s.byWs[v]);
    }
    SubsetSize(s.used, SlotRange(MAX_SLOTS));
  }

  // assign fails exactly when other workspaces hold all MAX_SLOTS slots.
  lemma AssignFailsWhenFull(s: Slots, w: int)
    requires Consistent(s)
    ensures Assigned(s, w).None? <==> w !in s.byWs && |s.byWs.Keys| == 20
  {
    HolderCount(s);
    SlotRangeSize(MAX_SLOTS);
    if w !in s.byWs && Assigned(s, w).None? {
      assert forall n | n in SlotRange(MAX_SLOTS) :: n in s.used;
      SubsetSize(SlotRange(MAX_SLOTS), s.used);
    }
  }

  class SlotAllocator {
    var byWorkspace: map<int, int>
    var used: set<int>

    ghost function View(): Slots
      reads this
    {
      Slots(byWorkspace, used)
    }

    constructor ()
      ensures View() == EMPTY_SLOTS
    {
      byWorkspace, used := map[], {};
    }

    method AssignSlot(w: int) returns (slot: Option<int>)
      modifies this
      ensures slot == Assigned(old(View()), w)
      ensures View() == Assign(old(View()), w)
    {
      if w in byWorkspace {
        return Some(byWorkspace[w]);
      }
      for n := 1 to MAX_SLOTS + 1
        invariant unchanged(this)
        invariant LowestFree(used, 1) == LowestFree(used, n)
      {
        if n !in used {
          used := used + {n};
          byWorkspace := byWorkspace[w := n];
          return Some(n);
        }
      }
      return None;
    }

    method FreeSlot(w: int)
      modifies this
      ensures View() == Free(old(View()), w)
    {
      if w in byWorkspace {
        used := used - {byWorkspace[w]};
        byWorkspace := byWorkspace - {w};
      }
    }

    method AdoptSlot(w: int, slot: int)
      modifies this
      ensures View() == Adopt(old(View()), w, slot)
    {
      if slot < 1 || slot > MAX_SLOTS {
        return;
      }
      if w in byWorkspace {
        return;
      }
      if slot in used {
        return;
      }
      used := used + {slot};
      byWorkspace := byWorkspace[w := slot];
    }

    method SlotOf(w: int) returns (slot: Option<int>)
      ensures slot == if w in byWorkspace then Some(byWorkspace[w]) else None
    {
      slot := if w in byWorkspace then Some(byWorkspace[w]) else None;
    }
  }
}
