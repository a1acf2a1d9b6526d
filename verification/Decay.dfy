// The bound on actions for a fading workspace: redundant-action suppression means a workspace
// whose sessions only age costs at most one action per level, over any run.
module Decay {
  import opened Wrappers
  import opened Collections
  import opened Grammar
  import opened SlotTable
  import opened Aggregation
  import opened Compositor
  import opened Reconciler
  import opened ReconcileProofs
  import Niri
  import Rows

  // The successful actions of a log about workspace w, and those among them by index.
  function Hits(log: seq<Sent>, w: int): nat {
    if log == [] then 0
    else Hits(log[..|log| - 1], w) + if log[|log| - 1].ok && log[|log| - 1].ws == w then 1 else 0
  }

  function Bootstraps(log: seq<Sent>, w: int): nat {
    if log == [] then 0
    else
      var x := log[|log| - 1];
      Bootstraps(log[..|log| - 1], w) + if x.ok && x.ws == w && x.call.ByIndex? then 1 else 0
  }

  lemma {:induction false} HitsConcat(a: seq<Sent>, b: seq<Sent>, w: int)
    ensures Hits(a + b, w) == Hits(a, w) + Hits(b, w)
    ensures Bootstraps(a + b, w) == Bootstraps(a, w) + Bootstraps(b, w)
  {
    if b == [] {
      assert a + b == a;
    } else {
      HitsConcat(a, b[..|b| - 1], w);
      assert (a + b)[..|a + b| - 1] == a + b[..|b| - 1];
    }
  }

  lemma {:induction false} NoHits(log: seq<Sent>, w: int)
    requires forall i | 0 <= i < |log| :: log[i].ws != w
    ensures Hits(log, w) == Bootstraps(log, w) == 0
  {
    if log != [] {
      NoHits(log[..|log| - 1], w);
    }
  }

  // What the actions of a step did to a wanted workspace: none succeeded and its name stayed, or
  // one succeeded and it got its first name by index or a different name by name.
  ghost predicate Moves(s: State, s': State, w: int)
    requires s.log <= s'.log
  {
    var hits, boots := Hits(Since(s, s'), w), Bootstraps(Since(s, s'), w);
    if hits == 0 then
      && boots == 0
      && (w in s.managed <==> w in s'.managed)
      && (w in s.managed ==> s'.managed[w] == s.managed[w])
    else
      && hits == 1 && w in s'.managed && !FailedFor(Since(s, s'), w)
      && if w in s.managed then boots == 0 && s'.managed[w] != s.managed[w] else boots == 1
  }

  lemma OneHit(x: Sent, w: int)
    ensures Hits([x], w) == if x.ok && x.ws == w then 1 else 0
    ensures Bootstraps([x], w) == if x.ok && x.ws == w && x.call.ByIndex? then 1 else 0
    ensures FailedFor([x], w) <==> !x.ok && x.ws == w
  {
    assert [x][..0] == [];
    if !x.ok && x.ws == w {
      assert [x][0] == x;
    }
  }

  lemma NameOneMoves(s: State, want: Want, w: int, ok: Outcomes)
    requires w in want
    ensures s.log <= NameOne(s, want, w, ok).log && Moves(s, NameOne(s, want, w, ok), w)
  {
    var s' := NameOne(s, want, w, ok);
    if s'.log == s.log {
      assert Since(s, s') == [];
    } else {
      assert Since(s, s') == [s'.log[|s.log|]];
      OneHit(s'.log[|s.log|], w);
    }
  }

  lemma OthersNoHits(s: State, s': State, order: seq<int>, w: int)
    requires Within(s, s', order) && w !in order
    ensures Hits(Since(s, s'), w) == Bootstraps(Since(s, s'), w) == 0
  {
    forall i | 0 <= i < |Since(s, s')|
      ensures Since(s, s')[i].ws != w
    {
      assert Since(s, s')[i] == s'.log[|s.log| + i];
    }
    NoHits(Since(s, s'), w);
  }

  // Steps about other workspaces before or after do not change how w moved.
  lemma MovesAround(s: State, s1: State, s2: State, s3: State, w: int, before: seq<int>, after: seq<int>)
    requires Within(s, s1, before) && w !in before
    requires s1.log <= s2.log && Moves(s1, s2, w)
    requires Within(s2, s3, after) && w !in after
    ensures s.log <= s3.log && Moves(s, s3, w)
  {
    OthersNoHits(s, s1, before, w);
    OthersNoHits(s2, s3, after, w);
    OthersNotFailed(s, s1, before, w);
    OthersNotFailed(s2, s3, after, w);
    assert SameAt(s, s1, w) && SameAt(s2, s3, w);
    SinceConcat(s, s1, s2);
    SinceConcat(s, s2, s3);
    HitsConcat(Since(s, s1), Since(s1, s2), w);
    HitsConcat(Since(s, s2), Since(s2, s3), w);
    FailedForConcat(Since(s, s1), Since(s1, s2), w);
    FailedForConcat(Since(s, s2), Since(s2, s3), w);
  }

  lemma WithinSelf(s: State)
    ensures Within(s, s, [])
  {
  }

  lemma {:induction false} NameAllMoves(s: State, want: Want, order: seq<int>, ok: Outcomes, w: int)
    requires NoDuplicates(order) && w in order && w in want
    ensures s.log <= NameAll(s, want, order, ok).log && Moves(s, NameAll(s, want, order, ok), w)
  {
    var rest, v := order[..|order| - 1], order[|order| - 1];
    assert order == rest + [v] && v !in rest;
    var s1, s2 := NameAll(s, want, rest, ok), NameAll(s, want, order, ok);
    NameAllWithin(s, want, rest, ok);
    if v == w {
      NameOneMoves(s1, want, w, ok);
      WithinSelf(s2);
      MovesAround(s, s1, s2, s2, w, rest, []);
    } else {
      NameAllMoves(s, want, rest, ok, w);
      if v in want {
        NameOneLocal(s1, want, v, ok);
      }
      LocalIsWithin(s1, s2, v);
      WithinSelf(s);
      MovesAround(s, s, s1, s2, w, [], [v]);
    }
  }

  lemma {:induction false} ClearAllSparesWanted(s: State, want: Want, order: seq<int>, ok: Outcomes, w: int)
    requires w in want
    ensures Within(s, ClearAll(s, want, order, ok), order)
    ensures SameAt(s, ClearAll(s, want, order, ok), w)
    ensures forall i | |s.log| <= i < |ClearAll(s, want, order, ok).log| :: ClearAll(s, want, order, ok).log[i].ws != w
  {
    ClearAllWithin(s, want, order, ok);
    if order != [] {
      var rest, v := order[..|order| - 1], order[|order| - 1];
      ClearAllSparesWanted(s, want, rest, ok, w);
      var s1, s2 := ClearAll(s, want, rest, ok), ClearAll(s, want, order, ok);
      if v in s1.managed {
        ClearOneLocal(s1, want, v, ok);
        assert v == w ==> s2 == s1;
        assert SameAt(s1, s2, w);
        forall i | |s.log| <= i < |s2.log|
          ensures s2.log[i].ws != w
        {
          if i < |s1.log| {
            assert s2.log[i] == s1.log[i];
          }
        }
      }
    }
  }

  lemma ReconcileMoves(s: State, want: Want, clearOrder: seq<int>, nameOrder: seq<int>, ok: Outcomes, w: int)
    requires w in want && Orders(s, want, clearOrder, nameOrder)
    ensures var s' := Reconcile(s, want, clearOrder, nameOrder, ok);
      s.log <= s'.log && Moves(s, s', w)
  {
    var s1, s2 := ClearAll(s, want, clearOrder, ok), Reconcile(s, want, clearOrder, nameOrder, ok);
    ClearAllSparesWanted(s, want, clearOrder, ok, w);
    NameAllMoves(s1, want, nameOrder, ok, w);
    forall i | 0 <= i < |Since(s, s1)|
      ensures Since(s, s1)[i].ws != w
    {
      assert Since(s, s1)[i] == s1.log[|s.log| + i];
    }
    NoHits(Since(s, s1), w);
    SinceConcat(s, s1, s2);
    HitsConcat(Since(s, s1), Since(s1, s2), w);
    FailedForConcat(Since(s, s1), Since(s1, s2), w);
  }

  // ---- what a reconcile sends -----------------------------------------------------

  // The action is one the state calls for: a wanted workspace is renamed from the name it is managed
  // under, if that differs, or else named by its index, on the focused output; an unwanted one has the
  // name it is managed under taken away.
  ghost predicate CalledFor(s: State, want: Want, sent: Sent) {
    var w := sent.ws;
    w in s.model.workspaces &&
    if w in want then
      exists slot: nat ::
        var name := Encode(want[w].status, slot, want[w].level);
        if w in s.managed then sent.call == ByName(s.managed[w], name) && name != s.managed[w]
        else
          && sent.call == ByIndex(s.model.workspaces[w].idx, name)
          && s.model.workspaces[w].output == s.model.focusedOutput
    else w in s.managed && sent.call == Unset(s.managed[w])
  }

  ghost predicate AllCalledFor(s: State, want: Want, log: seq<Sent>) {
    forall i | 0 <= i < |log| :: CalledFor(s, want, log[i])
  }

  lemma CalledForBefore(s: State, s1: State, want: Want, sent: Sent)
    requires SameAt(s, s1, sent.ws) && SameTopology(s.model, s1.model) && CalledFor(s1, want, sent)
    ensures CalledFor(s, want, sent)
  {
  }

  lemma NameOneCalledFor(s: State, want: Want, w: int, ok: Outcomes)
    requires w in want
    ensures s.log <= NameOne(s, want, w, ok).log
    ensures |NameOne(s, want, w, ok).log| > |s.log| ==>
      var sent := NameOne(s, want, w, ok).log[|s.log|]; sent.ws == w && CalledFor(s, want, sent)
    ensures |NameOne(s, want, w, ok).log| <= |s.log| + 1
  {
  }

  lemma ClearOneCalledFor(s: State, want: Want, w: int, ok: Outcomes)
    requires w in s.managed
    ensures s.log <= ClearOne(s, want, w, ok).log
    ensures |ClearOne(s, want, w, ok).log| > |s.log| ==>
      var sent := ClearOne(s, want, w, ok).log[|s.log|]; sent.ws == w && CalledFor(s, want, sent)
    ensures |ClearOne(s, want, w, ok).log| <= |s.log| + 1
  {
  }

  // One more action, about a workspace nothing was done to yet.
  lemma CalledForSnoc(s: State, s1: State, s2: State, want: Want, w: int)
    requires s.log <= s1.log <= s2.log && |s2.log| <= |s1.log| + 1
    requires AllCalledFor(s, want, Since(s, s1)) && SameAt(s, s1, w) && SameTopology(s.model, s1.model)
    requires |s2.log| > |s1.log| ==> s2.log[|s1.log|].ws == w && CalledFor(s1, want, s2.log[|s1.log|])
    ensures AllCalledFor(s, want, Since(s, s2))
  {
    forall i | 0 <= i < |Since(s, s2)|
      ensures CalledFor(s, want, Since(s, s2)[i])
    {
      if |s.log| + i < |s1.log| {
        assert Since(s, s2)[i] == Since(s, s1)[i];
      } else {
        CalledForBefore(s, s1, want, s2.log[|s1.log|]);
      }
    }
  }

  lemma {:induction false} ClearAllCalledFor(s: State, want: Want, order: seq<int>, ok: Outcomes)
    requires NoDuplicates(order)
    ensures s.log <= ClearAll(s, want, order, ok).log
    ensures AllCalledFor(s, want, Since(s, ClearAll(s, want, order, ok)))
  {
    ClearAllWithin(s, want, order, ok);
    if order != [] {
      var rest, w := order[..|order| - 1], order[|order| - 1];
      assert order == rest + [w] && w !in rest;
      ClearAllCalledFor(s, want, rest, ok);
      ClearAllWithin(s, want, rest, ok);
      var s1 := ClearAll(s, want, rest, ok);
      if w in s1.managed {
        ClearOneCalledFor(s1, want, w, ok);
        CalledForSnoc(s, s1, ClearOne(s1, want, w, ok), want, w);
      }
    }
  }

  lemma {:induction false} NameAllCalledFor(s: State, want: Want, order: seq<int>, ok: Outcomes)
    requires NoDuplicates(order)
    ensures s.log <= NameAll(s, want, order, ok).log
    ensures AllCalledFor(s, want, Since(s, NameAll(s, want, order, ok)))
  {
    NameAllWithin(s, want, order, ok);
    if order != [] {
      var rest, w := order[..|order| - 1], order[|order| - 1];
      assert order == rest + [w] && w !in rest;
      NameAllCalledFor(s, want, rest, ok);
      NameAllWithin(s, want, rest, ok);
      var s1 := NameAll(s, want, rest, ok);
      if w in want {
        NameOneCalledFor(s1, want, w, ok);
        CalledForSnoc(s, s1, NameOne(s1, want, w, ok), want, w);
      }
    }
  }

  // Every action of a reconcile is one the state it started from calls for, whatever the compositor
  // shows, whatever fails.
  lemma ReconcileCalledFor(s: State, want: Want, clearOrder: seq<int>, nameOrder: seq<int>, ok: Outcomes)
    requires Orders(s, want, clearOrder, nameOrder)
    ensures var s' := Reconcile(s, want, clearOrder, nameOrder, ok);
      s.log <= s'.log && AllCalledFor(s, want, Since(s, s'))
  {
    var s1, s' := ClearAll(s, want, clearOrder, ok), Reconcile(s, want, clearOrder, nameOrder, ok);
    ClearAllCalledFor(s, want, clearOrder, ok);
    ClearAllWithin(s, want, clearOrder, ok);
    NameAllCalledFor(s1, want, nameOrder, ok);
    NameAllWithin(s1, want, nameOrder, ok);
    forall w | w in nameOrder
      ensures SameAt(s, s1, w)
    {
      ClearAllSparesWanted(s, want, clearOrder, ok, w);
    }
    CalledForConcat(s, s1, s', want, nameOrder);
  }

  lemma CalledForConcat(s: State, s1: State, s': State, want: Want, order: seq<int>)
    requires s.log <= s1.log && AllCalledFor(s, want, Since(s, s1)) && SameTopology(s.model, s1.model)
    requires Within(s1, s', order) && AllCalledFor(s1, want, Since(s1, s'))
    requires forall w | w in order :: SameAt(s, s1, w)
    ensures s.log <= s'.log && AllCalledFor(s, want, Since(s, s'))
  {
    SinceConcat(s, s1, s');
    forall i | 0 <= i < |Since(s, s')|
      ensures CalledFor(s, want, Since(s, s')[i])
    {
      if i < |Since(s, s1)| {
        assert Since(s, s')[i] == Since(s, s1)[i];
      } else {
        var sent := Since(s1, s')[i - |Since(s, s1)|];
        assert sent == s'.log[|s1.log| + (i - |Since(s, s1)|)];
        CalledForBefore(s, s1, want, sent);
      }
    }
  }

  // ---- unbounded runs ---------------------------------------------------------

  // One reconcile of a run: whatever topology and desired map it finds.
  datatype Beat = Beat(model: Niri.Topology, want: Want, clearOrder: seq<int>, nameOrder: seq<int>)

  function Run(s: State, beats: seq<Beat>, ok: Outcomes): State {
    if beats == [] then s
    else
      var s := Run(s, beats[..|beats| - 1], ok);
      var b := beats[|beats| - 1];
      Reconcile(s.(model := b.model), b.want, b.clearOrder, b.nameOrder, ok)
  }

  ghost predicate ProperRun(s: State, beats: seq<Beat>, ok: Outcomes) {
    beats == [] ||
    (ProperRun(s, beats[..|beats| - 1], ok) &&
     var b := beats[|beats| - 1];
     Orders(Run(s, beats[..|beats| - 1], ok), b.want, b.clearOrder, b.nameOrder))
  }

  // Throughout the run w is wanted idle, at levels that never brighten.
  ghost predicate Fading(beats: seq<Beat>, w: int) {
    && (forall i | 0 <= i < |beats| ::
          w in beats[i].want && beats[i].want[w].status == Idle && beats[i].want[w].level < DECAY_LEVELS)
    && (forall i, j | 0 <= i <= j < |beats| :: beats[i].want[w].level <= beats[j].want[w].level)
  }

  // The name shows the slot at a level no dimmer than last that pays for the hits.
  ghost predicate Affords(name: string, slot: int, hits: nat, last: nat) {
    exists level: nat :: level <= last && hits <= 1 + level && name == Encode(Idle, Natural(slot), level)
  }

  // No action about w has succeeded: it is managed as before, or not at all as before.
  ghost predicate Untouched(s: State, s': State, w: int) {
    && (w in s.managed <==> w in s'.managed)
    && (w in s.managed ==> s'.managed[w] == s.managed[w])
  }

  // The progress of w: no action about it has succeeded, or it is named at some level no dimmer than
  // the last one asked for and every action was paid for by the first name or by a level.
  ghost predicate Paid(s: State, s': State, w: int, last: nat)
    requires s.log <= s'.log
  {
    var hits, boots := Hits(Since(s, s'), w), Bootstraps(Since(s, s'), w);
    if hits == 0 then boots == 0 && Untouched(s, s', w)
    else
      && w in s'.managed && w in s'.slots.byWs
      && boots == (if w in s.managed then 0 else 1)
      && Affords(s'.managed[w], s'.slots.byWs[w], hits, last)
  }

  // The bound: one action per level, one of them by index if w was not managed. So an unmanaged
  // workspace costs a bootstrap and a rename for every level but one.
  ghost predicate Cheap(s: State, s': State, w: int)
    requires s.log <= s'.log
  {
    var hits, boots := Hits(Since(s, s'), w), Bootstraps(Since(s, s'), w);
    && hits <= DECAY_LEVELS
    && if w in s.managed then boots == 0 else boots <= 1 && hits - boots <= DECAY_LEVELS - 1
  }

  lemma PaidIsCheap(s: State, s': State, w: int, last: nat)
    requires s.log <= s'.log && Paid(s, s', w, last) && last < DECAY_LEVELS
    ensures Cheap(s, s', w)
  {
  }

  lemma {:induction false} RunPaid(s: State, beats: seq<Beat>, ok: Outcomes, w: int)
    requires Weak(s) && ProperRun(s, beats, ok) && Fading(beats, w)
    ensures Weak(Run(s, beats, ok)) && s.log <= Run(s, beats, ok).log
    ensures Paid(s, Run(s, beats, ok), w, if beats == [] then 0 else beats[|beats| - 1].want[w].level)
  {
    if beats == [] {
      assert Since(s, s) == [];
    } else {
      var init, b := beats[..|beats| - 1], beats[|beats| - 1];
      RunPaid(s, init, ok, w);
      BeatPaid(s, Run(s, init, ok), b, ok, w, if init == [] then 0 else init[|init| - 1].want[w].level);
    }
  }

  // A wanted workspace that is managed keeps the slot it has, and a name the reconcile gave it is
  // the one asked for.
  lemma WantedKeepsSlot(s: State, want: Want, clearOrder: seq<int>, nameOrder: seq<int>, ok: Outcomes, w: int)
    requires Weak(s) && Orders(s, want, clearOrder, nameOrder) && w in want
    ensures var s' := Reconcile(s, want, clearOrder, nameOrder, ok);
      && Weak(s')
      && (w in s.managed && w in s.slots.byWs ==> w in s'.slots.byWs && s'.slots.byWs[w] == s.slots.byWs[w])
      && (w in s'.managed && (w !in s.managed || s'.managed[w] != s.managed[w]) ==>
            && w in s'.slots.byWs && InRange(s'.slots.byWs[w])
            && s'.managed[w] == Encode(want[w].status, Natural(s'.slots.byWs[w]), want[w].level))
  {
    ReconcileWeak(s, want, clearOrder, nameOrder, ok);
    ReconcileFate(s, want, clearOrder, nameOrder, ok, w);
  }

  lemma BeatPaid(s: State, s1: State, b: Beat, ok: Outcomes, w: int, last: nat)
    requires Weak(s1) && s.log <= s1.log && Paid(s, s1, w, last)
    requires Orders(s1, b.want, b.clearOrder, b.nameOrder)
    requires w in b.want && b.want[w].status == Idle && last <= b.want[w].level < DECAY_LEVELS
    ensures var s2 := Reconcile(s1.(model := b.model), b.want, b.clearOrder, b.nameOrder, ok);
      Weak(s2) && s.log <= s2.log && Paid(s, s2, w, b.want[w].level)
  {
    var m := s1.(model := b.model);
    var s2 := Reconcile(m, b.want, b.clearOrder, b.nameOrder, ok);
    ReconcileMoves(m, b.want, b.clearOrder, b.nameOrder, ok, w);
    WantedKeepsSlot(m, b.want, b.clearOrder, b.nameOrder, ok, w);
    assert Since(m, s2) == Since(s1, s2);
    SinceConcat(s, s1, s2);
    HitsConcat(Since(s, s1), Since(s1, s2), w);
    PaidStep(m, s2, w, Hits(Since(s, s1), w), last, b.want[w].level);
  }

  // One successful action about w raises the level its name carries.
  lemma PaidStep(s1: State, s2: State, w: int, hits: nat, last: nat, level: nat)
    requires s1.log <= s2.log && Moves(s1, s2, w) && last <= level < DECAY_LEVELS
    requires hits > 0 ==>
      w in s1.managed && w in s1.slots.byWs && Affords(s1.managed[w], s1.slots.byWs[w], hits, last)
    requires w in s1.managed && w in s1.slots.byWs ==>
      w in s2.slots.byWs && s2.slots.byWs[w] == s1.slots.byWs[w]
    requires w in s2.managed && (w !in s1.managed || s2.managed[w] != s1.managed[w]) ==>
      w in s2.slots.byWs && s2.managed[w] == Encode(Idle, Natural(s2.slots.byWs[w]), level)
    ensures hits + Hits(Since(s1, s2), w) > 0 ==>
      && w in s2.managed && w in s2.slots.byWs
      && Affords(s2.managed[w], s2.slots.byWs[w], hits + Hits(Since(s1, s2), w), level)
  {
    if hits > 0 {
      var l: nat :| l <= last && hits <= 1 + l && s1.managed[w] == Encode(Idle, Natural(s1.slots.byWs[w]), l);
      if Hits(Since(s1, s2), w) != 0 {
        assert l != level;
        assert level <= level && hits + 1 <= 1 + level;
      }
    } else if Hits(Since(s1, s2), w) != 0 {
      assert level <= level && 1 <= 1 + level;
    }
  }

  // Over any run, however long and whatever else happens, a workspace that only fades causes at most
  // one action per level, among them a bootstrap only if it was not managed when the run began.
  lemma FadingIsCheap(s: State, beats: seq<Beat>, ok: Outcomes, w: int)
    requires Weak(s) && ProperRun(s, beats, ok) && Fading(beats, w)
    ensures s.log <= Run(s, beats, ok).log && Cheap(s, Run(s, beats, ok), w)
  {
    RunPaid(s, beats, ok, w);
    PaidIsCheap(s, Run(s, beats, ok), w, if beats == [] then 0 else beats[|beats| - 1].want[w].level);
  }

  // The desired maps of a run are computed from one session set over fixed windows, while the
  // clock does not go back.
  ghost predicate SameSessions(beats: seq<Beat>, sessions: seq<Rows.Session>, windows: Windows, clock: seq<int>) {
    && |clock| == |beats|
    && (forall i, j | 0 <= i <= j < |clock| :: clock[i] <= clock[j])
    && (forall i | 0 <= i < |beats| ::
          beats[i].model.windows == windows && IsAggregate(sessions, windows, clock[i], beats[i].want))
  }

  // The same bound from the sessions' side: idle sessions that only age, under any nondecreasing
  // clock, through focus changes, failures and whatever the other workspaces do.
  lemma AgingSessionsAreCheap(
    s: State, beats: seq<Beat>, ok: Outcomes, w: int, sessions: seq<Rows.Session>, windows: Windows, clock: seq<int>)
    requires Weak(s) && ProperRun(s, beats, ok)
    requires SameSessions(beats, sessions, windows, clock)
    requires Hosts(sessions, windows, w)
    requires forall r | r in sessions && WorkspaceOf(r, windows) == Some(w) :: SessionStatus(r) == Idle
    ensures s.log <= Run(s, beats, ok).log && Cheap(s, Run(s, beats, ok), w)
  {
    forall i, j | 0 <= i <= j < |beats|
      ensures w in beats[i].want && beats[i].want[w].status == Idle
      ensures w in beats[j].want && beats[i].want[w].level <= beats[j].want[w].level < DECAY_LEVELS
    {
      AllIdleFades(sessions, windows, w, clock[i], clock[j], beats[i].want, beats[j].want);
    }
    FadingIsCheap(s, beats, ok, w);
  }
}
