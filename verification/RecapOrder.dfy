// Which sessions a digest details, and what its rest covers, against the order of the events: every
// order of a window's rows is that of some order of its events.
module RecapOrder {
  import opened Wrappers
  import opened Collections
  import opened Sorting
  import opened Rows
  import opened AuditLog
  import Intervals
  import opened SessionSummary
  import opened Recap
  import opened RecapTotals

  // ---- the events session by session -------------------------------------------------------

  function Regroup(w: seq<Event>, sids: seq<string>): seq<Event> {
    if sids == [] then [] else Regroup(w, sids[..|sids| - 1]) + OfSession(w, sids[|sids| - 1])
  }

  lemma {:induction false} OfSessionConcat(a: seq<Event>, b: seq<Event>, sid: string)
    ensures OfSession(a + b, sid) == OfSession(a, sid) + OfSession(b, sid)
  {
    if b == [] {
      assert a + b == a;
    } else {
      var init, e := b[..|b| - 1], b[|b| - 1];
      OfSessionConcat(a, init, sid);
      assert a + b == (a + init) + [e];
      OfSessionSnoc(a + init, e, sid);
    }
  }

  lemma {:induction false} OfOneSession(block: seq<Event>, own: string, sid: string)
    requires forall e | e in block :: e.session == own
    ensures OfSession(block, sid) == if sid == own then block else []
  {
    if block != [] {
      var init, e := block[..|block| - 1], block[|block| - 1];
      assert block == init + [e] && e in block;
      OfOneSession(init, own, sid);
    }
  }

  lemma {:induction false} RegroupSession(w: seq<Event>, sids: seq<string>, sid: string)
    requires NoDuplicates(sids)
    ensures OfSession(Regroup(w, sids), sid) == if sid in sids then OfSession(w, sid) else []
  {
    if sids != [] {
      var init, last := sids[..|sids| - 1], sids[|sids| - 1];
      assert sids == init + [last] && last !in init;
      RegroupSession(w, init, sid);
      OfSessionMembers(w, last);
      OfOneSession(OfSession(w, last), last, sid);
      OfSessionConcat(Regroup(w, init), OfSession(w, last), sid);
    }
  }

  lemma {:induction false} FirstSeenBlock(a: seq<Event>, block: seq<Event>, sid: string)
    requires block != [] && (forall e | e in block :: e.session == sid) && sid !in FirstSeen(a)
    ensures FirstSeen(a + block) == FirstSeen(a) + [sid]
  {
    var init, e := block[..|block| - 1], block[|block| - 1];
    assert e in block && forall x | x in init :: x in block;
    assert (a + block)[..|a + block| - 1] == a + init;
    if init != [] {
      FirstSeenBlock(a, init, sid);
    } else {
      assert a + init == a;
    }
  }

  lemma {:induction false} RegroupFirstSeen(w: seq<Event>, sids: seq<string>)
    requires NoDuplicates(sids) && forall sid | sid in sids :: OfSession(w, sid) != []
    ensures FirstSeen(Regroup(w, sids)) == sids
  {
    if sids != [] {
      var init, last := sids[..|sids| - 1], sids[|sids| - 1];
      assert sids == init + [last] && last !in init && last in sids;
      RegroupFirstSeen(w, init);
      OfSessionMembers(w, last);
      FirstSeenBlock(Regroup(w, init), OfSession(w, last), last);
    }
  }

  // Regrouped in any order of the sessions, the events differ in no session and no tie, and the
  // sessions are first seen in that order.
  lemma RegroupAgrees(w: seq<Event>, sids: seq<string>)
    requires Enumerates(sids, set sid | sid in FirstSeen(w))
    ensures SameTies(w, Regroup(w, sids)) && FirstSeen(Regroup(w, sids)) == sids
    ensures forall sid :: OfSession(Regroup(w, sids), sid) == OfSession(w, sid)
  {
    FirstSeenFacts(w);
    RegroupFirstSeen(w, sids);
    forall sid
      ensures OfSession(Regroup(w, sids), sid) == OfSession(w, sid)
    {
      RegroupSession(w, sids, sid);
      assert OfSession(w, sid) != [] ==> sid in FirstSeen(w);
    }
  }

  lemma {:induction false} AllInWindow(events: seq<Event>, from: int, to: int)
    requires forall e | e in events :: from <= e.ts <= to
    ensures InWindow(events, from, to) == events
  {
    if events != [] {
      var init, e := events[..|events| - 1], events[|events| - 1];
      assert events == init + [e] && e in events;
      AllInWindow(init, from, to);
    }
  }

  lemma RegroupInWindow(w: seq<Event>, sids: seq<string>, from: int, to: int)
    requires (forall e | e in w :: from <= e.ts <= to) && NoDuplicates(sids)
    ensures InWindow(Regroup(w, sids), from, to) == Regroup(w, sids)
  {
    var v := Regroup(w, sids);
    forall e | e in v
      ensures from <= e.ts <= to
    {
      OfSessionMembers(v, e.session);
      RegroupSession(w, sids, e.session);
      OfSessionMembers(w, e.session);
    }
    AllInWindow(v, from, to);
  }

  // ---- every order of the rows is reached ----------------------------------------------------

  // At most one row per session, bearing its id.
  ghost predicate OneRowEach(f: string -> seq<SessionRow>) {
    forall sid :: f(sid) == [] || (|f(sid)| == 1 && f(sid)[0].summary.id == sid)
  }

  ghost function Ids(rows: seq<SessionRow>): seq<string> {
    seq(|rows|, i requires 0 <= i < |rows| => rows[i].summary.id)
  }

  // The sessions without a row.
  ghost function Silent(sids: seq<string>, f: string -> seq<SessionRow>): seq<string> {
    if sids == [] then []
    else Silent(sids[..|sids| - 1], f) + if f(sids[|sids| - 1]) == [] then [sids[|sids| - 1]] else []
  }

  lemma {:induction false} SilentFacts(sids: seq<string>, f: string -> seq<SessionRow>)
    ensures forall sid :: sid in Silent(sids, f) <==> sid in sids && f(sid) == []
    ensures NoDuplicates(sids) ==> NoDuplicates(Silent(sids, f))
  {
    if sids != [] {
      var init, last := sids[..|sids| - 1], sids[|sids| - 1];
      assert sids == init + [last];
      SilentFacts(init, f);
    }
  }

  lemma {:induction false} SilentAdds(
    rows: seq<SessionRow>, a: seq<string>, b: seq<string>, f: string -> seq<SessionRow>)
    requires FlatMap(a, f) == rows && forall sid | sid in b :: f(sid) == []
    ensures FlatMap(a + b, f) == rows
  {
    if b == [] {
      assert a + b == a;
    } else {
      var init, last := b[..|b| - 1], b[|b| - 1];
      assert b == init + [last] && last in b;
      SilentAdds(rows, a, init, f);
      assert a + b == (a + init) + [last];
      FlatMapSnoc(a + init, last, f);
    }
  }

  lemma {:induction false} IdsGiveRows(rows: seq<SessionRow>, f: string -> seq<SessionRow>)
    requires forall r | r in rows :: f(r.summary.id) == [r]
    ensures FlatMap(Ids(rows), f) == rows
  {
    if rows != [] {
      var init, last := rows[..|rows| - 1], rows[|rows| - 1];
      assert rows == init + [last] && last in rows;
      IdsGiveRows(init, f);
      assert Ids(rows) == Ids(init) + [last.summary.id];
      FlatMapSnoc(Ids(init), last.summary.id, f);
    }
  }

  lemma RowsHaveIds(sids: seq<string>, f: string -> seq<SessionRow>, rows: seq<SessionRow>)
    requires OneRowEach(f) && multiset(rows) == multiset(FlatMap(sids, f))
    ensures forall r :: r in rows <==> r.summary.id in sids && f(r.summary.id) == [r]
  {
    SameMembers(rows, FlatMap(sids, f));
    FlatMapMembers(sids, f);
    forall r
      ensures r in rows <==> r.summary.id in sids && f(r.summary.id) == [r]
    {
      if r in rows {
        var x :| x in sids && r in f(x);
      }
      if r.summary.id in sids && f(r.summary.id) == [r] {
        assert [r][0] in f(r.summary.id);
      }
    }
  }

  lemma IdsEnumerate(
    sids: seq<string>, f: string -> seq<SessionRow>, rows: seq<SessionRow>, silent: seq<string>)
    requires NoDuplicates(sids) && NoDuplicates(rows) && NoDuplicates(silent) && OneRowEach(f)
    requires forall r :: r in rows <==> r.summary.id in sids && f(r.summary.id) == [r]
    requires forall sid :: sid in silent <==> sid in sids && f(sid) == []
    ensures Enumerates(Ids(rows) + silent, set sid | sid in sids)
  {
    var ids := Ids(rows);
    assert forall i | 0 <= i < |rows| :: rows[i] in rows && f(ids[i]) == [rows[i]];
    forall sid | sid in sids
      ensures sid in ids + silent
    {
      if f(sid) != [] {
        var r := f(sid)[0];
        assert f(sid) == [r] && r in rows;
        var i :| 0 <= i < |rows| && rows[i] == r;
        assert ids[i] == sid;
      }
    }
  }

  // Some order of the sessions gives the rows in the order wanted.
  lemma OrderFor(sids: seq<string>, f: string -> seq<SessionRow>, rows: seq<SessionRow>) returns (order: seq<string>)
    requires NoDuplicates(sids) && OneRowEach(f) && NoDuplicates(rows)
    requires multiset(rows) == multiset(FlatMap(sids, f))
    ensures Enumerates(order, set sid | sid in sids) && FlatMap(order, f) == rows
  {
    RowsHaveIds(sids, f, rows);
    SilentFacts(sids, f);
    var silent := Silent(sids, f);
    IdsEnumerate(sids, f, rows, silent);
    IdsGiveRows(rows, f);
    SilentAdds(rows, Ids(rows), silent, f);
    order := Ids(rows) + silent;
  }

  lemma RowerGivesOneEach(w: seq<Event>, to: int, sources: Sources)
    ensures OneRowEach(Rower(w, to, sources))
  {
  }

  lemma SameRows(w: seq<Event>, v: seq<Event>, sids: seq<string>, to: int, sources: Sources)
    requires forall sid :: OfSession(v, sid) == OfSession(w, sid)
    ensures RowsOf(v, sids, to, sources) == RowsOf(w, sids, to, sources)
  {
    forall sid | sid in sids
      ensures Rower(v, to, sources)(sid) == Rower(w, to, sources)(sid)
    {
    }
    FlatMapAgree(sids, Rower(v, to, sources), Rower(w, to, sources));
  }

  // Whatever order of a window's rows, some order of its events gives it, without touching the order
  // of events that share session and timestamp.
  lemma RowOrderReached(events: seq<Event>, from: int, to: int, sources: Sources, rows: seq<SessionRow>)
    returns (b: seq<Event>)
    requires multiset(rows) == multiset(WindowRows(events, from, to, sources))
    ensures SameTies(InWindow(events, from, to), InWindow(b, from, to))
    ensures WindowRows(b, from, to, sources) == rows
  {
    var w := InWindow(events, from, to);
    var all := WindowRows(events, from, to, sources);
    WindowRowsDistinct(events, from, to, sources);
    EnumeratesPermuted(all, rows, (set r | r in all));
    FirstSeenFacts(w);
    RowerGivesOneEach(w, to, sources);
    var order := OrderFor(FirstSeen(w), Rower(w, to, sources), rows);
    b := Regroup(w, order);
    RegroupAgrees(w, order);
    InWindowMembers(events, from, to);
    RegroupInWindow(w, order, from, to);
    SameRows(w, b, order, to, sources);
  }

  // ---- the cut against the order of the events ------------------------------------------------

  // The two lists of rows have the same sessions detailed and the same projects cut off.
  ghost predicate SameCutOff(a: seq<SessionRow>, b: seq<SessionRow>, topN: int) {
    && multiset(Detailed(a, topN)) == multiset(Detailed(b, topN))
    && ProjectsIn(Omitted(a, topN)) == ProjectsIn(Omitted(b, topN))
  }

  // Which sessions a digest details, and which projects it cuts off, is independent of the order of
  // its events exactly when active time drops across the cut.
  lemma DetailedIndependentIff(events: seq<Event>, from: int, to: int, topN: int, sources: Sources)
    ensures NoTieAtCut(WindowRows(events, from, to, sources), topN) <==>
      forall b | SameTies(InWindow(events, from, to), InWindow(b, from, to)) ::
        SameCutOff(WindowRows(events, from, to, sources), WindowRows(b, from, to, sources), topN)
  {
    var rows := WindowRows(events, from, to, sources);
    if NoTieAtCut(rows, topN) {
      forall b | SameTies(InWindow(events, from, to), InWindow(b, from, to))
        ensures SameCutOff(rows, WindowRows(b, from, to, sources), topN)
      {
        OrderInvariant(events, b, from, to, sources);
        CutAgrees(rows, WindowRows(b, from, to, sources), topN);
      }
    } else {
      WindowRowsDistinct(events, from, to, sources);
      TieAdmitsAnother(rows, topN);
      var b := RowOrderReached(events, from, to, sources, Exchanged(Ranked(rows), topN));
      assert !SameCutOff(rows, WindowRows(b, from, to, sources), topN);
    }
  }

  // ---- an input ---------------------------------------------------------------------------------

  // A session of its own project "x", and others of "y", one prompt each.
  const DESK := Sources(
    (sid: string) => Some(Meta("", "", if sid == "a" then "x" else "y", "", [])), None, (path: string) => path)

  function Prompt(sid: string): Event {
    Event(0, sid, "UserPromptSubmit", None, None, "working", None, None)
  }

  const MINUTE := 60_000

  lemma OnePromptBeats(sid: string)
    ensures Beats([Prompt(sid)], 1, MINUTE) == [Intervals.Interval(0, MINUTE)]
  {
    var evs := [Prompt(sid)];
    assert evs[..1] == evs && evs[..0] == [];
    assert EffectiveState(evs) == "working";
    assert Beats(evs, 0, MINUTE) == [];
    assert Beat(evs, 0, MINUTE) == [Intervals.Interval(0, MINUTE)];
  }

  lemma OnePromptCounts(sid: string)
    ensures SummaryOf([Prompt(sid)], sid, MINUTE).prompts == 1
  {
    var evs := [Prompt(sid)];
    assert evs[..0] == [];
    assert Count(evs, IsPromptSubmit()) == Count(evs[..0], IsPromptSubmit()) + 1;
  }

  // The rows of such sessions tie.
  lemma PromptSeq(w: seq<Event>, sid: string) returns (r: SessionRow)
    requires OfSession(w, sid) == [Prompt(sid)]
    ensures RowSeq(w, sid, MINUTE, DESK) == [r] && r.project == (if sid == "a" then "x" else "y")
    ensures r.active == Intervals.Measure([Intervals.Interval(0, MINUTE)])
  {
    var one := [Prompt(sid)];
    assert one[..0] == [];
    assert StableSort(one, Ts()) == one;
    OnePromptBeats(sid);
    OnePromptCounts(sid);
    r := RowOf(one, sid, MINUTE, DESK);
  }

  lemma {:induction false} PromptsFacts(sids: seq<string>, w: seq<Event>)
    requires NoDuplicates(sids) && |w| == |sids| && forall i | 0 <= i < |sids| :: w[i] == Prompt(sids[i])
    ensures FirstSeen(w) == sids
    ensures forall sid | sid in sids :: OfSession(w, sid) == [Prompt(sid)]
    ensures forall sid | sid !in sids :: OfSession(w, sid) == []
  {
    if sids != [] {
      var init, last := sids[..|sids| - 1], sids[|sids| - 1];
      assert sids == init + [last] && last !in init;
      PromptsFacts(init, w[..|w| - 1]);
    }
  }

  lemma ThreeRows(w: seq<Event>, x: string, y: string, z: string) returns (a: SessionRow, b: SessionRow, c: SessionRow)
    requires FirstSeen(w) == [x, y, z] && InWindow(w, 0, MINUTE) == w
    requires OfSession(w, x) == [Prompt(x)] && OfSession(w, y) == [Prompt(y)] && OfSession(w, z) == [Prompt(z)]
    ensures WindowRows(w, 0, MINUTE, DESK) == [a, b, c] && a.active == b.active == c.active
    ensures b.project == (if y == "a" then "x" else "y") && c.project == (if z == "a" then "x" else "y")
  {
    a := PromptSeq(w, x);
    b := PromptSeq(w, y);
    c := PromptSeq(w, z);
    FlatMapThree(x, y, z, Rower(w, MINUTE, DESK), a, b, c);
  }

  lemma FlatMapThree(
    x: string, y: string, z: string, f: string -> seq<SessionRow>, a: SessionRow, b: SessionRow, c: SessionRow)
    requires f(x) == [a] && f(y) == [b] && f(z) == [c]
    ensures FlatMap([x, y, z], f) == [a, b, c]
  {
    FlatMapSnoc([x, y], z, f);
    FlatMapSnoc([x], y, f);
    FlatMapSnoc([], x, f);
    assert [x] + [y] == [x, y] && [x, y] + [z] == [x, y, z] && [] + [x] == [x];
  }

  function Prompts(sids: seq<string>): seq<Event> {
    seq(|sids|, i requires 0 <= i < |sids| => Prompt(sids[i]))
  }

  lemma ProjectsOmitted(x: SessionRow, y: SessionRow, z: SessionRow)
    requires x.active == y.active == z.active
    ensures |ProjectsIn(Omitted([x, y, z], 1))| == if y.project == z.project then 1 else 2
  {
    OmittedOfThree(x, y, z);
    ProjectsOfTwo(y, z);
  }

  lemma ProjectsCutOff(w: seq<Event>, x: string, y: string, z: string)
    requires NoDuplicates([x, y, z]) && w == Prompts([x, y, z])
    ensures |ProjectsIn(Omitted(WindowRows(w, 0, MINUTE, DESK), 1))| == if (y == "a") == (z == "a") then 1 else 2
  {
    PromptsFacts([x, y, z], w);
    AllInWindow(w, 0, MINUTE);
    assert x in [x, y, z] && y in [x, y, z] && z in [x, y, z];
    var a, b, c := ThreeRows(w, x, y, z);
    ProjectsOmitted(a, b, c);
  }

  lemma PromptsTie(a: seq<string>, b: seq<string>)
    requires NoDuplicates(a) && NoDuplicates(b) && forall sid :: sid in a <==> sid in b
    ensures SameTies(InWindow(Prompts(a), 0, MINUTE), InWindow(Prompts(b), 0, MINUTE))
  {
    PromptsFacts(a, Prompts(a));
    PromptsFacts(b, Prompts(b));
    AllInWindow(Prompts(a), 0, MINUTE);
    AllInWindow(Prompts(b), 0, MINUTE);
    assert forall sid :: OfSession(Prompts(a), sid) == OfSession(Prompts(b), sid);
  }

  // Three equally active sessions of two projects, of which one is detailed: the order of their
  // events decides whether one project or two are cut off.
  lemma OmittedProjectsDepend()
    ensures
      var v, w := Prompts(["a", "b", "c"]), Prompts(["b", "a", "c"]);
      && SameTies(InWindow(v, 0, MINUTE), InWindow(w, 0, MINUTE))
      && |ProjectsIn(Omitted(WindowRows(v, 0, MINUTE, DESK), 1))| == 1
      && |ProjectsIn(Omitted(WindowRows(w, 0, MINUTE, DESK), 1))| == 2
  {
    PromptsTie(["a", "b", "c"], ["b", "a", "c"]);
    ProjectsCutOff(Prompts(["a", "b", "c"]), "a", "b", "c");
    ProjectsCutOff(Prompts(["b", "a", "c"]), "b", "a", "c");
  }

  lemma OmittedOfThree(x: SessionRow, y: SessionRow, z: SessionRow)
    requires x.active == y.active == z.active
    ensures Omitted([x, y, z], 1) == [y, z]
  {
    var s := [x, y, z];
    assert forall i | 0 <= i < |s| :: LeastActiveLast()(s[i]) == -x.active;
    OmittedOfRanked(s, 1);
    assert s[1..] == [y, z];
  }

  lemma OmittedOfRanked(s: seq<SessionRow>, n: nat)
    requires SortedByKey(s, LeastActiveLast()) && 0 < n < |s|
    ensures Omitted(s, n) == s[n..]
  {
    RankedIsItself(s);
  }

  lemma ProjectsOfTwo(x: SessionRow, y: SessionRow)
    ensures ProjectsIn([x, y]) == {x.project, y.project}
  {
    assert x in [x, y] && y in [x, y];
  }
}
