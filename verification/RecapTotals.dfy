// What a digest conserves and bounds, and that its figures do not depend on the order of the
// events it was built from.
module RecapTotals {
  import opened Collections
  import opened Sorting
  import opened Rows
  import opened AuditLog
  import opened Intervals
  import opened SessionSummary
  import opened Recap

  // ---- active time --------------------------------------------------------------------

  // The session's row, if it has one, carries its id and the time its heartbeats cover.
  ghost predicate OneContribution(rows: seq<SessionRow>, beats: seq<Interval>, sid: string) {
    (rows == [] && beats == []) || (|rows| == 1 && rows[0].summary.id == sid && rows[0].active == Measure(beats))
  }

  ghost predicate Contributes(
    sids: seq<string>, rower: string -> seq<SessionRow>, beater: string -> seq<Interval>)
  {
    forall sid | sid in sids :: OneContribution(rower(sid), beater(sid), sid)
  }

  lemma Contributions(events: seq<Event>, sids: seq<string>, to: int, sources: Sources)
    ensures Contributes(sids, Rower(events, to, sources), Beater(events, to, sources))
  {
  }

  // The union over sessions is at most the sum, and at least the largest single session.
  ghost predicate Bounded(rows: seq<SessionRow>, beats: seq<Interval>) {
    Measure(beats) <= Sum(rows, ActiveOf()) && forall i | 0 <= i < |rows| :: rows[i].active <= Measure(beats)
  }

  lemma BoundedStep(rows: seq<SessionRow>, beats: seq<Interval>, r: SessionRow, own: seq<Interval>)
    requires Bounded(rows, beats) && r.active == Measure(own)
    ensures Bounded(rows + [r], beats + own)
  {
    MeasureConcat(beats, own);
    SubsetSize(CoveredSet(beats), CoveredSet(beats + own));
    SubsetSize(CoveredSet(own), CoveredSet(beats + own));
    SumSnoc(rows, r, ActiveOf());
  }

  lemma BoundedSnoc(rows: seq<SessionRow>, beats: seq<Interval>, one: seq<SessionRow>, own: seq<Interval>, sid: string)
    requires Bounded(rows, beats) && OneContribution(one, own, sid)
    ensures Bounded(rows + one, beats + own)
  {
    if one == [] {
      assert rows + one == rows && beats + own == beats;
    } else {
      BoundedStep(rows, beats, one[0], own);
      assert one == [one[0]];
    }
  }

  lemma {:induction false} AllBounded(
    sids: seq<string>, rower: string -> seq<SessionRow>, beater: string -> seq<Interval>)
    requires Contributes(sids, rower, beater)
    ensures Bounded(FlatMap(sids, rower), FlatMap(sids, beater))
  {
    if sids != [] {
      var init, sid := sids[..|sids| - 1], sids[|sids| - 1];
      AllBounded(init, rower, beater);
      BoundedSnoc(FlatMap(init, rower), FlatMap(init, beater), rower(sid), beater(sid), sid);
    }
  }

  lemma ActiveBounds(events: seq<Event>, sids: seq<string>, to: int, sources: Sources)
    ensures Bounded(RowsOf(events, sids, to, sources), BeatsOf(events, sids, to, sources))
  {
    Contributions(events, sids, to, sources);
    AllBounded(sids, Rower(events, to, sources), Beater(events, to, sources));
  }

  lemma MulMono(n: int, a: int, b: int)
    requires n >= 0 && a <= b
    ensures n * a <= n * b
  {
  }

  lemma MulCancel(n: int, a: int, b: int)
    requires n > 0 && n * a < n * (b + 1)
    ensures a <= b
  {
    if b < a {
      MulMono(n, b + 1, a);
    }
  }

  lemma MulSucc(n: int, x: int)
    ensures (n + 1) * x == n * x + x
  {
  }

  lemma {:induction false} SumBetween(rows: seq<SessionRow>, least: int, most: int)
    requires forall r | r in rows :: least <= r.active <= most
    ensures |rows| * least <= Sum(rows, ActiveOf()) <= |rows| * most
  {
    if rows != [] {
      var init, r := rows[..|rows| - 1], rows[|rows| - 1];
      assert r in rows && forall q | q in init :: q in rows;
      SumBetween(init, least, most);
      MulSucc(|init|, least);
      MulSucc(|init|, most);
    }
  }

  lemma DivBetween(sum: int, n: int, least: int, most: int)
    requires n > 0 && n * least <= sum <= n * most
    ensures least <= sum / n <= most
  {
    var q := sum / n;
    assert n * q <= sum < n * (q + 1);
    MulCancel(n, least, q);
    assert n * q < n * (most + 1);
    MulCancel(n, q, most);
  }

  lemma AverageBetween(sum: int, n: int, least: int, most: int, scale: int)
    requires n > 0 && scale >= 0 && n * least <= sum <= n * most
    ensures least * scale <= sum * scale / n <= most * scale
  {
    MulMono(scale, n * least, sum);
    MulMono(scale, sum, n * most);
    assert scale * (n * least) == n * (least * scale);
    assert scale * (n * most) == n * (most * scale);
    DivBetween(sum * scale, n, least * scale, most * scale);
  }

  // The mean session lies between the shortest and the longest one.
  lemma AverageTotals(rows: seq<SessionRow>, beats: seq<Interval>, t: Totals)
    requires IsTotals(rows, beats, t)
    ensures t.minActive * NS_PER_MS <= t.avgActiveNs <= t.maxActive * NS_PER_MS
  {
    if rows != [] {
      SumBetween(rows, t.minActive, t.maxActive);
      AverageBetween(Sum(rows, ActiveOf()), |rows|, t.minActive, t.maxActive, NS_PER_MS);
    }
  }

  lemma ExtremesBounded(rows: seq<SessionRow>, beats: seq<Interval>, t: Totals)
    requires IsTotals(rows, beats, t)
    requires forall r | r in rows :: 0 <= r.active <= Measure(beats)
    ensures 0 <= t.minActive <= t.maxActive <= t.active
  {
  }

  // Window totals: the longest session is within the union, the union within the sum and within
  // the window, and the average lies between the extremes.
  lemma ActiveTotals(events: seq<Event>, from: int, to: int, sources: Sources, t: Totals)
    requires from <= to
    requires IsTotals(WindowRows(events, from, to, sources), WindowBeats(events, from, to, sources), t)
    ensures 0 <= t.minActive <= t.maxActive <= t.active
    ensures t.active <= Sum(WindowRows(events, from, to, sources), ActiveOf())
    ensures t.active <= to - from
    ensures t.minActive * NS_PER_MS <= t.avgActiveNs <= t.maxActive * NS_PER_MS
  {
    var w := InWindow(events, from, to);
    var sids := FirstSeen(w);
    var rows, beats := RowsOf(w, sids, to, sources), BeatsOf(w, sids, to, sources);
    InWindowMembers(events, from, to);
    ActiveBounds(w, sids, to, sources);
    BeatsOfFacts(w, sids, from, to, sources);
    MeasureInWindow(beats, from, to);
    RowsActive(w, sids, to, sources);
    ExtremesBounded(rows, beats, t);
    AverageTotals(rows, beats, t);
  }

  // Some session is active at millisecond t of the window.
  ghost predicate SomeActive(w: seq<Event>, to: int, t: int) {
    exists sid :: Active(SessionEvents(w, sid), |SessionEvents(w, sid)|, to, t)
  }

  ghost function ActiveMillis(events: seq<Event>, from: int, to: int): set<int> {
    set t | from <= t < to && SomeActive(InWindow(events, from, to), to, t)
  }

  // An insubstantial session has no active millisecond either.
  lemma BeatSeqPointwise(w: seq<Event>, sid: string, to: int, sources: Sources, t: int)
    ensures Covered(BeatSeq(w, sid, to, sources), t) <==>
      Active(SessionEvents(w, sid), |SessionEvents(w, sid)|, to, t)
  {
    var evs := SessionEvents(w, sid);
    BeatsPointwise(evs, |evs|, to, t);
    if !Substantial(RowOf(evs, sid, to, sources)) {
      NothingCovered(Beats(evs, |evs|, to), t);
    }
  }

  lemma NothingCovered(beats: seq<Interval>, t: int)
    requires Measure(beats) == 0
    ensures !Covered(beats, t)
  {
    CoveredSetMembers(beats);
    if t in CoveredSet(beats) {
      SubsetSize({t}, CoveredSet(beats));
    }
  }

  lemma CoveredConcat(a: seq<Interval>, b: seq<Interval>, t: int)
    ensures Covered(a + b, t) <==> Covered(a, t) || Covered(b, t)
  {
    ConcatCovers(a, b);
    CoveredSetMembers(a);
    CoveredSetMembers(b);
    CoveredSetMembers(a + b);
  }

  lemma {:induction false} CoveredByOne(sids: seq<string>, beater: string -> seq<Interval>, t: int)
    ensures Covered(FlatMap(sids, beater), t) <==> exists sid :: sid in sids && Covered(beater(sid), t)
  {
    if sids != [] {
      var init, last := sids[..|sids| - 1], sids[|sids| - 1];
      assert sids == init + [last];
      CoveredByOne(init, beater, t);
      CoveredConcat(FlatMap(init, beater), beater(last), t);
      if sid :| sid in init && Covered(beater(sid), t) {
        assert sid in sids;
      }
      if Covered(beater(last), t) {
        assert last in sids;
      }
    }
  }

  lemma BeatsOfPointwise(w: seq<Event>, sids: seq<string>, to: int, sources: Sources, t: int)
    ensures Covered(BeatsOf(w, sids, to, sources), t) <==>
      exists sid :: sid in sids && Active(SessionEvents(w, sid), |SessionEvents(w, sid)|, to, t)
  {
    var beater := Beater(w, to, sources);
    CoveredByOne(sids, beater, t);
    forall sid
      ensures Covered(beater(sid), t) <==> Active(SessionEvents(w, sid), |SessionEvents(w, sid)|, to, t)
    {
      BeatSeqPointwise(w, sid, to, sources, t);
    }
  }

  lemma ActiveInWindow(events: seq<Event>, from: int, to: int, sid: string, t: int)
    requires var evs := SessionEvents(InWindow(events, from, to), sid); Active(evs, |evs|, to, t)
    ensures sid in FirstSeen(InWindow(events, from, to)) && from <= t < to
  {
    var w := InWindow(events, from, to);
    var evs := SessionEvents(w, sid);
    var i :| 0 <= i < |evs| && ActiveBy(evs, i, to, t);
    FirstSeenFacts(w);
    InWindowMembers(events, from, to);
    SessionEventsFacts(w, sid);
    assert evs[i] in evs;
  }

  // Active time is the number of milliseconds at which some session is active.
  lemma ActiveIsPointwise(events: seq<Event>, from: int, to: int, sources: Sources, t: Totals)
    requires IsTotals(WindowRows(events, from, to, sources), WindowBeats(events, from, to, sources), t)
    ensures t.active == |ActiveMillis(events, from, to)|
  {
    forall m
      ensures Covered(WindowBeats(events, from, to, sources), m) <==> m in ActiveMillis(events, from, to)
    {
      WindowPointwise(events, from, to, sources, m);
    }
    SetMeasure(WindowBeats(events, from, to, sources), ActiveMillis(events, from, to));
  }

  lemma WindowPointwise(events: seq<Event>, from: int, to: int, sources: Sources, m: int)
    ensures Covered(WindowBeats(events, from, to, sources), m) <==> m in ActiveMillis(events, from, to)
  {
    var w := InWindow(events, from, to);
    BeatsOfPointwise(w, FirstSeen(w), to, sources, m);
    if SomeActive(w, to, m) {
      var sid :| Active(SessionEvents(w, sid), |SessionEvents(w, sid)|, to, m);
      ActiveInWindow(events, from, to, sid, m);
    }
  }

  lemma SetMeasure(beats: seq<Interval>, s: set<int>)
    requires forall m :: Covered(beats, m) <==> m in s
    ensures Measure(beats) == |s|
  {
    CoveredSetMembers(beats);
    forall m
      ensures m in CoveredSet(beats) <==> m in s
    {
      assert m in CoveredSet(beats) <==> Covered(beats, m);
    }
    assert CoveredSet(beats) == s;
  }

  // ---- counts --------------------------------------------------------------------------

  // What a session needs for a row.
  predicate DidSomething(r: SessionRow) {
    r.active != 0 || r.summary.turns > 0 || r.summary.questions > 0 || r.summary.prompts > 0
  }

  lemma RowSeqMeaning(w: seq<Event>, sid: string, to: int, sources: Sources, r: SessionRow)
    ensures r in RowSeq(w, sid, to, sources) <==>
      r == RowOf(SessionEvents(w, sid), sid, to, sources) && DidSomething(r)
  {
    SubstantialMeaning(RowOf(SessionEvents(w, sid), sid, to, sources));
  }

  lemma SubstantialMeaning(r: SessionRow)
    ensures Substantial(r) <==> DidSomething(r)
  {
  }

  // A session of the window has a row exactly if it was active, ended a turn, asked a question or got
  // a prompt; and the rows are those of these sessions.
  lemma WindowRowsMeaning(events: seq<Event>, from: int, to: int, sources: Sources, r: SessionRow)
    ensures r in WindowRows(events, from, to, sources) <==>
      DidSomething(r) &&
      exists sid ::
        && sid in FirstSeen(InWindow(events, from, to))
        && r == RowOf(SessionEvents(InWindow(events, from, to), sid), sid, to, sources)
  {
    var w := InWindow(events, from, to);
    RowsOfMeaning(w, FirstSeen(w), to, sources, r);
  }

  lemma RowsOfMeaning(w: seq<Event>, sids: seq<string>, to: int, sources: Sources, r: SessionRow)
    ensures r in RowsOf(w, sids, to, sources) <==>
      DidSomething(r) && exists sid :: sid in sids && r == RowOf(SessionEvents(w, sid), sid, to, sources)
  {
    FlatMapMembers(sids, Rower(w, to, sources));
    if r in RowsOf(w, sids, to, sources) {
      var sid :| sid in sids && r in Rower(w, to, sources)(sid);
      RowSeqMeaning(w, sid, to, sources, r);
    }
    if DidSomething(r) && exists sid :: sid in sids && r == RowOf(SessionEvents(w, sid), sid, to, sources) {
      var sid :| sid in sids && r == RowOf(SessionEvents(w, sid), sid, to, sources);
      RowSeqMeaning(w, sid, to, sources, r);
      assert r in Rower(w, to, sources)(sid);
    }
  }

  // One more row adds its own figures.
  lemma TotalsAddUp(
    rows: seq<SessionRow>, r: SessionRow, beats: seq<Interval>, own: seq<Interval>, t: Totals, u: Totals)
    requires IsTotals(rows, beats, t) && IsTotals(rows + [r], beats + own, u)
    ensures u.sessions == t.sessions + 1
    ensures u.turns == t.turns + r.summary.turns && u.prompts == t.prompts + r.summary.prompts
    ensures u.questions == t.questions + r.summary.questions && u.working == t.working + r.summary.working
    ensures u.waitingUser == t.waitingUser + r.summary.waitingUser
    ensures u.waitingPermission == t.waitingPermission + r.summary.waitingPermission
  {
    SumsAddUp(rows, r);
  }

  lemma SumsAddUp(rows: seq<SessionRow>, r: SessionRow)
    ensures var more := rows + [r];
      && Sum(more, TurnsOf()) == Sum(rows, TurnsOf()) + r.summary.turns
      && Sum(more, PromptsOf()) == Sum(rows, PromptsOf()) + r.summary.prompts
      && Sum(more, QuestionsOf()) == Sum(rows, QuestionsOf()) + r.summary.questions
      && Sum(more, WorkingOf()) == Sum(rows, WorkingOf()) + r.summary.working
      && Sum(more, WaitingUserOf()) == Sum(rows, WaitingUserOf()) + r.summary.waitingUser
      && Sum(more, WaitingPermissionOf()) == Sum(rows, WaitingPermissionOf()) + r.summary.waitingPermission
  {
    SumSnoc(rows, r, TurnsOf());
    SumSnoc(rows, r, PromptsOf());
    SumSnoc(rows, r, QuestionsOf());
    SumSnoc(rows, r, WorkingOf());
    SumSnoc(rows, r, WaitingUserOf());
    SumSnoc(rows, r, WaitingPermissionOf());
  }

  // How many events of these sessions meet p, session by session.
  function CountOver(w: seq<Event>, sids: seq<string>, p: Event -> bool): nat {
    if sids == [] then 0
    else CountOver(w, sids[..|sids| - 1], p) + Count(OfSession(w, sids[|sids| - 1]), p)
  }

  lemma {:induction false} CountOverSnoc(w: seq<Event>, e: Event, sids: seq<string>, p: Event -> bool)
    requires NoDuplicates(sids)
    ensures CountOver(w + [e], sids, p) == CountOver(w, sids, p) + if e.session in sids && p(e) then 1 else 0
  {
    if sids != [] {
      var init, sid := sids[..|sids| - 1], sids[|sids| - 1];
      assert sids == init + [sid] && sid !in init;
      CountOverSnoc(w, e, init, p);
      OfSessionSnoc(w, e, sid);
      CountSnoc(OfSession(w, sid), e, p);
      assert OfSession(w, sid) + [] == OfSession(w, sid);
    }
  }

  lemma {:induction false} CountOverNothing(sids: seq<string>, p: Event -> bool)
    ensures CountOver([], sids, p) == 0
  {
    if sids != [] {
      CountOverNothing(sids[..|sids| - 1], p);
    }
  }

  lemma {:induction false} CountOverAll(w: seq<Event>, sids: seq<string>, p: Event -> bool)
    requires NoDuplicates(sids) && forall e | e in w :: e.session in sids
    ensures CountOver(w, sids, p) == Count(w, p)
  {
    if w == [] {
      CountOverNothing(sids, p);
    } else {
      var init, e := w[..|w| - 1], w[|w| - 1];
      assert w == init + [e] && e in w && forall x | x in init :: x in w;
      CountOverAll(init, sids, p);
      CountOverSnoc(init, e, sids, p);
    }
  }

  lemma {:induction false} CountInsert(s: seq<Event>, x: Event, key: Event -> int, p: Event -> bool)
    ensures Count(Insert(s, x, key), p) == Count(s, p) + if p(x) then 1 else 0
  {
    if s == [] || key(s[|s| - 1]) <= key(x) {
      CountSnoc(s, x, p);
    } else {
      CountInsert(s[..|s| - 1], x, key, p);
      CountSnoc(Insert(s[..|s| - 1], x, key), s[|s| - 1], p);
    }
  }

  lemma {:induction false} CountSorted(s: seq<Event>, key: Event -> int, p: Event -> bool)
    ensures Count(StableSort(s, key), p) == Count(s, p)
  {
    if s != [] {
      CountSorted(s[..|s| - 1], key, p);
      CountInsert(StableSort(s[..|s| - 1], key), s[|s| - 1], key, p);
    }
  }

  // f of a session's row is how many of its events meet p; without a row none does.
  ghost predicate RowCounts(
    w: seq<Event>, rower: string -> seq<SessionRow>, f: SessionRow -> int, p: Event -> bool)
  {
    forall sid ::
      Count(OfSession(w, sid), p) == if rower(sid) == [] then 0 else f(rower(sid)[0])
  }

  lemma {:induction false} SumCounts(
    w: seq<Event>, sids: seq<string>, rower: string -> seq<SessionRow>, f: SessionRow -> int, p: Event -> bool)
    requires RowCounts(w, rower, f, p) && forall sid :: |rower(sid)| <= 1
    ensures Sum(FlatMap(sids, rower), f) == CountOver(w, sids, p)
  {
    if sids != [] {
      var init, sid := sids[..|sids| - 1], sids[|sids| - 1];
      SumCounts(w, init, rower, f, p);
      if rower(sid) == [] {
        assert FlatMap(init, rower) + [] == FlatMap(init, rower);
      } else {
        SumSnoc(FlatMap(init, rower), rower(sid)[0], f);
        assert rower(sid) == [rower(sid)[0]];
      }
    }
  }

  lemma RowerCounts(w: seq<Event>, to: int, sources: Sources)
    ensures var rower := Rower(w, to, sources);
      && RowCounts(w, rower, TurnsOf(), IsTurn()) && RowCounts(w, rower, PromptsOf(), IsPromptSubmit())
      && RowCounts(w, rower, QuestionsOf(), IsQuestion()) && forall sid :: |rower(sid)| <= 1
  {
    forall sid
      ensures RowCountsAt(w, sid, RowSeq(w, sid, to, sources))
    {
      RowSeqCounts(w, sid, to, sources);
    }
    assert forall sid :: RowCountsAt(w, sid, Rower(w, to, sources)(sid));
  }

  // The row of one session, if it has one, bears the counts of its events.
  ghost predicate RowCountsAt(w: seq<Event>, sid: string, one: seq<SessionRow>) {
    && |one| <= 1
    && Count(OfSession(w, sid), IsTurn()) == (if one == [] then 0 else one[0].summary.turns)
    && Count(OfSession(w, sid), IsPromptSubmit()) == (if one == [] then 0 else one[0].summary.prompts)
    && Count(OfSession(w, sid), IsQuestion()) == if one == [] then 0 else one[0].summary.questions
  }

  lemma RowSeqCounts(w: seq<Event>, sid: string, to: int, sources: Sources)
    ensures RowCountsAt(w, sid, RowSeq(w, sid, to, sources))
  {
    CountSorted(OfSession(w, sid), Ts(), IsTurn());
    CountSorted(OfSession(w, sid), Ts(), IsPromptSubmit());
    CountSorted(OfSession(w, sid), Ts(), IsQuestion());
  }

  // Conservation: the turns, prompts and questions of the totals are those of all events of the
  // window, whichever sessions they belong to and whichever of these have a row.
  lemma CountsConserve(events: seq<Event>, from: int, to: int, sources: Sources, t: Totals)
    requires IsTotals(WindowRows(events, from, to, sources), WindowBeats(events, from, to, sources), t)
    ensures t.turns == Count(InWindow(events, from, to), (e: Event) => e.event == "Stop" && e.newState == "idle")
    ensures t.prompts == Count(InWindow(events, from, to), (e: Event) => e.event == "UserPromptSubmit")
    ensures t.questions == Count(InWindow(events, from, to), (e: Event) => e.newState == "prompt")
  {
    var w := InWindow(events, from, to);
    var sids, rower := FirstSeen(w), Rower(w, to, sources);
    FirstSeenFacts(w);
    RowerCounts(w, to, sources);
    forall e | e in w
      ensures e.session in sids
    {
      OfSessionMembers(w, e.session);
    }
    SumCounts(w, sids, rower, TurnsOf(), IsTurn());
    SumCounts(w, sids, rower, PromptsOf(), IsPromptSubmit());
    SumCounts(w, sids, rower, QuestionsOf(), IsQuestion());
    CountOverAll(w, sids, IsTurn());
    CountOverAll(w, sids, IsPromptSubmit());
    CountOverAll(w, sids, IsQuestion());
    SameCounts(w);
  }

  lemma {:induction false} SameCounts(w: seq<Event>)
    ensures Count(w, IsTurn()) == Count(w, (e: Event) => e.event == "Stop" && e.newState == "idle")
    ensures Count(w, IsPromptSubmit()) == Count(w, (e: Event) => e.event == "UserPromptSubmit")
    ensures Count(w, IsQuestion()) == Count(w, (e: Event) => e.newState == "prompt")
  {
    if w != [] {
      SameCounts(w[..|w| - 1]);
    }
  }

  // ---- projects -------------------------------------------------------------------------

  function SumProjects(ps: seq<Project>, f: Project -> int): int {
    if ps == [] then 0 else SumProjects(ps[..|ps| - 1], f) + f(ps[|ps| - 1])
  }

  // The sums over each of the named projects, added up.
  function SumNamed(rows: seq<SessionRow>, names: seq<string>, f: SessionRow -> int): int {
    if names == [] then 0
    else SumNamed(rows, names[..|names| - 1], f) + SumIn(rows, names[|names| - 1], f)
  }

  lemma {:induction false} SumNamedSnoc(rows: seq<SessionRow>, r: SessionRow, names: seq<string>, f: SessionRow -> int)
    requires NoDuplicates(names)
    ensures SumNamed(rows + [r], names, f) == SumNamed(rows, names, f) + if r.project in names then f(r) else 0
  {
    if names != [] {
      var init, name := names[..|names| - 1], names[|names| - 1];
      assert names == init + [name] && name !in init;
      SumNamedSnoc(rows, r, init, f);
      SumInSnoc(rows, r, name, f);
    }
  }

  lemma {:induction false} SumNamedEmpty(names: seq<string>, f: SessionRow -> int)
    ensures SumNamed([], names, f) == 0
  {
    if names != [] {
      SumNamedEmpty(names[..|names| - 1], f);
    }
  }

  // Every row is counted in exactly one project.
  lemma {:induction false} SumNamedTotal(rows: seq<SessionRow>, names: seq<string>, f: SessionRow -> int)
    requires NoDuplicates(names) && forall r | r in rows :: r.project in names
    ensures SumNamed(rows, names, f) == Sum(rows, f)
  {
    if rows == [] {
      SumNamedEmpty(names, f);
    } else {
      var init, r := rows[..|rows| - 1], rows[|rows| - 1];
      assert rows == init + [r] && r in rows && forall q | q in init :: q in rows;
      SumNamedTotal(init, names, f);
      SumNamedSnoc(init, r, names, f);
    }
  }

  lemma {:induction false} SumProjectsNamed(
    rows: seq<SessionRow>, ps: seq<Project>, g: Project -> int, f: SessionRow -> int)
    requires forall p | p in ps :: g(p) == SumIn(rows, p.name, f)
    ensures SumProjects(ps, g) == SumNamed(rows, Names(ps), f)
  {
    if ps != [] {
      var init, p := ps[..|ps| - 1], ps[|ps| - 1];
      assert p in ps && forall q | q in init :: q in ps;
      assert Names(ps)[..|ps| - 1] == Names(init);
      SumProjectsNamed(rows, init, g, f);
    }
  }

  function ProjectActive(): Project -> int {
    (p: Project) => p.active
  }

  function ProjectSessions(): Project -> int {
    (p: Project) => p.sessions
  }

  lemma {:induction false} SumOne(rows: seq<SessionRow>)
    ensures Sum(rows, One()) == |rows|
  {
    if rows != [] {
      SumOne(rows[..|rows| - 1]);
    }
  }

  // Conservation: the projects share out exactly the active time and the sessions of the rows,
  // the detailed sessions with the summarized rest are all of them, and none of the rest was more
  // active than a detailed one.
  lemma TotalsConserve(rows: seq<SessionRow>, beats: seq<Interval>, topN: int, d: Digest)
    requires IsDigest(rows, beats, topN, d)
    ensures SumProjects(d.projects, ProjectActive()) == Sum(rows, ActiveOf())
    ensures SumProjects(d.projects, ProjectSessions()) == d.totals.sessions
    ensures d.totals.sessions == |d.sessions| + d.moreSessions
    ensures multiset(d.sessions) + multiset(Omitted(rows, topN)) == multiset(rows)
    ensures forall r, o | r in d.sessions && o in Omitted(rows, topN) :: r.active >= o.active
  {
    SumProjectsNamed(rows, d.projects, ProjectActive(), ActiveOf());
    SumNamedTotal(rows, Names(d.projects), ActiveOf());
    SumProjectsNamed(rows, d.projects, ProjectSessions(), One());
    SumNamedTotal(rows, Names(d.projects), One());
    SumOne(rows);
    DetailedAreRows(rows, topN);
    DetailedMostActive(rows, topN);
  }

  lemma DetailedMostActive(rows: seq<SessionRow>, topN: int)
    ensures forall r, o | r in Detailed(rows, topN) && o in Omitted(rows, topN) :: r.active >= o.active
  {
    StableSortSorts(rows, LeastActiveLast());
    var s, key := Ranked(rows), LeastActiveLast();
    forall r, o | r in Detailed(rows, topN) && o in Omitted(rows, topN)
      ensures r.active >= o.active
    {
      var i :| 0 <= i < topN && s[i] == r;
      var j :| topN <= j < |s| && s[j] == o;
      assert key(s[i]) <= key(s[j]);
    }
  }

  lemma DetailedAreRows(rows: seq<SessionRow>, topN: int)
    ensures multiset(Detailed(rows, topN)) + multiset(Omitted(rows, topN)) == multiset(rows)
    ensures |Detailed(rows, topN)| + |Omitted(rows, topN)| == |rows|
  {
    StableSortSorts(rows, LeastActiveLast());
    if topN > 0 && |rows| > topN {
      assert Ranked(rows) == Ranked(rows)[..topN] + Ranked(rows)[topN..];
    }
  }

  // The streaks of a digest are the longest components of what its heartbeats cover, five at most.
  lemma FiveStreaks(rows: seq<SessionRow>, beats: seq<Interval>, topN: int, d: Digest)
    requires IsDigest(rows, beats, topN, d)
    ensures exists all :: AllStreaks(beats, all) && d.streaks == if |all| <= 5 then all else all[..5]
  {
  }

  // The projects of a digest are those of its rows, each once, the most active first; and the totals
  // name them in that order.
  lemma ProjectsMeaning(rows: seq<SessionRow>, ps: seq<Project>)
    requires IsProjects(rows, ps)
    ensures forall i, j | 0 <= i < j < |ps| :: ps[i].name != ps[j].name && ps[i].active >= ps[j].active
    ensures forall p | p in ps :: exists r :: r in rows && r.project == p.name
    ensures forall r | r in rows :: exists p :: p in ps && p.name == r.project
    ensures |Names(ps)| == |ps| && forall i | 0 <= i < |ps| :: Names(ps)[i] == ps[i].name
  {
    var names := Names(ps);
    assert forall i | 0 <= i < |names| :: names[i] == ps[i].name;
    forall r | r in rows
      ensures exists p :: p in ps && p.name == r.project
    {
      var i :| 0 <= i < |names| && names[i] == r.project;
      assert ps[i] in ps;
    }
  }

  // ---- independence of the event order ------------------------------------------------------

  // The two event lists agree, per session and per timestamp, on which events there are and, when
  // several share session and timestamp, on their order.
  ghost predicate SameTies(a: seq<Event>, b: seq<Event>) {
    forall sid, k :: Group(OfSession(a, sid), Ts(), k) == Group(OfSession(b, sid), Ts(), k)
  }

  lemma SameSessionEvents(a: seq<Event>, b: seq<Event>, sid: string)
    requires SameTies(a, b)
    ensures SessionEvents(a, sid) == SessionEvents(b, sid)
  {
    var ga, gb := OfSession(a, sid), OfSession(b, sid);
    StableSortSorts(ga, Ts());
    StableSortSorts(gb, Ts());
    forall k
      ensures Group(StableSort(ga, Ts()), Ts(), k) == Group(StableSort(gb, Ts()), Ts(), k)
    {
      assert Group(ga, Ts(), k) == Group(gb, Ts(), k);
    }
    StableSortUnique(StableSort(ga, Ts()), StableSort(gb, Ts()), Ts());
  }

  // The same sessions give the same rows and the same beats, up to order.
  lemma SameContributions(
    a: seq<Event>, b: seq<Event>, sidsA: seq<string>, sidsB: seq<string>, ids: set<string>, to: int, sources: Sources)
    requires SameTies(a, b) && Enumerates(sidsA, ids) && Enumerates(sidsB, ids)
    ensures multiset(RowsOf(a, sidsA, to, sources)) == multiset(RowsOf(b, sidsB, to, sources))
    ensures SameCover(BeatsOf(a, sidsA, to, sources), BeatsOf(b, sidsB, to, sources))
  {
    forall sid | sid in ids
      ensures Rower(a, to, sources)(sid) == Rower(b, to, sources)(sid)
      ensures Beater(a, to, sources)(sid) == Beater(b, to, sources)(sid)
    {
      SameSessionEvents(a, b, sid);
    }
    FlatMapPermuted(sidsA, sidsB, ids, Rower(a, to, sources), Rower(b, to, sources));
    FlatMapPermuted(sidsA, sidsB, ids, Beater(a, to, sources), Beater(b, to, sources));
    SameMembers(BeatsOf(a, sidsA, to, sources), BeatsOf(b, sidsB, to, sources));
    CoveredPermuted(BeatsOf(a, sidsA, to, sources), BeatsOf(b, sidsB, to, sources));
  }

  lemma {:induction false} SumPermuted(a: seq<SessionRow>, b: seq<SessionRow>, f: SessionRow -> int)
    requires multiset(a) == multiset(b)
    ensures Sum(a, f) == Sum(b, f)
    decreases |a|
  {
    if a != [] {
      var l, x, r := TakeOut(a, b);
      SumPermuted(a[..|a| - 1], l + r, f);
      SumWithout(l, x, r, f);
    } else {
      SameMembers(a, b);
    }
  }

  lemma {:induction false} SumWithout(l: seq<SessionRow>, x: SessionRow, r: seq<SessionRow>, f: SessionRow -> int)
    ensures Sum(l + [x] + r, f) == Sum(l + r, f) + f(x)
  {
    if r == [] {
      assert l + [x] + r == l + [x] && l + r == l;
      SumSnoc(l, x, f);
    } else {
      var r', y := r[..|r| - 1], r[|r| - 1];
      SumWithout(l, x, r', f);
      assert l + [x] + r == (l + [x] + r') + [y] && l + r == (l + r') + [y];
      SumSnoc(l + [x] + r', y, f);
      SumSnoc(l + r', y, f);
    }
  }

  lemma SameFigures(
    a: seq<SessionRow>, b: seq<SessionRow>, beatsA: seq<Interval>, beatsB: seq<Interval>, t: Totals, u: Totals)
    requires multiset(a) == multiset(b) && SameCover(beatsA, beatsB)
    requires IsTotals(a, beatsA, t) && IsTotals(b, beatsB, u)
    ensures t.(projects := []) == u.(projects := [])
  {
    SameMembers(a, b);
    SameCoverMeasure(beatsA, beatsB);
    SumPermuted(a, b, ActiveOf());
    SumPermuted(a, b, TurnsOf());
    SumPermuted(a, b, PromptsOf());
    SumPermuted(a, b, QuestionsOf());
    SumPermuted(a, b, WorkingOf());
    SumPermuted(a, b, WaitingUserOf());
    SumPermuted(a, b, WaitingPermissionOf());
  }

  lemma SameSids(a: seq<Event>, b: seq<Event>)
    requires SameTies(a, b)
    ensures forall sid :: sid in FirstSeen(a) <==> sid in FirstSeen(b)
  {
    FirstSeenFacts(a);
    FirstSeenFacts(b);
    forall sid
      ensures sid in FirstSeen(a) <==> sid in FirstSeen(b)
    {
      SessionEventsFacts(a, sid);
      SessionEventsFacts(b, sid);
      SameSessionEvents(a, b, sid);
    }
  }

  // The same events in another order, beyond the order of events that share session and
  // timestamp, give the same rows and cover the same time.
  lemma OrderInvariant(a: seq<Event>, b: seq<Event>, from: int, to: int, sources: Sources)
    requires SameTies(InWindow(a, from, to), InWindow(b, from, to))
    ensures multiset(WindowRows(a, from, to, sources)) == multiset(WindowRows(b, from, to, sources))
    ensures SameCover(WindowBeats(a, from, to, sources), WindowBeats(b, from, to, sources))
  {
    var wa, wb := InWindow(a, from, to), InWindow(b, from, to);
    SameSids(wa, wb);
    FirstSeenFacts(wa);
    FirstSeenFacts(wb);
    SameContributions(wa, wb, FirstSeen(wa), FirstSeen(wb), (set sid | sid in FirstSeen(wa)), to, sources);
  }

  lemma {:induction false} SumInPermuted(a: seq<SessionRow>, b: seq<SessionRow>, p: string, f: SessionRow -> int)
    requires multiset(a) == multiset(b)
    ensures SumIn(a, p, f) == SumIn(b, p, f)
    decreases |a|
  {
    if a != [] {
      var l, x, r := TakeOut(a, b);
      SumInPermuted(a[..|a| - 1], l + r, p, f);
      SumInWithout(l, x, r, p, f);
    } else {
      SameMembers(a, b);
    }
  }

  lemma {:induction false} SumInWithout(
    l: seq<SessionRow>, x: SessionRow, r: seq<SessionRow>, p: string, f: SessionRow -> int)
    ensures SumIn(l + [x] + r, p, f) == SumIn(l + r, p, f) + if x.project == p then f(x) else 0
  {
    if r == [] {
      assert l + [x] + r == l + [x] && l + r == l;
      SumInSnoc(l, x, p, f);
    } else {
      var r', y := r[..|r| - 1], r[|r| - 1];
      SumInWithout(l, x, r', p, f);
      assert l + [x] + r == (l + [x] + r') + [y] && l + r == (l + r') + [y];
      SumInSnoc(l + [x] + r', y, p, f);
      SumInSnoc(l + r', y, p, f);
    }
  }

  // The two roll-ups agree but for the order of their directories.
  predicate SameRollUp(p: Project, q: Project) {
    && p.name == q.name && p.active == q.active && p.sessions == q.sessions
    && multiset(p.dirs) == multiset(q.dirs)
  }

  ghost predicate HasRollUp(qs: seq<Project>, p: Project) {
    exists q :: q in qs && SameRollUp(p, q)
  }

  lemma {:induction false} DistinctMultiset(a: seq<string>, b: seq<string>)
    requires NoDuplicates(a) && NoDuplicates(b) && forall d :: d in a <==> d in b
    ensures multiset(a) == multiset(b)
  {
    forall d
      ensures multiset(a)[d] == multiset(b)[d]
    {
      OnceInMultiset(a, d);
      OnceInMultiset(b, d);
      assert d in a <==> d in multiset(a);
      assert d in b <==> d in multiset(b);
    }
  }

  lemma DirsAgree(a: seq<SessionRow>, b: seq<SessionRow>, project: string)
    requires forall r :: r in a <==> r in b
    ensures multiset(DirsIn(a, project)) == multiset(DirsIn(b, project))
  {
    DirsInMembers(a, project);
    DirsInMembers(b, project);
    DistinctMultiset(DirsIn(a, project), DirsIn(b, project));
  }

  // Every roll-up of one is a roll-up of the other.
  lemma ProjectsAgree(a: seq<SessionRow>, b: seq<SessionRow>, ps: seq<Project>, qs: seq<Project>, p: Project)
    requires multiset(a) == multiset(b) && IsProjects(a, ps) && IsProjects(b, qs) && p in ps
    ensures HasRollUp(qs, p)
  {
    SameMembers(a, b);
    var r :| r in a && r.project == p.name;
    assert r in b;
    var i :| 0 <= i < |qs| && Names(qs)[i] == p.name;
    SumInPermuted(a, b, p.name, ActiveOf());
    SumInPermuted(a, b, p.name, One());
    DirsAgree(a, b, p.name);
    var q := qs[i];
    assert q in qs && IsRollUp(b, q) && IsRollUp(a, p);
    assert SameRollUp(p, q);
  }

  function ShorterLast(): Interval -> int {
    (x: Interval) => -Length(x)
  }

  // The lengths of the streaks depend on the covered time alone.
  lemma StreaksAgree(a: seq<Interval>, b: seq<Interval>, s: seq<Interval>, t: seq<Interval>, n: nat)
    requires SameCover(a, b) && IsStreaks(a, s, n) && IsStreaks(b, t, n)
    ensures |s| == |t| && forall i | 0 <= i < |s| :: Length(s[i]) == Length(t[i])
  {
    var allA :| AllStreaks(a, allA) && s == (if |allA| <= n then allA else allA[..n]);
    var allB :| AllStreaks(b, allB) && t == (if |allB| <= n then allB else allB[..n]);
    AllStreaksAgree(a, b, allA, allB);
  }

  lemma AllStreaksAgree(a: seq<Interval>, b: seq<Interval>, allA: seq<Interval>, allB: seq<Interval>)
    requires SameCover(a, b) && AllStreaks(a, allA) && AllStreaks(b, allB)
    ensures |allA| == |allB| && forall i | 0 <= i < |allA| :: Length(allA[i]) == Length(allB[i])
  {
    var mergedA :| IsMerged(a, mergedA) && multiset(allA) == multiset(mergedA);
    var mergedB :| IsMerged(b, mergedB) && multiset(allB) == multiset(mergedB);
    assert SameCover(mergedA, mergedB);
    MergedUnique(mergedA, mergedB);
    SortedKeysAgree(allA, allB, ShorterLast());
    assert forall i | 0 <= i < |allA| :: ShorterLast()(allA[i]) == ShorterLast()(allB[i]);
  }

  // Between the last detailed session and the first omitted one active time drops.
  predicate NoTieAtCut(rows: seq<SessionRow>, topN: int) {
    topN > 0 && |rows| > topN ==> Ranked(rows)[topN - 1].active > Ranked(rows)[topN].active
  }

  // A digest is determined by its rows and the covered time, whatever their order: every figure
  // of the totals, the roll-ups, the lengths of the streaks and the active times down the ranking;
  // and, when no tie stands across the cut, also which sessions are detailed and how many projects
  // are cut off.
  lemma DigestDetermined(
    a: seq<SessionRow>, b: seq<SessionRow>, beatsA: seq<Interval>, beatsB: seq<Interval>, topN: int,
    d: Digest, e: Digest)
    requires multiset(a) == multiset(b) && SameCover(beatsA, beatsB)
    requires IsDigest(a, beatsA, topN, d) && IsDigest(b, beatsB, topN, e)
    ensures d.totals.(projects := []) == e.totals.(projects := [])
    ensures d.moreSessions == e.moreSessions && |d.sessions| == |e.sessions|
    ensures forall p | p in d.projects :: HasRollUp(e.projects, p)
    ensures forall p | p in e.projects :: HasRollUp(d.projects, p)
    ensures |d.streaks| == |e.streaks|
    ensures forall i | 0 <= i < |d.streaks| :: Length(d.streaks[i]) == Length(e.streaks[i])
    ensures forall i | 0 <= i < |d.sessions| :: d.sessions[i].active == e.sessions[i].active
    ensures NoTieAtCut(a, topN) ==> multiset(d.sessions) == multiset(e.sessions) && d.moreProjects == e.moreProjects
  {
    SameFigures(a, b, beatsA, beatsB, d.totals, e.totals);
    StreaksAgree(beatsA, beatsB, d.streaks, e.streaks, 5);
    RollUpsAgree(a, b, d.projects, e.projects);
    RollUpsAgree(b, a, e.projects, d.projects);
    RankingAgrees(a, b, topN);
  }

  lemma RollUpsAgree(a: seq<SessionRow>, b: seq<SessionRow>, ps: seq<Project>, qs: seq<Project>)
    requires multiset(a) == multiset(b) && IsProjects(a, ps) && IsProjects(b, qs)
    ensures forall p | p in ps :: HasRollUp(qs, p)
  {
    forall p | p in ps
      ensures HasRollUp(qs, p)
    {
      ProjectsAgree(a, b, ps, qs, p);
    }
  }

  lemma RankingAgrees(a: seq<SessionRow>, b: seq<SessionRow>, topN: int)
    requires multiset(a) == multiset(b)
    ensures |Detailed(a, topN)| == |Detailed(b, topN)| && |Omitted(a, topN)| == |Omitted(b, topN)|
    ensures forall i | 0 <= i < |Detailed(a, topN)| :: Detailed(a, topN)[i].active == Detailed(b, topN)[i].active
    ensures NoTieAtCut(a, topN) ==>
      && multiset(Detailed(a, topN)) == multiset(Detailed(b, topN))
      && ProjectsIn(Omitted(a, topN)) == ProjectsIn(Omitted(b, topN))
  {
    RanksAgree(a, b);
    if NoTieAtCut(a, topN) {
      CutAgrees(a, b, topN);
    }
  }

  lemma RankedFacts(rows: seq<SessionRow>)
    ensures SortedByKey(Ranked(rows), LeastActiveLast()) && multiset(Ranked(rows)) == multiset(rows)
  {
    StableSortSorts(rows, LeastActiveLast());
  }

  lemma RankedIsItself(rows: seq<SessionRow>)
    requires SortedByKey(rows, LeastActiveLast())
    ensures Ranked(rows) == rows
  {
    SortedIsItsSort(rows, LeastActiveLast());
  }

  // Without a tie across it, the cut depends on the rows alone.
  lemma CutAgrees(a: seq<SessionRow>, b: seq<SessionRow>, topN: int)
    requires multiset(a) == multiset(b) && NoTieAtCut(a, topN)
    ensures multiset(Detailed(a, topN)) == multiset(Detailed(b, topN))
    ensures ProjectsIn(Omitted(a, topN)) == ProjectsIn(Omitted(b, topN))
  {
    RankedFacts(a);
    RankedFacts(b);
    if topN > 0 && |a| > topN {
      ListsCutAgree(Ranked(a), Ranked(b), topN);
    } else {
      SameMembers(a, b);
    }
  }

  lemma ListsCutAgree(s: seq<SessionRow>, t: seq<SessionRow>, n: nat)
    requires SortedByKey(s, LeastActiveLast()) && SortedByKey(t, LeastActiveLast()) && multiset(s) == multiset(t)
    requires 0 < n < |s| && s[n - 1].active > s[n].active
    ensures |s| == |t| && multiset(s[..n]) == multiset(t[..n]) && ProjectsIn(s[n..]) == ProjectsIn(t[n..])
  {
    var key := LeastActiveLast();
    assert key(s[n - 1]) < key(s[n]);
    SameCut(s, t, key, n);
    SameMembers(s[n..], t[n..]);
  }

  // Exchanges the two rows at the cut of a ranking.
  ghost function Exchanged(s: seq<SessionRow>, n: nat): seq<SessionRow>
    requires 0 < n < |s|
  {
    s[..n - 1] + [s[n]] + [s[n - 1]] + s[n + 1..]
  }

  lemma ExchangedDiffers(s: seq<SessionRow>, n: nat)
    requires NoDuplicates(s) && SortedByKey(s, LeastActiveLast()) && 0 < n < |s| && s[n - 1].active == s[n].active
    ensures SortedByKey(Exchanged(s, n), LeastActiveLast()) && multiset(Exchanged(s, n)) == multiset(s)
    ensures multiset(Exchanged(s, n)[..n]) != multiset(s[..n])
  {
    var l, x, y, r := s[..n - 1], s[n - 1], s[n], s[n + 1..];
    assert s == l + [x] + [y] + r;
    ExchangeTied(l, x, y, r, LeastActiveLast());
    assert s[..n] == l + [x] && Exchanged(s, n)[..n] == l + [y];
    assert multiset(l + [x])[y] == multiset(l)[y] && multiset(l + [y])[y] == multiset(l)[y] + 1;
  }

  lemma TieAdmitsAnother(rows: seq<SessionRow>, topN: nat)
    requires NoDuplicates(rows) && 0 < topN < |rows| && !NoTieAtCut(rows, topN)
    ensures var b := Exchanged(Ranked(rows), topN);
      multiset(b) == multiset(rows) && multiset(Detailed(b, topN)) != multiset(Detailed(rows, topN))
  {
    var s := Ranked(rows);
    RankedFacts(rows);
    RankedDistinct(rows);
    TiedAt(s, topN);
    ExchangedDiffers(s, topN);
    RankedIsItself(Exchanged(s, topN));
    SameMembers(Exchanged(s, topN), rows);
  }

  lemma TiedAt(s: seq<SessionRow>, n: nat)
    requires SortedByKey(s, LeastActiveLast()) && 0 < n < |s| && !(s[n - 1].active > s[n].active)
    ensures s[n - 1].active == s[n].active
  {
    assert LeastActiveLast()(s[n - 1]) <= LeastActiveLast()(s[n]);
  }

  lemma RankedDistinct(rows: seq<SessionRow>)
    requires NoDuplicates(rows)
    ensures NoDuplicates(Ranked(rows))
  {
    RankedFacts(rows);
    EnumeratesPermuted(rows, Ranked(rows), (set r | r in rows));
  }

  // The rows are distinct and their ids are among the given ones.
  ghost predicate DistinctRows(rows: seq<SessionRow>, sids: seq<string>) {
    NoDuplicates(rows) && forall r | r in rows :: r.summary.id in sids
  }

  lemma DistinctSnoc(rows: seq<SessionRow>, sids: seq<string>, one: seq<SessionRow>, sid: string)
    requires DistinctRows(rows, sids) && sid !in sids
    requires one == [] || (|one| == 1 && one[0].summary.id == sid)
    ensures DistinctRows(rows + one, sids + [sid])
  {
    assert forall i | 0 <= i < |rows| :: rows[i] in rows;
  }

  lemma {:induction false} AllDistinct(
    sids: seq<string>, rower: string -> seq<SessionRow>, beater: string -> seq<Interval>)
    requires Contributes(sids, rower, beater) && NoDuplicates(sids)
    ensures DistinctRows(FlatMap(sids, rower), sids)
  {
    if sids != [] {
      var init, sid := sids[..|sids| - 1], sids[|sids| - 1];
      assert sids == init + [sid] && sid !in init;
      AllDistinct(init, rower, beater);
      DistinctSnoc(FlatMap(init, rower), init, rower(sid), sid);
    }
  }

  lemma WindowRowsDistinct(events: seq<Event>, from: int, to: int, sources: Sources)
    ensures NoDuplicates(WindowRows(events, from, to, sources))
  {
    var w := InWindow(events, from, to);
    FirstSeenFacts(w);
    Contributions(w, FirstSeen(w), to, sources);
    AllDistinct(FirstSeen(w), Rower(w, to, sources), Beater(w, to, sources));
  }

  lemma RanksAgree(a: seq<SessionRow>, b: seq<SessionRow>)
    requires multiset(a) == multiset(b)
    ensures |Ranked(a)| == |Ranked(b)| && forall i | 0 <= i < |Ranked(a)| :: Ranked(a)[i].active == Ranked(b)[i].active
  {
    RankedFacts(a);
    RankedFacts(b);
    SortedKeysAgree(Ranked(a), Ranked(b), LeastActiveLast());
    assert forall i | 0 <= i < |Ranked(a)| :: LeastActiveLast()(Ranked(a)[i]) == LeastActiveLast()(Ranked(b)[i]);
  }
}
