// internal/recap/recap.go, Build: the windowed digest over all sessions, and what its totals
// conserve and bound.
module Recap {
  import opened Wrappers
  import opened Collections
  import opened Sorting
  import opened Rows
  import opened AuditLog
  import opened Intervals
  import opened SessionSummary

  // One message of a session's conversation.
  datatype Turn = Turn(role: string, text: string, at: int)

  // What the transcript of a session holds, and the repository its hook stored.
  datatype Meta = Meta(title: string, ask: string, cwd: string, branch: string, arc: seq<Turn>)

  datatype RepoRef = RepoRef(remote: string, root: string, branch: string)

  // The two lookups, the second of which may be switched off, and the last element of a path.
  datatype Sources = Sources(
    lookup: string -> Option<Meta>,
    repoLookup: Option<string -> Option<RepoRef>>,
    base: string -> string)

  datatype SessionRow = SessionRow(
    summary: Summary, project: string, dir: string, branch: string, ask: string, arc: seq<Turn>, active: int)

  datatype Project = Project(name: string, dirs: seq<string>, active: int, sessions: nat)

  // Durations are milliseconds, except the average, which Go truncates to a nanosecond.
  datatype Totals = Totals(
    sessions: nat, active: int, minActive: int, avgActiveNs: int, maxActive: int,
    turns: int, prompts: int, questions: int,
    working: int, waitingUser: int, waitingPermission: int,
    projects: seq<string>)

  datatype Digest = Digest(
    from: int, to: int,
    totals: Totals, streaks: seq<Interval>, sessions: seq<SessionRow>,
    moreSessions: int, moreProjects: nat, projects: seq<Project>)

  const NS_PER_MS := 1_000_000

  // ---- grouping ---------------------------------------------------------------------

  function InWindow(events: seq<Event>, from: int, to: int): seq<Event> {
    if events == [] then []
    else
      var e := events[|events| - 1];
      InWindow(events[..|events| - 1], from, to) + if e.ts < from || e.ts > to then [] else [e]
  }

  // Session ids in first-seen order.
  function FirstSeen(events: seq<Event>): seq<string> {
    if events == [] then []
    else
      var sids, sid := FirstSeen(events[..|events| - 1]), events[|events| - 1].session;
      if sid in sids then sids else sids + [sid]
  }

  function Ts(): Event -> int {
    (e: Event) => e.ts
  }

  function SessionEvents(events: seq<Event>, sid: string): seq<Event> {
    StableSort(OfSession(events, sid), Ts())
  }

  lemma {:induction false} FirstSeenFacts(events: seq<Event>)
    ensures NoDuplicates(FirstSeen(events))
    ensures forall sid :: sid in FirstSeen(events) <==> OfSession(events, sid) != []
  {
    if events != [] {
      FirstSeenFacts(events[..|events| - 1]);
    }
  }

  lemma {:induction false} InWindowMembers(events: seq<Event>, from: int, to: int)
    ensures forall e | e in InWindow(events, from, to) :: e in events && from <= e.ts <= to
  {
    if events != [] {
      InWindowMembers(events[..|events| - 1], from, to);
    }
  }

  lemma SessionEventsFacts(events: seq<Event>, sid: string)
    ensures AscendingTs(SessionEvents(events, sid))
    ensures forall e | e in SessionEvents(events, sid) :: e in events && e.session == sid
    ensures SessionEvents(events, sid) != [] <==> OfSession(events, sid) != []
  {
    var group, out := OfSession(events, sid), SessionEvents(events, sid);
    StableSortSorts(group, Ts());
    SameMembers(group, out);
    OfSessionMembers(events, sid);
    forall i, j | 0 <= i < j < |out|
      ensures out[i].ts <= out[j].ts
    {
      assert Ts()(out[i]) <= Ts()(out[j]);
    }
  }

  // ---- the rows of a digest -----------------------------------------------------------

  function ProjectName(cwd: string, sources: Sources): string {
    if cwd == "" then "" else sources.base(cwd)
  }

  function RepoDisplayName(r: RepoRef, sources: Sources): string {
    if r.remote != "" then sources.base(r.remote) else if r.root != "" then sources.base(r.root) else ""
  }

  function StoredRepo(sid: string, sources: Sources): Option<RepoRef> {
    if sources.repoLookup.None? then None else sources.repoLookup.value(sid)
  }

  // The transcript's content, overlaid with the stored repository.
  function Described(s: Summary, sources: Sources, active: int): SessionRow {
    var meta, repo := sources.lookup(s.id), StoredRepo(s.id, sources);
    var project :=
      if repo.Some? then RepoDisplayName(repo.value, sources)
      else if meta.Some? then ProjectName(meta.value.cwd, sources) else "";
    SessionRow(
      if meta.Some? && s.topic == "" then s.(topic := meta.value.title) else s,
      if project == "" then "(unknown)" else project,
      if repo.Some? then repo.value.root else if meta.Some? then meta.value.cwd else "",
      if repo.Some? && repo.value.branch != "" then repo.value.branch
      else if meta.Some? then meta.value.branch else "",
      if meta.Some? then meta.value.ask else "",
      if meta.Some? then meta.value.arc else [],
      active)
  }

  method Describe(summary: Summary, sources: Sources, active: int) returns (r: SessionRow)
    ensures r == Described(summary, sources, active)
  {
    var s := summary;
    var project, dir, branch, ask := "", "", "", "";
    var arc: seq<Turn> := [];
    var m := sources.lookup(s.id);
    if m.Some? {
      if s.topic == "" {
        s := s.(topic := m.value.title);
      }
      ask, arc, branch, dir := m.value.ask, m.value.arc, m.value.branch, m.value.cwd;
      project := ProjectName(m.value.cwd, sources);
    }
    if sources.repoLookup.Some? {
      var repo := sources.repoLookup.value(summary.id);
      if repo.Some? {
        dir := repo.value.root;
        project := RepoDisplayName(repo.value, sources);
        if repo.value.branch != "" {
          branch := repo.value.branch;
        }
      }
    }
    if project == "" {
      project := "(unknown)";
    }
    r := SessionRow(s, project, dir, branch, ask, arc, active);
  }

  // The name the project has if it is not empty.
  function NamedBy(repo: Option<RepoRef>, meta: Option<Meta>, sources: Sources): string {
    match repo
    case Some(r) => if r.remote != "" then sources.base(r.remote) else if r.root != "" then sources.base(r.root) else ""
    case None => if meta.Some? && meta.value.cwd != "" then sources.base(meta.value.cwd) else ""
  }

  // Where each field comes from: topic, ask and arc from the transcript, a topic only for lack of a
  // window title; directory and branch from the stored repository, if there is one and, for the
  // branch, if it has one, and else from the transcript; the project is named by the last element of
  // the repository's remote, else of its root, and without a repository of the transcript's directory.
  lemma DescribedMeaning(s: Summary, sources: Sources, active: int)
    ensures
      var r, meta := Described(s, sources, active), sources.lookup(s.id);
      var repo := if sources.repoLookup.Some? then sources.repoLookup.value(s.id) else None;
      && r.active == active && r.summary.(topic := "") == s.(topic := "")
      && (s.topic != "" || meta.None? ==> r.summary.topic == s.topic)
      && (s.topic == "" && meta.Some? ==> r.summary.topic == meta.value.title)
      && (meta.Some? ==> r.ask == meta.value.ask && r.arc == meta.value.arc)
      && (meta.None? ==> r.ask == "" && r.arc == [])
      && (repo.Some? ==> r.dir == repo.value.root)
      && (repo.None? && meta.Some? ==> r.dir == meta.value.cwd)
      && (repo.Some? && repo.value.branch != "" ==> r.branch == repo.value.branch)
      && ((repo.None? || repo.value.branch == "") && meta.Some? ==> r.branch == meta.value.branch)
      && var name := NamedBy(repo, meta, sources); r.project == if name == "" then "(unknown)" else name
  {
  }

  // A session with a stored repository is grouped by it alone: two sessions of one repository
  // have the same project and directory, whatever their transcripts say.
  lemma RepoDecidesProject(s: Summary, t: Summary, sources: Sources, i: int, j: int)
    requires StoredRepo(s.id, sources).Some? && StoredRepo(s.id, sources) == StoredRepo(t.id, sources)
    ensures Described(s, sources, i).project == Described(t, sources, j).project != ""
    ensures Described(s, sources, i).dir == Described(t, sources, j).dir
  {
  }

  ghost function RowOf(evs: seq<Event>, sid: string, to: int, sources: Sources): SessionRow {
    Described(SummaryOf(evs, sid, to), sources, Measure(Beats(evs, |evs|, to)))
  }

  // A session with nothing but a resume ping or a title change is left out.
  predicate Substantial(r: SessionRow) {
    !(r.active == 0 && r.summary.turns == 0 && r.summary.questions == 0 && r.summary.prompts == 0)
  }

  // The row of one session, or none.
  ghost function RowSeq(events: seq<Event>, sid: string, to: int, sources: Sources): seq<SessionRow> {
    var r := RowOf(SessionEvents(events, sid), sid, to, sources);
    if Substantial(r) then [r] else []
  }

  // The heartbeats one session contributes.
  ghost function BeatSeq(events: seq<Event>, sid: string, to: int, sources: Sources): seq<Interval> {
    var evs := SessionEvents(events, sid);
    if Substantial(RowOf(evs, sid, to, sources)) then Beats(evs, |evs|, to) else []
  }

  ghost function Rower(events: seq<Event>, to: int, sources: Sources): string -> seq<SessionRow> {
    (sid: string) => RowSeq(events, sid, to, sources)
  }

  ghost function Beater(events: seq<Event>, to: int, sources: Sources): string -> seq<Interval> {
    (sid: string) => BeatSeq(events, sid, to, sources)
  }

  ghost function RowsOf(events: seq<Event>, sids: seq<string>, to: int, sources: Sources): seq<SessionRow> {
    FlatMap(sids, Rower(events, to, sources))
  }

  ghost function BeatsOf(events: seq<Event>, sids: seq<string>, to: int, sources: Sources): seq<Interval> {
    FlatMap(sids, Beater(events, to, sources))
  }

  // ---- sums ---------------------------------------------------------------------------

  function Sum(rows: seq<SessionRow>, f: SessionRow -> int): int {
    if rows == [] then 0 else Sum(rows[..|rows| - 1], f) + f(rows[|rows| - 1])
  }

  function ActiveOf(): SessionRow -> int {
    (r: SessionRow) => r.active
  }

  function One(): SessionRow -> int {
    (r: SessionRow) => 1
  }

  function TurnsOf(): SessionRow -> int {
    (r: SessionRow) => r.summary.turns
  }

  function PromptsOf(): SessionRow -> int {
    (r: SessionRow) => r.summary.prompts
  }

  function QuestionsOf(): SessionRow -> int {
    (r: SessionRow) => r.summary.questions
  }

  function WorkingOf(): SessionRow -> int {
    (r: SessionRow) => r.summary.working
  }

  function WaitingUserOf(): SessionRow -> int {
    (r: SessionRow) => r.summary.waitingUser
  }

  function WaitingPermissionOf(): SessionRow -> int {
    (r: SessionRow) => r.summary.waitingPermission
  }

  // The f-sum over the rows of one project.
  function SumIn(rows: seq<SessionRow>, project: string, f: SessionRow -> int): int {
    if rows == [] then 0
    else
      var r := rows[|rows| - 1];
      SumIn(rows[..|rows| - 1], project, f) + if r.project == project then f(r) else 0
  }

  ghost predicate IsMin(rows: seq<SessionRow>, m: int) {
    if rows == [] then m == 0
    else (forall r | r in rows :: m <= r.active) && exists r :: r in rows && r.active == m
  }

  ghost predicate IsMax(rows: seq<SessionRow>, m: int) {
    if rows == [] then m == 0
    else (forall r | r in rows :: r.active <= m) && exists r :: r in rows && r.active == m
  }

  // ---- the specification of a digest ----------------------------------------------------

  ghost predicate IsTotals(rows: seq<SessionRow>, beats: seq<Interval>, t: Totals) {
    && t.sessions == |rows|
    && t.active == Measure(beats)
    && IsMin(rows, t.minActive) && IsMax(rows, t.maxActive)
    && t.avgActiveNs == (if rows == [] then 0 else Sum(rows, ActiveOf()) * NS_PER_MS / |rows|)
    && t.turns == Sum(rows, TurnsOf())
    && t.prompts == Sum(rows, PromptsOf())
    && t.questions == Sum(rows, QuestionsOf())
    && t.working == Sum(rows, WorkingOf())
    && t.waitingUser == Sum(rows, WaitingUserOf())
    && t.waitingPermission == Sum(rows, WaitingPermissionOf())
  }

  function Names(ps: seq<Project>): seq<string> {
    seq(|ps|, i requires 0 <= i < |ps| => ps[i].name)
  }

  // The distinct directories of one project's sessions, first-seen first.
  function DirsIn(rows: seq<SessionRow>, project: string): seq<string> {
    if rows == [] then []
    else
      var dirs, r := DirsIn(rows[..|rows| - 1], project), rows[|rows| - 1];
      if r.project == project && r.dir != "" && r.dir !in dirs then dirs + [r.dir] else dirs
  }

  lemma {:induction false} DirsInMembers(rows: seq<SessionRow>, project: string)
    ensures NoDuplicates(DirsIn(rows, project))
    ensures forall d ::
      d in DirsIn(rows, project) <==> d != "" && exists r :: r in rows && r.project == project && r.dir == d
  {
    if rows != [] {
      var init, last := rows[..|rows| - 1], rows[|rows| - 1];
      DirsInMembers(init, project);
      assert rows == init + [last];
    }
  }

  ghost predicate IsRollUp(rows: seq<SessionRow>, p: Project) {
    && p.active == SumIn(rows, p.name, ActiveOf()) && p.sessions == SumIn(rows, p.name, One())
    && p.dirs == DirsIn(rows, p.name)
  }

  // One roll-up per project of the rows, most active first.
  ghost predicate IsProjects(rows: seq<SessionRow>, ps: seq<Project>) {
    && NoDuplicates(Names(ps))
    && (forall r | r in rows :: r.project in Names(ps))
    && (forall p | p in ps :: IsRollUp(rows, p))
    && (forall p | p in ps :: exists r :: r in rows && r.project == p.name)
    && (forall i, j | 0 <= i < j < |ps| :: ps[i].active >= ps[j].active)
  }

  function LeastActiveLast(): SessionRow -> int {
    (r: SessionRow) => -r.active
  }

  function Ranked(rows: seq<SessionRow>): (out: seq<SessionRow>)
    ensures |out| == |rows|
  {
    StableSort(rows, LeastActiveLast())
  }

  function ProjectsIn(rows: seq<SessionRow>): set<string> {
    set r | r in rows :: r.project
  }

  // The rows of the substantial sessions of a window, and all their heartbeats.
  ghost function WindowRows(events: seq<Event>, from: int, to: int, sources: Sources): seq<SessionRow> {
    var w := InWindow(events, from, to);
    RowsOf(w, FirstSeen(w), to, sources)
  }

  ghost function WindowBeats(events: seq<Event>, from: int, to: int, sources: Sources): seq<Interval> {
    var w := InWindow(events, from, to);
    BeatsOf(w, FirstSeen(w), to, sources)
  }

  // The ranking is cut after topN sessions, when there are more.
  function Detailed(rows: seq<SessionRow>, topN: int): seq<SessionRow> {
    if topN > 0 && |rows| > topN then Ranked(rows)[..topN] else Ranked(rows)
  }

  function Omitted(rows: seq<SessionRow>, topN: int): seq<SessionRow> {
    if topN > 0 && |rows| > topN then Ranked(rows)[topN..] else []
  }

  ghost predicate IsDigest(rows: seq<SessionRow>, beats: seq<Interval>, topN: int, d: Digest) {
    && IsTotals(rows, beats, d.totals)
    && IsProjects(rows, d.projects) && d.totals.projects == Names(d.projects)
    && IsStreaks(beats, d.streaks, 5)
    && d.sessions == Detailed(rows, topN)
    && d.moreSessions == |Omitted(rows, topN)| && d.moreProjects == |ProjectsIn(Omitted(rows, topN))|
  }

  // ---- the one pass over a window --------------------------------------------------------

  lemma RowBeatsFacts(events: seq<Event>, sid: string, from: int, to: int)
    requires forall e | e in events :: from <= e.ts <= to
    ensures var evs := SessionEvents(events, sid);
      && AllProper(Beats(evs, |evs|, to))
      && (forall x | x in Beats(evs, |evs|, to) :: from <= x.start && x.end <= to)
  {
    var evs := SessionEvents(events, sid);
    SessionEventsFacts(events, sid);
    if evs != [] {
      BeatsShape(evs, |evs|, to);
      assert evs[0] in evs;
    }
  }

  lemma {:induction false} BeatsOfFacts(events: seq<Event>, sids: seq<string>, from: int, to: int, sources: Sources)
    requires forall e | e in events :: from <= e.ts <= to
    ensures AllProper(BeatsOf(events, sids, to, sources))
    ensures forall x | x in BeatsOf(events, sids, to, sources) :: from <= x.start && x.end <= to
  {
    if sids != [] {
      BeatsOfFacts(events, sids[..|sids| - 1], from, to, sources);
      RowBeatsFacts(events, sids[|sids| - 1], from, to);
    }
  }

  // The groups of the events seen so far.
  ghost predicate Grouped(order: seq<string>, bySession: map<string, seq<Event>>, w: seq<Event>) {
    && order == FirstSeen(w)
    && (forall sid :: sid in bySession <==> sid in order)
    && (forall sid | sid in bySession :: bySession[sid] == OfSession(w, sid))
  }

  lemma GroupedSnoc(order: seq<string>, bySession: map<string, seq<Event>>, w: seq<Event>, e: Event)
    requires Grouped(order, bySession, w)
    ensures e.session in bySession ==>
      Grouped(order, bySession[e.session := bySession[e.session] + [e]], w + [e])
    ensures e.session !in bySession ==>
      Grouped(order + [e.session], bySession[e.session := [e]], w + [e])
  {
    FirstSeenFacts(w);
    FirstSeenSnoc(w, e);
    if e.session in bySession {
      GroupGrows(bySession, w, e, bySession[e.session] + [e]);
    } else {
      GroupGrows(bySession, w, e, [e]);
    }
  }

  lemma GroupGrows(bySession: map<string, seq<Event>>, w: seq<Event>, e: Event, group: seq<Event>)
    requires forall sid | sid in bySession :: bySession[sid] == OfSession(w, sid)
    requires group == OfSession(w, e.session) + [e]
    ensures var grown := bySession[e.session := group];
      forall sid | sid in grown :: grown[sid] == OfSession(w + [e], sid)
  {
    var grown := bySession[e.session := group];
    forall sid | sid in grown
      ensures grown[sid] == OfSession(w + [e], sid)
    {
      OfSessionSnoc(w, e, sid);
    }
  }

  lemma FirstSeenSnoc(w: seq<Event>, e: Event)
    ensures FirstSeen(w + [e]) == if e.session in FirstSeen(w) then FirstSeen(w) else FirstSeen(w) + [e.session]
  {
    assert (w + [e])[..|w|] == w;
  }

  lemma InWindowSnoc(events: seq<Event>, e: Event, from: int, to: int)
    ensures InWindow(events + [e], from, to) ==
      InWindow(events, from, to) + if e.ts < from || e.ts > to then [] else [e]
  {
    assert (events + [e])[..|events|] == events;
  }

  // Groups the window's events by session and sorts each group by time.
  method GroupEvents(events: seq<Event>, from: int, to: int)
    returns (order: seq<string>, bySession: map<string, seq<Event>>)
    ensures order == FirstSeen(InWindow(events, from, to))
    ensures forall sid | sid in order ::
      sid in bySession && bySession[sid] == SessionEvents(InWindow(events, from, to), sid)
  {
    order, bySession := [], map[];
    for i := 0 to |events|
      invariant Grouped(order, bySession, InWindow(events[..i], from, to))
    {
      var e := events[i];
      assert events[..i + 1] == events[..i] + [e];
      InWindowSnoc(events[..i], e, from, to);
      if e.ts < from || e.ts > to {
        assert InWindow(events[..i + 1], from, to) == InWindow(events[..i], from, to);
        continue;
      }
      GroupedSnoc(order, bySession, InWindow(events[..i], from, to), e);
      if e.session !in bySession {
        order := order + [e.session];
        bySession := bySession[e.session := [e]];
      } else {
        bySession := bySession[e.session := bySession[e.session] + [e]];
      }
    }
    assert events[..|events|] == events;
    bySession := SortGroups(bySession);
  }

  method SortGroups(groups: map<string, seq<Event>>) returns (sorted: map<string, seq<Event>>)
    ensures sorted.Keys == groups.Keys
    ensures forall sid | sid in groups :: sorted[sid] == StableSort(groups[sid], Ts())
  {
    sorted := groups;
    var todo := groups.Keys;
    while todo != {}
      invariant todo <= groups.Keys == sorted.Keys
      invariant forall sid | sid in groups ::
        sorted[sid] == if sid in todo then groups[sid] else StableSort(groups[sid], Ts())
      decreases |todo|
    {
      var _ := Pick(todo);
      var sid :| sid in todo;
      todo := todo - {sid};
      sorted := sorted[sid := StableSort(sorted[sid], Ts())];
    }
  }

  lemma CollectStep(events: seq<Event>, order: seq<string>, i: nat, to: int, sources: Sources)
    requires i < |order|
    ensures
      var evs := SessionEvents(events, order[i]);
      var r := RowOf(evs, order[i], to, sources);
      && RowsOf(events, order[..i + 1], to, sources) ==
         RowsOf(events, order[..i], to, sources) + (if Substantial(r) then [r] else [])
      && BeatsOf(events, order[..i + 1], to, sources) ==
         BeatsOf(events, order[..i], to, sources) + (if Substantial(r) then Beats(evs, |evs|, to) else [])
  {
    assert order[..i + 1][..i] == order[..i];
  }

  // The substantial sessions in first-seen order, with all their heartbeats.
  method CollectRows(
    ghost events: seq<Event>, order: seq<string>, bySession: map<string, seq<Event>>,
    ghost from: int, to: int, sources: Sources)
    returns (rows: seq<SessionRow>, beats: seq<Interval>)
    requires forall sid | sid in order :: sid in bySession && bySession[sid] == SessionEvents(events, sid)
    requires forall e | e in events :: from <= e.ts <= to
    ensures rows == RowsOf(events, order, to, sources)
    ensures beats == BeatsOf(events, order, to, sources)
  {
    rows, beats := [], [];
    for i := 0 to |order|
      invariant rows == RowsOf(events, order[..i], to, sources)
      invariant beats == BeatsOf(events, order[..i], to, sources)
    {
      var sid := order[i];
      CollectStep(events, order, i, to, sources);
      var s, own := Summarize(bySession[sid], sid, to);
      RowBeatsFacts(events, sid, from, to);
      var active := UnionDur(own);
      var r := Describe(s, sources, active);
      if active == 0 && s.turns == 0 && s.questions == 0 && s.prompts == 0 {
        continue;
      }
      rows := rows + [r];
      beats := beats + own;
    }
    assert order[..|order|] == order;
  }

  // The three roll-up maps over the rows seen so far; a project without a directory has no entry
  // in the last.
  datatype Tallies = Tallies(active: map<string, int>, count: map<string, nat>, dirs: map<string, seq<string>>)

  function DirsOf(dirs: map<string, seq<string>>, project: string): seq<string> {
    if project in dirs then dirs[project] else []
  }

  ghost predicate TalliedSums(active: map<string, int>, count: map<string, nat>, rows: seq<SessionRow>) {
    && active.Keys == count.Keys == ProjectsIn(rows)
    && (forall p | p in active :: active[p] == SumIn(rows, p, ActiveOf()) && count[p] == SumIn(rows, p, One()))
  }

  ghost predicate TalliedDirs(dirs: map<string, seq<string>>, rows: seq<SessionRow>) {
    forall p :: DirsOf(dirs, p) == DirsIn(rows, p)
  }

  ghost predicate Tallied(t: Tallies, rows: seq<SessionRow>) {
    TalliedSums(t.active, t.count, rows) && TalliedDirs(t.dirs, rows)
  }

  function TallyRow(t: Tallies, r: SessionRow): Tallies {
    var p, dirs := r.project, DirsOf(t.dirs, r.project);
    Tallies(
      t.active[p := (if p in t.active then t.active[p] else 0) + r.active],
      t.count[p := (if p in t.count then t.count[p] else 0) + 1],
      if r.dir != "" && r.dir !in dirs then t.dirs[p := dirs + [r.dir]] else t.dirs)
  }

  lemma {:induction false} SumInNone(rows: seq<SessionRow>, p: string, f: SessionRow -> int)
    requires p !in ProjectsIn(rows)
    ensures SumIn(rows, p, f) == 0
  {
    if rows != [] {
      var init, r := rows[..|rows| - 1], rows[|rows| - 1];
      assert r in rows && r.project in ProjectsIn(rows);
      forall q | q in init
        ensures q.project != p
      {
        assert q in rows && q.project in ProjectsIn(rows);
      }
      SumInNone(init, p, f);
    }
  }

  lemma ProjectsInSnoc(rows: seq<SessionRow>, r: SessionRow)
    ensures ProjectsIn(rows + [r]) == ProjectsIn(rows) + {r.project}
  {
    assert r in rows + [r];
    forall q | q in rows
      ensures q in rows + [r]
    {
    }
  }

  lemma SumInSnoc(rows: seq<SessionRow>, r: SessionRow, p: string, f: SessionRow -> int)
    ensures SumIn(rows + [r], p, f) == SumIn(rows, p, f) + if r.project == p then f(r) else 0
  {
    assert (rows + [r])[..|rows|] == rows;
  }

  lemma TalliedSnoc(t: Tallies, rows: seq<SessionRow>, r: SessionRow)
    requires Tallied(t, rows)
    ensures Tallied(TallyRow(t, r), rows + [r])
  {
    TalliedSumsSnoc(t.active, t.count, rows, r);
    TalliedDirsSnoc(t.dirs, rows, r);
  }

  lemma TalliedSumsSnoc(active: map<string, int>, count: map<string, nat>, rows: seq<SessionRow>, r: SessionRow)
    requires TalliedSums(active, count, rows)
    ensures TalliedSums(
      active[r.project := (if r.project in active then active[r.project] else 0) + r.active],
      count[r.project := (if r.project in count then count[r.project] else 0) + 1],
      rows + [r])
  {
    ProjectsInSnoc(rows, r);
    if r.project !in active {
      SumInNone(rows, r.project, ActiveOf());
      SumInNone(rows, r.project, One());
    }
    SumsSnoc(rows, r);
  }

  lemma SumsSnoc(rows: seq<SessionRow>, r: SessionRow)
    ensures forall p ::
      SumIn(rows + [r], p, ActiveOf()) == SumIn(rows, p, ActiveOf()) + if r.project == p then r.active else 0
    ensures forall p :: SumIn(rows + [r], p, One()) == SumIn(rows, p, One()) + if r.project == p then 1 else 0
  {
    forall p
      ensures SumIn(rows + [r], p, ActiveOf()) == SumIn(rows, p, ActiveOf()) + if r.project == p then r.active else 0
      ensures SumIn(rows + [r], p, One()) == SumIn(rows, p, One()) + if r.project == p then 1 else 0
    {
      SumInSnoc(rows, r, p, ActiveOf());
      SumInSnoc(rows, r, p, One());
    }
  }

  lemma TalliedDirsSnoc(dirs: map<string, seq<string>>, rows: seq<SessionRow>, r: SessionRow)
    requires TalliedDirs(dirs, rows)
    ensures
      var own := DirsOf(dirs, r.project);
      TalliedDirs(if r.dir != "" && r.dir !in own then dirs[r.project := own + [r.dir]] else dirs, rows + [r])
  {
    var own := DirsOf(dirs, r.project);
    var dirs' := if r.dir != "" && r.dir !in own then dirs[r.project := own + [r.dir]] else dirs;
    assert (rows + [r])[..|rows|] == rows;
    assert own == DirsIn(rows, r.project);
    forall p
      ensures DirsOf(dirs', p) == DirsIn(rows + [r], p)
    {
      assert DirsOf(dirs, p) == DirsIn(rows, p);
    }
  }

  method TallyProjects(rows: seq<SessionRow>) returns (t: Tallies)
    ensures Tallied(t, rows)
  {
    t := Tallies(map[], map[], map[]);
    for i := 0 to |rows|
      invariant Tallied(t, rows[..i])
    {
      assert rows[..i + 1] == rows[..i] + [rows[i]];
      TalliedSnoc(t, rows[..i], rows[i]);
      t := TallyRow(t, rows[i]);
    }
    assert rows[..|rows|] == rows;
  }

  // Rolls the rows up per project.
  method RollUp(rows: seq<SessionRow>) returns (ps: seq<Project>)
    ensures IsProjects(rows, ps)
  {
    var t := TallyProjects(rows);
    var list := ListProjects(t);
    ps := Sort(list, MoreActiveFirst());
    SortedProjects(rows, list, ps);
  }

  ghost predicate Entry(t: Tallies, p: Project) {
    && p.name in t.active && p.name in t.count
    && p.active == t.active[p.name] && p.sessions == t.count[p.name] && p.dirs == DirsOf(t.dirs, p.name)
  }

  // The entries of the roll-up maps, in any order.
  method ListProjects(t: Tallies) returns (list: seq<Project>)
    requires t.active.Keys == t.count.Keys
    ensures Enumerates(Names(list), t.active.Keys)
    ensures forall p | p in list :: Entry(t, p)
  {
    list := [];
    var todo := t.active.Keys;
    while todo != {}
      invariant todo <= t.active.Keys
      invariant Enumerates(Names(list), t.active.Keys - todo)
      invariant forall p | p in list :: Entry(t, p)
      decreases |todo|
    {
      var _ := Pick(todo);
      var name :| name in todo;
      TakeNext(Names(list), t.active.Keys, todo, name);
      var p := Project(name, DirsOf(t.dirs, name), t.active[name], t.count[name]);
      assert Names(list + [p]) == Names(list) + [name];
      todo := todo - {name};
      list := list + [p];
    }
    assert t.active.Keys - todo == t.active.Keys;
  }

  function MoreActiveFirst(): (Project, Project) -> bool {
    (x: Project, y: Project) => x.active >= y.active
  }

  lemma SortedProjects(rows: seq<SessionRow>, list: seq<Project>, ps: seq<Project>)
    requires Enumerates(Names(list), ProjectsIn(rows))
    requires forall p | p in list :: IsRollUp(rows, p)
    requires multiset(ps) == multiset(list) && SortedBy(ps, MoreActiveFirst())
    ensures IsProjects(rows, ps)
  {
    SameMembers(list, ps);
    forall r | r in rows
      ensures r.project in Names(ps)
    {
      assert r.project in Names(list);
      var i :| 0 <= i < |list| && Names(list)[i] == r.project;
      assert list[i] in ps;
      var j :| 0 <= j < |ps| && ps[j] == list[i];
      assert Names(ps)[j] == r.project;
    }
    forall p | p in ps
      ensures exists r :: r in rows && r.project == p.name
    {
      var i :| 0 <= i < |list| && list[i] == p;
      assert Names(list)[i] == p.name;
      assert p.name in ProjectsIn(rows);
    }
    forall i, j | 0 <= i < j < |ps|
      ensures ps[i].active >= ps[j].active
    {
      assert MoreActiveFirst()(ps[i], ps[j]);
    }
    forall i, j | 0 <= i < j < |ps|
      ensures Names(ps)[i] != Names(ps)[j]
    {
      if ps[i].name == ps[j].name {
        DistinctNames(list, ps[i], ps[j]);
        TwiceInMultiset(ps, i, j);
        NamesDistinct(list);
        OnceInMultiset(list, ps[i]);
      }
    }
  }

  lemma NamesDistinct(list: seq<Project>)
    requires NoDuplicates(Names(list))
    ensures NoDuplicates(list)
  {
    assert forall i | 0 <= i < |list| :: Names(list)[i] == list[i].name;
  }

  lemma DistinctNames(list: seq<Project>, p: Project, q: Project)
    requires NoDuplicates(Names(list)) && p in list && q in list && p.name == q.name
    ensures p == q
  {
    var i :| 0 <= i < |list| && list[i] == p;
    var j :| 0 <= j < |list| && list[j] == q;
    assert Names(list)[i] == Names(list)[j];
  }

  datatype Tally = Tally(turns: int, prompts: int, questions: int,
    working: int, waitingUser: int, waitingPermission: int, active: int)

  ghost predicate IsTally(rows: seq<SessionRow>, t: Tally) {
    && t.turns == Sum(rows, TurnsOf())
    && t.prompts == Sum(rows, PromptsOf())
    && t.questions == Sum(rows, QuestionsOf())
    && t.working == Sum(rows, WorkingOf())
    && t.waitingUser == Sum(rows, WaitingUserOf())
    && t.waitingPermission == Sum(rows, WaitingPermissionOf())
    && t.active == Sum(rows, ActiveOf())
  }

  lemma SumSnoc(rows: seq<SessionRow>, r: SessionRow, f: SessionRow -> int)
    ensures Sum(rows + [r], f) == Sum(rows, f) + f(r)
  {
    assert (rows + [r])[..|rows|] == rows;
  }

  function AddRow(t: Tally, r: SessionRow): Tally {
    var s := r.summary;
    Tally(t.turns + s.turns, t.prompts + s.prompts, t.questions + s.questions,
      t.working + s.working, t.waitingUser + s.waitingUser, t.waitingPermission + s.waitingPermission,
      t.active + r.active)
  }

  lemma IsTallySnoc(rows: seq<SessionRow>, r: SessionRow, t: Tally)
    requires IsTally(rows, t)
    ensures IsTally(rows + [r], AddRow(t, r))
  {
    SumSnoc(rows, r, TurnsOf());
    SumSnoc(rows, r, PromptsOf());
    SumSnoc(rows, r, QuestionsOf());
    SumSnoc(rows, r, WorkingOf());
    SumSnoc(rows, r, WaitingUserOf());
    SumSnoc(rows, r, WaitingPermissionOf());
    SumSnoc(rows, r, ActiveOf());
  }

  ghost predicate Tallying(rows: seq<SessionRow>, t: Tally, least: int, most: int) {
    IsTally(rows, t) && IsMin(rows, least) && IsMax(rows, most)
  }

  lemma TallyingSnoc(rows: seq<SessionRow>, r: SessionRow, t: Tally, least: int, most: int)
    requires Tallying(rows, t, least, most) && r.active >= 0 && forall q | q in rows :: q.active >= 0
    ensures Tallying(
      rows + [r], AddRow(t, r), if rows == [] || r.active < least then r.active else least,
      if r.active > most then r.active else most)
  {
    IsTallySnoc(rows, r, t);
    MinMaxSnoc(rows, r, least, most);
  }

  method AddUp(rows: seq<SessionRow>, beats: seq<Interval>) returns (t: Totals)
    requires AllProper(beats) && forall r | r in rows :: r.active >= 0
    ensures IsTotals(rows, beats, t)
  {
    var active := UnionDur(beats);
    var sums := Tally(0, 0, 0, 0, 0, 0, 0);
    var least, most := 0, 0;
    for i := 0 to |rows|
      invariant Tallying(rows[..i], sums, least, most)
    {
      var r := rows[i];
      assert rows[..i + 1] == rows[..i] + [r];
      TallyingSnoc(rows[..i], r, sums, least, most);
      sums := AddRow(sums, r);
      if i == 0 || r.active < least {
        least := r.active;
      }
      if r.active > most {
        most := r.active;
      }
    }
    assert rows[..|rows|] == rows;
    var avg := 0;
    if |rows| > 0 {
      avg := sums.active * NS_PER_MS / |rows|;
    }
    t := Totals(
      |rows|, active, least, avg, most, sums.turns, sums.prompts, sums.questions,
      sums.working, sums.waitingUser, sums.waitingPermission, []);
  }

  lemma MinMaxSnoc(rows: seq<SessionRow>, r: SessionRow, least: int, most: int)
    requires IsMin(rows, least) && IsMax(rows, most) && r.active >= 0
    requires forall q | q in rows :: q.active >= 0
    ensures IsMin(rows + [r], if rows == [] || r.active < least then r.active else least)
    ensures IsMax(rows + [r], if r.active > most then r.active else most)
  {
    assert r in rows + [r];
    if rows != [] {
      var a :| a in rows && a.active == least;
      var b :| b in rows && b.active == most;
      assert a in rows + [r] && b in rows + [r];
    }
  }

  method CountProjects(rows: seq<SessionRow>) returns (n: nat)
    ensures n == |ProjectsIn(rows)|
  {
    var seen: set<string> := {};
    n := 0;
    for i := 0 to |rows|
      invariant seen == ProjectsIn(rows[..i]) && n == |seen|
    {
      assert rows[..i + 1] == rows[..i] + [rows[i]];
      assert ProjectsIn(rows[..i + 1]) == ProjectsIn(rows[..i]) + {rows[i].project};
      if rows[i].project !in seen {
        seen := seen + {rows[i].project};
        n := n + 1;
      }
    }
    assert rows[..|rows|] == rows;
  }

  lemma {:induction false} RowsActive(events: seq<Event>, sids: seq<string>, to: int, sources: Sources)
    ensures forall r | r in RowsOf(events, sids, to, sources) :: r.active >= 0
  {
    if sids != [] {
      RowsActive(events, sids[..|sids| - 1], to, sources);
    }
  }

  // The ranking, cut to the top sessions, and a summary of the rest.
  method RankSessions(rows: seq<SessionRow>, topN: int)
    returns (sessions: seq<SessionRow>, more: int, moreProjects: nat)
    ensures sessions == Detailed(rows, topN)
    ensures more == |Omitted(rows, topN)| && moreProjects == |ProjectsIn(Omitted(rows, topN))|
  {
    sessions := Ranked(rows);
    more, moreProjects := 0, 0;
    if topN > 0 && |sessions| > topN {
      moreProjects := CountProjects(sessions[topN..]);
      more := |sessions| - topN;
      sessions := sessions[..topN];
    }
  }

  method RankStreaks(beats: seq<Interval>, from: int, to: int) returns (streaks: seq<Interval>)
    requires AllProper(beats) && forall x | x in beats :: from <= x.start && x.end <= to
    ensures IsStreaks(beats, streaks, 5)
  {
    streaks := TopStreaks(beats, from, to, 5);
    ghost var shown :| CoversWindow(beats, from, to, shown) && IsStreaks(shown, streaks, 5);
    InsideWindow(beats, from, to, shown);
    StreaksOfSameCover(beats, shown, streaks, 5);
  }

  method Build(events: seq<Event>, from: int, to: int, topN: int, sources: Sources) returns (d: Digest)
    ensures IsDigest(WindowRows(events, from, to, sources), WindowBeats(events, from, to, sources), topN, d)
    ensures d.from == from && d.to == to
  {
    ghost var w := InWindow(events, from, to);
    InWindowMembers(events, from, to);
    var order, bySession := GroupEvents(events, from, to);
    var rows, beats := CollectRows(w, order, bySession, from, to, sources);
    BeatsOfFacts(w, order, from, to, sources);
    RowsActive(w, order, to, sources);

    var totals := AddUp(rows, beats);
    var projects := RollUp(rows);
    totals := totals.(projects := Names(projects));
    var sessions, more, moreProjects := RankSessions(rows, topN);
    var streaks := RankStreaks(beats, from, to);
    d := Digest(from, to, totals, streaks, sessions, more, moreProjects, projects);
  }
}
