// internal/recap/recap.go, summarize and buildTimeline: one session's heartbeats and its
// work/wait timeline, as one pass over its ascending events.
module SessionSummary {
  import opened Wrappers
  import opened Collections
  import opened Rows
  import opened AuditLog
  import opened Intervals

  // How much activity one working event implies at most.
  const HEARTBEAT_CAP := 5 * 60_000

  // evs[i] is the last event at or before t.
  ghost predicate LastAt(evs: seq<Event>, i: int, t: int) {
    0 <= i < |evs| && evs[i].ts <= t && (i + 1 < |evs| ==> t < evs[i + 1].ts)
  }

  // ---- heartbeats -----------------------------------------------------------------

  function BeatEnd(evs: seq<Event>, i: nat, to: int): int
    requires i < |evs|
  {
    var end := evs[i].ts + HEARTBEAT_CAP;
    var end := if i + 1 < |evs| && evs[i + 1].ts < end then evs[i + 1].ts else end;
    if end > to then to else end
  }

  // The heartbeat of event i, if it has one.
  function Beat(evs: seq<Event>, i: nat, to: int): seq<Interval>
    requires i < |evs|
  {
    if EffectiveState(evs[..i + 1]) == "working" && BeatEnd(evs, i, to) > evs[i].ts
    then [Interval(evs[i].ts, BeatEnd(evs, i, to))]
    else []
  }

  function Beats(evs: seq<Event>, n: nat, to: int): seq<Interval>
    requires n <= |evs|
  {
    if n == 0 then [] else Beats(evs, n - 1, to) + Beat(evs, n - 1, to)
  }

  // Millisecond t is active on account of event i: the session is working after it, it is the
  // last event at or before t, and it is less than five minutes old.
  ghost predicate ActiveBy(evs: seq<Event>, i: int, to: int, t: int) {
    LastAt(evs, i, t) && EffectiveState(evs[..i + 1]) == "working" && t < evs[i].ts + 5 * 60_000 && t < to
  }

  // Millisecond t is active on account of one of the first n events.
  ghost predicate Active(evs: seq<Event>, n: nat, to: int, t: int) {
    exists i | 0 <= i < n :: ActiveBy(evs, i, to, t)
  }

  lemma ActiveStep(evs: seq<Event>, n: nat, to: int, t: int)
    ensures Active(evs, n + 1, to, t) <==> Active(evs, n, to, t) || ActiveBy(evs, n, to, t)
  {
  }

  // The heartbeats cover exactly the active milliseconds.
  lemma {:induction false} BeatsPointwise(evs: seq<Event>, n: nat, to: int, t: int)
    requires n <= |evs|
    ensures Covered(Beats(evs, n, to), t) <==> Active(evs, n, to, t)
  {
    if n == 0 {
      assert !Covered([], t);
    } else {
      BeatsPointwise(evs, n - 1, to, t);
      PointwiseStep(evs, n - 1, to, t, Beats(evs, n - 1, to), Beats(evs, n, to));
    }
  }

  lemma PointwiseStep(evs: seq<Event>, i: nat, to: int, t: int, before: seq<Interval>, beats: seq<Interval>)
    requires i < |evs| && before == Beats(evs, i, to) && beats == Beats(evs, i + 1, to)
    requires Covered(before, t) <==> Active(evs, i, to, t)
    ensures Covered(beats, t) <==> Active(evs, i + 1, to, t)
  {
    BeatPointwise(evs, i, to, t);
    ActiveStep(evs, i, to, t);
  }

  lemma BeatPointwise(evs: seq<Event>, i: nat, to: int, t: int)
    requires i < |evs|
    ensures Covered(Beats(evs, i + 1, to), t) <==> Covered(Beats(evs, i, to), t) || ActiveBy(evs, i, to, t)
  {
    if Beat(evs, i, to) == [] {
      assert Beats(evs, i + 1, to) == Beats(evs, i, to);
    } else {
      CoveredSnoc(Beats(evs, i, to), Interval(evs[i].ts, BeatEnd(evs, i, to)));
    }
  }

  function WorkingEvents(evs: seq<Event>, n: nat): nat
    requires n <= |evs|
  {
    if n == 0 then 0
    else WorkingEvents(evs, n - 1) + if EffectiveState(evs[..n]) == "working" then 1 else 0
  }

  // Beats stay inside the window and before the next event.
  ghost predicate Inside(iv: seq<Interval>, from: int, to: int) {
    forall x | x in iv :: from <= x.start && x.end <= to
  }

  function NextTs(evs: seq<Event>, n: nat, to: int): int {
    if n < |evs| && evs[n].ts < to then evs[n].ts else to
  }

  // At most one beat per event, and a short one only by what follows it.
  ghost predicate BeatOk(beat: seq<Interval>, ts: int, next: int) {
    beat == [] || (|beat| == 1 && beat[0].start == ts && ts < beat[0].end <= next && beat[0].end <= ts + HEARTBEAT_CAP)
  }

  lemma BeatFits(evs: seq<Event>, i: nat, to: int)
    requires i < |evs|
    ensures BeatOk(Beat(evs, i, to), evs[i].ts, NextTs(evs, i + 1, to))
    ensures Beats(evs, i + 1, to) == Beats(evs, i, to) + Beat(evs, i, to)
    ensures WorkingEvents(evs, i + 1) >= WorkingEvents(evs, i) + |Beat(evs, i, to)|
  {
  }

  lemma AppendBeat(before: seq<Interval>, beat: seq<Interval>, from: int, ts: int, next: int, end: int)
    requires AllProper(before) && Ascending(before) && Inside(before, from, end)
    requires BeatOk(beat, ts, next) && from <= ts && end <= ts && end <= next
    ensures AllProper(before + beat) && Ascending(before + beat) && Inside(before + beat, from, next)
  {
    if beat == [] {
      assert before + beat == before;
    } else {
      assert forall i | 0 <= i < |before| :: before[i] in before;
    }
  }

  // They come ascending with disjoint interiors, each no longer than the cap.
  lemma {:induction false} BeatsShape(evs: seq<Event>, n: nat, to: int)
    requires n <= |evs| && AscendingTs(evs) && evs != []
    ensures AllProper(Beats(evs, n, to)) && Ascending(Beats(evs, n, to))
    ensures Inside(Beats(evs, n, to), evs[0].ts, NextTs(evs, n, to))
  {
    if n > 0 {
      var i := n - 1;
      BeatsShape(evs, i, to);
      BeatFits(evs, i, to);
      var before, beat := Beats(evs, i, to), Beat(evs, i, to);
      AppendBeat(before, beat, evs[0].ts, evs[i].ts, NextTs(evs, n, to), NextTs(evs, i, to));
    }
  }

  lemma {:induction false} BeatsLength(evs: seq<Event>, n: nat, to: int)
    requires n <= |evs|
    ensures TotalLength(Beats(evs, n, to)) <= HEARTBEAT_CAP * WorkingEvents(evs, n)
  {
    if n > 0 {
      var i := n - 1;
      BeatsLength(evs, i, to);
      BeatFits(evs, i, to);
      LengthStep(Beats(evs, i, to), Beat(evs, i, to), evs[i].ts, NextTs(evs, n, to));
      MulStep(HEARTBEAT_CAP, WorkingEvents(evs, i), |Beat(evs, i, to)|, WorkingEvents(evs, n));
    }
  }

  lemma LengthStep(before: seq<Interval>, beat: seq<Interval>, ts: int, next: int)
    requires BeatOk(beat, ts, next)
    ensures TotalLength(before + beat) <= TotalLength(before) + HEARTBEAT_CAP * |beat|
  {
    if beat == [] {
      assert before + beat == before;
    } else {
      assert (before + beat)[..|before|] == before;
    }
  }

  lemma MulStep(c: nat, a: nat, b: nat, n: nat)
    requires a + b <= n
    ensures c * a + c * b <= c * n
  {
    assert c * n == c * a + c * b + c * (n - a - b);
  }

  // A session's active time is the plain sum of its heartbeats, and at most the cap per event in
  // working state, however long the session then stays frozen.
  lemma ActiveIsBounded(evs: seq<Event>, to: int)
    requires AscendingTs(evs)
    ensures Measure(Beats(evs, |evs|, to)) == TotalLength(Beats(evs, |evs|, to))
    ensures Measure(Beats(evs, |evs|, to)) <= HEARTBEAT_CAP * WorkingEvents(evs, |evs|)
  {
    if evs != [] {
      BeatsShape(evs, |evs|, to);
    }
    BeatsLength(evs, |evs|, to);
    DisjointMeasure(Beats(evs, |evs|, to));
  }

  // ---- timeline -------------------------------------------------------------------

  datatype SpanKind = SpanWorking | SpanWaitUser | SpanWaitPerm

  datatype Span = Span(kind: SpanKind, start: int, end: int)

  function NextMode(e: Event, cur: SpanKind): SpanKind {
    if e.event == "UserPromptSubmit" || e.event == "PostToolUse" || e.event == "SubagentStop" then SpanWorking
    else if e.event == "Stop" || e.event == "SessionStart" then SpanWaitUser
    else if e.event == "Notification" then if e.newState == "prompt" then SpanWaitPerm else cur
    else cur
  }

  // The kind in effect after the events.
  function Mode(evs: seq<Event>): SpanKind {
    if evs == [] then SpanWaitUser else NextMode(evs[|evs| - 1], Mode(evs[..|evs| - 1]))
  }

  // The kind an event asks for, if it asks for any.
  predicate Decides(e: Event, k: SpanKind) {
    match k
    case SpanWorking => e.event == "UserPromptSubmit" || e.event == "PostToolUse" || e.event == "SubagentStop"
    case SpanWaitUser => e.event == "Stop" || e.event == "SessionStart"
    case SpanWaitPerm => e.event == "Notification" && e.newState == "prompt"
  }

  predicate Neutral(e: Event) {
    forall k: SpanKind :: !Decides(e, k)
  }

  // Event i asked for kind k and none after it asked for anything.
  ghost predicate DecidedAt(evs: seq<Event>, i: int, k: SpanKind) {
    0 <= i < |evs| && Decides(evs[i], k) && forall j | i < j < |evs| :: Neutral(evs[j])
  }

  // The mode is what the last deciding event asked for, and waiting for the user before any.
  lemma {:induction false} ModeMeaning(evs: seq<Event>, k: SpanKind)
    ensures Mode(evs) == k <==>
      (exists i :: DecidedAt(evs, i, k)) || (k == SpanWaitUser && forall i | 0 <= i < |evs| :: Neutral(evs[i]))
  {
    if evs != [] {
      var init, e := evs[..|evs| - 1], evs[|evs| - 1];
      ModeMeaning(init, k);
      NextModeMeans(e, Mode(init), k);
      assert forall i | 0 <= i < |init| :: init[i] == evs[i];
      if Neutral(e) {
        assert forall i :: DecidedAt(evs, i, k) <==> DecidedAt(init, i, k);
      } else {
        assert Decides(e, k) ==> DecidedAt(evs, |init|, k);
      }
    }
  }

  lemma NextModeMeans(e: Event, cur: SpanKind, k: SpanKind)
    ensures NextMode(e, cur) == k <==> Decides(e, k) || (Neutral(e) && cur == k)
  {
    assert Neutral(e) ==> !Decides(e, SpanWorking) && !Decides(e, SpanWaitUser) && !Decides(e, SpanWaitPerm);
  }

  // The stretch after event i that is attributed to the mode it leaves: none when it is the
  // last event or the next one is a SessionEnd.
  function Gap(evs: seq<Event>, i: nat, to: int): Interval
    requires i < |evs|
  {
    if i + 1 >= |evs| || evs[i + 1].event == "SessionEnd" then Interval(evs[i].ts, evs[i].ts)
    else Interval(evs[i].ts, if evs[i + 1].ts > to then to else evs[i + 1].ts)
  }

  // Extends the last run when it is of the same kind and ends where the new stretch starts.
  function AddSpan(tl: seq<Span>, kind: SpanKind, start: int, end: int): seq<Span> {
    var n := |tl|;
    if n > 0 && tl[n - 1].kind == kind && tl[n - 1].end == start
    then tl[..n - 1] + [tl[n - 1].(end := end)]
    else tl + [Span(kind, start, end)]
  }

  function Timeline(evs: seq<Event>, n: nat, to: int): seq<Span>
    requires n <= |evs|
  {
    if n == 0 then []
    else
      var tl, g := Timeline(evs, n - 1, to), Gap(evs, n - 1, to);
      if g.end <= g.start then tl else AddSpan(tl, Mode(evs[..n]), g.start, g.end)
  }

  ghost predicate KindAt(tl: seq<Span>, t: int, k: SpanKind) {
    exists s :: s in tl && s.kind == k && s.start <= t < s.end
  }

  // Millisecond t is attributed to event i.
  ghost predicate AttributedTo(evs: seq<Event>, i: int, to: int, t: int) {
    LastAt(evs, i, t) && i + 1 < |evs| && evs[i + 1].event != "SessionEnd" && t < to
  }

  lemma AddSpanKinds(tl: seq<Span>, kind: SpanKind, start: int, end: int, t: int, k: SpanKind)
    requires start < end && forall s | s in tl :: s.start < s.end
    ensures KindAt(AddSpan(tl, kind, start, end), t, k) <==> KindAt(tl, t, k) || (k == kind && start <= t < end)
  {
    var n, out := |tl|, AddSpan(tl, kind, start, end);
    if n > 0 && tl[n - 1].kind == kind && tl[n - 1].end == start {
      var init, last := tl[..n - 1], tl[n - 1];
      assert tl == init + [last];
      var longer := last.(end := end);
      assert last in tl && longer in out;
      if KindAt(tl, t, k) {
        var s :| s in tl && s.kind == k && s.start <= t < s.end;
        assert s in out || s == last;
      }
      if KindAt(out, t, k) {
        var s :| s in out && s.kind == k && s.start <= t < s.end;
        assert s in tl || s == longer;
      }
    } else {
      assert Span(kind, start, end) in out;
      if KindAt(tl, t, k) {
        var s :| s in tl && s.kind == k && s.start <= t < s.end;
        assert s in out;
      }
    }
  }

  // Ordered, disjoint and maximal: spans of one kind never touch.
  ghost predicate WellSpaced(tl: seq<Span>) {
    && (forall s | s in tl :: s.start < s.end)
    && (forall i, j | 0 <= i < j < |tl| :: tl[i].end <= tl[j].start)
    && (forall i | 0 <= i < |tl| - 1 :: tl[i].end == tl[i + 1].start ==> tl[i].kind != tl[i + 1].kind)
  }

  lemma AppendSpan(tl: seq<Span>, s: Span)
    requires WellSpaced(tl) && s.start < s.end && forall x | x in tl :: x.end <= s.start
    requires tl != [] && tl[|tl| - 1].end == s.start ==> tl[|tl| - 1].kind != s.kind
    ensures WellSpaced(tl + [s])
  {
    assert forall i | 0 <= i < |tl| :: tl[i] in tl;
  }

  lemma LengthenSpan(init: seq<Span>, last: Span, end: int)
    requires WellSpaced(init + [last]) && last.end < end
    ensures WellSpaced(init + [last.(end := end)])
  {
    var tl, out := init + [last], init + [last.(end := end)];
    forall i | 0 <= i < |out|
      ensures tl[i] in tl && out[i].start == tl[i].start && out[i].kind == tl[i].kind
      ensures i < |init| ==> out[i].end == tl[i].end
    {
    }
    forall i, j | 0 <= i < j < |out|
      ensures out[i].end <= out[j].start
    {
      assert tl[i].end <= tl[j].start;
    }
    forall i | 0 <= i < |out| - 1
      ensures out[i].end == out[i + 1].start ==> out[i].kind != out[i + 1].kind
    {
      assert tl[i].end == tl[i + 1].start ==> tl[i].kind != tl[i + 1].kind;
    }
  }

  lemma AddSpanWellSpaced(tl: seq<Span>, kind: SpanKind, start: int, end: int)
    requires WellSpaced(tl) && start < end
    requires forall s | s in tl :: s.end <= start
    ensures WellSpaced(AddSpan(tl, kind, start, end))
    ensures forall s | s in AddSpan(tl, kind, start, end) :: s.end <= end
  {
    var n := |tl|;
    if n > 0 && tl[n - 1].kind == kind && tl[n - 1].end == start {
      assert tl == tl[..n - 1] + [tl[n - 1]];
      LengthenSpan(tl[..n - 1], tl[n - 1], end);
    } else {
      AppendSpan(tl, Span(kind, start, end));
    }
  }

  lemma {:induction false} TimelineShape(evs: seq<Event>, n: nat, to: int)
    requires n <= |evs| && AscendingTs(evs)
    ensures WellSpaced(Timeline(evs, n, to))
    ensures forall s | s in Timeline(evs, n, to) && n < |evs| :: s.end <= evs[n].ts
  {
    if n > 0 {
      TimelineShape(evs, n - 1, to);
      var tl, g := Timeline(evs, n - 1, to), Gap(evs, n - 1, to);
      if g.start < g.end {
        AddSpanWellSpaced(tl, Mode(evs[..n]), g.start, g.end);
      }
    }
  }

  // The timeline shows kind k at t on account of event i.
  ghost predicate ShownBy(evs: seq<Event>, i: int, to: int, t: int, k: SpanKind) {
    AttributedTo(evs, i, to, t) && Mode(evs[..i + 1]) == k
  }

  lemma TimelineStep(evs: seq<Event>, i: nat, to: int, t: int, k: SpanKind)
    requires i < |evs| && AscendingTs(evs)
    ensures KindAt(Timeline(evs, i + 1, to), t, k) <==> KindAt(Timeline(evs, i, to), t, k) || ShownBy(evs, i, to, t, k)
  {
    var tl, g, mode := Timeline(evs, i, to), Gap(evs, i, to), Mode(evs[..i + 1]);
    assert g.start <= t < g.end <==> AttributedTo(evs, i, to, t);
    if g.start < g.end {
      TimelineShape(evs, i, to);
      AddSpanKinds(tl, mode, g.start, g.end, t, k);
      assert Timeline(evs, i + 1, to) == AddSpan(tl, mode, g.start, g.end);
    } else {
      assert Timeline(evs, i + 1, to) == tl;
    }
  }

  ghost predicate Shown(evs: seq<Event>, n: nat, to: int, t: int, k: SpanKind) {
    exists i :: 0 <= i < n && ShownBy(evs, i, to, t, k)
  }

  // The fast fold refines the pointwise meaning: at each millisecond the timeline shows the mode
  // after the last event at or before it, and nothing before a SessionEnd, after the last event
  // or past the window.
  lemma {:induction false} TimelinePointwise(evs: seq<Event>, n: nat, to: int, t: int, k: SpanKind)
    requires n <= |evs| && AscendingTs(evs)
    ensures KindAt(Timeline(evs, n, to), t, k) <==> Shown(evs, n, to, t, k)
  {
    if n > 0 {
      TimelinePointwise(evs, n - 1, to, t, k);
      TimelineStep(evs, n - 1, to, t, k);
      ShownStep(evs, n - 1, to, t, k);
    }
  }

  lemma ShownStep(evs: seq<Event>, n: nat, to: int, t: int, k: SpanKind)
    ensures Shown(evs, n + 1, to, t, k) <==> Shown(evs, n, to, t, k) || ShownBy(evs, n, to, t, k)
  {
  }

  // ---- conservation of the timeline ---------------------------------------------------

  function SumOf(tl: seq<Span>, k: SpanKind): int {
    if tl == [] then 0
    else
      var s := tl[|tl| - 1];
      SumOf(tl[..|tl| - 1], k) + if s.kind == k then s.end - s.start else 0
  }

  function GapLength(evs: seq<Event>, i: nat, to: int): nat
    requires i < |evs|
  {
    var g := Gap(evs, i, to);
    if g.end <= g.start then 0 else g.end - g.start
  }

  // The attributed gaps that follow an event leaving mode k.
  function GapsOf(evs: seq<Event>, n: nat, to: int, k: SpanKind): nat
    requires n <= |evs|
  {
    if n == 0 then 0
    else GapsOf(evs, n - 1, to, k) + if Mode(evs[..n]) == k then GapLength(evs, n - 1, to) else 0
  }

  lemma AddSpanSum(tl: seq<Span>, kind: SpanKind, start: int, end: int, k: SpanKind)
    ensures SumOf(AddSpan(tl, kind, start, end), k) == SumOf(tl, k) + if k == kind then end - start else 0
  {
    var n, out := |tl|, AddSpan(tl, kind, start, end);
    if n > 0 && tl[n - 1].kind == kind && tl[n - 1].end == start {
      assert out[..n - 1] == tl[..n - 1];
    } else {
      assert out[..n] == tl;
    }
  }

  lemma SumNext(tl: seq<Span>, tl': seq<Span>, kind: SpanKind, g: Interval, k: SpanKind)
    requires tl' == if g.end <= g.start then tl else AddSpan(tl, kind, g.start, g.end)
    ensures SumOf(tl', k) == SumOf(tl, k) + if g.end <= g.start || k != kind then 0 else g.end - g.start
  {
    AddSpanSum(tl, kind, g.start, g.end, k);
  }

  lemma {:induction false} TimelineSums(evs: seq<Event>, n: nat, to: int, k: SpanKind, tl: seq<Span>)
    requires n <= |evs| && tl == Timeline(evs, n, to)
    ensures SumOf(tl, k) == GapsOf(evs, n, to, k)
  {
    if n > 0 {
      var before := Timeline(evs, n - 1, to);
      TimelineSums(evs, n - 1, to, k, before);
      TimelineNext(evs, n - 1, to);
      SumNext(before, tl, Mode(evs[..n]), Gap(evs, n - 1, to), k);
    }
  }

  lemma TimelineNext(evs: seq<Event>, i: nat, to: int)
    requires i < |evs|
    ensures var tl, g := Timeline(evs, i, to), Gap(evs, i, to);
      Timeline(evs, i + 1, to) == if g.end <= g.start then tl else AddSpan(tl, Mode(evs[..i + 1]), g.start, g.end)
  {
  }

  lemma {:induction false} GapsFit(evs: seq<Event>, n: nat, to: int)
    requires 0 < n <= |evs| && AscendingTs(evs)
    ensures GapsOf(evs, n, to, SpanWorking) + GapsOf(evs, n, to, SpanWaitUser) + GapsOf(evs, n, to, SpanWaitPerm)
      <= (if n < |evs| then evs[n].ts else evs[n - 1].ts) - evs[0].ts
  {
    if n > 1 {
      GapsFit(evs, n - 1, to);
    } else {
      assert forall k :: GapsOf(evs, 0, to, k) == 0;
    }
  }

  // ---- the one pass ---------------------------------------------------------------------

  datatype Summary = Summary(
    id: string, topic: string, started: int, ended: int,
    turns: nat, prompts: nat, questions: nat,
    working: int, waitingUser: int, waitingPermission: int,
    timeline: seq<Span>)

  function Count(evs: seq<Event>, p: Event -> bool): nat {
    if evs == [] then 0 else Count(evs[..|evs| - 1], p) + if p(evs[|evs| - 1]) then 1 else 0
  }

  lemma CountSnoc(evs: seq<Event>, e: Event, p: Event -> bool)
    ensures Count(evs + [e], p) == Count(evs, p) + if p(e) then 1 else 0
  {
    assert (evs + [e])[..|evs|] == evs;
  }

  // The latest non-empty window title.
  function Topic(evs: seq<Event>): string {
    if evs == [] then ""
    else
      var e := evs[|evs| - 1];
      if e.windowTitle.Some? && e.windowTitle.value != "" then e.windowTitle.value else Topic(evs[..|evs| - 1])
  }

  function IsTurn(): Event -> bool {
    (e: Event) => e.event == "Stop" && e.newState == "idle"
  }

  function IsPromptSubmit(): Event -> bool {
    (e: Event) => e.event == "UserPromptSubmit"
  }

  function IsQuestion(): Event -> bool {
    (e: Event) => e.newState == "prompt"
  }

  function SummaryOf(evs: seq<Event>, sid: string, to: int): Summary {
    var tl := Timeline(evs, |evs|, to);
    Summary(
      sid, Topic(evs),
      if evs == [] then 0 else evs[0].ts, if evs == [] then 0 else evs[|evs| - 1].ts,
      Count(evs, IsTurn()), Count(evs, IsPromptSubmit()), Count(evs, IsQuestion()),
      SumOf(tl, SpanWorking), SumOf(tl, SpanWaitUser), SumOf(tl, SpanWaitPerm), tl)
  }

  // The figures of the first i events.
  ghost predicate Summed(
    evs: seq<Event>, i: nat, to: int, topic: string, turns: int, prompts: int, questions: int, cur: string,
    beats: seq<Interval>)
    requires i <= |evs|
  {
    && topic == Topic(evs[..i]) && turns == Count(evs[..i], IsTurn())
    && prompts == Count(evs[..i], IsPromptSubmit()) && questions == Count(evs[..i], IsQuestion())
    && cur == EffectiveState(evs[..i]) && beats == Beats(evs, i, to)
  }

  lemma SummedStep(
    evs: seq<Event>, i: nat, to: int, topic: string, turns: int, prompts: int, questions: int, cur: string,
    beats: seq<Interval>)
    requires i < |evs| && Summed(evs, i, to, topic, turns, prompts, questions, cur, beats)
    ensures
      var e := evs[i];
      var now := if IsState(e.newState) then e.newState else cur;
      Summed(
        evs, i + 1, to,
        if e.windowTitle.Some? && e.windowTitle.value != "" then e.windowTitle.value else topic,
        turns + (if e.event == "Stop" && e.newState == "idle" then 1 else 0),
        prompts + (if e.event == "UserPromptSubmit" then 1 else 0),
        questions + (if e.newState == "prompt" then 1 else 0),
        now,
        if now == "working" && BeatEnd(evs, i, to) > e.ts then beats + [Interval(e.ts, BeatEnd(evs, i, to))] else beats)
  {
    assert evs[..i + 1][..i] == evs[..i];
  }

  // Ends at the next event, the cap or the window, whichever comes first.
  method AddBeat(evs: seq<Event>, i: nat, to: int, beats: seq<Interval>) returns (out: seq<Interval>)
    requires i < |evs|
    ensures out ==
      if BeatEnd(evs, i, to) > evs[i].ts then beats + [Interval(evs[i].ts, BeatEnd(evs, i, to))] else beats
  {
    out := beats;
    var end := evs[i].ts + HEARTBEAT_CAP;
    if i + 1 < |evs| && evs[i + 1].ts < end {
      end := evs[i + 1].ts;
    }
    if end > to {
      end := to;
    }
    if end > evs[i].ts {
      out := out + [Interval(evs[i].ts, end)];
    }
  }

  method Summarize(evs: seq<Event>, sid: string, to: int) returns (s: Summary, beats: seq<Interval>)
    ensures s == SummaryOf(evs, sid, to)
    ensures beats == Beats(evs, |evs|, to)
  {
    var topic, started, ended := "", 0, 0;
    var turns, prompts, questions := 0, 0, 0;
    var cur := "";
    beats := [];
    for i := 0 to |evs|
      invariant Summed(evs, i, to, topic, turns, prompts, questions, cur, beats)
      invariant i > 0 ==> started == evs[0].ts && ended == evs[i - 1].ts
      invariant i == 0 ==> started == 0 && ended == 0
    {
      var e := evs[i];
      SummedStep(evs, i, to, topic, turns, prompts, questions, cur, beats);
      if i == 0 {
        started := e.ts;
      }
      ended := e.ts;
      if IsState(e.newState) {
        cur := e.newState;
      }
      if e.newState == "prompt" {
        questions := questions + 1;
      }
      if e.event == "UserPromptSubmit" {
        prompts := prompts + 1;
      }
      if e.event == "Stop" && e.newState == "idle" {
        turns := turns + 1;
      }
      if e.windowTitle.Some? && e.windowTitle.value != "" {
        topic := e.windowTitle.value;
      }
      if cur == "working" {
        beats := AddBeat(evs, i, to, beats);
      }
    }
    assert evs[..|evs|] == evs;
    var tl, working, waitingUser, waitingPermission := BuildTimeline(evs, to);
    s := Summary(sid, topic, started, ended, turns, prompts, questions, working, waitingUser, waitingPermission, tl);
  }

  method BuildTimeline(evs: seq<Event>, to: int)
    returns (tl: seq<Span>, working: int, waitingUser: int, waitingPermission: int)
    ensures tl == Timeline(evs, |evs|, to)
    ensures working == SumOf(tl, SpanWorking)
    ensures waitingUser == SumOf(tl, SpanWaitUser)
    ensures waitingPermission == SumOf(tl, SpanWaitPerm)
  {
    var mode := SpanWaitUser;
    tl := [];
    for i := 0 to |evs|
      invariant mode == Mode(evs[..i])
      invariant tl == Timeline(evs, i, to)
    {
      assert evs[..i + 1][..i] == evs[..i];
      TimelineNext(evs, i, to);
      mode := NextMode(evs[i], mode);
      if i + 1 >= |evs| || evs[i + 1].event == "SessionEnd" {
        continue;
      }
      var start, end := evs[i].ts, evs[i + 1].ts;
      if end > to {
        end := to;
      }
      if end <= start {
        continue;
      }
      var n := |tl|;
      if n > 0 && tl[n - 1].kind == mode && tl[n - 1].end == start {
        tl := tl[..n - 1] + [tl[n - 1].(end := end)];
      } else {
        tl := tl + [Span(mode, start, end)];
      }
    }
    assert evs[..|evs|] == evs;
    working, waitingUser, waitingPermission := AddUpSpans(tl);
  }

  method AddUpSpans(tl: seq<Span>) returns (working: int, waitingUser: int, waitingPermission: int)
    ensures working == SumOf(tl, SpanWorking)
    ensures waitingUser == SumOf(tl, SpanWaitUser)
    ensures waitingPermission == SumOf(tl, SpanWaitPerm)
  {
    working, waitingUser, waitingPermission := 0, 0, 0;
    for i := 0 to |tl|
      invariant working == SumOf(tl[..i], SpanWorking)
      invariant waitingUser == SumOf(tl[..i], SpanWaitUser)
      invariant waitingPermission == SumOf(tl[..i], SpanWaitPerm)
    {
      assert tl[..i + 1][..i] == tl[..i];
      var d := tl[i].end - tl[i].start;
      match tl[i].kind
      case SpanWorking => working := working + d;
      case SpanWaitUser => waitingUser := waitingUser + d;
      case SpanWaitPerm => waitingPermission := waitingPermission + d;
    }
    assert tl[..|tl|] == tl;
  }

  // The three durations of a session add up to its attributed gaps, and never exceed the time
  // between its first and last event.
  lemma TimelineConserves(evs: seq<Event>, sid: string, to: int)
    requires AscendingTs(evs)
    ensures var s := SummaryOf(evs, sid, to);
      && s.working == GapsOf(evs, |evs|, to, SpanWorking)
      && s.waitingUser == GapsOf(evs, |evs|, to, SpanWaitUser)
      && s.waitingPermission == GapsOf(evs, |evs|, to, SpanWaitPerm)
      && s.working + s.waitingUser + s.waitingPermission <= s.ended - s.started
  {
    var tl := Timeline(evs, |evs|, to);
    TimelineSums(evs, |evs|, to, SpanWorking, tl);
    TimelineSums(evs, |evs|, to, SpanWaitUser, tl);
    TimelineSums(evs, |evs|, to, SpanWaitPerm, tl);
    if evs != [] {
      GapsFit(evs, |evs|, to);
    }
  }

  // ---- what the figures count ----------------------------------------------------------------

  ghost function SpanPoints(tl: seq<Span>, k: SpanKind): set<int> {
    if tl == [] then {}
    else
      var s := tl[|tl| - 1];
      SpanPoints(tl[..|tl| - 1], k) + if s.kind == k then Points(Interval(s.start, s.end)) else {}
  }

  lemma {:induction false} SpanPointsMembers(tl: seq<Span>, k: SpanKind, t: int)
    ensures t in SpanPoints(tl, k) <==> KindAt(tl, t, k)
  {
    if tl != [] {
      var init, s := tl[..|tl| - 1], tl[|tl| - 1];
      assert tl == init + [s];
      SpanPointsMembers(init, k, t);
      assert t in Points(Interval(s.start, s.end)) <==> s.start <= t < s.end;
      if KindAt(init, t, k) {
        var x :| x in init && x.kind == k && x.start <= t < x.end;
        assert x in tl;
      }
      assert s in tl;
    }
  }

  lemma InitSpaced(init: seq<Span>, s: Span)
    requires WellSpaced(init + [s])
    ensures WellSpaced(init) && s.start < s.end && forall x | x in init :: x.end <= s.start
  {
    var tl := init + [s];
    assert s in tl && tl[|init|] == s;
    assert forall i | 0 <= i < |init| :: init[i] == tl[i];
    assert forall x | x in init :: x in tl;
  }

  lemma PointsApart(init: seq<Span>, k: SpanKind, s: Span)
    requires forall x | x in init :: x.end <= s.start
    ensures SpanPoints(init, k) !! Points(Interval(s.start, s.end))
  {
    forall t | t in SpanPoints(init, k)
      ensures t !in Points(Interval(s.start, s.end))
    {
      SpanPointsMembers(init, k, t);
    }
  }

  lemma {:induction false} SpanPointsSize(tl: seq<Span>, k: SpanKind)
    requires WellSpaced(tl)
    ensures |SpanPoints(tl, k)| == SumOf(tl, k)
  {
    if tl != [] {
      var init, s := tl[..|tl| - 1], tl[|tl| - 1];
      assert tl == init + [s];
      InitSpaced(init, s);
      SpanPointsSize(init, k);
      PointsSize(Interval(s.start, s.end));
      PointsApart(init, k, s);
    }
  }

  // Working, waiting for the user and waiting for permission are the numbers of milliseconds at which
  // the timeline shows them.
  lemma TimelineCounts(evs: seq<Event>, sid: string, to: int)
    requires AscendingTs(evs)
    ensures var s := SummaryOf(evs, sid, to);
      && (forall k, t :: t in SpanPoints(s.timeline, k) <==> KindAt(s.timeline, t, k))
      && s.working == |SpanPoints(s.timeline, SpanWorking)|
      && s.waitingUser == |SpanPoints(s.timeline, SpanWaitUser)|
      && s.waitingPermission == |SpanPoints(s.timeline, SpanWaitPerm)|
  {
    var tl := Timeline(evs, |evs|, to);
    TimelineShape(evs, |evs|, to);
    SpanPointsSize(tl, SpanWorking);
    SpanPointsSize(tl, SpanWaitUser);
    SpanPointsSize(tl, SpanWaitPerm);
    forall k, t
      ensures t in SpanPoints(tl, k) <==> KindAt(tl, t, k)
    {
      SpanPointsMembers(tl, k, t);
    }
  }

  function Titled(): Event -> bool {
    (e: Event) => e.windowTitle.Some? && e.windowTitle.value != ""
  }

  function TitledAs(title: string): Event -> bool {
    (e: Event) => e.windowTitle == Some(title)
  }

  lemma {:induction false} TopicMeaning(evs: seq<Event>, title: string)
    requires title != ""
    ensures Topic(evs) == title <==> LastMeets(evs, Titled(), TitledAs(title))
  {
    if evs != [] {
      var init, e := evs[..|evs| - 1], evs[|evs| - 1];
      assert evs == init + [e];
      TopicMeaning(init, title);
      LastMeetsSnoc(init, e, Titled(), TitledAs(title));
    }
  }

  // The topic is the last window title that is not empty; the session starts with its first event and
  // ends with its last.
  lemma SummaryMeaning(evs: seq<Event>, sid: string, to: int, title: string)
    ensures var s := SummaryOf(evs, sid, to);
      && s.id == sid
      && (title != "" ==> (s.topic == title <==> LastMeets(evs, Titled(), TitledAs(title))))
      && (evs != [] && AscendingTs(evs) ==>
            && (exists e :: e in evs && e.ts == s.started) && (exists e :: e in evs && e.ts == s.ended)
            && forall e | e in evs :: s.started <= e.ts <= s.ended)
  {
    if title != "" {
      TopicMeaning(evs, title);
    }
    if evs != [] {
      assert evs[0] in evs && evs[|evs| - 1] in evs;
    }
  }
}
