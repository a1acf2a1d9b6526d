// internal/recap/recap.go, merge, unionDur and topStreaks: unions of half-open millisecond
// intervals, and the measure they compute.
module Intervals {
  import opened Collections
  import opened Sorting

  datatype Interval = Interval(start: int, end: int)

  // Every interval the recap builds has a positive length.
  ghost predicate AllProper(iv: seq<Interval>) {
    forall x | x in iv :: x.start < x.end
  }

  ghost predicate NoneInverted(iv: seq<Interval>) {
    forall x | x in iv :: x.start <= x.end
  }

  ghost predicate Covered(iv: seq<Interval>, t: int) {
    exists x :: x in iv && x.start <= t < x.end
  }

  ghost predicate SameCover(a: seq<Interval>, b: seq<Interval>) {
    forall t :: Covered(a, t) <==> Covered(b, t)
  }

  // Ascending, with at least one uncovered millisecond between neighbours.
  ghost predicate Separated(s: seq<Interval>) {
    forall i, j | 0 <= i < j < |s| :: s[i].end < s[j].start
  }

  // Ascending, with disjoint interiors; neighbours may touch.
  ghost predicate Ascending(s: seq<Interval>) {
    forall i, j | 0 <= i < j < |s| :: s[i].end <= s[j].start
  }

  // out is the canonical form of iv.
  ghost predicate IsMerged(iv: seq<Interval>, out: seq<Interval>) {
    AllProper(out) && Separated(out) && SameCover(iv, out)
  }

  function StartLe(): (Interval, Interval) -> bool {
    (x: Interval, y: Interval) => x.start <= y.start
  }

  lemma CoveredSnoc(s: seq<Interval>, x: Interval)
    ensures forall t :: Covered(s + [x], t) <==> Covered(s, t) || x.start <= t < x.end
  {
    forall t
      ensures Covered(s + [x], t) <==> Covered(s, t) || x.start <= t < x.end
    {
      if Covered(s, t) {
        var y :| y in s && y.start <= t < y.end;
        assert y in s + [x];
      }
      if x.start <= t < x.end {
        assert x in s + [x];
      }
    }
  }

  lemma CoveredPermuted(a: seq<Interval>, b: seq<Interval>)
    requires forall x :: x in a <==> x in b
    ensures SameCover(a, b)
  {
  }

  // Coalesces overlapping and adjacent intervals; the input need not be sorted. The result is
  // separated and covers the same points for any input, and is the canonical form when no input
  // interval is empty or inverted.
  method Merge(iv: seq<Interval>) returns (out: seq<Interval>)
    ensures Separated(out) && SameCover(iv, out)
    ensures AllProper(iv) ==> AllProper(out)
    ensures NoneInverted(iv) ==> NoneInverted(out)
  {
    if |iv| == 0 {
      return [];
    }
    var cp := Sort(iv, StartLe());
    SameMembers(iv, cp);
    CoveredPermuted(iv, cp);
    out := [cp[0]];
    assert cp[..1] == [cp[0]];
    for i := 1 to |cp|
      invariant MergedSoFar(cp[..i], out)
    {
      var m := cp[i];
      assert cp[..i + 1] == cp[..i] + [m];
      assert StartLe()(cp[i - 1], m);
      var last := out[|out| - 1];
      if m.start <= last.end {
        Absorb(cp[..i], out, m);
        if m.end > last.end {
          out := out[..|out| - 1] + [Interval(last.start, m.end)];
        }
      } else {
        Append(cp[..i], out, m);
        out := out + [m];
      }
    }
    assert cp[..|cp|] == cp;
  }

  // What the merge has made of the sorted intervals it has seen.
  ghost predicate MergedSoFar(seen: seq<Interval>, out: seq<Interval>) {
    && seen != [] && out != [] && Separated(out) && SameCover(seen, out)
    && (AllProper(seen) ==> AllProper(out)) && (NoneInverted(seen) ==> NoneInverted(out))
    && (forall x | x in out :: x.start <= out[|out| - 1].start)
    && out[|out| - 1].start <= seen[|seen| - 1].start
  }

  lemma Absorb(seen: seq<Interval>, out: seq<Interval>, m: Interval)
    requires MergedSoFar(seen, out) && seen[|seen| - 1].start <= m.start <= out[|out| - 1].end
    ensures var last := out[|out| - 1];
      MergedSoFar(seen + [m], if m.end > last.end then out[..|out| - 1] + [Interval(last.start, m.end)] else out)
  {
    var init, last := out[..|out| - 1], out[|out| - 1];
    assert out == init + [last];
    AbsorbCovers(seen, init, last, m);
    Shorter(seen, m);
    if m.end > last.end {
      LongerLast(init, last, m.end);
    }
  }

  lemma LongerLast(init: seq<Interval>, last: Interval, end: int)
    requires Separated(init + [last]) && last.end < end
    requires forall x | x in init + [last] :: x.start <= last.start
    ensures var out, longer := init + [last], init + [Interval(last.start, end)];
      && Separated(longer) && (forall x | x in longer :: x.start <= last.start)
      && (AllProper(out) ==> AllProper(longer)) && (NoneInverted(out) ==> NoneInverted(longer))
  {
    var out, longer := init + [last], init + [Interval(last.start, end)];
    assert last in out && forall x | x in init :: x in out;
    forall i, j | 0 <= i < j < |longer|
      ensures longer[i].end < longer[j].start
    {
      assert out[i].end < out[j].start;
    }
  }

  lemma AbsorbCovers(seen: seq<Interval>, init: seq<Interval>, last: Interval, m: Interval)
    requires SameCover(seen, init + [last]) && last.start <= m.start <= last.end
    ensures SameCover(seen + [m], init + [if m.end > last.end then Interval(last.start, m.end) else last])
  {
    CoveredSnoc(seen, m);
    CoveredSnoc(init, last);
    CoveredSnoc(init, Interval(last.start, m.end));
  }

  lemma Append(seen: seq<Interval>, out: seq<Interval>, m: Interval)
    requires MergedSoFar(seen, out) && seen[|seen| - 1].start <= m.start
    requires out[|out| - 1].end < m.start
    ensures MergedSoFar(seen + [m], out + [m])
  {
    CoveredSnoc(seen, m);
    CoveredSnoc(out, m);
    Shorter(seen, m);
    assert m in seen + [m];
    assert forall i | 0 <= i < |out| - 1 :: out[i].end < out[|out| - 1].start;
  }

  lemma Shorter(seen: seq<Interval>, m: Interval)
    ensures AllProper(seen + [m]) ==> AllProper(seen) && m.start < m.end
    ensures NoneInverted(seen + [m]) ==> NoneInverted(seen) && m.start <= m.end
  {
    assert m in seen + [m] && forall x | x in seen :: x in seen + [m];
  }

  lemma HeadCovers(s: seq<Interval>, t: int)
    requires s != [] && s[0].start <= t < s[0].end
    ensures Covered(s, t)
  {
    assert s[0] in s;
  }

  lemma EndsNoLater(a: seq<Interval>, b: seq<Interval>)
    requires AllProper(a) && Separated(a) && AllProper(b) && Separated(b) && SameCover(a, b)
    requires a != [] && b != [] && a[0].start == b[0].start
    ensures a[0].end <= b[0].end
  {
    EndUncovered(b);
    if a[0].start <= b[0].end < a[0].end {
      HeadCovers(a, b[0].end);
    }
    assert b[0] in b;
  }

  lemma HeadsAgree(a: seq<Interval>, b: seq<Interval>)
    requires AllProper(a) && Separated(a) && AllProper(b) && Separated(b) && SameCover(a, b)
    requires a != [] && b != []
    ensures a[0] == b[0]
  {
    assert a[0] in a && b[0] in b;
    HeadCovers(a, a[0].start);
    HeadCovers(b, b[0].start);
    FirstCovered(a, b[0].start);
    FirstCovered(b, a[0].start);
    EndsNoLater(a, b);
    EndsNoLater(b, a);
  }

  lemma TailsCover(a: seq<Interval>, b: seq<Interval>)
    requires AllProper(a) && Separated(a) && AllProper(b) && Separated(b) && SameCover(a, b)
    requires a != [] && b != [] && a[0] == b[0]
    ensures SameCover(a[1..], b[1..])
  {
    forall t
      ensures Covered(a[1..], t) <==> Covered(b[1..], t)
    {
      TailCovered(a, t);
      TailCovered(b, t);
    }
  }

  lemma OnlyEmptyCoversNothing(s: seq<Interval>)
    requires AllProper(s) && SameCover(s, [])
    ensures s == []
  {
    if s != [] {
      assert s[0] in s;
      HeadCovers(s, s[0].start);
    }
  }

  // A canonical form is determined by the points it covers; so the result of a merge is the same
  // for every order, and every grouping, of its input.
  lemma {:induction false} MergedUnique(a: seq<Interval>, b: seq<Interval>)
    requires AllProper(a) && Separated(a) && AllProper(b) && Separated(b) && SameCover(a, b)
    ensures a == b
    decreases |a|
  {
    if a == [] {
      OnlyEmptyCoversNothing(b);
    } else if b == [] {
      OnlyEmptyCoversNothing(a);
    } else {
      HeadsAgree(a, b);
      TailsCover(a, b);
      TailProper(a);
      TailProper(b);
      MergedUnique(a[1..], b[1..]);
      assert a == [a[0]] + a[1..] && b == [b[0]] + b[1..];
    }
  }

  lemma TailProper(s: seq<Interval>)
    requires AllProper(s) && Separated(s) && s != []
    ensures AllProper(s[1..]) && Separated(s[1..])
  {
    assert forall x | x in s[1..] :: x in s;
  }

  lemma FirstCovered(s: seq<Interval>, t: int)
    requires AllProper(s) && Separated(s) && Covered(s, t)
    ensures s[0].start <= t
  {
    var x :| x in s && x.start <= t < x.end;
    var i :| 0 <= i < |s| && s[i] == x;
    assert s[0] in s;
    if i > 0 {
      assert s[0].end < s[i].start;
    }
  }

  lemma EndUncovered(s: seq<Interval>)
    requires AllProper(s) && Separated(s) && s != []
    ensures !Covered(s, s[0].end)
  {
    forall x | x in s
      ensures !(x.start <= s[0].end < x.end)
    {
      var i :| 0 <= i < |s| && s[i] == x;
      if i > 0 {
        assert s[0].end < s[i].start;
      }
    }
  }

  lemma TailCovered(s: seq<Interval>, t: int)
    requires AllProper(s) && Separated(s) && s != []
    ensures Covered(s[1..], t) <==> Covered(s, t) && t >= s[0].end
  {
    if Covered(s[1..], t) {
      var x :| x in s[1..] && x.start <= t < x.end;
      var i :| 0 <= i < |s| - 1 && s[1..][i] == x;
      assert s[0].end < s[i + 1].start && x in s;
    }
    if Covered(s, t) && t >= s[0].end {
      var x :| x in s && x.start <= t < x.end;
      var i :| 0 <= i < |s| && s[i] == x;
      assert s[1..][i - 1] == x;
    }
  }

  // ---- the measure ---------------------------------------------------------------

  ghost function Points(x: Interval): set<int> {
    set t | x.start <= t < x.end && Within(x, t)
  }

  ghost predicate Within(x: Interval, t: int) {
    x.start <= t < x.end
  }

  // The covered milliseconds.
  ghost function CoveredSet(iv: seq<Interval>): set<int> {
    if iv == [] then {} else CoveredSet(iv[..|iv| - 1]) + Points(iv[|iv| - 1])
  }

  // How many milliseconds the intervals cover together.
  ghost function Measure(iv: seq<Interval>): nat {
    |CoveredSet(iv)|
  }

  function TotalLength(iv: seq<Interval>): int {
    if iv == [] then 0 else TotalLength(iv[..|iv| - 1]) + (iv[|iv| - 1].end - iv[|iv| - 1].start)
  }

  lemma {:induction false} PointsSize(x: Interval)
    requires x.start <= x.end
    ensures |Points(x)| == x.end - x.start
    decreases x.end - x.start
  {
    if x.start == x.end {
      assert Points(x) == {};
    } else {
      var y := Interval(x.start, x.end - 1);
      PointsSize(y);
      assert Points(x) == Points(y) + {x.end - 1};
    }
  }

  lemma {:induction false} CoveredSetMembers(iv: seq<Interval>)
    ensures forall t :: t in CoveredSet(iv) <==> Covered(iv, t)
  {
    if iv != [] {
      CoveredSetMembers(iv[..|iv| - 1]);
      assert iv == iv[..|iv| - 1] + [iv[|iv| - 1]];
      CoveredSnoc(iv[..|iv| - 1], iv[|iv| - 1]);
    }
  }

  lemma SameCoverMeasure(a: seq<Interval>, b: seq<Interval>)
    requires SameCover(a, b)
    ensures CoveredSet(a) == CoveredSet(b) && Measure(a) == Measure(b)
  {
    CoveredSetMembers(a);
    CoveredSetMembers(b);
  }

  lemma LaterPointsDisjoint(init: seq<Interval>, last: Interval)
    requires forall x | x in init :: x.end <= last.start
    ensures CoveredSet(init) !! Points(last)
  {
    CoveredSetMembers(init);
  }

  lemma InitAscending(init: seq<Interval>, last: Interval)
    requires Ascending(init + [last])
    ensures Ascending(init)
    ensures NoneInverted(init + [last]) <==> NoneInverted(init) && last.start <= last.end
    ensures forall x | x in init :: x.end <= last.start
  {
    var s := init + [last];
    assert forall i | 0 <= i < |init| :: s[i] == init[i] && s[i].end <= s[|init|].start;
    assert forall x | x in init :: x in s;
    assert last in s;
  }

  // The lengths of disjoint intervals add up to the measure of their union, unless one of them is
  // inverted, which only takes away.
  lemma {:induction false} DisjointMeasure(s: seq<Interval>)
    requires Ascending(s)
    ensures TotalLength(s) <= Measure(s)
    ensures TotalLength(s) == Measure(s) <==> NoneInverted(s)
  {
    if s != [] {
      var init, last := s[..|s| - 1], s[|s| - 1];
      assert s == init + [last];
      InitAscending(init, last);
      DisjointMeasure(init);
      if last.start <= last.end {
        PointsSize(last);
      } else {
        assert Points(last) == {};
      }
      LaterPointsDisjoint(init, last);
    }
  }

  lemma {:induction false} ConcatCovers(a: seq<Interval>, b: seq<Interval>)
    ensures CoveredSet(a + b) == CoveredSet(a) + CoveredSet(b)
  {
    if b == [] {
      assert a + b == a;
    } else {
      ConcatCovers(a, b[..|b| - 1]);
      assert (a + b)[..|a + b| - 1] == a + b[..|b| - 1];
    }
  }

  lemma UnionSize(s: set<int>, t: set<int>)
    ensures |s + t| <= |s| + |t|
  {
    assert s + t == s + (t - s);
    SubsetSize(t - s, t);
  }

  lemma MeasureConcat(a: seq<Interval>, b: seq<Interval>)
    ensures CoveredSet(a + b) == CoveredSet(a) + CoveredSet(b)
    ensures Measure(a + b) <= Measure(a) + Measure(b)
  {
    ConcatCovers(a, b);
    UnionSize(CoveredSet(a), CoveredSet(b));
  }

  // Intervals inside a window cover no more than the window.
  lemma MeasureInWindow(iv: seq<Interval>, from: int, to: int)
    requires from <= to && forall x | x in iv :: from <= x.start && x.end <= to
    ensures Measure(iv) <= to - from
  {
    CoveredSetMembers(iv);
    PointsSize(Interval(from, to));
    SubsetSize(CoveredSet(iv), Points(Interval(from, to)));
  }

  method UnionDur(iv: seq<Interval>) returns (ms: int)
    ensures ms <= Measure(iv)
    ensures NoneInverted(iv) ==> ms == Measure(iv)
  {
    var merged := Merge(iv);
    ms := 0;
    for i := 0 to |merged|
      invariant ms == TotalLength(merged[..i])
    {
      assert merged[..i + 1][..i] == merged[..i];
      ms := ms + (merged[i].end - merged[i].start);
    }
    assert merged[..|merged|] == merged;
    DisjointMeasure(merged);
    SameCoverMeasure(iv, merged);
  }

  // ---- streaks ---------------------------------------------------------------------

  function Length(x: Interval): int {
    x.end - x.start
  }

  function LongerFirst(): (Interval, Interval) -> bool {
    (x: Interval, y: Interval) => Length(x) >= Length(y)
  }

  // All components of the union, longest first.
  ghost predicate AllStreaks(iv: seq<Interval>, all: seq<Interval>) {
    SortedBy(all, LongerFirst()) && exists merged :: IsMerged(iv, merged) && multiset(all) == multiset(merged)
  }

  // The n longest components.
  ghost predicate IsStreaks(iv: seq<Interval>, streaks: seq<Interval>, n: nat) {
    exists all :: AllStreaks(iv, all) && streaks == if |all| <= n then all else all[..n]
  }

  // Uncut, the streaks add up to the measure of the union.
  lemma StreaksAddUp(iv: seq<Interval>, all: seq<Interval>)
    requires AllStreaks(iv, all)
    ensures TotalLength(all) == Measure(iv)
  {
    var merged :| IsMerged(iv, merged) && multiset(all) == multiset(merged);
    TotalLengthPermuted(all, merged);
    DisjointMeasure(merged);
    SameCoverMeasure(iv, merged);
  }

  // What is covered inside the window.
  ghost predicate CoversWindow(iv: seq<Interval>, from: int, to: int, shown: seq<Interval>) {
    forall t :: Covered(shown, t) <==> Covered(iv, t) && from <= t < to
  }

  // The n longest stretches of activity inside the window, whatever reaches out of it.
  method TopStreaks(iv: seq<Interval>, from: int, to: int, n: nat) returns (out: seq<Interval>)
    ensures exists shown :: CoversWindow(iv, from, to, shown) && IsStreaks(shown, out, n)
  {
    var spans := Merge(iv);
    var clipped: seq<Interval> := [];
    for i := 0 to |spans|
      invariant IsClipped(spans, i, from, to, clipped)
    {
      var m := spans[i];
      if m.start < from {
        m := m.(start := from);
      }
      if m.end > to {
        m := m.(end := to);
      }
      ClipStep(spans, i, from, to, clipped, m);
      if m.end > m.start {
        clipped := clipped + [m];
      }
    }
    assert spans[..|spans|] == spans;
    out := Sort(clipped, LongerFirst());
    ghost var all := out;
    assert IsMerged(clipped, clipped);
    assert AllStreaks(clipped, all);
    assert CoversWindow(iv, from, to, clipped);
    if |out| > n {
      out := out[..n];
    }
  }

  // The first i spans, clipped: proper, separated from each other and from the spans to come.
  ghost predicate IsClipped(spans: seq<Interval>, i: nat, from: int, to: int, clipped: seq<Interval>)
    requires i <= |spans|
  {
    && AllProper(clipped) && Separated(clipped)
    && (forall x, j | x in clipped && i <= j < |spans| :: x.end < spans[j].start)
    && CoversWindow(spans[..i], from, to, clipped)
  }

  lemma ClipStep(spans: seq<Interval>, i: nat, from: int, to: int, clipped: seq<Interval>, m: Interval)
    requires i < |spans| && Separated(spans) && IsClipped(spans, i, from, to, clipped)
    requires m.start == (if spans[i].start < from then from else spans[i].start)
    requires m.end == (if spans[i].end > to then to else spans[i].end)
    ensures IsClipped(spans, i + 1, from, to, if m.end > m.start then clipped + [m] else clipped)
  {
    ClipCovers(spans, i, from, to, clipped, m);
    if m.end > m.start {
      assert forall k | 0 <= k < |clipped| :: clipped[k] in clipped && clipped[k].end < spans[i].start;
    }
  }

  lemma ClipCovers(spans: seq<Interval>, i: nat, from: int, to: int, clipped: seq<Interval>, m: Interval)
    requires i < |spans| && CoversWindow(spans[..i], from, to, clipped)
    requires m.start == (if spans[i].start < from then from else spans[i].start)
    requires m.end == (if spans[i].end > to then to else spans[i].end)
    ensures CoversWindow(spans[..i + 1], from, to, if m.end > m.start then clipped + [m] else clipped)
  {
    assert spans[..i + 1] == spans[..i] + [spans[i]];
    CoveredSnoc(spans[..i], spans[i]);
    if m.end > m.start {
      CoveredSnoc(clipped, m);
    }
  }

  // Inside the window nothing is clipped.
  lemma InsideWindow(iv: seq<Interval>, from: int, to: int, shown: seq<Interval>)
    requires CoversWindow(iv, from, to, shown) && forall x | x in iv :: from <= x.start && x.end <= to
    ensures SameCover(iv, shown)
  {
  }

  lemma StreaksOfSameCover(a: seq<Interval>, b: seq<Interval>, out: seq<Interval>, n: nat)
    requires SameCover(a, b) && IsStreaks(b, out, n)
    ensures IsStreaks(a, out, n)
  {
    var all :| AllStreaks(b, all) && out == if |all| <= n then all else all[..n];
    var merged :| IsMerged(b, merged) && multiset(all) == multiset(merged);
    assert IsMerged(a, merged);
    assert AllStreaks(a, all);
  }

  lemma {:induction false} TotalLengthPermuted(a: seq<Interval>, b: seq<Interval>)
    requires multiset(a) == multiset(b)
    ensures TotalLength(a) == TotalLength(b)
    decreases |a|
  {
    if a != [] {
      var l, x, r := TakeOut(a, b);
      TotalLengthPermuted(a[..|a| - 1], l + r);
      TotalLengthWithout(l, x, r);
    } else {
      SameMembers(a, b);
    }
  }

  lemma TotalLengthSnoc(s: seq<Interval>, x: Interval)
    ensures TotalLength(s + [x]) == TotalLength(s) + Length(x)
  {
    assert (s + [x])[..|s|] == s;
  }

  lemma {:induction false} TotalLengthWithout(a: seq<Interval>, x: Interval, b: seq<Interval>)
    ensures TotalLength(a + [x] + b) == TotalLength(a + b) + Length(x)
  {
    if b == [] {
      assert a + [x] + b == a + [x] && a + b == a;
      TotalLengthSnoc(a, x);
    } else {
      var b', y := b[..|b| - 1], b[|b| - 1];
      TotalLengthWithout(a, x, b');
      assert a + [x] + b == (a + [x] + b') + [y] && a + b == (a + b') + [y];
      TotalLengthSnoc(a + [x] + b', y);
      TotalLengthSnoc(a + b', y);
    }
  }
}
