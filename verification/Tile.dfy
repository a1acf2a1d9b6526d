// internal/tile/tile.go: the tile payload of a desktop, the cache of all of them, and the direct
// computation the cache stands in for.
module Tile {
  import opened Wrappers
  import opened Collections
  import opened Grammar
  import opened Sorting
  import opened Rows
  import opened Niri
  import opened Text

  datatype SessionTile = SessionTile(state: string, folder: string, title: string, idleLevel: nat, idleAgo: string)

  datatype Payload = Payload(
    shortcut: int, active: bool, sessions: seq<SessionTile>,
    isClaude: Option<bool>, app: string, appIcon: string, title: string)

  // How directories and application ids are shown is an input.
  datatype Looks = Looks(base: string -> string, appLabel: string -> string, icon: string -> string)

  const MAX_SESSIONS_PER_TILE := 2

  // ---- cache keys -------------------------------------------------------------------

  function ItoaSigned(n: int): string {
    if n < 0 then "-" + Itoa(-n) else Itoa(n)
  }

  function Key(output: string, idx: int): string {
    output + ":" + ItoaSigned(idx)
  }

  lemma ItoaInjective(m: nat, n: nat)
    requires Itoa(m) == Itoa(n)
    ensures m == n
  {
    ItoaValue(m);
    ItoaValue(n);
  }

  lemma ItoaSignedFacts(n: int)
    ensures ':' !in ItoaSigned(n)
    ensures ItoaSigned(n)[0] == '-' <==> n < 0
  {
    var digits := Itoa(if n < 0 then -n else n);
    assert forall i | 0 <= i < |digits| :: IsDigit(digits[i]);
  }

  lemma ItoaSignedInjective(m: int, n: int)
    requires ItoaSigned(m) == ItoaSigned(n)
    ensures m == n
  {
    ItoaSignedFacts(m);
    ItoaSignedFacts(n);
    if m < 0 {
      assert ItoaSigned(m)[1..] == Itoa(-m) && ItoaSigned(n)[1..] == Itoa(-n);
      ItoaInjective(-m, -n);
    } else {
      ItoaInjective(m, n);
    }
  }

  lemma NoColonAfter(a: string, x: string, i: int)
    requires ':' !in x && |a| < i < |a + ":" + x|
    ensures (a + ":" + x)[i] != ':'
  {
    assert (a + ":" + x)[i] == x[i - |a| - 1];
  }

  lemma SplitAtLastColon(a: string, x: string, b: string, y: string)
    requires ':' !in x && ':' !in y
    requires a + ":" + x == b + ":" + y
    ensures a == b && x == y
  {
    var s := a + ":" + x;
    assert s[|a|] == ':' && s[|b|] == ':';
    if |a| < |b| {
      NoColonAfter(a, x, |b|);
    } else if |b| < |a| {
      NoColonAfter(b, y, |a|);
    }
    assert a == s[..|a|] && b == s[..|b|];
    assert x == s[|a| + 1..] && y == s[|b| + 1..];
  }

  // Two desktops never share a cache key.
  lemma KeyInjective(o: string, i: int, p: string, j: int)
    requires Key(o, i) == Key(p, j)
    ensures o == p && i == j
  {
    ItoaSignedFacts(i);
    ItoaSignedFacts(j);
    SplitAtLastColon(o, ItoaSigned(i), p, ItoaSigned(j));
    ItoaSignedInjective(i, j);
  }

  // ---- the order of sessions on a tile -------------------------------------------------

  function StatePriority(s: string): nat {
    if s == "prompt" then 0
    else if s == "working" then 1
    else if s == "shell" then 2
    else if s == "idle" then 3
    else 4
  }

  function WindowKey(s: Session): int {
    if s.windowId.Some? then s.windowId.value else 0
  }

  predicate Before(a: Session, b: Session) {
    var p, q := StatePriority(a.state), StatePriority(b.state);
    p < q || (p == q && (WindowKey(a) < WindowKey(b) || (WindowKey(a) == WindowKey(b) && StrLe(a.id, b.id))))
  }

  function TileOrder(): (Session, Session) -> bool {
    (a: Session, b: Session) => Before(a, b)
  }

  lemma TileOrderTotal()
    ensures TotalPreorder(TileOrder())
  {
    forall a: Session, b: Session
      ensures TileOrder()(a, b) || TileOrder()(b, a)
    {
      StrLeTotal(a.id, b.id);
    }
    forall a: Session, b: Session, c: Session | TileOrder()(a, b) && TileOrder()(b, c)
      ensures TileOrder()(a, c)
    {
      if StrLe(a.id, b.id) && StrLe(b.id, c.id) {
        StrLeTransitive(a.id, b.id, c.id);
      }
    }
  }

  // ---- the payload of one desktop --------------------------------------------------------

  function FmtAgo(elapsed: int): string {
    var m := (if elapsed < 0 then 0 else elapsed) / MINUTE;
    if m < 60 then Itoa(m) + "m" else Itoa(m / 60) + "h"
  }

  function TileOf(s: Session, title: string, now: int, looks: Looks): SessionTile {
    var folder := if s.cwd.Some? then looks.base(s.cwd.value) else "";
    if s.state == "idle" && s.lastTalk.Some?
    then SessionTile(s.state, folder, title, DecayLevel(now - s.lastTalk.value), FmtAgo(now - s.lastTalk.value))
    else SessionTile(s.state, folder, title, 0, "")
  }

  function EmptyPayload(idx: int, active: bool): Payload {
    Payload(idx, active, [SessionTile("empty", "", "", 0, "")], None, "", "", "")
  }

  // The title of a window id; "" when the window is not there.
  function TitleOf(wins: seq<Window>, id: int): string {
    if wins == [] then ""
    else if wins[|wins| - 1].id == id then wins[|wins| - 1].title
    else TitleOf(wins[..|wins| - 1], id)
  }

  function TitleFor(s: Session, wins: seq<Window>): string {
    if s.windowId.Some? then TitleOf(wins, s.windowId.value) else ""
  }

  function Tiles(ss: seq<Session>, wins: seq<Window>, now: int, looks: Looks): seq<SessionTile> {
    seq(|ss|, i requires 0 <= i < |ss| => TileOf(ss[i], TitleFor(ss[i], wins), now, looks))
  }

  function Capped(ss: seq<Session>): seq<Session> {
    if |ss| > MAX_SESSIONS_PER_TILE then ss[..MAX_SESSIONS_PER_TILE] else ss
  }

  ghost predicate IsLeftmost(wins: seq<Window>, w: Window) {
    w in wins && forall v | v in wins :: w.id <= v.id
  }

  // What a payload of the desktop may be; the sort is not stable, so ties are left open.
  ghost predicate IsPayload(
    ws: Workspace, wins: seq<Window>, sessions: seq<Session>, now: int, looks: Looks, p: Payload)
  {
    if sessions != [] then
      exists ss :: multiset(ss) == multiset(sessions) && SortedBy(ss, TileOrder())
        && p == Payload(ws.idx, ws.isFocused, Tiles(Capped(ss), wins, now, looks), None, "", "", "")
    else if wins == [] then p == EmptyPayload(ws.idx, ws.isFocused)
    else
      exists w :: IsLeftmost(wins, w)
        && p == Payload(ws.idx, ws.isFocused, [], Some(false), looks.appLabel(w.appId), looks.icon(w.appId), w.title)
  }

  method PayloadFor(ws: Workspace, wins: seq<Window>, sessions: seq<Session>, now: int, looks: Looks)
    returns (p: Payload)
    ensures IsPayload(ws, wins, sessions, now, looks, p)
  {
    if |sessions| > 0 {
      TileOrderTotal();
      var ss := Sort(sessions, TileOrder());
      var shown := Capped(ss);
      var tiles: seq<SessionTile> := [];
      for i := 0 to |shown|
        invariant tiles == Tiles(shown[..i], wins, now, looks)
      {
        tiles := tiles + [TileOf(shown[i], TitleFor(shown[i], wins), now, looks)];
      }
      assert shown[..|shown|] == shown;
      return Payload(ws.idx, ws.isFocused, tiles, None, "", "", "");
    }
    if |wins| == 0 {
      return EmptyPayload(ws.idx, ws.isFocused);
    }
    var w := wins[0];
    for i := 1 to |wins|
      invariant IsLeftmost(wins[..i], w)
    {
      assert wins[..i + 1] == wins[..i] + [wins[i]];
      if wins[i].id < w.id {
        w := wins[i];
      }
    }
    assert wins[..|wins|] == wins;
    p := Payload(ws.idx, ws.isFocused, [], Some(false), looks.appLabel(w.appId), looks.icon(w.appId), w.title);
  }

  // ---- the payload is determined, and by the set of windows and sessions only -------------

  ghost predicate UniqueWindows(wins: seq<Window>) {
    forall v, w | v in wins && w in wins && v.id == w.id :: v == w
  }

  ghost predicate UniqueSessions(ss: seq<Session>) {
    forall r, s | r in ss && s in ss && r.id == s.id :: r == s
  }

  ghost predicate SameElements<T>(a: seq<T>, b: seq<T>) {
    (forall x | x in a :: x in b) && (forall x | x in b :: x in a)
  }

  lemma {:induction false} TitleOfFacts(wins: seq<Window>, id: int)
    ensures (exists w :: w in wins && w.id == id && TitleOf(wins, id) == w.title)
      || ((forall w | w in wins :: w.id != id) && TitleOf(wins, id) == "")
  {
    if wins != [] && wins[|wins| - 1].id != id {
      TitleOfFacts(wins[..|wins| - 1], id);
      assert wins == wins[..|wins| - 1] + [wins[|wins| - 1]];
      if w :| w in wins[..|wins| - 1] && w.id == id && TitleOf(wins[..|wins| - 1], id) == w.title {
        assert w in wins && w.id == id && TitleOf(wins, id) == w.title;
      }
    } else if wins != [] {
      assert wins[|wins| - 1] in wins;
    }
  }

  lemma SameTitles(a: seq<Window>, b: seq<Window>, id: int)
    requires UniqueWindows(a) && SameElements(a, b)
    ensures TitleOf(a, id) == TitleOf(b, id)
  {
    TitleOfFacts(a, id);
    TitleOfFacts(b, id);
  }

  lemma SameTiles(ss: seq<Session>, a: seq<Window>, b: seq<Window>, now: int, looks: Looks)
    requires UniqueWindows(a) && SameElements(a, b)
    ensures Tiles(ss, a, now, looks) == Tiles(ss, b, now, looks)
  {
    forall i | 0 <= i < |ss|
      ensures TitleFor(ss[i], a) == TitleFor(ss[i], b)
    {
      if ss[i].windowId.Some? {
        SameTitles(a, b, ss[i].windowId.value);
      }
    }
  }

  // m whole minutes have passed; none of a time to come.
  predicate IsMinutes(elapsed: int, m: nat) {
    if elapsed < 0 then m == 0 else m * 60_000 <= elapsed < (m + 1) * 60_000
  }

  // What a tile shows of its session: the last element of its directory, the title of its window, and
  // when it is idle and has talked the decay level and the minutes, or from an hour on the hours,
  // since.
  lemma TileMeaning(s: Session, wins: seq<Window>, now: int, looks: Looks)
    requires UniqueWindows(wins)
    ensures
      var t := TileOf(s, TitleFor(s, wins), now, looks);
      && t.state == s.state
      && (s.cwd.Some? ==> t.folder == looks.base(s.cwd.value)) && (s.cwd.None? ==> t.folder == "")
      && (forall w | w in wins && s.windowId == Some(w.id) :: t.title == w.title)
      && ((forall w | w in wins :: s.windowId != Some(w.id)) ==> t.title == "")
      && (s.state != "idle" || s.lastTalk.None? ==> t.idleLevel == 0 && t.idleAgo == "")
      && (s.state == "idle" && s.lastTalk.Some? ==>
            && (forall j | 0 <= j < |DECAY_THRESHOLDS| ::
                  j < t.idleLevel <==> DECAY_THRESHOLDS[j] <= now - s.lastTalk.value)
            && t.idleLevel < DECAY_LEVELS
            && exists m: nat :: IsMinutes(now - s.lastTalk.value, m)
                 && t.idleAgo == if m < 60 then Itoa(m) + "m" else Itoa(m / 60) + "h")
  {
    if s.windowId.Some? {
      TitleOfFacts(wins, s.windowId.value);
    }
    if s.lastTalk.Some? {
      var elapsed := now - s.lastTalk.value;
      var m: nat := (if elapsed < 0 then 0 else elapsed) / MINUTE;
      assert IsMinutes(elapsed, m);
    }
  }

  lemma SameOrder(a: seq<Session>, b: seq<Session>)
    requires UniqueSessions(a) && multiset(a) == multiset(b)
    requires SortedBy(a, TileOrder()) && SortedBy(b, TileOrder())
    ensures a == b
  {
    forall x, y | x in a && y in a && TileOrder()(x, y) && TileOrder()(y, x)
      ensures x == y
    {
      StrLeTotal(x.id, y.id);
    }
    SortedUnique(a, b, TileOrder());
  }

  // With session and window ids unique there is exactly one payload, whatever order the sessions
  // and windows come in: the layout does not flip between rebuilds.
  lemma PayloadUnique(
    ws: Workspace, winsA: seq<Window>, winsB: seq<Window>, sessA: seq<Session>, sessB: seq<Session>,
    now: int, looks: Looks, p: Payload, q: Payload)
    requires UniqueWindows(winsA) && SameElements(winsA, winsB)
    requires UniqueSessions(sessA) && multiset(sessA) == multiset(sessB)
    requires IsPayload(ws, winsA, sessA, now, looks, p) && IsPayload(ws, winsB, sessB, now, looks, q)
    ensures p == q
  {
    SameMembers(sessA, sessB);
    if sessA != [] {
      var sa :| multiset(sa) == multiset(sessA) && SortedBy(sa, TileOrder())
        && p == Payload(ws.idx, ws.isFocused, Tiles(Capped(sa), winsA, now, looks), None, "", "", "");
      var sb :| multiset(sb) == multiset(sessB) && SortedBy(sb, TileOrder())
        && q == Payload(ws.idx, ws.isFocused, Tiles(Capped(sb), winsB, now, looks), None, "", "", "");
      SameMembers(sa, sessA);
      SameOrder(sa, sb);
      SameTiles(Capped(sa), winsA, winsB, now, looks);
    } else if winsA != [] {
      assert winsA[0] in winsA && winsA[0] in winsB;
    } else if winsB != [] {
      NoneOfNothing(winsA, winsB);
    }
  }

  lemma NoneOfNothing<T>(a: seq<T>, b: seq<T>)
    requires a == [] && SameElements(a, b)
    ensures b == []
  {
    if b != [] {
      HeadIn(b);
    }
  }

  lemma HeadIn<T>(s: seq<T>)
    requires s != []
    ensures s[0] in s
  {
  }

  lemma OrderedRanks(a: Session, b: Session)
    requires a == b || TileOrder()(a, b)
    ensures StatePriority(a.state) <= StatePriority(b.state)
  {
  }

  lemma FirstTile(ss: seq<Session>, wins: seq<Window>, now: int, looks: Looks)
    requires ss != []
    ensures var tiles := Tiles(Capped(ss), wins, now, looks);
      0 < |tiles| <= MAX_SESSIONS_PER_TILE && tiles[0] == TileOf(ss[0], TitleFor(ss[0], wins), now, looks)
  {
  }

  // In a window of a smaller id, or in the same and with an id not later in the alphabet; no window
  // counts as window 0.
  predicate NotAfter(a: Session, b: Session) {
    var v, w := if a.windowId.Some? then a.windowId.value else 0, if b.windowId.Some? then b.windowId.value else 0;
    v < w || (v == w && StrLe(a.id, b.id))
  }

  lemma OrderedPlaces(a: Session, b: Session)
    requires a == b || TileOrder()(a, b)
    ensures StatePriority(a.state) == StatePriority(b.state) ==> NotAfter(a, b)
  {
    StrLeTotal(a.id, b.id);
  }

  // The first tile is that of a session of the desktop with the best priority.
  lemma HeadIsBest(
    ws: Workspace, wins: seq<Window>, sessions: seq<Session>, now: int, looks: Looks, p: Payload, s: Session)
    returns (head: Session)
    requires IsPayload(ws, wins, sessions, now, looks, p) && s in sessions
    ensures head in sessions && StatePriority(head.state) <= StatePriority(s.state)
    ensures 0 < |p.sessions| <= MAX_SESSIONS_PER_TILE
    ensures p.sessions[0] == TileOf(head, TitleFor(head, wins), now, looks)
    ensures StatePriority(head.state) == StatePriority(s.state) ==> NotAfter(head, s)
  {
    var ss :| multiset(ss) == multiset(sessions) && SortedBy(ss, TileOrder())
      && p == Payload(ws.idx, ws.isFocused, Tiles(Capped(ss), wins, now, looks), None, "", "", "");
    SameMembers(ss, sessions);
    HeadIsLeast(ss, TileOrder(), s);
    head := ss[0];
    OrderedRanks(head, s);
    OrderedPlaces(head, s);
    FirstTile(ss, wins, now, looks);
  }

  // The cap never hides the last session that waits for the user: when any session of the
  // desktop is in prompt, the first tile is.
  lemma PromptIsShown(
    ws: Workspace, wins: seq<Window>, sessions: seq<Session>, now: int, looks: Looks, p: Payload, s: Session)
    requires IsPayload(ws, wins, sessions, now, looks, p)
    requires s in sessions && s.state == "prompt"
    ensures 0 < |p.sessions| <= MAX_SESSIONS_PER_TILE && p.sessions[0].state == "prompt"
  {
    var head := HeadIsBest(ws, wins, sessions, now, looks, p, s);
    PriorityIsRank(head.state);
  }

  // Among sessions in one state the leftmost window's comes first.
  lemma LeftmostFirst(
    ws: Workspace, wins: seq<Window>, sessions: seq<Session>, now: int, looks: Looks, p: Payload, s: Session)
    requires IsPayload(ws, wins, sessions, now, looks, p) && s in sessions
    requires forall r | r in sessions :: r.state == s.state
    ensures exists head | head in sessions ::
      p.sessions != [] && p.sessions[0] == TileOf(head, TitleFor(head, wins), now, looks) && NotAfter(head, s)
  {
    var head := HeadIsBest(ws, wins, sessions, now, looks, p, s);
  }

  // What a payload says of the desktop itself: its index and focus; a Claude desktop has no other
  // fields, a desktop with other windows only shows the one of the least id, and an empty one says so.
  lemma PayloadFields(ws: Workspace, wins: seq<Window>, sessions: seq<Session>, now: int, looks: Looks, p: Payload)
    requires IsPayload(ws, wins, sessions, now, looks, p)
    ensures p.shortcut == ws.idx && p.active == ws.isFocused
    ensures sessions != [] || wins == [] ==> p.isClaude == None && p.app == "" && p.appIcon == "" && p.title == ""
    ensures sessions == [] && wins == [] ==> |p.sessions| == 1 && p.sessions[0].state == "empty"
    ensures sessions == [] && wins != [] ==>
      && p.isClaude == Some(false) && p.sessions == []
      && exists w | w in wins ::
           && (forall v | v in wins :: w.id <= v.id)
           && p.app == looks.appLabel(w.appId) && p.appIcon == looks.icon(w.appId) && p.title == w.title
  {
  }

  const SALIENCE: seq<string> := ["prompt", "working", "shell", "idle"]

  // The first tile shows the most salient state on the desktop.
  lemma MostSalientFirst(
    ws: Workspace, wins: seq<Window>, sessions: seq<Session>, now: int, looks: Looks, p: Payload, s: Session, k: nat)
    requires IsPayload(ws, wins, sessions, now, looks, p)
    requires k < |SALIENCE| && s in sessions && s.state == SALIENCE[k]
    requires forall r | r in sessions :: r.state !in SALIENCE[..k]
    ensures 0 < |p.sessions| <= MAX_SESSIONS_PER_TILE && p.sessions[0].state == SALIENCE[k]
  {
    var head := HeadIsBest(ws, wins, sessions, now, looks, p, s);
    PriorityIsRank(s.state);
    PriorityIsRank(head.state);
    if StatePriority(head.state) < k {
      EarlierRank(head.state, k);
    }
  }

  lemma EarlierRank(st: string, k: nat)
    requires k < |SALIENCE| && StatePriority(st) < k
    ensures st in SALIENCE[..k]
  {
    PriorityIsRank(st);
    assert SALIENCE[..k][StatePriority(st)] == st;
  }

  lemma PriorityIsRank(st: string)
    ensures forall i | 0 <= i < |SALIENCE| :: StatePriority(st) == i <==> st == SALIENCE[i]
  {
  }

  // How many sessions, and how many tiles, are of rank k or a more salient one.
  function Salient(ss: seq<Session>, k: nat): nat {
    if ss == [] then 0
    else Salient(ss[..|ss| - 1], k) + if StatePriority(ss[|ss| - 1].state) <= k then 1 else 0
  }

  function SalientTiles(tiles: seq<SessionTile>, k: nat): nat {
    if tiles == [] then 0
    else SalientTiles(tiles[..|tiles| - 1], k) + if StatePriority(tiles[|tiles| - 1].state) <= k then 1 else 0
  }

  function AtMostTwo(n: nat): nat {
    if n > MAX_SESSIONS_PER_TILE then MAX_SESSIONS_PER_TILE else n
  }

  lemma SalientSnoc(ss: seq<Session>, s: Session, k: nat)
    ensures Salient(ss + [s], k) == Salient(ss, k) + if StatePriority(s.state) <= k then 1 else 0
  {
    assert (ss + [s])[..|ss|] == ss;
  }

  lemma {:induction false} SalientBound(ss: seq<Session>, k: nat)
    ensures Salient(ss, k) <= |ss|
    ensures (forall s | s in ss :: StatePriority(s.state) <= k) ==> Salient(ss, k) == |ss|
  {
    if ss != [] {
      var init, s := ss[..|ss| - 1], ss[|ss| - 1];
      assert ss == init + [s] && s in ss && forall r | r in init :: r in ss;
      SalientBound(init, k);
    }
  }

  lemma {:induction false} SalientWithout(l: seq<Session>, x: Session, r: seq<Session>, k: nat)
    ensures Salient(l + [x] + r, k) == Salient(l + r, k) + if StatePriority(x.state) <= k then 1 else 0
  {
    if r == [] {
      assert l + [x] + r == l + [x] && l + r == l;
      SalientSnoc(l, x, k);
    } else {
      var r', y := r[..|r| - 1], r[|r| - 1];
      SalientWithout(l, x, r', k);
      assert l + [x] + r == (l + [x] + r') + [y] && l + r == (l + r') + [y];
      SalientSnoc(l + [x] + r', y, k);
      SalientSnoc(l + r', y, k);
    }
  }

  lemma {:induction false} SalientPermuted(a: seq<Session>, b: seq<Session>, k: nat)
    requires multiset(a) == multiset(b)
    ensures Salient(a, k) == Salient(b, k)
    decreases |a|
  {
    if a != [] {
      var l, x, r := TakeOut(a, b);
      SalientPermuted(a[..|a| - 1], l + r, k);
      SalientWithout(l, x, r, k);
    } else {
      SameMembers(a, b);
    }
  }

  // Of a sorted list the first two are the most salient ones.
  lemma {:induction false} CapKeepsSalient(ss: seq<Session>, k: nat)
    requires SortedBy(ss, TileOrder())
    ensures Salient(Capped(ss), k) == AtMostTwo(Salient(ss, k))
  {
    SalientBound(ss, k);
    if |ss| > MAX_SESSIONS_PER_TILE {
      var init, last := ss[..|ss| - 1], ss[|ss| - 1];
      assert ss == init + [last];
      if StatePriority(last.state) <= k {
        AllAsSalient(ss, k);
        SalientBound(Capped(ss), k);
      } else {
        CapKeepsSalient(init, k);
        assert Capped(ss) == Capped(init);
      }
    }
  }

  lemma AllAsSalient(ss: seq<Session>, k: nat)
    requires SortedBy(ss, TileOrder()) && ss != [] && StatePriority(ss[|ss| - 1].state) <= k
    ensures forall s | s in ss :: StatePriority(s.state) <= k
  {
    forall i | 0 <= i < |ss| - 1
      ensures StatePriority(ss[i].state) <= k
    {
      assert TileOrder()(ss[i], ss[|ss| - 1]);
    }
  }

  lemma {:induction false} TilesAreAsSalient(ss: seq<Session>, wins: seq<Window>, now: int, looks: Looks, k: nat)
    ensures SalientTiles(Tiles(ss, wins, now, looks), k) == Salient(ss, k)
  {
    if ss != [] {
      TilesAreAsSalient(ss[..|ss| - 1], wins, now, looks, k);
      assert Tiles(ss, wins, now, looks)[..|ss| - 1] == Tiles(ss[..|ss| - 1], wins, now, looks);
    }
  }

  // The cap keeps the two most salient sessions: down to each rank the tiles are as many as the
  // sessions, or two when those are more. With k the rank of prompt, no session in prompt is hidden
  // if and only if there are at most two.
  lemma MostSalientShown(
    ws: Workspace, wins: seq<Window>, sessions: seq<Session>, now: int, looks: Looks, p: Payload, k: nat)
    requires IsPayload(ws, wins, sessions, now, looks, p) && sessions != []
    ensures SalientTiles(p.sessions, k) == AtMostTwo(Salient(sessions, k))
    ensures |p.sessions| == AtMostTwo(|sessions|)
  {
    var ss :| multiset(ss) == multiset(sessions) && SortedBy(ss, TileOrder())
      && p == Payload(ws.idx, ws.isFocused, Tiles(Capped(ss), wins, now, looks), None, "", "", "");
    SameMembers(ss, sessions);
    SalientPermuted(ss, sessions, k);
    CapKeepsSalient(ss, k);
    TilesAreAsSalient(Capped(ss), wins, now, looks, k);
  }

  // So of three sessions in prompt one is dropped.
  lemma ThirdPromptHidden(ws: Workspace, wins: seq<Window>, sessions: seq<Session>, now: int, looks: Looks, p: Payload)
    requires IsPayload(ws, wins, sessions, now, looks, p)
    requires |sessions| == 3 && forall s | s in sessions :: s.state == "prompt"
    ensures SalientTiles(p.sessions, StatePriority("prompt")) == 2 && |p.sessions| == 2
  {
    MostSalientShown(ws, wins, sessions, now, looks, p, 0);
    SalientBound(sessions, 0);
  }

  // ---- the cache and the direct form -------------------------------------------------------

  function WindowsOn(windows: seq<Window>, ws: int): seq<Window> {
    if windows == [] then []
    else
      var w := windows[|windows| - 1];
      WindowsOn(windows[..|windows| - 1], ws) + if w.workspaceId == ws then [w] else []
  }

  // The sessions whose window, in the map of all windows, is on the workspace.
  function SessionsOn(sessions: seq<Session>, byId: map<int, Window>, ws: int): seq<Session> {
    if sessions == [] then []
    else
      var s := sessions[|sessions| - 1];
      SessionsOn(sessions[..|sessions| - 1], byId, ws) +
      if s.windowId.Some? && s.windowId.value in byId && byId[s.windowId.value].workspaceId == ws then [s] else []
  }

  // The sessions whose window id is among the given ones.
  function SessionsIn(sessions: seq<Session>, ids: set<int>): seq<Session> {
    if sessions == [] then []
    else
      var s := sessions[|sessions| - 1];
      SessionsIn(sessions[..|sessions| - 1], ids) +
      if s.windowId.Some? && s.windowId.value in ids then [s] else []
  }

  // p is the payload of a workspace whose key is k.
  ghost predicate IsEntry(
    workspaces: map<int, Workspace>, windows: seq<Window>, sessions: seq<Session>, now: int, looks: Looks,
    k: string, p: Payload)
  {
    exists i ::
      && i in workspaces && Key(workspaces[i].output, workspaces[i].idx) == k
      && IsPayload(
           workspaces[i], WindowsOn(windows, workspaces[i].id),
           SessionsOn(sessions, WindowsById(windows), workspaces[i].id), now, looks, p)
  }

  ghost predicate IsCache(
    workspaces: map<int, Workspace>, windows: seq<Window>, sessions: seq<Session>, now: int, looks: Looks,
    cache: map<string, Payload>)
  {
    && (forall i | i in workspaces :: Key(workspaces[i].output, workspaces[i].idx) in cache)
    && (forall k | k in cache :: IsEntry(workspaces, windows, sessions, now, looks, k, cache[k]))
  }

  function ListOf<T>(groups: map<int, seq<T>>, ws: int): seq<T> {
    if ws in groups then groups[ws] else []
  }

  ghost predicate GroupsWindows(byWs: map<int, seq<Window>>, windows: seq<Window>) {
    forall ws :: WindowsOn(windows, ws) == ListOf(byWs, ws)
  }

  ghost predicate GroupsSessions(byWs: map<int, seq<Session>>, sessions: seq<Session>, byId: map<int, Window>) {
    forall ws :: SessionsOn(sessions, byId, ws) == ListOf(byWs, ws)
  }

  lemma WindowsOnSnoc(windows: seq<Window>, w: Window, ws: int)
    ensures WindowsOn(windows + [w], ws) == WindowsOn(windows, ws) + if w.workspaceId == ws then [w] else []
  {
    assert (windows + [w])[..|windows|] == windows;
  }

  lemma GroupsWindowsSnoc(byWs: map<int, seq<Window>>, windows: seq<Window>, w: Window)
    requires GroupsWindows(byWs, windows)
    ensures GroupsWindows(byWs[w.workspaceId := ListOf(byWs, w.workspaceId) + [w]], windows + [w])
  {
    forall ws
      ensures WindowsOn(windows + [w], ws) == ListOf(byWs[w.workspaceId := ListOf(byWs, w.workspaceId) + [w]], ws)
    {
      WindowsOnSnoc(windows, w, ws);
    }
  }

  // The workspace a session is placed on.
  function PlaceOf(s: Session, byId: map<int, Window>): Option<int> {
    if s.windowId.Some? && s.windowId.value in byId then Some(byId[s.windowId.value].workspaceId) else None
  }

  lemma SessionsOnSnoc(sessions: seq<Session>, s: Session, byId: map<int, Window>, ws: int)
    ensures SessionsOn(sessions + [s], byId, ws) ==
      SessionsOn(sessions, byId, ws) + if PlaceOf(s, byId) == Some(ws) then [s] else []
  {
    assert (sessions + [s])[..|sessions|] == sessions;
  }

  lemma GroupsSessionsSnoc(byWs: map<int, seq<Session>>, sessions: seq<Session>, byId: map<int, Window>, s: Session)
    requires GroupsSessions(byWs, sessions, byId)
    ensures match PlaceOf(s, byId)
      case None => GroupsSessions(byWs, sessions + [s], byId)
      case Some(ws) => GroupsSessions(byWs[ws := ListOf(byWs, ws) + [s]], sessions + [s], byId)
  {
    forall ws
      ensures SessionsOn(sessions + [s], byId, ws) ==
        SessionsOn(sessions, byId, ws) + if PlaceOf(s, byId) == Some(ws) then [s] else []
    {
      SessionsOnSnoc(sessions, s, byId, ws);
    }
  }

  lemma WindowsByIdSnoc(windows: seq<Window>, w: Window)
    ensures WindowsById(windows + [w]) == WindowsById(windows)[w.id := w]
  {
    assert (windows + [w])[..|windows|] == windows;
  }

  method GroupWindows(windows: seq<Window>) returns (byId: map<int, Window>, byWs: map<int, seq<Window>>)
    ensures byId == WindowsById(windows) && GroupsWindows(byWs, windows)
  {
    byId, byWs := map[], map[];
    for i := 0 to |windows|
      invariant byId == WindowsById(windows[..i]) && GroupsWindows(byWs, windows[..i])
    {
      var w := windows[i];
      assert windows[..i + 1] == windows[..i] + [w];
      WindowsByIdSnoc(windows[..i], w);
      GroupsWindowsSnoc(byWs, windows[..i], w);
      byId := byId[w.id := w];
      byWs := byWs[w.workspaceId := ListOf(byWs, w.workspaceId) + [w]];
    }
    assert windows[..|windows|] == windows;
  }

  method GroupSessions(sessions: seq<Session>, byId: map<int, Window>) returns (byWs: map<int, seq<Session>>)
    ensures GroupsSessions(byWs, sessions, byId)
  {
    byWs := map[];
    for i := 0 to |sessions|
      invariant GroupsSessions(byWs, sessions[..i], byId)
    {
      var s := sessions[i];
      assert sessions[..i + 1] == sessions[..i] + [s];
      GroupsSessionsSnoc(byWs, sessions[..i], byId, s);
      if s.windowId.None? {
        continue;
      }
      if s.windowId.value in byId {
        var ws := byId[s.windowId.value].workspaceId;
        byWs := byWs[ws := ListOf(byWs, ws) + [s]];
      }
    }
    assert sessions[..|sessions|] == sessions;
  }

  // Groups windows and sessions once, then computes every desktop.
  method BuildAll(
    workspaces: map<int, Workspace>, windows: seq<Window>, sessions: seq<Session>, now: int, looks: Looks)
    returns (cache: map<string, Payload>)
    ensures IsCache(workspaces, windows, sessions, now, looks, cache)
  {
    var byId, winsByWs := GroupWindows(windows);
    var sessByWs := GroupSessions(sessions, byId);
    cache := map[];
    var todo := workspaces.Keys;
    while todo != {}
      invariant todo <= workspaces.Keys
      invariant forall i | i in workspaces && i !in todo :: Key(workspaces[i].output, workspaces[i].idx) in cache
      invariant forall k | k in cache :: IsEntry(workspaces, windows, sessions, now, looks, k, cache[k])
      decreases |todo|
    {
      var _ := Pick(todo);
      var i :| i in todo;
      todo := todo - {i};
      var ws := workspaces[i];
      var wins := ListOf(winsByWs, ws.id);
      var sess := ListOf(sessByWs, ws.id);
      var p := PayloadFor(ws, wins, sess, now, looks);
      assert IsEntry(workspaces, windows, sessions, now, looks, Key(ws.output, ws.idx), p);
      cache := cache[Key(ws.output, ws.idx) := p];
    }
  }

  function IdsOf(wins: seq<Window>): set<int> {
    set w | w in wins :: w.id
  }

  predicate At(ws: Workspace, output: string, idx: int) {
    ws.output == output && ws.idx == idx
  }

  ghost predicate IsLive(
    list: seq<Workspace>, windows: seq<Window>, sessions: seq<Session>, output: string, idx: int,
    now: int, looks: Looks, p: Payload)
  {
    if exists ws :: ws in list && At(ws, output, idx) then
      exists ws :: ws in list && At(ws, output, idx) &&
        var onWs := WindowsOn(windows, ws.id);
        IsPayload(ws, onWs, SessionsIn(sessions, IdsOf(onWs)), now, looks, p)
    else p == EmptyPayload(idx, false)
  }

  // A query that fails counts as one that finds nothing.
  function OrEmpty<T>(answer: Option<seq<T>>): seq<T> {
    match answer
    case None => []
    case Some(s) => s
  }

  // The fallback without a cache: gather what is on one desktop and compute its payload.
  method BuildLive(
    listed: Option<seq<Workspace>>, shown: Option<seq<Window>>, stored: Option<seq<Session>>,
    output: string, idx: int, now: int, looks: Looks) returns (p: Payload)
    ensures IsLive(OrEmpty(listed), OrEmpty(shown), OrEmpty(stored), output, idx, now, looks, p)
  {
    if listed.None? {
      return EmptyPayload(idx, false);
    }
    var list, windows, sessions := listed.value, OrEmpty(shown), OrEmpty(stored);
    var n := 0;
    while n < |list| && !At(list[n], output, idx)
      invariant 0 <= n <= |list|
      invariant forall j | 0 <= j < n :: !At(list[j], output, idx)
    {
      n := n + 1;
    }
    if n == |list| {
      return EmptyPayload(idx, false);
    }
    var ws := list[n];
    var onWs: seq<Window> := [];
    for i := 0 to |windows|
      invariant onWs == WindowsOn(windows[..i], ws.id)
    {
      assert windows[..i + 1][..i] == windows[..i];
      if windows[i].workspaceId == ws.id {
        onWs := onWs + [windows[i]];
      }
    }
    assert windows[..|windows|] == windows;
    var ids := IdsOf(onWs);
    var sessOnWs: seq<Session> := [];
    for i := 0 to |sessions|
      invariant sessOnWs == SessionsIn(sessions[..i], ids)
    {
      assert sessions[..i + 1][..i] == sessions[..i];
      if sessions[i].windowId.Some? && sessions[i].windowId.value in ids {
        sessOnWs := sessOnWs + [sessions[i]];
      }
    }
    assert sessions[..|sessions|] == sessions;
    p := PayloadFor(ws, onWs, sessOnWs, now, looks);
  }

  // ---- the cache agrees with the direct form -------------------------------------------------

  lemma {:induction false} WindowsOnMembers(windows: seq<Window>, ws: int)
    ensures forall w :: w in WindowsOn(windows, ws) <==> w in windows && w.workspaceId == ws
  {
    if windows != [] {
      WindowsOnMembers(windows[..|windows| - 1], ws);
      assert windows == windows[..|windows| - 1] + [windows[|windows| - 1]];
    }
  }

  lemma {:induction false} WindowsByIdMembers(windows: seq<Window>)
    ensures forall i | i in WindowsById(windows) ::
      WindowsById(windows)[i].id == i && WindowsById(windows)[i] in windows
    ensures forall w | w in windows :: w.id in WindowsById(windows)
  {
    if windows != [] {
      WindowsByIdMembers(windows[..|windows| - 1]);
      assert windows == windows[..|windows| - 1] + [windows[|windows| - 1]];
    }
  }

  lemma OnThisWorkspace(windows: seq<Window>, ws: int, id: int)
    requires UniqueWindows(windows)
    ensures id in IdsOf(WindowsOn(windows, ws)) <==>
      id in WindowsById(windows) && WindowsById(windows)[id].workspaceId == ws
  {
    WindowsOnMembers(windows, ws);
    WindowsByIdMembers(windows);
    if id in IdsOf(WindowsOn(windows, ws)) {
      var w :| w in WindowsOn(windows, ws) && w.id == id;
      assert WindowsById(windows)[id] == w;
    }
  }

  lemma {:induction false} SessionsAgree(sessions: seq<Session>, windows: seq<Window>, ws: int)
    requires UniqueWindows(windows)
    ensures SessionsIn(sessions, IdsOf(WindowsOn(windows, ws))) == SessionsOn(sessions, WindowsById(windows), ws)
  {
    if sessions != [] {
      SessionsAgree(sessions[..|sessions| - 1], windows, ws);
      var s := sessions[|sessions| - 1];
      if s.windowId.Some? {
        OnThisWorkspace(windows, ws, s.windowId.value);
      }
    }
  }

  ghost predicate UniquePlaces(list: seq<Workspace>) {
    && (forall v, w | v in list && w in list && v.id == w.id :: v == w)
    && (forall v, w | v in list && w in list && v.output == w.output && v.idx == w.idx :: v == w)
  }

  // What the tile-data command shows from the cache.
  function Lookup(cache: map<string, Payload>, output: string, idx: int): Payload {
    if Key(output, idx) in cache then cache[Key(output, idx)] else EmptyPayload(idx, false)
  }

  // The sessions of a workspace are counted by the snapshot alone, in any order.
  lemma {:induction false} SessionsOnCount(sessions: seq<Session>, byId: map<int, Window>, ws: int, s: Session)
    ensures multiset(SessionsOn(sessions, byId, ws))[s] ==
      if s.windowId.Some? && s.windowId.value in byId && byId[s.windowId.value].workspaceId == ws
      then multiset(sessions)[s] else 0
  {
    if sessions != [] {
      var init, last := sessions[..|sessions| - 1], sessions[|sessions| - 1];
      SessionsOnCount(init, byId, ws, s);
      assert sessions == init + [last];
    }
  }

  lemma SessionsOnPermuted(a: seq<Session>, b: seq<Session>, byId: map<int, Window>, ws: int)
    requires multiset(a) == multiset(b)
    ensures multiset(SessionsOn(a, byId, ws)) == multiset(SessionsOn(b, byId, ws))
  {
    forall s
      ensures multiset(SessionsOn(a, byId, ws))[s] == multiset(SessionsOn(b, byId, ws))[s]
    {
      SessionsOnCount(a, byId, ws, s);
      SessionsOnCount(b, byId, ws, s);
    }
  }

  lemma SessionsOnMembers(sessions: seq<Session>, byId: map<int, Window>, ws: int)
    ensures forall s | s in SessionsOn(sessions, byId, ws) :: s in sessions
  {
    forall s | s in SessionsOn(sessions, byId, ws)
      ensures s in sessions
    {
      SessionsOnCount(sessions, byId, ws, s);
      assert s in multiset(SessionsOn(sessions, byId, ws));
      assert s in multiset(sessions);
    }
  }

  // The index by id depends on which windows there are, not on their order.
  lemma SameIndex(a: seq<Window>, b: seq<Window>)
    requires UniqueWindows(a) && SameElements(a, b)
    ensures WindowsById(a) == WindowsById(b)
  {
    forall i
      ensures i in WindowsById(a) <==> i in WindowsById(b)
      ensures i in WindowsById(a) && i in WindowsById(b) ==> WindowsById(a)[i] == WindowsById(b)[i]
    {
      SameEntry(a, b, i);
      SameEntry(b, a, i);
    }
  }

  lemma SameEntry(a: seq<Window>, b: seq<Window>, i: int)
    requires UniqueWindows(b) && SameElements(a, b)
    ensures i in WindowsById(a) ==> i in WindowsById(b) && WindowsById(b)[i] == WindowsById(a)[i]
  {
    WindowsByIdMembers(a);
    WindowsByIdMembers(b);
    if i in WindowsById(a) {
      var w := WindowsById(a)[i];
      assert w in b && WindowsById(b)[w.id] in b;
    }
  }

  // One desktop's payload, computed twice from snapshots of the same windows and sessions in
  // different orders.
  lemma SamePayload(
    ws: Workspace, winsA: seq<Window>, winsB: seq<Window>, sessA: seq<Session>, sessB: seq<Session>,
    now: int, looks: Looks, p: Payload, q: Payload)
    requires UniqueWindows(winsA) && SameElements(winsA, winsB)
    requires UniqueSessions(sessA) && multiset(sessA) == multiset(sessB)
    requires IsPayload(ws, WindowsOn(winsA, ws.id), SessionsOn(sessA, WindowsById(winsA), ws.id), now, looks, p)
    requires IsPayload(ws, WindowsOn(winsB, ws.id), SessionsOn(sessB, WindowsById(winsB), ws.id), now, looks, q)
    ensures p == q
  {
    WindowsOnMembers(winsA, ws.id);
    WindowsOnMembers(winsB, ws.id);
    SameIndex(winsA, winsB);
    SessionsOnPermuted(sessA, sessB, WindowsById(winsA), ws.id);
    SessionsOnMembers(sessA, WindowsById(winsA), ws.id);
    PayloadUnique(
      ws, WindowsOn(winsA, ws.id), WindowsOn(winsB, ws.id),
      SessionsOn(sessA, WindowsById(winsA), ws.id), SessionsOn(sessB, WindowsById(winsB), ws.id), now, looks, p, q);
  }

  // For every desktop, known or not, the cached payload is the one the live query would compute
  // from the same windows and sessions, in whatever order each side sees them.
  lemma CacheAgreesWithLive(
    list: seq<Workspace>, winsA: seq<Window>, winsB: seq<Window>, sessA: seq<Session>, sessB: seq<Session>,
    output: string, idx: int, now: int, looks: Looks, cache: map<string, Payload>, p: Payload)
    requires UniquePlaces(list) && UniqueWindows(winsA) && SameElements(winsA, winsB)
    requires UniqueSessions(sessA) && multiset(sessA) == multiset(sessB)
    requires IsCache(WorkspacesById(list), winsA, sessA, now, looks, cache)
    requires IsLive(list, winsB, sessB, output, idx, now, looks, p)
    ensures Lookup(cache, output, idx) == p
  {
    var workspaces, k := WorkspacesById(list), Key(output, idx);
    WorkspacesByIdIds(list);
    if k in cache {
      var i := EntryAt(workspaces, winsA, sessA, now, looks, k, cache[k]);
      KeyInjective(workspaces[i].output, workspaces[i].idx, output, idx);
      LiveIs(list, workspaces[i], winsB, sessB, output, idx, now, looks, p);
      SamePayload(workspaces[i], winsA, winsB, sessA, sessB, now, looks, cache[k], p);
    } else {
      forall ws | ws in list
        ensures !At(ws, output, idx)
      {
        assert workspaces[ws.id] == ws;
      }
    }
  }

  // The workspace an entry of the cache is of.
  lemma EntryAt(
    workspaces: map<int, Workspace>, windows: seq<Window>, sessions: seq<Session>, now: int, looks: Looks,
    k: string, p: Payload) returns (i: int)
    requires IsEntry(workspaces, windows, sessions, now, looks, k, p)
    ensures i in workspaces && Key(workspaces[i].output, workspaces[i].idx) == k
    ensures IsPayload(
      workspaces[i], WindowsOn(windows, workspaces[i].id),
      SessionsOn(sessions, WindowsById(windows), workspaces[i].id), now, looks, p)
  {
    i :| i in workspaces && Key(workspaces[i].output, workspaces[i].idx) == k
      && IsPayload(
           workspaces[i], WindowsOn(windows, workspaces[i].id),
           SessionsOn(sessions, WindowsById(windows), workspaces[i].id), now, looks, p);
  }

  // The live payload of a known desktop, with its sessions found as the cache finds them.
  lemma LiveIs(
    list: seq<Workspace>, ws: Workspace, windows: seq<Window>, sessions: seq<Session>, output: string, idx: int,
    now: int, looks: Looks, p: Payload)
    requires UniquePlaces(list) && UniqueWindows(windows) && ws in list && At(ws, output, idx)
    requires IsLive(list, windows, sessions, output, idx, now, looks, p)
    ensures IsPayload(ws, WindowsOn(windows, ws.id), SessionsOn(sessions, WindowsById(windows), ws.id), now, looks, p)
  {
    var v :| v in list && At(v, output, idx) &&
      IsPayload(v, WindowsOn(windows, v.id), SessionsIn(sessions, IdsOf(WindowsOn(windows, v.id))), now, looks, p);
    assert v == ws;
    SessionsAgree(sessions, windows, ws.id);
  }

  ghost predicate PlacesApart(workspaces: map<int, Workspace>) {
    forall i, j | i in workspaces && j in workspaces
      && workspaces[i].output == workspaces[j].output && workspaces[i].idx == workspaces[j].idx :: i == j
  }

  // Rebuilding the cache from the same windows and sessions in another order, as the daemon's map
  // of windows may give them, changes nothing in it.
  lemma CachesAgree(
    workspaces: map<int, Workspace>, winsA: seq<Window>, winsB: seq<Window>, sessA: seq<Session>,
    sessB: seq<Session>, now: int, looks: Looks, a: map<string, Payload>, b: map<string, Payload>)
    requires PlacesApart(workspaces) && UniqueWindows(winsA) && SameElements(winsA, winsB)
    requires UniqueSessions(sessA) && multiset(sessA) == multiset(sessB)
    requires IsCache(workspaces, winsA, sessA, now, looks, a) && IsCache(workspaces, winsB, sessB, now, looks, b)
    ensures a == b
  {
    SameKeys(workspaces, winsA, winsB, sessA, sessB, now, looks, a, b);
    forall k | k in a
      ensures a[k] == b[k]
    {
      var i := EntryAt(workspaces, winsA, sessA, now, looks, k, a[k]);
      var j := EntryAt(workspaces, winsB, sessB, now, looks, k, b[k]);
      KeyInjective(workspaces[i].output, workspaces[i].idx, workspaces[j].output, workspaces[j].idx);
      SamePayload(workspaces[i], winsA, winsB, sessA, sessB, now, looks, a[k], b[k]);
    }
  }

  lemma SameKeys(
    workspaces: map<int, Workspace>, winsA: seq<Window>, winsB: seq<Window>, sessA: seq<Session>,
    sessB: seq<Session>, now: int, looks: Looks, a: map<string, Payload>, b: map<string, Payload>)
    requires IsCache(workspaces, winsA, sessA, now, looks, a) && IsCache(workspaces, winsB, sessB, now, looks, b)
    ensures a.Keys == b.Keys
  {
    forall k
      ensures k in a <==> k in b
    {
      if k in a {
        var i := EntryAt(workspaces, winsA, sessA, now, looks, k, a[k]);
      }
      if k in b {
        var i := EntryAt(workspaces, winsB, sessB, now, looks, k, b[k]);
      }
    }
  }
}
