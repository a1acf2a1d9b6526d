// internal/install/install.go: merging our hook into the decoded settings tree, and taking it out
// again. A tree decoded from JSON shares no nodes, so it is a value here.
module HookTree {
  import opened Wrappers
  import opened Collections
  import opened Sorting
  import opened Text
  import Grammar

  datatype Json =
    | JObj(fields: map<string, Json>)
    | JArr(items: seq<Json>)
    | JStr(text: string)
    | JNull
    | JOther(code: int) // numbers and booleans

  type Fields = map<string, Json>

  const HOOK_MARKER := "claude-status hook"

  const EVENTS: seq<string> :=
    ["SessionStart", "UserPromptSubmit", "PostToolUse", "Notification", "Stop", "SubagentStop", "SessionEnd"]

  // A missing key reads like JSON null.
  function Get(m: Fields, key: string): Json {
    if key in m then m[key] else JNull
  }

  // Anything but an array counts as an empty one.
  function AsSlice(v: Json): seq<Json> {
    if v.JArr? then v.items else []
  }

  predicate IsOurs(h: Json) {
    h.JObj? && Get(h.fields, "command").JStr? && Contains(Get(h.fields, "command").text, HOOK_MARKER)
  }

  predicate HasOurs(hooks: seq<Json>) {
    exists h | h in hooks :: IsOurs(h)
  }

  function OurHook(command: string): Json {
    JObj(map["type" := JStr("command"), "command" := JStr(command)])
  }

  // No matcher, a null one, or the empty string: matches everything.
  predicate IsEmptyMatcher(g: Json) {
    g.JObj? && (Get(g.fields, "matcher") == JNull || Get(g.fields, "matcher") == JStr(""))
  }

  function GroupHooks(g: Json): seq<Json>
    requires g.JObj?
  {
    AsSlice(Get(g.fields, "hooks"))
  }

  function WithHooks(g: Json, hooks: seq<Json>): Json
    requires g.JObj?
  {
    JObj(g.fields["hooks" := JArr(hooks)])
  }

  // The first group that matches everything.
  function FindGroup(arr: seq<Json>, from: nat): (r: Option<nat>)
    requires from <= |arr|
    ensures r.Some? ==> from <= r.value < |arr| && IsEmptyMatcher(arr[r.value])
    ensures r.Some? ==> forall i | from <= i < r.value :: !IsEmptyMatcher(arr[i])
    ensures r.None? ==> forall i | from <= i < |arr| :: !IsEmptyMatcher(arr[i])
    decreases |arr| - from
  {
    if from == |arr| then None
    else if IsEmptyMatcher(arr[from]) then Some(from)
    else FindGroup(arr, from + 1)
  }

  const NEW_GROUP := JObj(map["matcher" := JStr(""), "hooks" := JArr([])])

  // ---- merging -----------------------------------------------------------------------

  function AddOurs(g: Json, command: string): Json
    requires g.JObj?
  {
    if HasOurs(GroupHooks(g)) then g else WithHooks(g, GroupHooks(g) + [OurHook(command)])
  }

  // The groups of one event after a merge.
  function MergeGroups(arr: seq<Json>, command: string): seq<Json> {
    match FindGroup(arr, 0)
    case None => arr + [AddOurs(NEW_GROUP, command)]
    case Some(i) => arr[i := AddOurs(arr[i], command)]
  }

  predicate AlreadyPresent(arr: seq<Json>) {
    match FindGroup(arr, 0)
    case None => false
    case Some(i) => HasOurs(GroupHooks(arr[i]))
  }

  function MergeEvents(hooks: Fields, events: seq<string>, command: string): Fields {
    if events == [] then hooks
    else
      var h, e := MergeEvents(hooks, events[..|events| - 1], command), events[|events| - 1];
      h[e := JArr(MergeGroups(AsSlice(Get(h, e)), command))]
  }

  function HooksOf(settings: Fields): Fields {
    if Get(settings, "hooks").JObj? then Get(settings, "hooks").fields else map[]
  }

  function Merged(settings: Fields, command: string): Fields {
    settings["hooks" := JObj(MergeEvents(HooksOf(settings), EVENTS, command))]
  }

  // Registers our hook in the groups of one event.
  method MergeEvent(arr: seq<Json>, command: string) returns (out: seq<Json>, present: bool)
    ensures out == MergeGroups(arr, command)
    ensures present == AlreadyPresent(arr)
  {
    out := arr;
    var i := FindGroup(arr, 0);
    var group, at := NEW_GROUP, |arr|;
    if i.Some? {
      group, at := arr[i.value], i.value;
    } else {
      out := out + [group];
    }
    var groupHooks := GroupHooks(group);
    present := HasOurs(groupHooks);
    if !present {
      group := WithHooks(group, groupHooks + [OurHook(command)]);
      out := out[at := group];
    }
  }

  // The events whose groups do, or do not, hold our hook already, in order.
  function Those(events: seq<string>, hooks: Fields, present: bool): seq<string> {
    if events == [] then []
    else
      var e := events[|events| - 1];
      Those(events[..|events| - 1], hooks, present) +
      if AlreadyPresent(AsSlice(Get(hooks, e))) == present then [e] else []
  }

  // The two report lists share out the events.
  lemma {:induction false} ThoseMembers(events: seq<string>, hooks: Fields, present: bool)
    ensures forall e :: e in Those(events, hooks, present) <==>
      e in events && AlreadyPresent(AsSlice(Get(hooks, e))) == present
    ensures |Those(events, hooks, false)| + |Those(events, hooks, true)| == |events|
  {
    if events != [] {
      var init, last := events[..|events| - 1], events[|events| - 1];
      ThoseMembers(init, hooks, present);
      assert events == init + [last];
    }
  }

  // Registers our hook under every event of the list.
  method MergeList(start: Fields, events: seq<string>, command: string)
    returns (hooks: Fields, added: seq<string>, alreadyPresent: seq<string>)
    requires NoDuplicates(events)
    ensures hooks == MergeEvents(start, events, command)
    ensures added == Those(events, start, false) && alreadyPresent == Those(events, start, true)
  {
    hooks, added, alreadyPresent := start, [], [];
    for n := 0 to |events|
      invariant MergedUpTo(start, events[..n], command, hooks, added, alreadyPresent)
    {
      var event := events[n];
      MergeStep(start, events, n, command, hooks, added, alreadyPresent);
      var arr, present := MergeEvent(AsSlice(Get(hooks, event)), command);
      if present {
        alreadyPresent := alreadyPresent + [event];
      } else {
        added := added + [event];
      }
      hooks := hooks[event := JArr(arr)];
    }
    assert events[..|events|] == events;
  }

  ghost predicate MergedUpTo(
    start: Fields, events: seq<string>, command: string, hooks: Fields, added: seq<string>, present: seq<string>)
  {
    && hooks == MergeEvents(start, events, command)
    && added == Those(events, start, false) && present == Those(events, start, true)
  }

  lemma MergeStep(
    start: Fields, events: seq<string>, n: nat, command: string, hooks: Fields,
    added: seq<string>, present: seq<string>)
    requires NoDuplicates(events) && n < |events|
    requires MergedUpTo(start, events[..n], command, hooks, added, present)
    ensures
      var e := events[n];
      var groups := AsSlice(Get(hooks, e));
      var hooks' := hooks[e := JArr(MergeGroups(groups, command))];
      if AlreadyPresent(groups)
      then MergedUpTo(start, events[..n + 1], command, hooks', added, present + [e])
      else MergedUpTo(start, events[..n + 1], command, hooks', added + [e], present)
  {
    assert events[..n + 1] == events[..n] + [events[n]];
    assert events[..n + 1][..n] == events[..n];
    MergeEventsAt(start, events[..n], command, events[n]);
  }

  method MergeHooks(settings: Fields, command: string)
    returns (out: Fields, added: seq<string>, alreadyPresent: seq<string>)
    ensures out == Merged(settings, command)
    ensures added == Those(EVENTS, HooksOf(settings), false)
    ensures alreadyPresent == Those(EVENTS, HooksOf(settings), true)
  {
    var hooks: Fields := map[];
    if "hooks" in settings && settings["hooks"].JObj? {
      hooks := settings["hooks"].fields;
    }
    EventsDistinct();
    hooks, added, alreadyPresent := MergeList(hooks, EVENTS, command);
    out := settings["hooks" := JObj(hooks)];
  }

  // ---- removing ----------------------------------------------------------------------

  // The hooks that are not ours, in order.
  function Foreign(hooks: seq<Json>): seq<Json> {
    if hooks == [] then []
    else
      var h := hooks[|hooks| - 1];
      Foreign(hooks[..|hooks| - 1]) + if IsOurs(h) then [] else [h]
  }

  // What is left of one group: nothing, when it matched everything and held only our hooks.
  function RemoveGroup(): Json -> seq<Json> {
    (g: Json) =>
      if !g.JObj? then [g]
      else if Foreign(GroupHooks(g)) == [] && IsEmptyMatcher(g) && GroupHooks(g) != [] then []
      else [WithHooks(g, Foreign(GroupHooks(g)))]
  }

  // What is left of one event's value, if anything.
  function RemoveEvent(v: Json): Option<Json> {
    if !v.JArr? then Some(v)
    else if FlatMap(v.items, RemoveGroup()) == [] then None
    else Some(JArr(FlatMap(v.items, RemoveGroup())))
  }

  function RemoveEvents(hooks: Fields): Fields {
    map e | e in hooks && RemoveEvent(hooks[e]).Some? :: RemoveEvent(hooks[e]).value
  }

  function Removed(settings: Fields): Fields {
    if !Get(settings, "hooks").JObj? then settings
    else
      var hooks := RemoveEvents(settings["hooks"].fields);
      if hooks == map[] then settings - {"hooks"} else settings["hooks" := JObj(hooks)]
  }

  method FilterHooks(hooks: seq<Json>) returns (filtered: seq<Json>, changed: bool)
    ensures filtered == Foreign(hooks)
    ensures changed == HasOurs(hooks)
  {
    filtered, changed := [], false;
    for j := 0 to |hooks|
      invariant filtered == Foreign(hooks[..j])
      invariant changed == HasOurs(hooks[..j])
    {
      assert hooks[..j + 1] == hooks[..j] + [hooks[j]];
      ForeignSnoc(hooks[..j], hooks[j]);
      if IsOurs(hooks[j]) {
        changed := true;
      } else {
        filtered := filtered + [hooks[j]];
      }
    }
    assert hooks[..|hooks|] == hooks;
  }

  ghost predicate AnyOurs(arr: seq<Json>) {
    exists g :: g in arr && g.JObj? && HasOurs(GroupHooks(g))
  }

  lemma AnyOursSnoc(arr: seq<Json>, g: Json)
    ensures AnyOurs(arr + [g]) <==> AnyOurs(arr) || (g.JObj? && HasOurs(GroupHooks(g)))
  {
    if AnyOurs(arr) {
      var x :| x in arr && x.JObj? && HasOurs(GroupHooks(x));
      assert x in arr + [g];
    }
    assert g in arr + [g];
  }

  lemma RemoveGroupsSnoc(arr: seq<Json>, i: nat)
    requires i < |arr|
    ensures FlatMap(arr[..i + 1], RemoveGroup()) == FlatMap(arr[..i], RemoveGroup()) + RemoveGroup()(arr[i])
    ensures AnyOurs(arr[..i + 1]) <==> AnyOurs(arr[..i]) || (arr[i].JObj? && HasOurs(GroupHooks(arr[i])))
  {
    assert arr[..i + 1] == arr[..i] + [arr[i]];
    FlatMapSnoc(arr[..i], arr[i], RemoveGroup());
    AnyOursSnoc(arr[..i], arr[i]);
  }

  method RemoveGroups(arr: seq<Json>) returns (out: seq<Json>, changed: bool)
    ensures out == FlatMap(arr, RemoveGroup())
    ensures changed == AnyOurs(arr)
  {
    out, changed := [], false;
    for i := 0 to |arr|
      invariant out == FlatMap(arr[..i], RemoveGroup())
      invariant changed == AnyOurs(arr[..i])
    {
      var g := arr[i];
      RemoveGroupsSnoc(arr, i);
      if !g.JObj? {
        out := out + [g];
        continue;
      }
      var filtered, ours := FilterHooks(GroupHooks(g));
      changed := changed || ours;
      if |filtered| == 0 && IsEmptyMatcher(g) && |GroupHooks(g)| > 0 {
        continue;
      }
      out := out + [WithHooks(g, filtered)];
    }
    assert arr[..|arr|] == arr;
  }

  // The events that hold a hook of ours.
  ghost function OurEvents(hooks: Fields): set<string> {
    set e | e in hooks && AnyOurs(AsSlice(hooks[e]))
  }

  // Takes our hooks out of every event; removed are the events that had one, in any order.
  method RemoveList(hooks: Fields) returns (left: Fields, removed: seq<string>)
    ensures left == RemoveEvents(hooks)
    ensures Enumerates(removed, OurEvents(hooks))
  {
    left, removed := map[], [];
    var todo := hooks.Keys;
    while todo != {}
      invariant todo <= hooks.Keys
      invariant forall e :: e in left <==> e in hooks && e !in todo && RemoveEvent(hooks[e]).Some?
      invariant forall e | e in left :: left[e] == RemoveEvent(hooks[e]).value
      invariant Enumerates(removed, OurEvents(hooks) - todo)
      decreases |todo|
    {
      var _ := Pick(todo);
      var e :| e in todo;
      NextOurs(hooks, todo, removed, e);
      todo := todo - {e};
      if !hooks[e].JArr? {
        left := left[e := hooks[e]];
        continue;
      }
      var arr, changed := RemoveGroups(hooks[e].items);
      if changed {
        removed := removed + [e];
      }
      if |arr| > 0 {
        left := left[e := JArr(arr)];
      }
    }
  }

  lemma NextOurs(hooks: Fields, todo: set<string>, removed: seq<string>, e: string)
    requires Enumerates(removed, OurEvents(hooks) - todo) && e in todo && todo <= hooks.Keys
    ensures var rest := OurEvents(hooks) - (todo - {e});
      Enumerates(if AnyOurs(AsSlice(hooks[e])) then removed + [e] else removed, rest)
  {
    if AnyOurs(AsSlice(hooks[e])) {
      SnocEnumerates(removed, OurEvents(hooks) - todo, e);
      assert OurEvents(hooks) - (todo - {e}) == (OurEvents(hooks) - todo) + {e};
    } else {
      assert OurEvents(hooks) - (todo - {e}) == OurEvents(hooks) - todo;
    }
  }

  function Alphabetical(): (string, string) -> bool {
    (a: string, b: string) => StrLe(a, b)
  }

  lemma AlphabeticalTotal()
    ensures TotalPreorder(Alphabetical())
  {
    forall a: string, b: string
      ensures Alphabetical()(a, b) || Alphabetical()(b, a)
    {
      StrLeTotal(a, b);
    }
    forall a: string, b: string, c: string | Alphabetical()(a, b) && Alphabetical()(b, c)
      ensures Alphabetical()(a, c)
    {
      StrLeTransitive(a, b, c);
    }
  }

  method RemoveHooks(settings: Fields) returns (out: Fields, removed: seq<string>)
    ensures out == Removed(settings)
    ensures Enumerates(removed, OurEvents(HooksOf(settings))) && SortedBy(removed, Alphabetical())
  {
    if "hooks" !in settings || !settings["hooks"].JObj? {
      return settings, [];
    }
    var hooks;
    hooks, removed := RemoveList(settings["hooks"].fields);
    ghost var unsorted := removed;
    AlphabeticalTotal();
    removed := Sort(removed, Alphabetical());
    EnumeratesPermuted(unsorted, removed, OurEvents(HooksOf(settings)));
    out := if hooks == map[] then settings - {"hooks"} else settings["hooks" := JObj(hooks)];
  }

  // Which groups match everything, and which hooks are ours.
  lemma ShapesRead(fields: Fields, h: Json)
    ensures "matcher" !in fields ==> IsEmptyMatcher(JObj(fields))
    ensures "matcher" in fields ==>
      (IsEmptyMatcher(JObj(fields)) <==> fields["matcher"] == JNull || fields["matcher"] == JStr(""))
    ensures IsOurs(h) <==> h.JObj? && exists c ::
      "command" in h.fields && h.fields["command"] == JStr(c) && Contains(c, "claude-status hook")
  {
    if IsOurs(h) {
      assert h.fields["command"] == JStr(h.fields["command"].text);
    }
  }

  // The events our hook is registered under are those the hook knows what to do with.
  lemma EventsAreKnown(e: string)
    ensures e in EVENTS <==> Grammar.MapEvent(e).known
  {
    assert forall i | 0 <= i < |EVENTS| :: EVENTS[i] in EVENTS;
    assert EVENTS[0] == "SessionStart" && EVENTS[1] == "UserPromptSubmit" && EVENTS[2] == "PostToolUse";
    assert EVENTS[3] == "Notification" && EVENTS[4] == "Stop" && EVENTS[5] == "SubagentStop";
    assert EVENTS[6] == "SessionEnd";
  }

  // ---- merging twice, and what a merge keeps --------------------------------------------

  lemma EventsDistinct()
    ensures NoDuplicates(EVENTS)
  {
    assert |EVENTS[0]| == 12 && |EVENTS[1]| == 16 && |EVENTS[2]| == 11 && |EVENTS[3]| == 12;
    assert |EVENTS[4]| == 4 && |EVENTS[5]| == 12 && |EVENTS[6]| == 10;
    assert EVENTS[0][1] == 'e' && EVENTS[3][1] == 'o' && EVENTS[5][1] == 'u';
  }

  lemma {:induction false} MergeEventsAt(hooks: Fields, events: seq<string>, command: string, e: string)
    requires NoDuplicates(events)
    ensures e in MergeEvents(hooks, events, command) <==> e in hooks || e in events
    ensures Get(MergeEvents(hooks, events, command), e) ==
      if e in events then JArr(MergeGroups(AsSlice(Get(hooks, e)), command)) else Get(hooks, e)
  {
    if events != [] {
      var init, last := events[..|events| - 1], events[|events| - 1];
      assert events == init + [last] && last !in init;
      MergeEventsAt(hooks, init, command, e);
    }
  }

  lemma OurHookIsOurs(command: string)
    ensures IsOurs(OurHook(command)) <==> Contains(command, HOOK_MARKER)
  {
  }

  lemma AddOursHasOurs(g: Json, command: string)
    requires g.JObj?
    ensures HasOurs(GroupHooks(AddOurs(g, command))) <==> HasOurs(GroupHooks(g)) || Contains(command, HOOK_MARKER)
    ensures IsEmptyMatcher(AddOurs(g, command)) == IsEmptyMatcher(g)
    ensures AddOurs(g, command) == g <==> HasOurs(GroupHooks(g))
  {
    var more := GroupHooks(g) + [OurHook(command)];
    OurHookIsOurs(command);
    WithHooksTwice(g, more, more);
    assert OurHook(command) in more && |more| == |GroupHooks(g)| + 1;
  }

  lemma FindGroupIs(arr: seq<Json>, i: nat)
    requires i < |arr| && IsEmptyMatcher(arr[i]) && forall j | 0 <= j < i :: !IsEmptyMatcher(arr[j])
    ensures FindGroup(arr, 0) == Some(i)
  {
  }

  // A merge leaves the groups of an event as they are exactly when our hook is there already.
  lemma MergeGroupsFixes(arr: seq<Json>, command: string)
    ensures MergeGroups(arr, command) == arr <==> AlreadyPresent(arr)
  {
    if FindGroup(arr, 0).Some? {
      var i := FindGroup(arr, 0).value;
      AddOursHasOurs(arr[i], command);
      assert MergeGroups(arr, command)[i] == AddOurs(arr[i], command);
    }
  }

  lemma MergeGroupsPresent(arr: seq<Json>, command: string)
    ensures AlreadyPresent(MergeGroups(arr, command)) <==> AlreadyPresent(arr) || Contains(command, HOOK_MARKER)
  {
    var out := MergeGroups(arr, command);
    var i := match FindGroup(arr, 0) case None => |arr| case Some(i) => i;
    AddOursHasOurs(if i < |arr| then arr[i] else NEW_GROUP, command);
    assert !HasOurs(GroupHooks(NEW_GROUP));
    FindGroupIs(out, i);
  }

  // What a second merge does to one event of the first one's result.
  lemma MergedAgainAt(h: Fields, first: string, again: string, e: string)
    ensures
      var h1 := MergeEvents(h, EVENTS, first);
      var h2 := MergeEvents(h1, EVENTS, again);
      var settled := AlreadyPresent(AsSlice(Get(h, e))) || Contains(first, HOOK_MARKER);
      && (e in h2 <==> e in h1)
      && (Get(h2, e) == Get(h1, e) <==> e !in EVENTS || settled)
      && (e in EVENTS ==> (AlreadyPresent(AsSlice(Get(h1, e))) <==> settled))
  {
    EventsDistinct();
    MergeEventsAt(h, EVENTS, first, e);
    MergeEventsAt(MergeEvents(h, EVENTS, first), EVENTS, again, e);
    MergeGroupsPresent(AsSlice(Get(h, e)), first);
    MergeGroupsFixes(MergeGroups(AsSlice(Get(h, e)), first), again);
  }

  // Installing again, with any command, changes nothing exactly when the first command bears the
  // marker or every event had our hook before: a command without it is appended a second time.
  lemma MergeIdempotentIff(settings: Fields, first: string, again: string)
    ensures Merged(Merged(settings, first), again) == Merged(settings, first) <==>
      Contains(first, HOOK_MARKER) || forall e | e in EVENTS :: AlreadyPresent(AsSlice(Get(HooksOf(settings), e)))
    ensures Contains(first, HOOK_MARKER) ==>
      forall e | e in EVENTS :: AlreadyPresent(AsSlice(Get(HooksOf(Merged(settings, first)), e)))
  {
    var h := HooksOf(settings);
    var h1 := MergeEvents(h, EVENTS, first);
    MergedAgain(h, first, again);
    assert Merged(Merged(settings, first), again) == settings["hooks" := JObj(MergeEvents(h1, EVENTS, again))];
  }

  lemma MergedAgain(h: Fields, first: string, again: string)
    ensures var h1 := MergeEvents(h, EVENTS, first);
      && (MergeEvents(h1, EVENTS, again) == h1 <==>
            Contains(first, HOOK_MARKER) || forall e | e in EVENTS :: AlreadyPresent(AsSlice(Get(h, e))))
      && (Contains(first, HOOK_MARKER) ==> forall e | e in EVENTS :: AlreadyPresent(AsSlice(Get(h1, e))))
  {
    var h1 := MergeEvents(h, EVENTS, first);
    var h2 := MergeEvents(h1, EVENTS, again);
    forall e
      ensures e in h2 <==> e in h1
      ensures Get(h2, e) == Get(h1, e) <==>
        e !in EVENTS || AlreadyPresent(AsSlice(Get(h, e))) || Contains(first, HOOK_MARKER)
      ensures e in EVENTS && Contains(first, HOOK_MARKER) ==> AlreadyPresent(AsSlice(Get(h1, e)))
    {
      MergedAgainAt(h, first, again, e);
    }
    SameFields(h1, h2);
  }

  lemma SameFields(a: Fields, b: Fields)
    requires forall e :: e in a <==> e in b
    ensures a == b <==> forall e :: Get(a, e) == Get(b, e)
  {
    if forall e :: Get(a, e) == Get(b, e) {
      assert forall e | e in a :: a[e] == Get(a, e) == Get(b, e) == b[e];
      assert a == b;
    }
  }

  // A merge touches at most one group of an event, the first that matches everything, and that one
  // keeps its other fields and its hooks, in order, before ours.
  lemma MergeKeepsForeign(arr: seq<Json>, command: string)
    ensures var out := MergeGroups(arr, command);
      && |arr| <= |out| <= |arr| + 1
      && (forall i | 0 <= i < |arr| && out[i] != arr[i] ::
            && FindGroup(arr, 0) == Some(i) && arr[i].JObj?
            && out[i] == WithHooks(arr[i], GroupHooks(arr[i]) + [OurHook(command)]))
      && (forall i, j | 0 <= i < j < |arr| :: out[i] == arr[i] || out[j] == arr[j])
      && (|out| > |arr| ==> out == arr + [WithHooks(NEW_GROUP, [OurHook(command)])])
  {
    assert [] + [OurHook(command)] == [OurHook(command)];
  }

  // Nothing outside the listed events changes: not the other settings, not the other events.
  lemma MergeKeepsRest(settings: Fields, command: string)
    ensures Merged(settings, command) - {"hooks"} == settings - {"hooks"}
    ensures forall e | e !in EVENTS ::
      && (e in HooksOf(Merged(settings, command)) <==> e in HooksOf(settings))
      && Get(HooksOf(Merged(settings, command)), e) == Get(HooksOf(settings), e)
  {
    EventsDistinct();
    forall e | e !in EVENTS
      ensures e in HooksOf(Merged(settings, command)) <==> e in HooksOf(settings)
      ensures Get(HooksOf(Merged(settings, command)), e) == Get(HooksOf(settings), e)
    {
      MergeEventsAt(HooksOf(settings), EVENTS, command, e);
    }
  }

  // What an install writes into empty settings: under each event one group that matches everything,
  // with our command.
  lemma InstalledTree(command: string, e: string)
    ensures "hooks" in Merged(map[], command) && Merged(map[], command).Keys == {"hooks"}
    ensures e in HooksOf(Merged(map[], command)) <==> e in EVENTS
    ensures e in EVENTS ==>
      Get(HooksOf(Merged(map[], command)), e) ==
      JArr([JObj(map[
        "matcher" := JStr(""),
        "hooks" := JArr([JObj(map["type" := JStr("command"), "command" := JStr(command)])])])])
  {
    EventsDistinct();
    MergeEventsAt(map[], EVENTS, command, e);
    MergeKeepsForeign([], command);
    assert MergeGroups([], command) == [WithHooks(NEW_GROUP, [OurHook(command)])];
    assert WithHooks(NEW_GROUP, [OurHook(command)]).fields ==
      map["matcher" := JStr(""), "hooks" := JArr([OurHook(command)])];
  }

  // ---- when a merge leaves elements of an unexpected shape alone -----------------------------

  // No field but hooks differs, and hooks, absent or an array before, was only extended.
  ghost predicate KeepsGroup(g: Json, g': Json) {
    g' == g ||
    (g.JObj? && g'.JObj? && g'.fields - {"hooks"} == g.fields - {"hooks"} &&
     (Get(g.fields, "hooks") == JNull || Get(g.fields, "hooks").JArr?) &&
     Get(g'.fields, "hooks").JArr? && GroupHooks(g) <= GroupHooks(g'))
  }

  ghost predicate KeepsEvent(v: Json, v': Json) {
    v == JNull || v' == v ||
    (v.JArr? && v'.JArr? && |v.items| <= |v'.items| &&
     forall i | 0 <= i < |v.items| :: KeepsGroup(v.items[i], v'.items[i]))
  }

  ghost predicate KeepsSettings(s: Fields, s': Fields) {
    && s' - {"hooks"} == s - {"hooks"}
    && (Get(s, "hooks") == JNull || Get(s', "hooks") == Get(s, "hooks") ||
        (Get(s, "hooks").JObj? && Get(s', "hooks").JObj? &&
         forall e :: KeepsEvent(Get(HooksOf(s), e), Get(HooksOf(s'), e))))
  }

  // The shapes a merge extends without a loss.
  predicate EventFits(v: Json) {
    v == JNull ||
    (v.JArr? &&
     match FindGroup(v.items, 0)
     case None => true
     case Some(i) => Get(v.items[i].fields, "hooks") == JNull || Get(v.items[i].fields, "hooks").JArr?)
  }

  predicate Fits(settings: Fields) {
    Get(settings, "hooks") == JNull ||
    (Get(settings, "hooks").JObj? && forall e | e in EVENTS :: EventFits(Get(HooksOf(settings), e)))
  }

  lemma AddOursKeepsIff(g: Json, command: string)
    requires g.JObj?
    ensures KeepsGroup(g, AddOurs(g, command)) <==> Get(g.fields, "hooks") == JNull || Get(g.fields, "hooks").JArr?
  {
    if !HasOurs(GroupHooks(g)) {
      AddOursHasOurs(g, command);
      var g' := AddOurs(g, command);
      assert g'.fields - {"hooks"} == g.fields - {"hooks"};
      assert GroupHooks(g') == GroupHooks(g) + [OurHook(command)];
    }
  }

  lemma MergeEventKeepsIff(v: Json, command: string)
    ensures KeepsEvent(v, JArr(MergeGroups(AsSlice(v), command))) <==> EventFits(v)
  {
    if v.JArr? {
      var out := MergeGroups(v.items, command);
      if FindGroup(v.items, 0).Some? {
        var i := FindGroup(v.items, 0).value;
        AddOursKeepsIff(v.items[i], command);
        assert out[i] == AddOurs(v.items[i], command);
        assert forall j | 0 <= j < |v.items| && j != i :: out[j] == v.items[j];
        assert out[i] == v.items[i] ==> KeepsGroup(v.items[i], out[i]);
      }
    }
  }

  // A merge leaves what was there alone, extending it only, exactly when hooks is absent or an
  // object in which each listed event is absent or an array whose group for our hook, if there is
  // one, has no hooks yet or an array of them. Anything else is replaced.
  lemma MergeKeepsIff(settings: Fields, command: string)
    ensures KeepsSettings(settings, Merged(settings, command)) <==> Fits(settings)
  {
    MergeKeepsRest(settings, command);
    var h, h1 := HooksOf(settings), HooksOf(Merged(settings, command));
    EventsDistinct();
    forall e
      ensures KeepsEvent(Get(h, e), Get(h1, e)) <==> e !in EVENTS || EventFits(Get(h, e))
    {
      MergeEventsAt(h, EVENTS, command, e);
      MergeEventKeepsIff(Get(h, e), command);
    }
    if Get(settings, "hooks").JObj? {
      assert Get(settings, "hooks") == JObj(h) && Get(Merged(settings, command), "hooks") == JObj(h1);
      if h == h1 {
        assert forall e :: KeepsEvent(Get(h, e), Get(h1, e));
      }
    }
  }

  // ---- uninstalling after installing ------------------------------------------------------

  predicate GroupOk(g: Json) {
    g.JObj? ==> Get(g.fields, "hooks").JArr? && !HasOurs(GroupHooks(g))
  }

  // The value of an event that an install and uninstall give back unchanged.
  predicate EventOk(listed: bool, v: Json) {
    if v.JArr? then
      && v.items != []
      && (forall g | g in v.items :: GroupOk(g))
      && (listed && FindGroup(v.items, 0).Some? ==> GroupHooks(v.items[FindGroup(v.items, 0).value]) != [])
    else !listed
  }

  predicate Restorable(settings: Fields) {
    "hooks" !in settings ||
    (settings["hooks"].JObj? && settings["hooks"].fields != map[] &&
     forall e | e in settings["hooks"].fields :: EventOk(e in EVENTS, settings["hooks"].fields[e]))
  }

  lemma {:induction false} ForeignFacts(hooks: seq<Json>)
    ensures |Foreign(hooks)| <= |hooks|
    ensures Foreign(hooks) == hooks <==> !HasOurs(hooks)
    ensures |Foreign(hooks)| == |hooks| ==> Foreign(hooks) == hooks
  {
    if hooks != [] {
      var init, h := hooks[..|hooks| - 1], hooks[|hooks| - 1];
      assert hooks == init + [h];
      ForeignFacts(init);
      assert HasOurs(hooks) <==> HasOurs(init) || IsOurs(h) by {
        if HasOurs(init) {
          var x :| x in init && IsOurs(x);
          assert x in hooks;
        }
        assert h in hooks;
      }
    }
  }

  lemma ForeignSnoc(hooks: seq<Json>, h: Json)
    ensures Foreign(hooks + [h]) == Foreign(hooks) + if IsOurs(h) then [] else [h]
  {
    assert (hooks + [h])[..|hooks|] == hooks;
  }

  lemma WithSameHooks(g: Json, hooks: seq<Json>)
    requires g.JObj?
    ensures WithHooks(g, hooks) == g <==> Get(g.fields, "hooks") == JArr(hooks)
  {
    if Get(g.fields, "hooks") == JArr(hooks) {
      assert g.fields["hooks" := JArr(hooks)] == g.fields;
    }
  }

  // A group survives an uninstall unchanged exactly when it is well shaped and holds no hook of
  // ours.
  lemma RemoveGroupFixes(g: Json)
    ensures RemoveGroup()(g) == [g] <==> GroupOk(g)
  {
    if g.JObj? {
      ForeignFacts(GroupHooks(g));
      WithSameHooks(g, Foreign(GroupHooks(g)));
    }
  }

  // A group our hook was merged into comes back exactly when it was well shaped, held no hook of
  // ours and held some other hook.
  lemma RemoveMergedGroup(g: Json, command: string)
    requires IsEmptyMatcher(g) && Contains(command, HOOK_MARKER)
    ensures RemoveGroup()(AddOurs(g, command)) == [g] <==> GroupOk(g) && GroupHooks(g) != []
  {
    var hooks := GroupHooks(g);
    if HasOurs(hooks) {
      RemoveGroupFixes(g);
    } else {
      RemoveAdded(g, command);
      WithSameHooks(g, hooks);
    }
  }

  // Taking out the hook that was added leaves the hooks there were.
  lemma RemoveAdded(g: Json, command: string)
    requires IsEmptyMatcher(g) && !HasOurs(GroupHooks(g)) && Contains(command, HOOK_MARKER)
    ensures RemoveGroup()(AddOurs(g, command)) ==
      if GroupHooks(g) == [] then [] else [WithHooks(g, GroupHooks(g))]
  {
    var hooks, more := GroupHooks(g), GroupHooks(g) + [OurHook(command)];
    ForeignFacts(hooks);
    OurHookIsOurs(command);
    ForeignSnoc(hooks, OurHook(command));
    assert Foreign(more) == hooks;
    WithHooksTwice(g, more, hooks);
    assert more != [];
  }

  lemma WithHooksTwice(g: Json, a: seq<Json>, b: seq<Json>)
    requires g.JObj?
    ensures WithHooks(WithHooks(g, a), b) == WithHooks(g, b)
    ensures GroupHooks(WithHooks(g, a)) == a
    ensures IsEmptyMatcher(WithHooks(g, a)) == IsEmptyMatcher(g)
  {
    assert g.fields["hooks" := JArr(a)]["hooks" := JArr(b)] == g.fields["hooks" := JArr(b)];
  }

  lemma RemoveNewGroup(command: string)
    requires Contains(command, HOOK_MARKER)
    ensures RemoveGroup()(AddOurs(NEW_GROUP, command)) == []
  {
    assert GroupHooks(NEW_GROUP) == [];
    RemoveAdded(NEW_GROUP, command);
  }

  // Removing gives back the second list exactly when it does so group by group.
  lemma FlatMapFixes(xs: seq<Json>, ys: seq<Json>)
    requires |xs| == |ys|
    ensures FlatMap(xs, RemoveGroup()) == ys <==> EachGives(xs, ys, RemoveGroup(), |xs|)
  {
    FlatMapEach(xs, ys, RemoveGroup(), |xs|);
    assert xs[..|xs|] == xs && ys[..|ys|] == ys;
  }

  // An uninstall alone gives a value back exactly when it holds nothing of ours and no empty
  // array.
  lemma RemoveEventFixes(v: Json)
    ensures RemoveEvent(v) == Some(v) <==> EventOk(false, v)
  {
    if v.JArr? {
      FlatMapFixes(v.items, v.items);
      forall i | 0 <= i < |v.items|
        ensures RemoveGroup()(v.items[i]) == [v.items[i]] <==> GroupOk(v.items[i])
      {
        RemoveGroupFixes(v.items[i]);
      }
    }
  }

  // Two values a removal does not leave alone though it holds nothing of ours: an event whose
  // array was empty before, and a group without a hooks array.
  lemma RemovalCoerces()
    ensures RemoveEvent(JArr([])) == None
    ensures RemoveEvent(JArr([JObj(map[])])) == Some(JArr([JObj(map["hooks" := JArr([])])]))
  {
    var g := JObj(map[]);
    assert [] + [g] == [g];
    FlatMapSnoc([], g, RemoveGroup());
    assert WithHooks(g, []) == JObj(map["hooks" := JArr([])]);
    assert RemoveGroup()(g) == [WithHooks(g, [])];
    assert FlatMap([g], RemoveGroup()) == [WithHooks(g, [])];
  }

  // Three values a merge replaces: a hooks value that is not an object, an event that is not an
  // array, and the hooks of a group that are not an array.
  lemma MergeReplaces(command: string)
    ensures Get(Merged(map["hooks" := JStr("mine")], command), "hooks").JObj?
    ensures Get(HooksOf(Merged(map["hooks" := JObj(map["Stop" := JStr("mine")])], command)), "Stop").JArr?
    ensures var g := JObj(map["matcher" := JStr(""), "hooks" := JStr("mine")]);
      Get(HooksOf(Merged(map["hooks" := JObj(map["Stop" := JArr([g])])], command)), "Stop") ==
        JArr([WithHooks(g, [OurHook(command)])])
  {
    var g := JObj(map["matcher" := JStr(""), "hooks" := JStr("mine")]);
    MergedStop(JStr("mine"), command);
    MergedStop(JArr([g]), command);
    MergeOneGroup(g, command);
  }

  lemma MergedStop(v: Json, command: string)
    ensures Get(HooksOf(Merged(map["hooks" := JObj(map["Stop" := v])], command)), "Stop") ==
      JArr(MergeGroups(AsSlice(v), command))
  {
    EventsDistinct();
    assert EVENTS[4] == "Stop";
    MergeEventsAt(map["Stop" := v], EVENTS, command, "Stop");
  }

  lemma MergeOneGroup(g: Json, command: string)
    requires IsEmptyMatcher(g) && GroupHooks(g) == []
    ensures MergeGroups([g], command) == [WithHooks(g, [OurHook(command)])]
  {
    FindGroupIs([g], 0);
    assert [] + [OurHook(command)] == [OurHook(command)];
  }

  lemma RoundTripAppended(arr: seq<Json>, command: string)
    requires Contains(command, HOOK_MARKER) && FindGroup(arr, 0).None?
    ensures FlatMap(MergeGroups(arr, command), RemoveGroup()) == FlatMap(arr, RemoveGroup())
  {
    RemoveNewGroup(command);
    FlatMapSnoc(arr, AddOurs(NEW_GROUP, command), RemoveGroup());
  }

  lemma RoundTripTouched(arr: seq<Json>, command: string, i: nat)
    requires Contains(command, HOOK_MARKER) && FindGroup(arr, 0) == Some(i)
    ensures FlatMap(MergeGroups(arr, command), RemoveGroup()) == arr <==>
      (forall j | 0 <= j < |arr| :: GroupOk(arr[j])) && GroupHooks(arr[i]) != []
  {
    var merged := MergeGroups(arr, command);
    FlatMapFixes(merged, arr);
    forall j | 0 <= j < |arr|
      ensures RemoveGroup()(merged[j]) == [arr[j]] <==> GroupOk(arr[j]) && (j == i ==> GroupHooks(arr[i]) != [])
    {
      TouchedAt(arr, command, i, j);
    }
  }

  lemma TouchedAt(arr: seq<Json>, command: string, i: nat, j: nat)
    requires Contains(command, HOOK_MARKER) && FindGroup(arr, 0) == Some(i) && j < |arr|
    ensures RemoveGroup()(MergeGroups(arr, command)[j]) == [arr[j]] <==>
      GroupOk(arr[j]) && (j == i ==> GroupHooks(arr[i]) != [])
  {
    if j == i {
      RemoveMergedGroup(arr[i], command);
    } else {
      RemoveGroupFixes(arr[j]);
    }
  }

  // The groups of a listed event come back exactly when each is well shaped without our marker
  // and the one our hook went into held another hook.
  lemma RoundTripGroups(arr: seq<Json>, command: string)
    requires Contains(command, HOOK_MARKER)
    ensures FlatMap(MergeGroups(arr, command), RemoveGroup()) == arr <==>
      (forall g | g in arr :: GroupOk(g)) &&
      (FindGroup(arr, 0).Some? ==> GroupHooks(arr[FindGroup(arr, 0).value]) != [])
  {
    assert (forall g | g in arr :: GroupOk(g)) <==> forall j | 0 <= j < |arr| :: GroupOk(arr[j]);
    if FindGroup(arr, 0).Some? {
      RoundTripTouched(arr, command, FindGroup(arr, 0).value);
    } else {
      RoundTripAppended(arr, command);
      FlatMapFixes(arr, arr);
      forall j | 0 <= j < |arr|
        ensures RemoveGroup()(arr[j]) == [arr[j]] <==> GroupOk(arr[j])
      {
        RemoveGroupFixes(arr[j]);
      }
    }
  }

  lemma NothingLeft(command: string)
    requires Contains(command, HOOK_MARKER)
    ensures FlatMap(MergeGroups([], command), RemoveGroup()) == []
  {
    RemoveNewGroup(command);
    FlatMapSnoc([], AddOurs(NEW_GROUP, command), RemoveGroup());
  }

  // Install and uninstall give a listed event's value back exactly when it is restorable, and
  // leave nothing of a value that was not an array.
  lemma RoundTripEvent(v: Json, command: string)
    requires Contains(command, HOOK_MARKER)
    ensures var back := RemoveEvent(JArr(MergeGroups(AsSlice(v), command)));
      if v.JArr? then back == Some(v) <==> EventOk(true, v) else back == None
  {
    if v.JArr? {
      RoundTripGroups(v.items, command);
    } else {
      NothingLeft(command);
    }
  }

  // Groups of which none matches everything are all kept by a removal.
  lemma {:induction false} NoneDropped(arr: seq<Json>)
    requires forall g | g in arr :: !IsEmptyMatcher(g)
    ensures |FlatMap(arr, RemoveGroup())| == |arr|
  {
    if arr != [] {
      var init, last := arr[..|arr| - 1], arr[|arr| - 1];
      assert last in arr && forall g | g in init :: g in arr;
      NoneDropped(init);
    }
  }

  // The group a hook without the marker went into keeps that hook through a removal.
  lemma RemoveUnmarked(g: Json, command: string)
    requires g.JObj? && !Contains(command, HOOK_MARKER) && !HasOurs(GroupHooks(g))
    ensures RemoveGroup()(AddOurs(g, command)) == [AddOurs(g, command)] && AddOurs(g, command) != g
  {
    AddOursHasOurs(g, command);
    WithHooksTwice(g, GroupHooks(g) + [OurHook(command)], []);
    RemoveGroupFixes(AddOurs(g, command));
  }

  // What a removal keeps of one group, when all before is kept.
  lemma KeptAt(l: seq<Json>, x: Json, r: seq<Json>, g: Json)
    requires (forall y | y in l :: !IsEmptyMatcher(y)) && RemoveGroup()(x) == [g]
    ensures var out := FlatMap(l + [x] + r, RemoveGroup());
      |out| > |l| && out[|l|] == g
  {
    NoneDropped(l);
    FlatMapAt(l, x, r, RemoveGroup(), g);
  }

  // A hook without the marker stays behind: the groups of an event do not come back.
  lemma UnmarkedGroups(arr: seq<Json>, command: string)
    requires !Contains(command, HOOK_MARKER)
    ensures FlatMap(MergeGroups(arr, command), RemoveGroup()) != arr
    ensures arr == [] ==> FlatMap(MergeGroups(arr, command), RemoveGroup()) != []
  {
    if AlreadyPresent(arr) {
      MergeGroupsFixes(arr, command);
      RemoveEventFixes(JArr(arr));
      assert !GroupOk(arr[FindGroup(arr, 0).value]);
    } else {
      UnmarkedGroup(arr, command);
    }
  }

  lemma UnmarkedGroup(arr: seq<Json>, command: string)
    requires !Contains(command, HOOK_MARKER) && !AlreadyPresent(arr)
    ensures FlatMap(MergeGroups(arr, command), RemoveGroup()) != arr
    ensures arr == [] ==> FlatMap(MergeGroups(arr, command), RemoveGroup()) != []
  {
    var i := match FindGroup(arr, 0) case None => |arr| case Some(i) => i;
    var g := if i < |arr| then arr[i] else NEW_GROUP;
    var r := if i < |arr| then arr[i + 1..] else [];
    assert GroupHooks(NEW_GROUP) == [];
    assert MergeGroups(arr, command) == arr[..i] + [AddOurs(g, command)] + r;
    UnmarkedAt(arr[..i], g, r, command);
  }

  lemma UnmarkedAt(l: seq<Json>, g: Json, r: seq<Json>, command: string)
    requires (forall y | y in l :: !IsEmptyMatcher(y)) && g.JObj?
    requires !Contains(command, HOOK_MARKER) && !HasOurs(GroupHooks(g))
    ensures var out := FlatMap(l + [AddOurs(g, command)] + r, RemoveGroup());
      |out| > |l| && out[|l|] != g
  {
    RemoveUnmarked(g, command);
    KeptAt(l, AddOurs(g, command), r, AddOurs(g, command));
  }

  // So an install of such a command is not undone on any settings.
  lemma UnmarkedStays(settings: Fields, command: string)
    requires !Contains(command, HOOK_MARKER)
    ensures Removed(Merged(settings, command)) != settings
  {
    EventsDistinct();
    var h, e := HooksOf(settings), EVENTS[0];
    var h1 := MergeEvents(h, EVENTS, command);
    var out := Removed(Merged(settings, command));
    MergeEventsAt(h, EVENTS, command, e);
    UnmarkedGroups(AsSlice(Get(h, e)), command);
    assert Merged(settings, command)["hooks"] == JObj(h1);
    var h2 := RemoveEvents(h1);
    assert Get(h1, e) == h1[e];
    assert e in h2 ==> h2[e] != Get(h, e);
    assert !Get(h, e).JArr? ==> e in h2;
    if h2 != map[] {
      assert out["hooks"] == JObj(h2);
    } else {
      assert "hooks" !in out && e in h;
    }
  }

  // Uninstall undoes install exactly when the command bears the marker, on the settings a user can
  // check beforehand: no hooks key, or a non-empty hooks object in which every listed event is an
  // array, no array is empty, every group has a hooks array without our marker, and the group the
  // hook goes into is not empty.
  lemma UninstallUndoesInstall(settings: Fields, command: string)
    ensures Removed(Merged(settings, command)) == settings <==> Contains(command, HOOK_MARKER) && Restorable(settings)
  {
    if Contains(command, HOOK_MARKER) {
      MarkedUndone(settings, command);
    } else {
      UnmarkedStays(settings, command);
    }
  }

  // A command without the marker, as a binary of another name gives it, on empty settings: a second
  // install appends it again, and an uninstall leaves it.
  lemma UnmarkedCommand()
    ensures Merged(Merged(map[], "cs hook"), "cs hook") != Merged(map[], "cs hook")
    ensures Removed(Merged(map[], "cs hook")) != map[]
  {
    assert !Contains("cs hook", HOOK_MARKER);
    MergeIdempotentIff(map[], "cs hook", "cs hook");
    UninstallUndoesInstall(map[], "cs hook");
    assert EVENTS[0] in EVENTS && !AlreadyPresent(AsSlice(Get(HooksOf(map[]), EVENTS[0])));
  }

  lemma MarkedUndone(settings: Fields, command: string)
    requires Contains(command, HOOK_MARKER)
    ensures Removed(Merged(settings, command)) == settings <==> Restorable(settings)
  {
    EventsDistinct();
    var h := HooksOf(settings);
    var h1 := MergeEvents(h, EVENTS, command);
    var h2 := RemoveEvents(h1);
    forall e
      ensures e in h && EventOk(e in EVENTS, h[e]) ==> e in h2 && h2[e] == h[e]
      ensures e in h && !EventOk(e in EVENTS, h[e]) ==> e !in h2 || h2[e] != h[e]
      ensures e !in h ==> e !in h2
    {
      MergeEventsAt(h, EVENTS, command, e);
      RoundTripEvent(Get(h, e), command);
      RemoveEventFixes(Get(h, e));
    }
    RestoredIff(settings, Merged(settings, command), h, h2);
  }

  lemma RestoredIff(settings: Fields, merged: Fields, h: Fields, h2: Fields)
    requires h == HooksOf(settings)
    requires Get(merged, "hooks").JObj? && h2 == RemoveEvents(merged["hooks"].fields)
    requires merged == settings["hooks" := merged["hooks"]]
    requires forall e | e in h && EventOk(e in EVENTS, h[e]) :: e in h2 && h2[e] == h[e]
    requires forall e | e in h && !EventOk(e in EVENTS, h[e]) :: e !in h2 || h2[e] != h[e]
    requires forall e | e !in h :: e !in h2
    ensures Removed(merged) == settings <==> Restorable(settings)
  {
    var out := Removed(merged);
    if h2 == map[] {
      assert out == merged - {"hooks"};
      if "hooks" !in settings {
        assert out == settings;
      }
    } else {
      assert out == merged["hooks" := JObj(h2)];
      assert out["hooks"] == JObj(h2);
      if Restorable(settings) && "hooks" in settings {
        assert h2.Keys == h.Keys;
        assert h2 == h;
        assert out == settings;
      }
    }
  }
}
