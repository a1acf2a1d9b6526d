// The session state an audit log implies: what the recap carries along as it walks a session's
// events (internal/recap/recap.go, summarize), and what replaying the log recovers.
module AuditLog {
  import opened Collections
  import opened Rows

  predicate IsState(s: string) {
    s == "working" || s == "idle" || s == "prompt" || s == "shell"
  }

  // The state after the events: the last absolute new_state; rows marked unchanged, deleted or
  // ignored say nothing.
  function EffectiveState(evs: seq<Event>): string {
    if evs == [] then ""
    else
      var e := evs[|evs| - 1];
      if IsState(e.newState) then e.newState else EffectiveState(evs[..|evs| - 1])
  }

  // The row says which state its session is in.
  function Absolute(): Event -> bool {
    (e: Event) =>
      e.newState == "working" || e.newState == "idle" || e.newState == "prompt" || e.newState == "shell"
  }

  function Says(state: string): Event -> bool {
    (e: Event) => e.newState == state
  }

  // The effective state is what the last row that says a state says.
  lemma {:induction false} EffectiveMeaning(evs: seq<Event>, state: string)
    requires state != ""
    ensures EffectiveState(evs) == state <==> LastMeets(evs, Absolute(), Says(state))
  {
    if evs != [] {
      var init, e := evs[..|evs| - 1], evs[|evs| - 1];
      assert evs == init + [e];
      EffectiveMeaning(init, state);
      LastMeetsSnoc(init, e, Absolute(), Says(state));
    }
  }

  // The events of one session, in log order.
  function OfSession(evs: seq<Event>, sid: string): seq<Event> {
    if evs == [] then []
    else OfSession(evs[..|evs| - 1], sid) + if evs[|evs| - 1].session == sid then [evs[|evs| - 1]] else []
  }

  ghost predicate AscendingTs(evs: seq<Event>) {
    forall i, j | 0 <= i < j < |evs| :: evs[i].ts <= evs[j].ts
  }

  lemma OfSessionSnoc(evs: seq<Event>, e: Event, sid: string)
    ensures OfSession(evs + [e], sid) == OfSession(evs, sid) + if e.session == sid then [e] else []
  {
    assert (evs + [e])[..|evs|] == evs;
  }

  lemma EffectiveStateSnoc(evs: seq<Event>, e: Event)
    ensures EffectiveState(evs + [e]) == if IsState(e.newState) then e.newState else EffectiveState(evs)
  {
    assert (evs + [e])[..|evs|] == evs;
  }

  lemma {:induction false} OfSessionMembers(evs: seq<Event>, sid: string)
    ensures forall e :: e in OfSession(evs, sid) <==> e in evs && e.session == sid
  {
    if evs != [] {
      OfSessionMembers(evs[..|evs| - 1], sid);
      assert evs == evs[..|evs| - 1] + [evs[|evs| - 1]];
    }
  }
}
