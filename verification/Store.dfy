// internal/db/db.go: the sessions, events and session_repos tables as a store updated in place; each
// operation is one atomic step.
module Store {
  import opened Wrappers
  import opened Collections
  import opened Rows

  // What session_repos holds under a session and a repository id.
  datatype Link = Link(branch: Option<string>, firstSeen: int)

  type Links = map<(string, int), Link>

  // The value of a Database object.
  datatype Tables = Tables(sessions: map<string, Session>, events: seq<Event>, links: Links)

  // Insert, or on conflict update every column but the key and the creation time.
  function Upserted(t: Tables, s: Session): Tables {
    var row := if s.id in t.sessions then s.(created := t.sessions[s.id].created) else s;
    t.(sessions := t.sessions[s.id := row])
  }

  function Deleted(t: Tables, sid: string): Tables {
    t.(sessions := t.sessions - {sid})
  }

  function Logged(t: Tables, e: Event): Tables {
    t.(events := t.events + [e])
  }

  // Insert, or on conflict refresh the branch alone.
  function Linked(t: Tables, sid: string, repo: int, branch: Option<string>, ts: int): Tables {
    var key := (sid, repo);
    t.(links := t.links[key := Link(branch, if key in t.links then t.links[key].firstSeen else ts)])
  }

  class Database {
    var sessions: map<string, Session>
    var events: seq<Event>
    var links: Links

    ghost function View(): Tables
      reads this
    {
      Tables(sessions, events, links)
    }

    constructor ()
      ensures View() == Tables(map[], [], map[])
    {
      sessions, events, links := map[], [], map[];
    }

    method Get(sid: string) returns (s: Option<Session>)
      ensures s == if sid in sessions then Some(sessions[sid]) else None
    {
      s := if sid in sessions then Some(sessions[sid]) else None;
    }

    method Upsert(s: Session)
      modifies this`sessions
      ensures View() == Upserted(old(View()), s)
      ensures s.id in sessions && sessions[s.id] ==
        if s.id in old(sessions) then s.(created := old(sessions)[s.id].created) else s
      ensures sessions - {s.id} == old(sessions) - {s.id}
    {
      var row := s;
      if s.id in sessions {
        row := row.(created := sessions[s.id].created);
      }
      sessions := sessions[s.id := row];
    }

    method Delete(sid: string)
      modifies this`sessions
      ensures View() == Deleted(old(View()), sid)
    {
      sessions := sessions - {sid};
    }

    method InsertEvent(e: Event)
      modifies this`events
      ensures View() == Logged(old(View()), e)
    {
      events := events + [e];
    }

    method LinkSessionRepo(sid: string, repo: int, branch: Option<string>, ts: int)
      modifies this`links
      ensures View() == Linked(old(View()), sid, repo, branch, ts)
    {
      var link := Link(branch, ts);
      if (sid, repo) in links {
        link := links[(sid, repo)].(branch := branch);
      }
      links := links[(sid, repo) := link];
    }

    // Deletes every row the predicate marks dead, and no other, and leaves no trace in the log.
    method ReapDead(dead: Session -> bool) returns (n: nat)
      modifies this`sessions
      ensures sessions == map sid | sid in old(sessions) && !dead(old(sessions)[sid]) :: old(sessions)[sid]
      ensures n == |old(sessions)| - |sessions|
    {
      n := 0;
      var todo := sessions.Keys;
      while todo != {}
        invariant todo <= sessions.Keys <= old(sessions).Keys
        invariant forall sid | sid in sessions :: sessions[sid] == old(sessions)[sid]
        invariant forall sid | sid in old(sessions) && sid !in todo :: sid in sessions <==> !dead(old(sessions)[sid])
        invariant n == |old(sessions).Keys| - |sessions.Keys|
        decreases |todo|
      {
        var _ := Pick(todo);
        var sid :| sid in todo;
        todo := todo - {sid};
        if dead(sessions[sid]) {
          assert (sessions - {sid}).Keys == sessions.Keys - {sid};
          sessions := sessions - {sid};
          n := n + 1;
        }
      }
      assert sessions.Keys == (map sid | sid in old(sessions) && !dead(old(sessions)[sid]) :: old(sessions)[sid]).Keys;
    }
  }
}
