// internal/db/db.go: the row types shared by the hook, the daemon and the recap.
module Rows {
  import opened Wrappers

  // One row of the sessions table; an Option is a NULLable column, times are unix milliseconds.
  datatype Session = Session(
    id: string,
    cwd: Option<string>,
    windowId: Option<int>,
    terminalPid: Option<int>,
    repoId: Option<int>,
    state: string,
    notifyKind: Option<string>,
    lastTalk: Option<int>,
    lastEvent: Option<int>,
    lastSeen: int,
    created: int)

  // One row of the events audit log.
  datatype Event = Event(
    ts: int,
    session: string,
    event: string,
    message: Option<string>,
    matched: Option<bool>,
    newState: string,
    windowId: Option<int>,
    windowTitle: Option<string>)
}
