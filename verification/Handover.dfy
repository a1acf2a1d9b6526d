// internal/daemon/daemon.go, sendSnapshot: handing session snapshots from the poller to the actor
// over a channel of capacity one, as an interleaving of the two.
module Handover {
  import opened Wrappers

  // Where the poller is inside the nested selects.
  datatype Pc =
    | Idle      // between polls
    | TrySend   // about to run the outer select
    | Drain     // the buffer was full: about to take the stale snapshot out
    | Resend    // about to run the inner send

  // Snapshots are numbered in the order they are loaded; current is the latest one loaded.
  datatype State = State(
    pc: Pc,
    current: nat,
    buffer: Option<nat>,
    received: seq<nat>,
    done: bool,      // the context was cancelled
    dropped: bool)   // an inner send found the buffer full again

  const START := State(Idle, 0, None, [], false, false)

  datatype Step =
    | Load        // a successful LoadLive: a fresh snapshot
    | LoadFailed  // the poll gives up on an error
    | Send        // the outer select
    | TakeStale   // the drain
    | SendAgain   // the inner select
    | GiveUp      // the outer select takes the cancelled-context case
    | Receive     // the actor takes the buffered snapshot
    | Cancel

  predicate Enabled(s: State, step: Step) {
    match step
    case Load => s.pc == Idle
    case LoadFailed => s.pc == Idle
    case Send => s.pc == TrySend
    case TakeStale => s.pc == Drain
    case SendAgain => s.pc == Resend
    case GiveUp => s.pc == TrySend && s.done
    case Receive => s.buffer.Some?
    case Cancel => true
  }

  function After(s: State, step: Step): State
    requires Enabled(s, step)
  {
    match step
    case Load => s.(pc := TrySend, current := s.current + 1)
    case LoadFailed => s
    case Send =>
      // The default case runs only when neither the send nor the cancellation is ready.
      if s.buffer.None? then s.(pc := Idle, buffer := Some(s.current))
      else if s.done then s.(pc := Idle)
      else s.(pc := Drain)
    case TakeStale => s.(pc := Resend, buffer := None)
    case SendAgain =>
      if s.buffer.None? then s.(pc := Idle, buffer := Some(s.current))
      else s.(pc := Idle, dropped := true)
    case GiveUp => s.(pc := Idle)
    case Receive => s.(buffer := None, received := s.received + [s.buffer.value])
    case Cancel => s.(done := true)
  }

  ghost predicate IsRun(states: seq<State>, steps: seq<Step>) {
    && |states| == |steps| + 1 && states[0] == START
    && forall i | 0 <= i < |steps| :: Enabled(states[i], steps[i]) && states[i + 1] == After(states[i], steps[i])
  }

  function Newest(received: seq<nat>): nat {
    if received == [] then 0 else received[|received| - 1]
  }

  ghost predicate Increasing(s: seq<nat>) {
    forall i, j | 0 <= i < j < |s| :: s[i] < s[j]
  }

  // The invariant of the protocol.
  ghost predicate Good(s: State) {
    && !s.dropped
    && Increasing(s.received)
    && (forall n | n in s.received :: 0 < n <= s.current)
    && (s.buffer.Some? ==> Newest(s.received) < s.buffer.value <= s.current)
    && (s.pc == Resend ==> s.buffer.None?)
    && (s.pc != Idle ==> Newest(s.received) < s.current && (s.buffer.Some? ==> s.buffer.value < s.current))
    && (s.pc == Idle && !s.done && s.current > 0 ==>
          s.buffer == Some(s.current) || (s.buffer.None? && Newest(s.received) == s.current))
  }

  lemma StepGood(s: State, step: Step)
    requires Good(s) && Enabled(s, step)
    ensures Good(After(s, step))
  {
    if step.Receive? {
      var n, r := s.buffer.value, s.received;
      forall i | 0 <= i < |r|
        ensures r[i] < n
      {
        assert i < |r| - 1 ==> r[i] < r[|r| - 1];
      }
    }
    if step.Load? && s.received != [] {
      assert s.received[|s.received| - 1] in s.received;
    }
  }

  lemma {:induction false} RunGood(states: seq<State>, steps: seq<Step>, n: nat)
    requires IsRun(states, steps) && n < |states|
    ensures Good(states[n])
  {
    if n > 0 {
      RunGood(states, steps, n - 1);
      StepGood(states[n - 1], steps[n - 1]);
    }
  }

  // In every state of every interleaving: the inner send has never dropped a fresh snapshot, the
  // actor has received ever newer snapshots, and, until the context is cancelled, a poller between
  // polls has its newest snapshot in the buffer or already received.
  lemma HandoverSafe(states: seq<State>, steps: seq<Step>, n: nat)
    requires IsRun(states, steps) && n < |states|
    ensures !states[n].dropped
    ensures Increasing(states[n].received)
    ensures states[n].pc == Idle && !states[n].done && states[n].current > 0 ==>
      states[n].buffer == Some(states[n].current) || Newest(states[n].received) == states[n].current
  {
    RunGood(states, steps, n);
  }
}
