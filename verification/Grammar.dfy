// internal/state/state.go: the workspace-name grammar, the decay table, and the mapping
// from hook events to transitions.
module Grammar {
  import opened Wrappers

  const MAX_SLOTS := 20
  const DECAY_LEVELS := 7
  // The largest value strconv.Atoi accepts on a 64-bit platform.
  const MAX_INT: int := 0x7fff_ffff_ffff_ffff

  datatype Status = Working | Prompt | Idle | Shell

  // The string stored in the sessions.state column for each status.
  function StatusName(st: Status): string {
    match st
    case Working => "working"
    case Prompt => "prompt"
    case Idle => "idle"
    case Shell => "shell"
  }

  // ---- decimal numerals -------------------------------------------------

  predicate IsDigit(c: char) {
    '0' <= c <= '9'
  }

  predicate AllDigits(s: string) {
    forall i | 0 <= i < |s| :: IsDigit(s[i])
  }

  function DigitChar(d: nat): char
    requires d < 10
  {
    '0' + d as char
  }

  function Itoa(n: nat): (s: string)
    ensures |s| > 0 && AllDigits(s)
  {
    if n < 10 then [DigitChar(n)] else Itoa(n / 10) + [DigitChar(n % 10)]
  }

  // The value of a digit string; leading zeros are allowed.
  function DigitsValue(s: string): nat
    requires AllDigits(s)
  {
    if s == "" then 0
    else 10 * DigitsValue(s[..|s| - 1]) + (s[|s| - 1] as int - '0' as int)
  }

  lemma {:induction false} ItoaValue(n: nat)
    ensures DigitsValue(Itoa(n)) == n
  {
    if n < 10 {
      assert Itoa(n)[..0] == "";
    } else {
      ItoaValue(n / 10);
      assert Itoa(n)[..|Itoa(n)| - 1] == Itoa(n / 10);
    }
  }

  // The number of leading digits, as the greedy \d+ of the name pattern consumes them.
  function DigitRun(s: string): (k: nat)
    ensures k <= |s| && AllDigits(s[..k])
    ensures k < |s| ==> !IsDigit(s[k])
  {
    if s == "" || !IsDigit(s[0]) then 0
    else
      var k := 1 + DigitRun(s[1..]);
      assert s[..k] == [s[0]] + s[1..][..k - 1];
      k
  }

  lemma {:induction false} DigitRunOf(ds: string, tail: string)
    requires AllDigits(ds)
    requires tail == "" || !IsDigit(tail[0])
    ensures DigitRun(ds + tail) == |ds|
  {
    if ds == "" {
      assert ds + tail == tail;
    } else {
      DigitRunOf(ds[1..], tail);
      assert (ds + tail)[1..] == ds[1..] + tail;
    }
  }

  // ---- workspace names --------------------------------------------------

  function Sigil(st: Status): char {
    match st
    case Working => 'w'
    case Prompt => 'p'
    case Idle => 'i'
    case Shell => 's'
  }

  function SigilStatus(c: char): Option<Status> {
    match c
    case 'w' => Some(Working)
    case 'p' => Some(Prompt)
    case 'i' => Some(Idle)
    case 's' => Some(Shell)
    case _ => None
  }

  function Encode(st: Status, slot: nat, level: nat): string {
    match st
    case Working => "cw" + Itoa(slot)
    case Prompt => "cp" + Itoa(slot)
    case Shell => "cs" + Itoa(slot)
    case Idle => "ci" + Itoa(slot) + "l" + Itoa(level)
  }

  datatype Parsed = Parsed(slot: nat, status: Status, level: nat)

  // A digit string as strconv.Atoi reads it: out of the int64 range is an error.
  function Atoi(ds: string): Option<nat>
    requires AllDigits(ds)
  {
    var v := DigitsValue(ds);
    if v <= MAX_INT then Some(v) else None
  }

  // The optional level group of the pattern: nothing, or 'l' followed by digits only.
  predicate IsLevelPart(tail: string) {
    tail == "" || (|tail| > 1 && tail[0] == 'l' && AllDigits(tail[1..]))
  }

  function ParseName(name: string): Option<Parsed> {
    if |name| < 3 || name[0] != 'c' then None
    else
      match SigilStatus(name[1])
      case None => None
      case Some(st) =>
        var rest := name[2..];
        var k := DigitRun(rest);
        var tail := rest[k..];
        if k == 0 || !IsLevelPart(tail) then None
        else
          match Atoi(rest[..k])
          case None => None
          case Some(slot) =>
            // The level group is converted for idle names only.
            if st != Idle || tail == "" then Some(Parsed(slot, st, 0))
            else
              match Atoi(tail[1..])
              case None => None
              case Some(level) => Some(Parsed(slot, st, level))
  }

  // A name written as sigil, digits and optional level group parses to exactly those parts.
  lemma ParseParts(st: Status, ds: string, tail: string)
    requires ds != "" && AllDigits(ds) && IsLevelPart(tail)
    ensures
      ParseName(['c', Sigil(st)] + ds + tail) ==
      if Atoi(ds).None? then None
      else if st != Idle || tail == "" then Some(Parsed(Atoi(ds).value, st, 0))
      else if Atoi(tail[1..]).None? then None
      else Some(Parsed(Atoi(ds).value, st, Atoi(tail[1..]).value))
  {
    var name := ['c', Sigil(st)] + ds + tail;
    assert name[2..] == ds + tail;
    DigitRunOf(ds, tail);
    assert (ds + tail)[..|ds|] == ds;
    assert (ds + tail)[|ds|..] == tail;
  }

  // What Encode writes after the sigil: the digits of the slot and, for idle, of the level.
  lemma EncodeParts(st: Status, slot: nat, level: nat) returns (ds: string, tail: string)
    requires slot <= MAX_INT && level <= MAX_INT
    ensures Encode(st, slot, level) == ['c', Sigil(st)] + ds + tail
    ensures ds != "" && AllDigits(ds) && Atoi(ds) == Some(slot) && IsLevelPart(tail)
    ensures if st == Idle then tail != "" && Atoi(tail[1..]) == Some(level) else tail == ""
  {
    ItoaValue(slot);
    ItoaValue(level);
    ds, tail := Itoa(slot), if st == Idle then "l" + Itoa(level) else "";
    EncodeJoined(st, slot, level, ds, tail);
    LevelTail(Itoa(level));
  }

  lemma EncodeJoined(st: Status, slot: nat, level: nat, ds: string, tail: string)
    requires ds == Itoa(slot) && tail == if st == Idle then "l" + Itoa(level) else ""
    ensures Encode(st, slot, level) == ['c', Sigil(st)] + ds + tail
  {
    if st == Idle {
      assert ['c', 'i'] + ds + ("l" + Itoa(level)) == "ci" + ds + "l" + Itoa(level);
    } else {
      assert ['c', Sigil(st)] + ds + "" == ['c', Sigil(st)] + ds;
    }
  }

  lemma LevelTail(ds: string)
    requires ds != "" && AllDigits(ds)
    ensures ("l" + ds)[1..] == ds && IsLevelPart("l" + ds)
  {
    assert ("l" + ds)[1..] == ds;
  }

  // ParseName inverts Encode for every slot and level an int can hold.
  lemma ParseEncode(st: Status, slot: nat, level: nat)
    requires slot <= MAX_INT && level <= MAX_INT
    ensures ParseName(Encode(st, slot, level)) == Some(Parsed(slot, st, if st == Idle then level else 0))
  {
    var ds, tail := EncodeParts(st, slot, level);
    ParseParts(st, ds, tail);
  }

  // The names of slot 3, one for each status.
  lemma NamesWritten()
    ensures Encode(Working, 3, 0) == "cw3" && Encode(Prompt, 3, 0) == "cp3" && Encode(Shell, 3, 0) == "cs3"
    ensures Encode(Idle, 3, 2) == "ci3l2"
  {
    assert Itoa(3) == "3" && Itoa(2) == "2";
  }

  // ParseName accepts exactly the names of the pattern ^c(w|p|i|s)(\d+)(?:l(\d+))?$
  // whose converted groups fit an int.
  lemma ParseNameAccepts(name: string)
    ensures ParseName(name).Some? <==>
      exists st, ds, tail ::
        && IsNameOf(name, st, ds, tail)
        && Atoi(ds).Some?
        && (st == Idle && tail != "" ==> Atoi(tail[1..]).Some?)
  {
    if ParseName(name).Some? {
      var st := SigilStatus(name[1]).value;
      var rest := name[2..];
      var k := DigitRun(rest);
      assert name == ['c', Sigil(st)] + rest[..k] + rest[k..];
      assert IsNameOf(name, st, rest[..k], rest[k..]);
    }
    if st, ds, tail :|
      && IsNameOf(name, st, ds, tail)
      && Atoi(ds).Some?
      && (st == Idle && tail != "" ==> Atoi(tail[1..]).Some?)
    {
      ParseParts(st, ds, tail);
    }
  }

  ghost predicate IsNameOf(name: string, st: Status, ds: string, tail: string) {
    ds != "" && AllDigits(ds) && IsLevelPart(tail) && name == ['c', Sigil(st)] + ds + tail
  }

  // The parser is wider than the encoder: names the daemon never writes, with a slot outside
  // 1..MAX_SLOTS, leading zeros, or a level on a non-idle sigil, are accepted too.
  lemma ParseNameIsWiderThanEncode()
    ensures ParseName("cw0") == Some(Parsed(0, Working, 0))
    ensures ParseName("cw99") == Some(Parsed(99, Working, 0))
    ensures ParseName("cw007") == Some(Parsed(7, Working, 0))
    ensures ParseName("cw3l5") == Some(Parsed(3, Working, 0))
  {
    assert "cw0" == ['c', Sigil(Working)] + "0" + "";
    ParseParts(Working, "0", "");
    assert "cw99" == ['c', Sigil(Working)] + "99" + "";
    assert DigitsValue("99") == 99 by { assert "99"[..1] == "9"; assert "9"[..0] == ""; }
    ParseParts(Working, "99", "");
    assert "cw007" == ['c', Sigil(Working)] + "007" + "";
    assert DigitsValue("007") == 7 by { assert "007"[..2] == "00"; assert "00"[..1] == "0"; assert "0"[..0] == ""; }
    ParseParts(Working, "007", "");
    assert "cw3l5" == ['c', Sigil(Working)] + "3" + "l5";
    assert DigitsValue("3") == 3 by { assert "3"[..0] == ""; }
    ParseParts(Working, "3", "l5");
  }

  // ---- decay ------------------------------------------------------------

  const MINUTE := 60_000

  // Upper bounds of the finite buckets, in milliseconds.
  const DECAY_THRESHOLDS: seq<int> :=
    [1 * MINUTE, 4 * MINUTE, 10 * MINUTE, 20 * MINUTE, 35 * MINUTE, 60 * MINUTE]

  function ScanThresholds(elapsed: int, i: nat): (level: nat)
    requires i <= |DECAY_THRESHOLDS|
    ensures i <= level < DECAY_LEVELS
    ensures forall j | i <= j < level :: DECAY_THRESHOLDS[j] <= elapsed
    ensures level < |DECAY_THRESHOLDS| ==> elapsed < DECAY_THRESHOLDS[level]
    decreases |DECAY_THRESHOLDS| - i
  {
    if i == |DECAY_THRESHOLDS| then DECAY_LEVELS - 1
    else if elapsed < DECAY_THRESHOLDS[i] then i
    else ScanThresholds(elapsed, i + 1)
  }

  // The bucket of an elapsed time in milliseconds: its level is the number of thresholds reached.
  function DecayLevel(elapsed: int): (level: nat)
    ensures level < DECAY_LEVELS
    ensures forall j | 0 <= j < |DECAY_THRESHOLDS| :: j < level <==> DECAY_THRESHOLDS[j] <= elapsed
  {
    ScanThresholds(elapsed, 0)
  }

  // The thresholds in minutes.
  lemma DecayTable(minutes: nat)
    ensures DecayLevel(minutes * 60_000) ==
      if minutes < 1 then 0 else if minutes < 4 then 1 else if minutes < 10 then 2 else if minutes < 20 then 3
      else if minutes < 35 then 4 else if minutes < 60 then 5 else 6
  {
    var level := DecayLevel(minutes * 60_000);
    assert forall j | 0 <= j < |DECAY_THRESHOLDS| :: j < level <==> DECAY_THRESHOLDS[j] <= minutes * 60_000;
    assert DECAY_THRESHOLDS[0] == 60_000 && DECAY_THRESHOLDS[1] == 240_000 && DECAY_THRESHOLDS[2] == 600_000;
    assert DECAY_THRESHOLDS[3] == 1_200_000 && DECAY_THRESHOLDS[4] == 2_100_000 && DECAY_THRESHOLDS[5] == 3_600_000;
  }

  lemma DecayMonotone(a: int, b: int)
    requires a <= b
    ensures DecayLevel(a) <= DecayLevel(b)
  {
    var la := DecayLevel(a);
    if la > 0 {
      assert DECAY_THRESHOLDS[la - 1] <= b;
    }
  }

  // ---- hook events ------------------------------------------------------

  datatype Transition = Transition(
    newStatus: Option<Status>, // ChangeStatus / NewStatus
    bumpTalk: bool,
    delete: bool,
    known: bool)

  function MapEvent(event: string): Transition {
    if event == "SessionStart" then Transition(Some(Idle), true, false, true)
    else if event == "UserPromptSubmit" then Transition(Some(Working), false, false, true)
    else if event == "PostToolUse" then Transition(Some(Working), false, false, true)
    else if event == "Notification" then Transition(Some(Prompt), false, false, true)
    else if event == "Stop" then Transition(Some(Idle), true, false, true)
    else if event == "SubagentStop" then Transition(None, true, false, true)
    else if event == "SessionEnd" then Transition(None, false, true, true)
    else Transition(None, false, false, false)
  }
}
