// internal/install/shell.go: the marker-delimited block in the user's .zshrc, as string
// expressions. The functions on any pair of markers come first; the zsh block is their use with
// the two markers of internal/install/shell.go:18-21.
module ZshBlock {
  import opened Wrappers
  import opened Text

  datatype Range = Range(start: nat, end: nat)

  // From the first begin marker through the first end marker after it, with its newline.
  function FindRange(text: string, begin: string, end: string): (r: Option<Range>)
    ensures r.Some? ==> r.value.start <= r.value.end <= |text|
  {
    match Index(text, begin)
    case None => None
    case Some(b) =>
      match Index(text[b..], end)
      case None => None
      case Some(e) =>
        var stop := b + e + |end|;
        Some(Range(b, if stop < |text| && text[stop] == '\n' then stop + 1 else stop))
  }

  // Replaces the range in place, or appends the block after one blank line.
  function Put(text: string, block: string, begin: string, end: string): string {
    match FindRange(text, begin, end)
    case Some(r) => text[..r.start] + block + text[r.end..]
    case None => Prefix(text) + block
  }

  // The text before an appended block.
  function Prefix(text: string): string {
    var trimmed := TrimRightNewlines(text);
    if trimmed == "" then "" else trimmed + "\n\n"
  }

  function Take(text: string, begin: string, end: string): string {
    match FindRange(text, begin, end)
    case None => text
    case Some(r) =>
      var before := TrimRightNewlines(text[..r.start]);
      var before := if before != "" then before + "\n" else before;
      before + TrimLeftNewlines(text[r.end..])
  }

  const BEGIN := "# >>> claude-status resume >>>"
  const END := "# <<< claude-status resume <<<"

  // The block between the markers.
  function Body(bin: string): string {
    "  (managed by `" + bin + " install`; do not edit \U{E2}\U{80}\U{94} `" + bin + " uninstall` removes this)\n"
    + "eval \"$(" + bin + " resume --init zsh)\"" + "\n"
  }

  function Block(bin: string): string {
    BEGIN + Body(bin) + END + "\n"
  }

  function FindBlock(text: string): Option<Range> {
    FindRange(text, BEGIN, END)
  }

  function Apply(text: string, bin: string): string {
    Put(text, Block(bin), BEGIN, END)
  }

  function Strip(text: string): string {
    Take(text, BEGIN, END)
  }

  // ---- where markers can occur -------------------------------------------------------

  // An occurrence shows the characters of what occurs.
  lemma OccurrenceChars(s: string, sub: string, j: int)
    requires OccursAt(s, sub, j)
    ensures forall i | j <= i < j + |sub| :: s[i] in sub
  {
    forall i | j <= i < j + |sub|
      ensures s[i] in sub
    {
      assert s[i] == s[j..j + |sub|][i - j];
    }
  }

  // No occurrence reaches over a character the marker lacks.
  lemma NotOver(s: string, marker: string, j: int, at: int)
    requires 0 <= j <= at < j + |marker| && at < |s| && s[at] !in marker
    ensures !OccursAt(s, marker, j)
  {
    if OccursAt(s, marker, j) {
      OccurrenceChars(s, marker, j);
    }
  }

  lemma OccursInPrefix(l: string, r: string, marker: string, j: int)
    requires 0 <= j && j + |marker| <= |l|
    ensures OccursAt(l + r, marker, j) <==> OccursAt(l, marker, j)
  {
    assert (l + r)[j..j + |marker|] == l[j..j + |marker|];
  }

  lemma OccursInSuffix(l: string, r: string, marker: string, j: int)
    requires |l| <= j
    ensures OccursAt(l + r, marker, j) <==> OccursAt(r, marker, j - |l|)
  {
    if j + |marker| <= |l + r| {
      assert (l + r)[j..j + |marker|] == r[j - |l|..j - |l| + |marker|];
    }
  }

  // Text without the marker's last character brings no occurrence.
  lemma AppendText(l: string, mid: string, marker: string)
    requires marker != "" && !Contains(l, marker) && marker[|marker| - 1] !in mid
    ensures !Contains(l + mid, marker)
  {
    forall j | 0 <= j <= |l + mid| - |marker|
      ensures !OccursAt(l + mid, marker, j)
    {
      var e := j + |marker| - 1;
      if e < |l| {
        OccursInPrefix(l, mid, marker, j);
      } else {
        assert (l + mid)[e] == mid[e - |l|];
        assert (l + mid)[j..j + |marker|][|marker| - 1] == (l + mid)[e];
      }
    }
  }

  // Text without the marker brings no occurrence when it follows a character the marker lacks.
  lemma AppendFree(l: string, free: string, marker: string)
    requires l != "" && l[|l| - 1] !in marker && !Contains(l, marker) && !Contains(free, marker)
    ensures !Contains(l + free, marker)
  {
    var s := l + free;
    forall j | 0 <= j <= |s| - |marker|
      ensures !OccursAt(s, marker, j)
    {
      if j + |marker| <= |l| {
        OccursInPrefix(l, free, marker, j);
      } else if j < |l| {
        assert s[|l| - 1] == l[|l| - 1];
        NotOver(s, marker, j, |l| - 1);
      } else {
        OccursInSuffix(l, free, marker, j);
      }
    }
  }

  // Two texts separated by a newline show a one-line marker only where one of them does.
  lemma NoneBefore(l: string, r: string, marker: string, j: int)
    requires l != "" && l[|l| - 1] == '\n' && '\n' !in marker && !Contains(l, marker)
    requires 0 <= j < |l|
    ensures !OccursAt(l + r, marker, j)
  {
    if j + |marker| <= |l| {
      OccursInPrefix(l, r, marker, j);
    } else {
      assert (l + r)[|l| - 1] == '\n';
      NotOver(l + r, marker, j, |l| - 1);
    }
  }

  // ---- finding a block again -------------------------------------------------------------

  // Markers of one line around a body that ends its line and does not show the end marker.
  predicate WellMarked(begin: string, body: string, end: string) {
    && begin != "" && end != "" && '\n' !in begin && '\n' !in end
    && body != "" && body[|body| - 1] == '\n'
    && !Contains(begin + body, end)
  }

  function Marked(begin: string, body: string, end: string): string {
    begin + body + end + "\n"
  }

  // In a marked block, whatever follows, the end marker is first found in its place.
  lemma FindsEnd(begin: string, body: string, end: string, suffix: string)
    requires WellMarked(begin, body, end)
    ensures Index(Marked(begin, body, end) + suffix, end) == Some(|begin + body|)
  {
    var l, r := begin + body, end + "\n" + suffix;
    var text := Marked(begin, body, end) + suffix;
    assert text == l + r;
    assert l[|l| - 1] == body[|body| - 1];
    forall j | 0 <= j < |l|
      ensures !OccursAt(text, end, j)
    {
      NoneBefore(l, r, end, j);
    }
    assert text[|l|..|l| + |end|] == end;
    IndexIs(text, end, |l|);
  }

  // The first occurrence only depends on the text up to its end.
  lemma IndexKept(text: string, out: string, marker: string, n: nat)
    requires Index(text, marker).Some? && Index(text, marker).value + |marker| <= n
    requires n <= |text| && n <= |out| && text[..n] == out[..n]
    ensures Index(out, marker) == Index(text, marker)
  {
    var b := Index(text, marker).value;
    forall j | 0 <= j <= b
      ensures OccursAt(out, marker, j) <==> OccursAt(text, marker, j)
    {
      assert text == text[..n] + text[n..] && out == out[..n] + out[n..];
      OccursInPrefix(text[..n], text[n..], marker, j);
      OccursInPrefix(out[..n], out[n..], marker, j);
    }
    IndexIs(out, marker, b);
  }

  // What is found from a place where a marked block stands.
  lemma RangeAt(text: string, prefix: string, begin: string, body: string, end: string, suffix: string)
    requires WellMarked(begin, body, end) && text == prefix + Marked(begin, body, end) + suffix
    requires Index(text, begin) == Some(|prefix|)
    ensures FindRange(text, begin, end) == Some(Range(|prefix|, |prefix| + |Marked(begin, body, end)|))
  {
    var block := Marked(begin, body, end);
    assert text[|prefix|..] == block + suffix;
    FindsEnd(begin, body, end, suffix);
    assert text[|prefix| + |block| - 1] == block[|block| - 1] == '\n';
  }

  // A marked block is found exactly when no begin marker shows before it.
  lemma FindsBlock(prefix: string, begin: string, body: string, end: string, suffix: string)
    requires WellMarked(begin, body, end) && Index(prefix + begin, begin) == Some(|prefix|)
    ensures FindRange(prefix + Marked(begin, body, end) + suffix, begin, end) ==
      Some(Range(|prefix|, |prefix| + |Marked(begin, body, end)|))
  {
    var text := prefix + Marked(begin, body, end) + suffix;
    assert text[..|prefix + begin|] == prefix + begin == (prefix + begin)[..|prefix + begin|];
    IndexKept(prefix + begin, text, begin, |prefix + begin|);
    RangeAt(text, prefix, begin, body, end, suffix);
  }

  // The separator keeps a begin marker from reaching over from the text before the block.
  lemma PrefixShowsNoMarker(text: string, begin: string, j: int)
    requires begin != "" && '\n' !in begin && !Contains(text, begin) && 0 <= j < |Prefix(text)|
    ensures !OccursAt(Prefix(text) + begin, begin, j)
  {
    var l := Prefix(text);
    var trimmed := TrimRightNewlines(text);
    assert l == trimmed + "\n\n";
    forall i | 0 <= i <= |l| - |begin|
      ensures !OccursAt(l, begin, i)
    {
      if i + |begin| <= |trimmed| {
        assert l[i..i + |begin|] == text[i..i + |begin|];
        assert !OccursAt(text, begin, i);
      } else {
        NotOver(l, begin, i, if i <= |trimmed| then |trimmed| else i);
      }
    }
    NoneBefore(l, begin, begin, j);
  }

  lemma FirstAfterPrefix(text: string, begin: string)
    requires begin != "" && '\n' !in begin && !Contains(text, begin)
    ensures Index(Prefix(text) + begin, begin) == Some(|Prefix(text)|)
  {
    var l := Prefix(text);
    forall j | 0 <= j < |l|
      ensures !OccursAt(l + begin, begin, j)
    {
      PrefixShowsNoMarker(text, begin, j);
    }
    assert (l + begin)[|l|..|l| + |begin|] == begin;
    IndexIs(l + begin, begin, |l|);
  }

  lemma PutFresh(text: string, begin: string, body: string, end: string)
    requires WellMarked(begin, body, end) && !Contains(text, begin)
    ensures var out := Put(text, Marked(begin, body, end), begin, end);
      && out == Prefix(text) + Marked(begin, body, end)
      && FindRange(out, begin, end) == Some(Range(|Prefix(text)|, |out|))
  {
    var l := Prefix(text);
    FirstAfterPrefix(text, begin);
    FindsBlock(l, begin, body, end, "");
    var out := l + Marked(begin, body, end);
    assert out + "" == out;
  }

  lemma Slices(l: string, m: string, r: string)
    ensures (l + m + r)[..|l|] == l && (l + m + r)[|l| + |m|..] == r
  {
  }

  // Replacing a block keeps what stands before and after it.
  lemma PutKeeps(text: string, block: string, begin: string, end: string)
    requires FindRange(text, begin, end).Some?
    ensures
      var r := FindRange(text, begin, end).value;
      var out := Put(text, block, begin, end);
      && r.start + |block| <= |out|
      && out[..r.start] == text[..r.start] && out[r.start + |block|..] == text[r.end..]
  {
    var r := FindRange(text, begin, end).value;
    Slices(text[..r.start], block, text[r.end..]);
  }

  lemma RangeStart(text: string, begin: string, end: string)
    requires FindRange(text, begin, end).Some?
    ensures Index(text, begin) == Some(FindRange(text, begin, end).value.start)
  {
  }

  lemma PutAt(text: string, block: string, begin: string, end: string, r: Range)
    requires FindRange(text, begin, end) == Some(r)
    ensures Put(text, block, begin, end) == text[..r.start] + block + text[r.end..]
  {
  }

  // The new block is found in the place of the old one.
  lemma PutReplaces(text: string, begin: string, body: string, end: string)
    requires WellMarked(begin, body, end) && FindRange(text, begin, end).Some?
    ensures
      var r := FindRange(text, begin, end).value;
      var block := Marked(begin, body, end);
      FindRange(Put(text, block, begin, end), begin, end) == Some(Range(r.start, r.start + |block|))
  {
    var r := FindRange(text, begin, end).value;
    RangeStart(text, begin, end);
    FirstInPrefix(text, begin, r.start);
    FindsBlock(text[..r.start], begin, body, end, text[r.end..]);
    PutAt(text, Marked(begin, body, end), begin, end, r);
  }

  lemma FirstInPrefix(text: string, begin: string, b: nat)
    requires Index(text, begin) == Some(b)
    ensures Index(text[..b] + begin, begin) == Some(b)
  {
    assert text[b..b + |begin|] == begin;
    assert text[..b] + begin == text[..b + |begin|];
    IndexKept(text, text[..b] + begin, begin, b + |begin|);
  }

  // ---- round trip ------------------------------------------------------------------------

  // Text with its trailing newlines normalized to one, or none when nothing else is left.
  function Normalized(text: string): string {
    var trimmed := TrimRightNewlines(text);
    if trimmed == "" then "" else trimmed + "\n"
  }

  lemma TrimPrefix(text: string)
    ensures TrimRightNewlines(Prefix(text)) == TrimRightNewlines(text)
  {
    var trimmed := TrimRightNewlines(text);
    if trimmed != "" {
      assert (trimmed + "\n\n")[..|trimmed| + 1] == trimmed + "\n";
      assert (trimmed + "\n")[..|trimmed|] == trimmed;
    }
  }

  lemma TakeUndoesPut(text: string, begin: string, body: string, end: string)
    requires WellMarked(begin, body, end) && !Contains(text, begin)
    ensures Take(Put(text, Marked(begin, body, end), begin, end), begin, end) == Normalized(text)
  {
    PutFresh(text, begin, body, end);
    TrimPrefix(text);
    var out := Put(text, Marked(begin, body, end), begin, end);
    assert out[..|Prefix(text)|] == Prefix(text);
    assert out[|out|..] == "";
  }

  lemma TakeIgnoresReplace(text: string, begin: string, body: string, end: string)
    requires WellMarked(begin, body, end) && FindRange(text, begin, end).Some?
    ensures Take(Put(text, Marked(begin, body, end), begin, end), begin, end) == Take(text, begin, end)
  {
    PutReplaces(text, begin, body, end);
    PutKeeps(text, Marked(begin, body, end), begin, end);
  }

  // ---- dangling markers --------------------------------------------------------------------

  // A begin marker without an end marker after it.
  predicate Dangling(text: string, begin: string, end: string) {
    Contains(text, begin) && FindRange(text, begin, end).None?
  }

  lemma MarkerInTrimmed(text: string, marker: string, b: int)
    requires marker != "" && '\n' !in marker && OccursAt(text, marker, b)
    ensures b + |marker| <= |TrimRightNewlines(text)|
  {
    var last := b + |marker| - 1;
    OccurrenceChars(text, marker, b);
    assert text[last] != '\n';
  }

  // After a dangling begin marker the first end marker is that of the appended block, so the
  // range found next time starts too early.
  lemma DanglingRange(text: string, begin: string, body: string, end: string)
    requires WellMarked(begin, body, end) && Dangling(text, begin, end)
    ensures var out := Put(text, Marked(begin, body, end), begin, end);
      FindRange(out, begin, end) == Some(Range(Index(text, begin).value, |out|))
  {
    var b := Index(text, begin).value;
    MarkerInTrimmed(text, begin, b);
    DanglingStart(text, Marked(begin, body, end), begin, end);
    TrimmedTailFree(text, end, b);
    RangeToEnd(Prefix(text), begin, body, end, b);
  }

  lemma DanglingStart(text: string, block: string, begin: string, end: string)
    requires begin != "" && '\n' !in begin && Dangling(text, begin, end)
    ensures Put(text, block, begin, end) == Prefix(text) + block
    ensures Index(Prefix(text) + block, begin) == Index(text, begin)
  {
    var trimmed := TrimRightNewlines(text);
    MarkerInTrimmed(text, begin, Index(text, begin).value);
    var out := Prefix(text) + block;
    assert out[..|trimmed|] == trimmed == text[..|trimmed|];
    IndexKept(text, out, begin, |trimmed|);
  }

  lemma RangeToEnd(l: string, begin: string, body: string, end: string, b: nat)
    requires WellMarked(begin, body, end) && Index(l + Marked(begin, body, end), begin) == Some(b)
    requires b < |l| && l[|l| - 1] == '\n' && !Contains(l[b..], end)
    ensures var out := l + Marked(begin, body, end); FindRange(out, begin, end) == Some(Range(b, |out|))
  {
    var block := Marked(begin, body, end);
    var out := l + block;
    assert out[b..] == l[b..] + block;
    EndAfter(l[b..], begin, body, end);
    assert out[|out| - 1] == block[|block| - 1] == '\n';
  }

  // After a line without it, the end marker is first found where the block has it.
  lemma EndAfter(front: string, begin: string, body: string, end: string)
    requires WellMarked(begin, body, end)
    requires front != "" && front[|front| - 1] == '\n' && !Contains(front, end)
    ensures Index(front + Marked(begin, body, end), end) == Some(|front| + |begin + body|)
  {
    var block, at := Marked(begin, body, end), |begin + body|;
    FindsEnd(begin, body, end, "");
    assert block + "" == block;
    forall j | 0 <= j < |front| + at
      ensures !OccursAt(front + block, end, j)
    {
      if j < |front| {
        NoneBefore(front, block, end, j);
      } else {
        OccursInSuffix(front, block, end, j);
      }
    }
    OccursInSuffix(front, block, end, |front| + at);
    IndexIs(front + block, end, |front| + at);
  }

  // Replacing trailing newlines by two brings no end marker.
  lemma TrimmedTailFree(text: string, end: string, b: nat)
    requires end != "" && '\n' !in end
    requires b <= |TrimRightNewlines(text)| && !Contains(text[b..], end)
    requires TrimRightNewlines(text) != ""
    ensures b < |Prefix(text)| && Prefix(text)[|Prefix(text)| - 1] == '\n' && !Contains(Prefix(text)[b..], end)
  {
    var trimmed := TrimRightNewlines(text);
    var front := Prefix(text)[b..];
    var n := |trimmed| - b;
    assert front == trimmed[b..] + "\n\n";
    assert text[b..] == trimmed[b..] + text[|trimmed|..];
    forall j | 0 <= j <= |front| - |end|
      ensures !OccursAt(front, end, j)
    {
      if j + |end| <= n {
        OccursInPrefix(trimmed[b..], "\n\n", end, j);
        OccursInPrefix(trimmed[b..], text[|trimmed|..], end, j);
        assert !OccursAt(text[b..], end, j);
      } else {
        NotOver(front, end, j, if j <= n then n else j);
      }
    }
  }

  lemma PutTwiceIff(text: string, begin: string, body: string, end: string)
    requires WellMarked(begin, body, end)
    ensures var block := Marked(begin, body, end);
      var once := Put(text, block, begin, end);
      Put(once, block, begin, end) == once <==> !Dangling(text, begin, end)
  {
    var block := Marked(begin, body, end);
    var once := Put(text, block, begin, end);
    if Dangling(text, begin, end) {
      var b := Index(text, begin).value;
      DanglingRange(text, begin, body, end);
      MarkerInTrimmed(text, begin, b);
      assert |Put(once, block, begin, end)| == b + |block| < |once|;
    } else if FindRange(text, begin, end).Some? {
      PutReplaces(text, begin, body, end);
      PutKeeps(text, block, begin, end);
    } else {
      PutFresh(text, begin, body, end);
      assert once[..|Prefix(text)|] == Prefix(text);
      assert once[|once|..] == "";
      assert Prefix(text) + block + "" == once;
    }
  }

  // ---- present exactly once --------------------------------------------------------------------

  // marker occurs at position at and nowhere else.
  ghost predicate OnlyAt(s: string, marker: string, at: int) {
    forall j :: OccursAt(s, marker, j) <==> j == at
  }

  ghost predicate ShowsOnce(s: string, marker: string) {
    exists at :: OnlyAt(s, marker, at)
  }

  // The begin marker shows nowhere in the block but at its start.
  predicate BeginsOnce(begin: string, body: string, end: string) {
    begin != "" && !Contains(Marked(begin, body, end)[1..], begin)
  }

  lemma TwiceIsNotOnce(s: string, marker: string, i: int, j: int)
    requires OccursAt(s, marker, i) && OccursAt(s, marker, j) && i != j
    ensures !ShowsOnce(s, marker)
  {
  }

  // Behind its first character a block brings no begin marker but those of the text after it.
  lemma BehindBlock(begin: string, body: string, end: string, suffix: string, j: int)
    requires WellMarked(begin, body, end) && BeginsOnce(begin, body, end) && 0 < j
    ensures var block := Marked(begin, body, end);
      OccursAt(block + suffix, begin, j) <==> |block| <= j && OccursAt(suffix, begin, j - |block|)
  {
    var block := Marked(begin, body, end);
    var tail := block[1..];
    assert block[..1] + (tail + suffix) == block + suffix;
    OccursInSuffix(block[..1], tail + suffix, begin, j);
    if j < |block| {
      assert tail != "" && tail[|tail| - 1] == '\n';
      NoneBefore(tail, suffix, begin, j - 1);
    } else {
      OccursInSuffix(block, suffix, begin, j);
    }
  }

  // With no begin marker before the block, the text shows it once exactly when none comes after.
  lemma OnceAround(prefix: string, begin: string, body: string, end: string, suffix: string)
    requires WellMarked(begin, body, end) && BeginsOnce(begin, body, end)
    requires forall j | 0 <= j < |prefix| :: !OccursAt(prefix + (Marked(begin, body, end) + suffix), begin, j)
    ensures ShowsOnce(prefix + (Marked(begin, body, end) + suffix), begin) <==> !Contains(suffix, begin)
  {
    var block := Marked(begin, body, end);
    var text := prefix + (block + suffix);
    forall j
      ensures OccursAt(text, begin, j) <==>
        j == |prefix| || (|prefix| + |block| <= j && OccursAt(suffix, begin, j - |prefix| - |block|))
    {
      if j >= |prefix| {
        OccursInSuffix(prefix, block + suffix, begin, j);
        if j > |prefix| {
          BehindBlock(begin, body, end, suffix, j - |prefix|);
        } else {
          assert (block + suffix)[..|begin|] == begin;
        }
      }
    }
    if Contains(suffix, begin) {
      var i :| 0 <= i <= |suffix| - |begin| && OccursAt(suffix, begin, i);
      TwiceIsNotOnce(text, begin, |prefix|, |prefix| + |block| + i);
    } else {
      assert OnlyAt(text, begin, |prefix|);
    }
  }

  // After an install the begin marker shows exactly once if and only if it showed not at all, or
  // a block was found and no begin marker came after it.
  lemma PutShowsOnceIff(text: string, begin: string, body: string, end: string)
    requires WellMarked(begin, body, end) && BeginsOnce(begin, body, end)
    ensures
      var r := FindRange(text, begin, end);
      ShowsOnce(Put(text, Marked(begin, body, end), begin, end), begin) <==>
        !Contains(text, begin) || (r.Some? && !Contains(text[r.value.end..], begin))
  {
    if FindRange(text, begin, end).Some? {
      OnceReplaced(text, begin, body, end);
    } else if Contains(text, begin) {
      NotOnceDangling(text, begin, body, end);
    } else {
      OnceAppended(text, begin, body, end);
    }
  }

  lemma OnceReplaced(text: string, begin: string, body: string, end: string)
    requires WellMarked(begin, body, end) && BeginsOnce(begin, body, end)
    requires FindRange(text, begin, end).Some?
    ensures ShowsOnce(Put(text, Marked(begin, body, end), begin, end), begin) <==>
      !Contains(text[FindRange(text, begin, end).value.end..], begin)
  {
    var block, r := Marked(begin, body, end), FindRange(text, begin, end).value;
    var prefix, suffix := text[..r.start], text[r.end..];
    PutAt(text, block, begin, end, r);
    assert prefix + block + suffix == prefix + (block + suffix);
    RangeStart(text, begin, end);
    FirstInPrefix(text, begin, r.start);
    forall j | 0 <= j < |prefix|
      ensures !OccursAt(prefix + (block + suffix), begin, j)
    {
      BeforeBegin(prefix, begin, block + suffix, j);
    }
    OnceAround(prefix, begin, body, end, suffix);
  }

  // What follows a begin marker does not make one before it.
  lemma BeforeBegin(prefix: string, begin: string, rest: string, j: int)
    requires Index(prefix + begin, begin) == Some(|prefix|) && 0 <= j < |prefix|
    requires |begin| <= |rest| && rest[..|begin|] == begin
    ensures !OccursAt(prefix + rest, begin, j)
  {
    var tail := rest[|begin|..];
    assert prefix + rest == (prefix + begin) + tail;
    OccursInPrefix(prefix + begin, tail, begin, j);
  }

  lemma OnceAppended(text: string, begin: string, body: string, end: string)
    requires WellMarked(begin, body, end) && BeginsOnce(begin, body, end) && !Contains(text, begin)
    ensures ShowsOnce(Put(text, Marked(begin, body, end), begin, end), begin)
  {
    PutFresh(text, begin, body, end);
    OnceAfter(Prefix(text), text, begin, body, end);
  }

  lemma OnceAfter(l: string, text: string, begin: string, body: string, end: string)
    requires WellMarked(begin, body, end) && BeginsOnce(begin, body, end)
    requires !Contains(text, begin) && l == Prefix(text)
    ensures ShowsOnce(l + Marked(begin, body, end), begin)
  {
    var block := Marked(begin, body, end);
    FirstAfterPrefix(text, begin);
    assert block[..|begin|] == begin && block + "" == block;
    forall j | 0 <= j < |l|
      ensures !OccursAt(l + block, begin, j)
    {
      BeforeBegin(l, begin, block, j);
    }
    TooShort("", begin);
    OnceAround(l, begin, body, end, "");
  }

  lemma NotOnceDangling(text: string, begin: string, body: string, end: string)
    requires WellMarked(begin, body, end) && Dangling(text, begin, end)
    ensures !ShowsOnce(Put(text, Marked(begin, body, end), begin, end), begin)
  {
    var block, b := Marked(begin, body, end), Index(text, begin).value;
    DanglingStart(text, block, begin, end);
    MarkerInTrimmed(text, begin, b);
    assert block[0..|begin|] == begin;
    OccursInSuffix(Prefix(text), block, begin, |Prefix(text)|);
    TwiceIsNotOnce(Prefix(text) + block, begin, b, |Prefix(text)|);
  }

  lemma ShowsAtStart(begin: string, rest: string)
    ensures Index(begin + rest, begin) == Some(0)
  {
    assert (begin + rest)[0..|begin|] == begin;
    IndexIs(begin + rest, begin, 0);
  }

  lemma FindsFirst(begin: string, body: string, end: string, suffix: string)
    requires WellMarked(begin, body, end)
    ensures var block := Marked(begin, body, end);
      FindRange(block + suffix, begin, end) == Some(Range(0, |block|))
  {
    var block := Marked(begin, body, end);
    ShowsAtStart(begin, "");
    assert begin + "" == "" + begin;
    FindsBlock("", begin, body, end, suffix);
    assert "" + block + suffix == block + suffix;
  }

  lemma TwoStay(begin: string, body: string, end: string)
    requires WellMarked(begin, body, end)
    ensures var block := Marked(begin, body, end);
      var text := block + block;
      !Dangling(text, begin, end) && Put(text, block, begin, end) == text && !ShowsOnce(text, begin)
  {
    var block := Marked(begin, body, end);
    FindsFirst(begin, body, end, block);
    PutFirst(block, block, begin, end);
    BlockTwice(begin, body, end);
  }

  lemma PutFirst(block: string, suffix: string, begin: string, end: string)
    requires FindRange(block + suffix, begin, end) == Some(Range(0, |block|))
    ensures Put(block + suffix, block, begin, end) == block + suffix
  {
    PutAt(block + suffix, block, begin, end, Range(0, |block|));
    assert (block + suffix)[..0] + block == block && (block + suffix)[|block|..] == suffix;
  }

  lemma BlockTwice(begin: string, body: string, end: string)
    requires begin != ""
    ensures !ShowsOnce(Marked(begin, body, end) + Marked(begin, body, end), begin)
  {
    var block := Marked(begin, body, end);
    assert block == begin + (body + end + "\n");
    ShowsAtStart(begin, body + end + "\n");
    OccursInPrefix(block, block, begin, 0);
    OccursInSuffix(block, block, begin, |block|);
    TwiceIsNotOnce(block + block, begin, 0, |block|);
  }

  // A begin marker that does not show the end marker dangles when it stands alone.
  lemma AloneDangles(begin: string, end: string)
    requires end != "" && end[|end| - 1] !in begin
    ensures Dangling(begin, begin, end)
  {
    ShowsAtStart(begin, "");
    assert begin + "" == begin && begin[0..] == begin;
    TooShort("", end);
    AppendText("", begin, end);
    assert "" + begin == begin;
  }

  // ---- the zsh block -------------------------------------------------------------------------

  const PART_A := "  (managed by `"
  const PART_B := " install`; do not edit \U{E2}\U{80}\U{94} `"
  const PART_C := " uninstall` removes this)\neval \"$("
  const PART_D := " resume --init zsh)\"\n"

  lemma BeginChars()
    ensures BEGIN != "" && '\n' !in BEGIN && '<' !in BEGIN
  {
  }

  lemma EndChars()
    ensures END != "" && END[|END| - 1] == '<'
    ensures '`' !in END && '(' !in END && '\n' !in END
  {
  }

  lemma PartChars()
    ensures '<' !in PART_A && PART_A != "" && PART_A[|PART_A| - 1] == '`'
    ensures '<' !in PART_B && PART_B != "" && PART_B[|PART_B| - 1] == '`'
  {
  }

  lemma MorePartChars()
    ensures '<' !in PART_C && PART_C != "" && PART_C[|PART_C| - 1] == '('
    ensures '<' !in PART_D && PART_D != "" && PART_D[|PART_D| - 1] == '\n'
  {
  }

  lemma BodyParts(bin: string)
    ensures Body(bin) == PART_A + bin + PART_B + bin + PART_C + bin + PART_D
  {
  }

  // A copy of bin between fixed parts brings no end marker of its own.
  lemma AppendCopy(l: string, part: string, bin: string, marker: string)
    requires marker != "" && !Contains(l, marker) && !Contains(bin, marker)
    requires part != "" && marker[|marker| - 1] !in part && part[|part| - 1] !in marker
    ensures !Contains(l + part + bin, marker)
  {
    AppendText(l, part, marker);
    assert (l + part)[|l + part| - 1] == part[|part| - 1];
    AppendFree(l + part, bin, marker);
  }

  lemma ThreeCopies(l: string, a: string, b: string, c: string, d: string, bin: string, marker: string)
    requires marker != "" && !Contains(l, marker) && !Contains(bin, marker)
    requires a != "" && marker[|marker| - 1] !in a && a[|a| - 1] !in marker
    requires b != "" && marker[|marker| - 1] !in b && b[|b| - 1] !in marker
    requires c != "" && marker[|marker| - 1] !in c && c[|c| - 1] !in marker
    requires marker[|marker| - 1] !in d
    ensures !Contains(l + (a + bin + b + bin + c + bin + d), marker)
  {
    AppendCopy(l, a, bin, marker);
    AppendCopy(l + a + bin, b, bin, marker);
    AppendCopy(l + a + bin + b + bin, c, bin, marker);
    AppendText(l + a + bin + b + bin + c + bin, d, marker);
    assert l + (a + bin + b + bin + c + bin + d) == l + a + bin + b + bin + c + bin + d;
  }

  // The zsh block is well marked for every binary path that does not itself show the end marker.
  lemma BlockWellMarked(bin: string)
    requires !Contains(bin, END)
    ensures WellMarked(BEGIN, Body(bin), END)
  {
    BeginChars();
    EndChars();
    PartChars();
    MorePartChars();
    BodyParts(bin);
    AppendText("", BEGIN, END);
    assert "" + BEGIN == BEGIN;
    ThreeCopies(BEGIN, PART_A, PART_B, PART_C, PART_D, bin, END);
    assert Body(bin)[|Body(bin)| - 1] == PART_D[|PART_D| - 1];
  }

  // Installing and uninstalling the block restores the text up to its trailing newlines: exactly
  // when it has one of them or is empty, and up to one newline more or less when it has at most two,
  // or at most one if it has nothing else.
  lemma StripUndoesApply(text: string, bin: string)
    requires !Contains(text, BEGIN) && !Contains(bin, END)
    ensures Strip(Apply(text, bin)) == Normalized(text)
    ensures Strip(Apply(text, bin)) == text <==>
      TrailingNewlines(text) == if TrimRightNewlines(text) == "" then 0 else 1
    ensures UpToNewline(Strip(Apply(text, bin)), text) <==>
      TrailingNewlines(text) <= if TrimRightNewlines(text) == "" then 1 else 2
  {
    BlockWellMarked(bin);
    TakeUndoesPut(text, BEGIN, Body(bin), END);
    NormalizedFacts(text);
  }

  function TrailingNewlines(text: string): nat {
    |text| - |TrimRightNewlines(text)|
  }

  predicate UpToNewline(a: string, b: string) {
    a == b || a + "\n" == b || b + "\n" == a
  }

  lemma NormalizedFacts(text: string)
    ensures Normalized(text) == text <==> TrailingNewlines(text) == if TrimRightNewlines(text) == "" then 0 else 1
    ensures UpToNewline(Normalized(text), text) <==>
      TrailingNewlines(text) <= if TrimRightNewlines(text) == "" then 1 else 2
  {
    var trimmed, n := TrimRightNewlines(text), TrailingNewlines(text);
    assert trimmed == text[..|trimmed|];
    assert text == trimmed + text[|trimmed|..];
    if n == 1 {
      assert text[|trimmed|..] == "\n";
    } else if n == 2 {
      assert text[|trimmed|..] == "\n" + "\n";
      assert text == (trimmed + "\n") + "\n";
    } else if n > 2 {
      assert |Normalized(text)| + 1 < |text|;
    }
  }

  lemma ShortText(text: string)
    requires |text| <= 4
    ensures !Contains(text, BEGIN)
  {
    TooShort(text, BEGIN);
  }

  lemma ThreeNewlines(text: string, c: char)
    requires text == [c, '\n', '\n', '\n'] && c != '\n'
    ensures Normalized(text) == [c, '\n'] && !UpToNewline([c, '\n'], text)
  {
    var trimmed := TrimRightNewlines(text);
    assert trimmed == text[..|trimmed|] && text[0] == c;
    assert trimmed != "" && trimmed[|trimmed| - 1] == text[|trimmed| - 1] != '\n';
    assert trimmed == [c];
  }

  // Of three trailing newlines only one comes back.
  lemma NewlinesLost(text: string, c: char, bin: string)
    requires text == [c, '\n', '\n', '\n'] && c != '\n' && !Contains(bin, END)
    ensures Strip(Apply(text, bin)) == [c, '\n'] && !UpToNewline(Strip(Apply(text, bin)), text)
  {
    ShortText(text);
    StripUndoesApply(text, bin);
    ThreeNewlines(text, c);
  }

  // text is kept, followed by newlines only; or newlines only, followed by kept.
  predicate TrimmedRight(text: string, kept: string) {
    && kept <= text && (kept != "" ==> kept[|kept| - 1] != '\n')
    && forall i | |kept| <= i < |text| :: text[i] == '\n'
  }

  predicate TrimmedLeft(text: string, kept: string) {
    && |kept| <= |text| && kept == text[|text| - |kept|..] && (kept != "" ==> kept[0] != '\n')
    && forall i | 0 <= i < |text| - |kept| :: text[i] == '\n'
  }

  // a and b with the newlines between them made one, or none without anything before.
  ghost predicate JoinsTrimmed(a: string, b: string, out: string) {
    exists before, after ::
      && TrimmedRight(a, before) && TrimmedLeft(b, after)
      && out == (if before == "" then "" else before + "\n") + after
  }

  lemma TrimsRight(a: string)
    ensures TrimmedRight(a, TrimRightNewlines(a))
  {
  }

  lemma TrimsLeft(b: string)
    ensures TrimmedLeft(b, TrimLeftNewlines(b))
  {
  }

  lemma TrimsJoin(a: string, b: string)
    ensures
      var before, after := TrimRightNewlines(a), TrimLeftNewlines(b);
      JoinsTrimmed(a, b, (if before != "" then before + "\n" else before) + after)
  {
    TrimsRight(a);
    TrimsLeft(b);
    JoinWith(a, b, TrimRightNewlines(a), TrimLeftNewlines(b));
  }

  lemma JoinWith(a: string, b: string, before: string, after: string)
    requires TrimmedRight(a, before) && TrimmedLeft(b, after)
    ensures JoinsTrimmed(a, b, (if before != "" then before + "\n" else before) + after)
  {
  }

  lemma TakeKeeps(text: string, begin: string, end: string, r: Range)
    requires FindRange(text, begin, end) == Some(r)
    ensures JoinsTrimmed(text[..r.start], text[r.end..], Take(text, begin, end))
  {
    TrimsJoin(text[..r.start], text[r.end..]);
  }

  // What an uninstall leaves of a text with a block: the text before it, its trailing newlines made
  // one, and the text after it without its leading newlines.
  lemma StripKeeps(text: string)
    requires FindBlock(text).Some?
    ensures var r := FindBlock(text).value;
      JoinsTrimmed(text[..r.start], text[r.end..], Strip(text))
  {
    TakeKeeps(text, BEGIN, END, FindBlock(text).value);
  }

  // Upgrading a block in place does not change what an uninstall leaves.
  lemma UpgradeThenStrip(text: string, bin: string)
    requires FindBlock(text).Some? && !Contains(bin, END)
    ensures Strip(Apply(text, bin)) == Strip(text)
  {
    BlockWellMarked(bin);
    TakeIgnoresReplace(text, BEGIN, Body(bin), END);
  }

  // Installing is idempotent exactly when there is no dangling begin marker: with one, a second
  // install swallows the text between it and the block.
  lemma ApplyIdempotentIff(text: string, bin: string)
    requires !Contains(bin, END)
    ensures Apply(Apply(text, bin), bin) == Apply(text, bin) <==> !Dangling(text, BEGIN, END)
  {
    BlockWellMarked(bin);
    PutTwiceIff(text, BEGIN, Body(bin), END);
  }

  lemma TooShort(s: string, marker: string)
    requires |s| < |marker|
    ensures !Contains(s, marker)
  {
  }

  lemma BeginsOnceParts(
    begin: string, a: string, b: string, c: string, d: string, bin: string, end: string)
    requires begin != "" && begin[|begin| - 1] !in end && begin[|begin| - 1] != '\n' && !Contains(bin, begin)
    requires a != "" && begin[|begin| - 1] !in a && a[|a| - 1] !in begin
    requires b != "" && begin[|begin| - 1] !in b && b[|b| - 1] !in begin
    requires c != "" && begin[|begin| - 1] !in c && c[|c| - 1] !in begin
    requires begin[|begin| - 1] !in d
    ensures BeginsOnce(begin, a + bin + b + bin + c + bin + d, end)
  {
    var body, tail := a + bin + b + bin + c + bin + d, begin[1..];
    TooShort(tail, begin);
    ThreeCopies(tail, a, b, c, d, bin, begin);
    AppendText(tail + body, end + "\n", begin);
    assert Marked(begin, body, end)[1..] == tail + body + (end + "\n");
  }

  // The block shows the begin marker at its start only, for a binary path without it.
  lemma BlockBeginsOnce(bin: string)
    requires !Contains(bin, BEGIN)
    ensures BeginsOnce(BEGIN, Body(bin), END)
  {
    BeginChars();
    BeginEnd();
    PartChars();
    PartTails();
    MorePartChars();
    BodyParts(bin);
    BeginsOnceParts(BEGIN, PART_A, PART_B, PART_C, PART_D, bin, END);
  }

  lemma BeginEnd()
    ensures BEGIN != "" && BEGIN[|BEGIN| - 1] == '>' && '`' !in BEGIN && '(' !in BEGIN && '>' !in END
  {
  }

  lemma PartTails()
    ensures '>' !in PART_A && '>' !in PART_B && '>' !in PART_C && '>' !in PART_D
  {
  }

  // The install's promise that the block ends up present exactly once holds if and only if the
  // text shows no begin marker, or a block is found in it and no begin marker after that block.
  lemma ApplyShowsOnceIff(text: string, bin: string)
    requires !Contains(bin, BEGIN) && !Contains(bin, END)
    ensures ShowsOnce(Apply(text, bin), BEGIN) <==>
      !Contains(text, BEGIN) || (FindBlock(text).Some? && !Contains(text[FindBlock(text).value.end..], BEGIN))
  {
    BlockWellMarked(bin);
    BlockBeginsOnce(bin);
    PutShowsOnceIff(text, BEGIN, Body(bin), END);
  }

  // Two blocks stay two: an install finds nothing to change.
  lemma TwoBlocksStay(bin: string)
    requires !Contains(bin, END)
    ensures var text := Block(bin) + Block(bin);
      !Dangling(text, BEGIN, END) && Apply(text, bin) == text && !ShowsOnce(text, BEGIN)
  {
    BlockWellMarked(bin);
    TwoStay(BEGIN, Body(bin), END);
  }

  // A begin marker alone: the first install adds a second one, and the next install changes the
  // text again.
  lemma DanglingMarker(bin: string)
    requires !Contains(bin, END)
    ensures Dangling(BEGIN, BEGIN, END) && !ShowsOnce(Apply(BEGIN, bin), BEGIN)
    ensures Apply(Apply(BEGIN, bin), bin) != Apply(BEGIN, bin)
  {
    BlockWellMarked(bin);
    BeginChars();
    EndChars();
    AloneDangles(BEGIN, END);
    NotOnceDangling(BEGIN, BEGIN, Body(bin), END);
    ApplyIdempotentIff(BEGIN, bin);
  }
}
