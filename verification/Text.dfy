// String operations of the standard library: ordering, search and trimming. A Go string is its
// bytes, so each char stands for one byte.
module Text {
  import opened Wrappers

  // Lexicographic order of strings.
  predicate StrLe(a: string, b: string) {
    a == "" || (b != "" && (a[0] < b[0] || (a[0] == b[0] && StrLe(a[1..], b[1..]))))
  }

  lemma {:induction false} StrLeTotal(a: string, b: string)
    ensures StrLe(a, b) || StrLe(b, a)
    ensures StrLe(a, b) && StrLe(b, a) ==> a == b
  {
    if a != "" && b != "" {
      StrLeTotal(a[1..], b[1..]);
      assert a == [a[0]] + a[1..] && b == [b[0]] + b[1..];
    }
  }

  lemma {:induction false} StrLeTransitive(a: string, b: string, c: string)
    requires StrLe(a, b) && StrLe(b, c)
    ensures StrLe(a, c)
  {
    if a != "" {
      if a[0] == b[0] == c[0] {
        StrLeTransitive(a[1..], b[1..], c[1..]);
      }
    }
  }

  // sub occurs in s at position i.
  predicate OccursAt(s: string, sub: string, i: int) {
    0 <= i <= |s| - |sub| && s[i..i + |sub|] == sub
  }

  predicate Contains(s: string, sub: string) {
    exists i | 0 <= i <= |s| - |sub| :: OccursAt(s, sub, i)
  }

  predicate FirstAt(s: string, sub: string, i: int) {
    OccursAt(s, sub, i) && forall j | 0 <= j < i :: !OccursAt(s, sub, j)
  }

  lemma {:induction false} FirstExists(s: string, sub: string, i: int)
    requires OccursAt(s, sub, i)
    ensures exists k :: 0 <= k <= i && FirstAt(s, sub, k)
    decreases i
  {
    if j :| 0 <= j < i && OccursAt(s, sub, j) {
      FirstExists(s, sub, j);
    } else {
      assert FirstAt(s, sub, i);
    }
  }

  // The first occurrence of sub in s.
  function Index(s: string, sub: string): (r: Option<nat>)
    ensures r.Some? ==> FirstAt(s, sub, r.value)
    ensures r.None? <==> !Contains(s, sub)
  {
    if !Contains(s, sub) then None
    else
      ghost var at :| 0 <= at <= |s| - |sub| && OccursAt(s, sub, at);
      FirstExists(s, sub, at);
      var i :| 0 <= i <= |s| - |sub| && FirstAt(s, sub, i);
      Some(i)
  }

  lemma IndexIs(s: string, sub: string, i: nat)
    requires OccursAt(s, sub, i) && forall j | 0 <= j < i :: !OccursAt(s, sub, j)
    ensures Index(s, sub) == Some(i)
  {
    assert Contains(s, sub);
    assert !OccursAt(s, sub, Index(s, sub).value) || Index(s, sub).value >= i;
  }

  function TrimRightNewlines(s: string): (r: string)
    ensures r <= s && (r != "" ==> r[|r| - 1] != '\n')
    ensures forall i | |r| <= i < |s| :: s[i] == '\n'
  {
    if s != "" && s[|s| - 1] == '\n' then TrimRightNewlines(s[..|s| - 1]) else s
  }

  function TrimLeftNewlines(s: string): (r: string)
    ensures r == "" || r[0] != '\n'
    ensures |r| <= |s| && r == s[|s| - |r|..]
    ensures forall i | 0 <= i < |s| - |r| :: s[i] == '\n'
  {
    if s != "" && s[0] == '\n' then TrimLeftNewlines(s[1..]) else s
  }
}
