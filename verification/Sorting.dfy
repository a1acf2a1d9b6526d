// Sorting as the standard library promises it: an unstable sort gives some sorted permutation, a
// stable one also keeps equal keys in order.
module Sorting {
  ghost predicate TotalPreorder<T(!new)>(le: (T, T) -> bool) {
    && (forall x, y :: le(x, y) || le(y, x))
    && (forall x, y, z :: le(x, y) && le(y, z) ==> le(x, z))
  }

  ghost predicate SortedBy<T>(s: seq<T>, le: (T, T) -> bool) {
    forall i, j | 0 <= i < j < |s| :: le(s[i], s[j])
  }

  method InsertSorted<T(!new)>(s: seq<T>, x: T, le: (T, T) -> bool) returns (out: seq<T>)
    requires TotalPreorder(le) && SortedBy(s, le)
    ensures SortedBy(out, le) && multiset(out) == multiset(s) + multiset{x}
  {
    var i := 0;
    while i < |s| && le(s[i], x)
      invariant 0 <= i <= |s|
      invariant forall j | 0 <= j < i :: le(s[j], x)
    {
      i := i + 1;
    }
    assert forall j | i <= j < |s| :: le(x, s[j]) by {
      if i < |s| {
        assert le(x, s[i]);
      }
    }
    out := s[..i] + [x] + s[i..];
    InsertedAt(s, i, x, le);
  }

  lemma InsertedAt<T>(s: seq<T>, i: nat, x: T, le: (T, T) -> bool)
    requires i <= |s| && SortedBy(s, le)
    requires (forall j | 0 <= j < i :: le(s[j], x)) && forall j | i <= j < |s| :: le(x, s[j])
    ensures SortedBy(s[..i] + [x] + s[i..], le)
    ensures multiset(s[..i] + [x] + s[i..]) == multiset(s) + multiset{x}
  {
    var out := s[..i] + [x] + s[i..];
    assert s == s[..i] + s[i..];
    forall j, k | 0 <= j < k < |out|
      ensures le(out[j], out[k])
    {
      assert j < i ==> out[j] == s[j];
      assert k > i ==> out[k] == s[k - 1];
    }
  }

  // Some sorted permutation; nothing is promised about the order of equivalent elements.
  method Sort<T(!new)>(s: seq<T>, le: (T, T) -> bool) returns (out: seq<T>)
    requires TotalPreorder(le)
    ensures SortedBy(out, le) && multiset(out) == multiset(s)
  {
    out := [];
    for i := 0 to |s|
      invariant SortedBy(out, le) && multiset(out) == multiset(s[..i])
    {
      assert s[..i + 1] == s[..i] + [s[i]];
      out := InsertSorted(out, s[i], le);
    }
    assert s[..|s|] == s;
  }

  lemma SameMembers<T>(a: seq<T>, b: seq<T>)
    requires multiset(a) == multiset(b)
    ensures |a| == |b|
    ensures forall x :: x in a <==> x in b
  {
    assert |multiset(a)| == |a| && |multiset(b)| == |b|;
    forall x
      ensures x in a <==> x in b
    {
      assert x in a <==> x in multiset(a);
      assert x in b <==> x in multiset(b);
    }
  }

  // The last element of a permutation, found in the other list.
  lemma TakeOut<T>(a: seq<T>, b: seq<T>) returns (l: seq<T>, x: T, r: seq<T>)
    requires multiset(a) == multiset(b) && a != []
    ensures x == a[|a| - 1] && b == l + [x] + r
    ensures multiset(a[..|a| - 1]) == multiset(l + r)
  {
    x := a[|a| - 1];
    assert a == a[..|a| - 1] + [x];
    assert x in multiset(a);
    var i :| 0 <= i < |b| && b[i] == x;
    l, r := b[..i], b[i + 1..];
    assert b == l + [x] + r;
    assert multiset(a[..|a| - 1]) == multiset(a) - multiset{x};
    assert multiset(l + r) == multiset(b) - multiset{x};
  }

  lemma TailMultiset<T>(s: seq<T>)
    requires s != []
    ensures multiset(s[1..]) == multiset(s) - multiset{s[0]}
  {
    assert s == [s[0]] + s[1..];
  }

  lemma HeadIsLeast<T>(s: seq<T>, le: (T, T) -> bool, x: T)
    requires SortedBy(s, le) && x in s
    ensures s[0] == x || le(s[0], x)
  {
  }

  // When equivalent elements are equal, there is only one sorted permutation.
  lemma {:induction false} SortedUnique<T(!new)>(a: seq<T>, b: seq<T>, le: (T, T) -> bool)
    requires SortedBy(a, le) && SortedBy(b, le) && multiset(a) == multiset(b)
    requires forall x, y | x in a && y in a && le(x, y) && le(y, x) :: x == y
    ensures a == b
  {
    SameMembers(a, b);
    if a != [] {
      HeadIsLeast(a, le, b[0]);
      HeadIsLeast(b, le, a[0]);
      assert a[0] == b[0];
      TailMultiset(a);
      TailMultiset(b);
      forall x | x in a[1..]
        ensures x in a
      {
      }
      SortedUnique(a[1..], b[1..], le);
      assert a == [a[0]] + a[1..] && b == [b[0]] + b[1..];
    }
  }

  // ---- stable sort by an integer key -------------------------------------------

  // The elements of key k, in order.
  function Group<T>(s: seq<T>, key: T -> int, k: int): seq<T> {
    if s == [] then []
    else Group(s[..|s| - 1], key, k) + if key(s[|s| - 1]) == k then [s[|s| - 1]] else []
  }

  ghost predicate SortedByKey<T>(s: seq<T>, key: T -> int) {
    forall i, j | 0 <= i < j < |s| :: key(s[i]) <= key(s[j])
  }

  ghost predicate IsStableSort<T>(s: seq<T>, out: seq<T>, key: T -> int) {
    SortedByKey(out, key) && forall k :: Group(out, key, k) == Group(s, key, k)
  }

  // Insertion after every element of the same or a smaller key.
  function Insert<T>(s: seq<T>, x: T, key: T -> int): (out: seq<T>)
    ensures |out| == |s| + 1
  {
    if s == [] || key(s[|s| - 1]) <= key(x) then s + [x]
    else Insert(s[..|s| - 1], x, key) + [s[|s| - 1]]
  }

  function StableSort<T>(s: seq<T>, key: T -> int): (out: seq<T>)
    ensures |out| == |s|
  {
    if s == [] then [] else Insert(StableSort(s[..|s| - 1], key), s[|s| - 1], key)
  }

  lemma GroupSnoc<T>(s: seq<T>, x: T, key: T -> int, k: int)
    ensures Group(s + [x], key, k) == Group(s, key, k) + if key(x) == k then [x] else []
  {
    assert (s + [x])[..|s|] == s;
  }

  lemma {:induction false} InsertMultiset<T>(s: seq<T>, x: T, key: T -> int)
    ensures multiset(Insert(s, x, key)) == multiset(s) + multiset{x}
  {
    if s != [] && key(s[|s| - 1]) > key(x) {
      InsertMultiset(s[..|s| - 1], x, key);
      assert s == s[..|s| - 1] + [s[|s| - 1]];
    }
  }

  lemma {:induction false} InsertKeepsOrder<T>(s: seq<T>, x: T, key: T -> int)
    requires SortedByKey(s, key)
    ensures SortedByKey(Insert(s, x, key), key)
  {
    if s != [] && key(s[|s| - 1]) > key(x) {
      var init, last := s[..|s| - 1], s[|s| - 1];
      InsertKeepsOrder(init, x, key);
      InsertMultiset(init, x, key);
      var out := Insert(init, x, key);
      forall i | 0 <= i < |out|
        ensures key(out[i]) <= key(last)
      {
        assert out[i] in multiset(out);
      }
      SortedSnoc(out, last, key);
    } else {
      SortedSnoc(s, x, key);
    }
  }

  lemma SortedSnoc<T>(s: seq<T>, x: T, key: T -> int)
    requires SortedByKey(s, key) && forall i | 0 <= i < |s| :: key(s[i]) <= key(x)
    ensures SortedByKey(s + [x], key)
  {
  }

  lemma {:induction false} InsertGroups<T>(s: seq<T>, x: T, key: T -> int, k: int)
    ensures Group(Insert(s, x, key), key, k) == Group(s, key, k) + if key(x) == k then [x] else []
  {
    if s == [] || key(s[|s| - 1]) <= key(x) {
      GroupSnoc(s, x, key, k);
    } else {
      var init, last := s[..|s| - 1], s[|s| - 1];
      InsertGroups(init, x, key, k);
      GroupSnoc(Insert(init, x, key), last, key, k);
    }
  }

  lemma {:induction false} StableSortSorts<T>(s: seq<T>, key: T -> int)
    ensures IsStableSort(s, StableSort(s, key), key)
    ensures multiset(StableSort(s, key)) == multiset(s)
  {
    if s != [] {
      var init, last := s[..|s| - 1], s[|s| - 1];
      StableSortSorts(init, key);
      assert s == init + [last];
      InsertMultiset(StableSort(init, key), last, key);
      InsertKeepsOrder(StableSort(init, key), last, key);
      forall k
        ensures Group(StableSort(s, key), key, k) == Group(s, key, k)
      {
        InsertGroups(StableSort(init, key), last, key, k);
      }
    }
  }

  lemma {:induction false} GroupMember<T>(s: seq<T>, key: T -> int, k: int)
    ensures forall x | x in Group(s, key, k) :: x in s && key(x) == k
    ensures forall x | x in s && key(x) == k :: x in Group(s, key, k)
  {
    if s != [] {
      GroupMember(s[..|s| - 1], key, k);
      assert s == s[..|s| - 1] + [s[|s| - 1]];
    }
  }

  lemma LastsAgree<T>(a: seq<T>, b: seq<T>, key: T -> int)
    requires SortedByKey(a, key) && SortedByKey(b, key) && a != [] && b != []
    requires forall k :: Group(a, key, k) == Group(b, key, k)
    ensures a[|a| - 1] == b[|b| - 1]
  {
    LastNotLarger(a, b, key);
    LastNotLarger(b, a, key);
    LastOfGroup(a, key);
    LastOfGroup(b, key);
  }

  lemma LastOfGroup<T>(a: seq<T>, key: T -> int)
    requires a != []
    ensures var g := Group(a, key, key(a[|a| - 1])); g != [] && g[|g| - 1] == a[|a| - 1]
  {
  }

  lemma LastNotLarger<T>(a: seq<T>, b: seq<T>, key: T -> int)
    requires SortedByKey(b, key) && a != [] && b != []
    requires Group(a, key, key(a[|a| - 1])) == Group(b, key, key(a[|a| - 1]))
    ensures key(a[|a| - 1]) <= key(b[|b| - 1])
  {
    var x := a[|a| - 1];
    GroupMember(a, key, key(x));
    GroupMember(b, key, key(x));
    LastIsLargest(b, key, x);
  }

  lemma NoGroups<T>(a: seq<T>, key: T -> int)
    requires forall k :: Group(a, key, k) == []
    ensures a == []
  {
    if a != [] {
      GroupMember(a, key, key(a[0]));
    }
  }

  // The stable sort is the only one: two lists with the same groups sort to the same list.
  lemma {:induction false} StableSortUnique<T>(a: seq<T>, b: seq<T>, key: T -> int)
    requires SortedByKey(a, key) && SortedByKey(b, key)
    requires forall k :: Group(a, key, k) == Group(b, key, k)
    ensures a == b
    decreases |a|
  {
    if a == [] {
      NoGroups(b, key);
    } else if b == [] {
      NoGroups(a, key);
    } else {
      LastsAgree(a, b, key);
      var a', b', x := a[..|a| - 1], b[..|b| - 1], a[|a| - 1];
      forall k
        ensures Group(a', key, k) == Group(b', key, k)
      {
        assert Group(a, key, k) == Group(b, key, k);
        CancelTail(Group(a', key, k), Group(b', key, k), if key(x) == k then [x] else []);
      }
      StableSortUnique(a', b', key);
      assert a == a' + [x] && b == b' + [x];
    }
  }

  // Sorted permutations may differ among equal keys only.
  lemma {:induction false} SortedKeysAgree<T>(a: seq<T>, b: seq<T>, key: T -> int)
    requires SortedByKey(a, key) && SortedByKey(b, key) && multiset(a) == multiset(b)
    ensures |a| == |b| && forall i | 0 <= i < |a| :: key(a[i]) == key(b[i])
    decreases |a|
  {
    SameMembers(a, b);
    if a != [] {
      var l, x, r := TakeOut(a, b);
      var init, rest := a[..|a| - 1], l + r;
      RestSorted(l, x, r, key);
      SortedKeysAgree(init, rest, key);
      assert b[|b| - 1] in a;
      forall i | 0 <= i < |a|
        ensures key(a[i]) == key(b[i])
      {
        if i < |l| {
          assert rest[i] == b[i];
        } else {
          assert b[|l|] == x;
          assert i < |init| ==> rest[i] == b[i + 1];
        }
      }
    }
  }

  lemma RestSorted<T>(l: seq<T>, x: T, r: seq<T>, key: T -> int)
    requires SortedByKey(l + [x] + r, key)
    ensures SortedByKey(l + r, key)
  {
    var s, t := l + [x] + r, l + r;
    forall i, j | 0 <= i < j < |t|
      ensures key(t[i]) <= key(t[j])
    {
      assert t[i] == s[if i < |l| then i else i + 1];
      assert t[j] == s[if j < |l| then j else j + 1];
    }
  }

  // Where the keys rise strictly, the two sides of a cut depend on the elements alone.
  lemma CutMultiset<T>(s: seq<T>, key: T -> int, n: nat, x: T)
    requires SortedByKey(s, key) && 0 < n < |s| && key(s[n - 1]) < key(s[n])
    ensures multiset(s[..n])[x] == if key(x) <= key(s[n - 1]) then multiset(s)[x] else 0
    ensures multiset(s[n..])[x] == if key(x) <= key(s[n - 1]) then 0 else multiset(s)[x]
  {
    assert s == s[..n] + s[n..];
    if key(x) <= key(s[n - 1]) {
      assert x !in s[n..];
    } else {
      assert x !in s[..n];
    }
  }

  lemma SameCut<T>(a: seq<T>, b: seq<T>, key: T -> int, n: nat)
    requires SortedByKey(a, key) && SortedByKey(b, key) && multiset(a) == multiset(b)
    requires 0 < n < |a| && key(a[n - 1]) < key(a[n])
    ensures |a| == |b| && multiset(a[..n]) == multiset(b[..n]) && multiset(a[n..]) == multiset(b[n..])
  {
    SortedKeysAgree(a, b, key);
    forall x
      ensures multiset(a[..n])[x] == multiset(b[..n])[x] && multiset(a[n..])[x] == multiset(b[n..])[x]
    {
      SameCutAt(a, b, key, n, x);
    }
  }

  lemma SameCutAt<T>(a: seq<T>, b: seq<T>, key: T -> int, n: nat, x: T)
    requires SortedByKey(a, key) && SortedByKey(b, key) && multiset(a) == multiset(b)
    requires 0 < n < |a| == |b| && key(a[n - 1]) == key(b[n - 1]) < key(a[n]) == key(b[n])
    ensures multiset(a[..n])[x] == multiset(b[..n])[x] && multiset(a[n..])[x] == multiset(b[n..])[x]
  {
    CutMultiset(a, key, n, x);
    CutMultiset(b, key, n, x);
  }

  lemma SortedIsItsSort<T>(s: seq<T>, key: T -> int)
    requires SortedByKey(s, key)
    ensures StableSort(s, key) == s
  {
    StableSortSorts(s, key);
    StableSortUnique(StableSort(s, key), s, key);
  }

  lemma SameKeysSorted<T>(s: seq<T>, t: seq<T>, key: T -> int)
    requires SortedByKey(s, key) && |s| == |t| && forall i | 0 <= i < |s| :: key(t[i]) == key(s[i])
    ensures SortedByKey(t, key)
  {
  }

  // Exchanging two neighbours of equal key.
  lemma ExchangeTied<T>(l: seq<T>, x: T, y: T, r: seq<T>, key: T -> int)
    requires SortedByKey(l + [x] + [y] + r, key) && key(x) == key(y)
    ensures SortedByKey(l + [y] + [x] + r, key)
    ensures multiset(l + [y] + [x] + r) == multiset(l + [x] + [y] + r)
  {
    var s, t := l + [x] + [y] + r, l + [y] + [x] + r;
    forall i | 0 <= i < |s|
      ensures key(t[i]) == key(s[i])
    {
      if i < |l| {
        assert t[i] == s[i] == l[i];
      }
    }
    SameKeysSorted(s, t, key);
  }

  lemma LastIsLargest<T>(s: seq<T>, key: T -> int, x: T)
    requires SortedByKey(s, key) && x in s
    ensures key(x) <= key(s[|s| - 1])
  {
  }

  lemma CancelTail<T>(a: seq<T>, b: seq<T>, tail: seq<T>)
    requires a + tail == b + tail
    ensures a == b
  {
    assert |a| == |b|;
    assert a == (a + tail)[..|a|] && b == (b + tail)[..|b|];
  }
}
