// Facts about finite sets, maps and sequences used throughout.
module Collections {
  lemma Pick<T>(s: set<T>) returns (x: T)
    requires s != {}
    ensures x in s
  {
    x :| x in s;
  }

  lemma SubsetSize<T>(a: set<T>, b: set<T>)
    requires a <= b
    ensures |a| <= |b|
    ensures |a| == |b| ==> a == b
  {
    assert b == a + (b - a);
  }

  // An enumeration of a finite set: each member once, in any order. It stands for the
  // unspecified iteration order of a Go map.
  ghost predicate Enumerates<T>(order: seq<T>, s: set<T>) {
    && (forall x | x in order :: x in s)
    && (forall x | x in s :: x in order)
    && NoDuplicates(order)
  }

  ghost predicate NoDuplicates<T>(order: seq<T>) {
    forall i, j | 0 <= i < j < |order| :: order[i] != order[j]
  }

  lemma SnocEnumerates<T>(order: seq<T>, s: set<T>, x: T)
    requires Enumerates(order, s) && x !in s
    ensures Enumerates(order + [x], s + {x})
  {
  }

  // One step of an enumeration that takes the elements of a set one by one.
  lemma TakeNext<T>(order: seq<T>, all: set<T>, todo: set<T>, x: T)
    requires todo <= all && x in todo && Enumerates(order, all - todo)
    ensures Enumerates(order + [x], all - (todo - {x}))
  {
    SnocEnumerates(order, all - todo, x);
    assert all - (todo - {x}) == (all - todo) + {x};
  }

  lemma {:induction false} OnceInMultiset<T>(s: seq<T>, x: T)
    requires NoDuplicates(s)
    ensures multiset(s)[x] <= 1
  {
    if s != [] {
      var init, last := s[..|s| - 1], s[|s| - 1];
      assert s == init + [last];
      OnceInMultiset(init, x);
      assert last !in init;
    }
  }

  lemma TwiceInMultiset<T>(s: seq<T>, i: nat, j: nat)
    requires i < j < |s| && s[i] == s[j]
    ensures multiset(s)[s[i]] >= 2
  {
    assert s == s[..j] + [s[j]] + s[j + 1..];
    assert s[i] in s[..j];
  }

  lemma EnumeratesPermuted<T>(a: seq<T>, b: seq<T>, s: set<T>)
    requires Enumerates(a, s) && multiset(a) == multiset(b)
    ensures Enumerates(b, s)
  {
    assert forall x :: x in a <==> x in multiset(a);
    assert forall x :: x in b <==> x in multiset(b);
    forall i, j | 0 <= i < j < |b|
      ensures b[i] != b[j]
    {
      OnceInMultiset(a, b[i]);
      if b[i] == b[j] {
        TwiceInMultiset(b, i, j);
      }
    }
  }

  lemma HeadEnumerated<T>(order: seq<T>, s: set<T>)
    requires Enumerates(order, s) && order != []
    ensures order[0] in s
  {
  }

  lemma OnlyEmptyEnumerates<T>(order: seq<T>, s: set<T>)
    requires Enumerates(order, s) && s == {}
    ensures order == []
  {
    if order != [] {
      HeadEnumerated(order, s);
    }
  }

  // ---- the last position of a list at which something holds --------------------------

  ghost predicate LastWhere<T>(s: seq<T>, p: T -> bool, i: int) {
    0 <= i < |s| && p(s[i]) && forall j | i < j < |s| :: !p(s[j])
  }

  lemma LastWhereSnoc<T>(s: seq<T>, x: T, p: T -> bool, i: int)
    ensures LastWhere(s + [x], p, i) <==> if p(x) then i == |s| else LastWhere(s, p, i)
  {
    var all := s + [x];
    assert all[|s|] == x;
    assert forall j | 0 <= j < |s| :: all[j] == s[j];
  }

  // The last element at which p holds, if there is one, meets q.
  ghost predicate LastMeets<T>(s: seq<T>, p: T -> bool, q: T -> bool) {
    exists i :: LastWhere(s, p, i) && q(s[i])
  }

  lemma LastMeetsSnoc<T>(s: seq<T>, x: T, p: T -> bool, q: T -> bool)
    ensures LastMeets(s + [x], p, q) <==> if p(x) then q(x) else LastMeets(s, p, q)
  {
    var all := s + [x];
    forall i
      ensures LastWhere(all, p, i) <==> if p(x) then i == |s| else LastWhere(s, p, i)
    {
      LastWhereSnoc(s, x, p, i);
    }
    assert all[|s|] == x && forall i | 0 <= i < |s| :: all[i] == s[i];
    if p(x) && q(x) {
      assert LastWhere(all, p, |s|);
    }
  }

  // ---- concatenation of a list of lists ---------------------------------------------

  function FlatMap<S, T>(xs: seq<S>, f: S -> seq<T>): seq<T> {
    if xs == [] then [] else FlatMap(xs[..|xs| - 1], f) + f(xs[|xs| - 1])
  }

  lemma FlatMapSnoc<S, T>(xs: seq<S>, x: S, f: S -> seq<T>)
    ensures FlatMap(xs + [x], f) == FlatMap(xs, f) + f(x)
  {
    assert (xs + [x])[..|xs|] == xs;
  }

  lemma {:induction false} FlatMapMembers<S, T(!new)>(xs: seq<S>, f: S -> seq<T>)
    ensures forall y :: y in FlatMap(xs, f) <==> exists x :: x in xs && y in f(x)
  {
    if xs != [] {
      var init, last := xs[..|xs| - 1], xs[|xs| - 1];
      FlatMapMembers(init, f);
      assert xs == init + [last];
      forall y
        ensures y in FlatMap(xs, f) <==> exists x :: x in xs && y in f(x)
      {
        if y in f(last) {
          assert last in xs;
        }
        if y in FlatMap(init, f) {
          var x :| x in init && y in f(x);
          assert x in xs;
        }
      }
    }
  }

  predicate EachGives<S, T(==)>(xs: seq<S>, ys: seq<T>, f: S -> seq<T>, n: nat)
    requires n <= |xs| == |ys|
  {
    forall i | 0 <= i < n :: f(xs[i]) == [ys[i]]
  }

  // A map to at most one value each gives a list of the same length exactly value by value.
  lemma {:induction false} FlatMapEach<S, T>(xs: seq<S>, ys: seq<T>, f: S -> seq<T>, n: nat)
    requires n <= |xs| == |ys| && forall x :: |f(x)| <= 1
    ensures |FlatMap(xs[..n], f)| <= n
    ensures FlatMap(xs[..n], f) == ys[..n] <==> EachGives(xs, ys, f, n)
  {
    if n > 0 {
      FlatMapEach(xs, ys, f, n - 1);
      assert xs[..n][..n - 1] == xs[..n - 1] && ys[..n] == ys[..n - 1] + [ys[n - 1]];
      SameAppend(FlatMap(xs[..n - 1], f), f(xs[n - 1]), ys[..n - 1], ys[n - 1]);
      assert EachGives(xs, ys, f, n) <==> EachGives(xs, ys, f, n - 1) && f(xs[n - 1]) == [ys[n - 1]];
    }
  }

  lemma SameAppend<T>(a: seq<T>, own: seq<T>, b: seq<T>, y: T)
    requires |a| <= |b| && |own| <= 1
    ensures a + own == b + [y] <==> a == b && own == [y]
  {
    if a + own == b + [y] {
      assert |a| == |b| && |own| == 1;
      assert forall i | 0 <= i < |b| :: a[i] == (a + own)[i] == (b + [y])[i] == b[i];
      assert own[0] == (a + own)[|b|] == (b + [y])[|b|] == y;
    }
  }

  lemma {:induction false} FlatMapWithout<S, T>(l: seq<S>, x: S, r: seq<S>, f: S -> seq<T>)
    ensures multiset(FlatMap(l + [x] + r, f)) == multiset(FlatMap(l + r, f)) + multiset(f(x))
  {
    if r == [] {
      assert l + [x] + r == l + [x] && l + r == l;
      FlatMapSnoc(l, x, f);
    } else {
      var r', y := r[..|r| - 1], r[|r| - 1];
      FlatMapWithout(l, x, r', f);
      assert l + [x] + r == (l + [x] + r') + [y] && l + r == (l + r') + [y];
      FlatMapSnoc(l + [x] + r', y, f);
      FlatMapSnoc(l + r', y, f);
    }
  }

  lemma {:induction false} FlatMapAgree<S, T>(xs: seq<S>, f: S -> seq<T>, g: S -> seq<T>)
    requires forall x | x in xs :: f(x) == g(x)
    ensures FlatMap(xs, f) == FlatMap(xs, g)
  {
    if xs != [] {
      assert xs[|xs| - 1] in xs && forall x | x in xs[..|xs| - 1] :: x in xs;
      FlatMapAgree(xs[..|xs| - 1], f, g);
    }
  }

  // A list element mapped to one value, after elements that are mapped to as many values as they are.
  lemma {:induction false} FlatMapAt<S, T>(l: seq<S>, x: S, r: seq<S>, f: S -> seq<T>, y: T)
    requires |FlatMap(l, f)| == |l| && f(x) == [y]
    ensures |FlatMap(l + [x] + r, f)| > |l| && FlatMap(l + [x] + r, f)[|l|] == y
  {
    if r == [] {
      assert l + [x] + r == l + [x];
      FlatMapSnoc(l, x, f);
    } else {
      var r', z := r[..|r| - 1], r[|r| - 1];
      FlatMapAt(l, x, r', f, y);
      assert l + [x] + r == (l + [x] + r') + [z];
      FlatMapSnoc(l + [x] + r', z, f);
    }
  }

  lemma WithoutEnumerates<T>(l: seq<T>, x: T, r: seq<T>, s: set<T>)
    requires Enumerates(l + [x] + r, s)
    ensures Enumerates(l + r, s - {x})
  {
    var a, b := l + [x] + r, l + r;
    assert forall i | 0 <= i < |l| :: b[i] == a[i];
    assert forall i | |l| <= i < |b| :: b[i] == a[i + 1];
    assert a[|l|] == x;
    forall y | y in s - {x}
      ensures y in b
    {
      var i :| 0 <= i < |a| && a[i] == y;
      assert b[if i < |l| then i else i - 1] == y;
    }
    forall y | y in b
      ensures y in s - {x}
    {
      var i :| 0 <= i < |b| && b[i] == y;
      assert a[if i < |l| then i else i + 1] == y;
    }
  }

  // Two enumerations of one set, mapped by functions that agree on it, give the same elements.
  lemma {:induction false} FlatMapPermuted<S, T>(a: seq<S>, b: seq<S>, s: set<S>, f: S -> seq<T>, g: S -> seq<T>)
    requires Enumerates(a, s) && Enumerates(b, s) && forall x | x in s :: f(x) == g(x)
    ensures multiset(FlatMap(a, f)) == multiset(FlatMap(b, g))
    decreases |a|
  {
    if a == [] {
      assert forall x | x in s :: x in a;
      assert s == {};
      OnlyEmptyEnumerates(b, s);
    } else {
      var init, x := a[..|a| - 1], a[|a| - 1];
      assert a == init + [x] && x in s;
      var i :| 0 <= i < |b| && b[i] == x;
      var l, r := b[..i], b[i + 1..];
      assert b == l + [x] + r;
      WithoutEnumerates(l, x, r, s);
      assert a == init + [x] + [] && init + [] == init;
      WithoutEnumerates(init, x, [], s);
      FlatMapPermuted(init, l + r, s - {x}, f, g);
      FlatMapWithout(l, x, r, g);
    }
  }
}
