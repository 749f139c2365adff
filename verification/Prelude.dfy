// Shared vocabulary: options, sums over finite sets, and the
// stable descending sort that stands for Python's list.sort(reverse=True).
module Prelude {

  datatype Option<+T> = None | Some(value: T)

  type Vec = seq<real> // an embedding

  predicate Distinct<T(==)>(s: seq<T>) {
    forall i, j | 0 <= i < j < |s| :: s[i] != s[j]
  }

  // The elements of a sequence as a set; distinct elements make the sizes agree.
  function Elems<T>(s: seq<T>): set<T> {
    set x | x in s
  }

  lemma {:induction false} DistinctSize<T>(s: seq<T>)
    requires Distinct(s)
    ensures |Elems(s)| == |s|
  {
    if s == [] {
    } else {
      DistinctSize(s[1..]);
      assert Elems(s) == {s[0]} + Elems(s[1..]);
    }
  }

  lemma SubsetSize<T>(a: set<T>, b: set<T>)
    requires a <= b
    ensures |a| <= |b|
  {
    assert b == a + (b - a);
  }

  // Sums over finite sets.
  ghost function Sum<T(!new)>(s: set<T>, f: T -> nat): nat {
    if s == {} then 0 else
      var x :| x in s;
      f(x) + Sum(s - {x}, f)
  }

  lemma {:induction false} SumRemove<T(!new)>(s: set<T>, x: T, f: T -> nat)
    requires x in s
    ensures Sum(s, f) == f(x) + Sum(s - {x}, f)
    decreases s
  {
    var y :| y in s && Sum(s, f) == f(y) + Sum(s - {y}, f);
    if y != x {
      SumRemove(s - {y}, x, f);
      SumRemove(s - {x}, y, f);
      assert s - {y} - {x} == s - {x} - {y};
    }
  }

  lemma {:induction false} SumSame<T(!new)>(s: set<T>, f: T -> nat, g: T -> nat)
    requires forall x | x in s :: f(x) == g(x)
    ensures Sum(s, f) == Sum(s, g)
    decreases s
  {
    if s == {} {
    } else {
      var x :| x in s;
      SumRemove(s, x, f);
      SumRemove(s, x, g);
      SumSame(s - {x}, f, g);
    }
  }

  // Changing the summand at one place changes the sum by exactly that much.
  lemma SumPoint<T(!new)>(s: set<T>, x: T, f: T -> nat, g: T -> nat)
    requires x in s
    requires forall y | y in s && y != x :: f(y) == g(y)
    ensures Sum(s, g) + f(x) == Sum(s, f) + g(x)
  {
    SumRemove(s, x, f);
    SumRemove(s, x, g);
    SumSame(s - {x}, f, g);
  }

  // Insertion of x after every element that scores at least as much.
  function Insert<T>(score: T -> real, x: T, s: seq<T>): seq<T> {
    if s == [] then [x]
    else if score(s[0]) >= score(x) then [s[0]] + Insert(score, x, s[1..])
    else [x] + s
  }

  function SortDesc<T>(score: T -> real, s: seq<T>): seq<T> {
    if s == [] then [] else Insert(score, s[|s| - 1], SortDesc(score, s[..|s| - 1]))
  }

  predicate Descending<T>(score: T -> real, s: seq<T>) {
    forall i, j | 0 <= i < j < |s| :: score(s[i]) >= score(s[j])
  }

  // The elements that score exactly v, in order: what a stable sort must not disturb.
  function AtScore<T>(score: T -> real, v: real, s: seq<T>): seq<T> {
    if s == [] then [] else (if score(s[0]) == v then [s[0]] else []) + AtScore(score, v, s[1..])
  }

  lemma {:induction false} AtScoreAppend<T>(score: T -> real, v: real, a: seq<T>, b: seq<T>)
    ensures AtScore(score, v, a + b) == AtScore(score, v, a) + AtScore(score, v, b)
  {
    if a == [] {
      assert a + b == b;
    } else {
      AtScoreAppend(score, v, a[1..], b);
      assert (a + b)[0] == a[0] && (a + b)[1..] == a[1..] + b;
    }
  }

  lemma {:induction false} NoneAtScore<T>(score: T -> real, v: real, s: seq<T>)
    requires forall y | y in s :: score(y) < v
    ensures AtScore(score, v, s) == []
  {
    if s == [] {
    } else {
      NoneAtScore(score, v, s[1..]);
    }
  }

  lemma {:induction false} InsertElements<T>(score: T -> real, x: T, s: seq<T>)
    ensures multiset(Insert(score, x, s)) == multiset(s) + multiset{x}
  {
    if s != [] && score(s[0]) >= score(x) {
      InsertElements(score, x, s[1..]);
      assert s == [s[0]] + s[1..];
    }
  }

  lemma DescendingCons<T>(score: T -> real, x: T, s: seq<T>)
    requires Descending(score, s) && forall y | y in s :: score(x) >= score(y)
    ensures Descending(score, [x] + s)
  {
  }

  lemma {:induction false} InsertOrders<T>(score: T -> real, x: T, s: seq<T>)
    requires Descending(score, s)
    ensures Descending(score, Insert(score, x, s))
    ensures multiset(Insert(score, x, s)) == multiset(s) + multiset{x}
  {
    InsertElements(score, x, s);
    if s == [] {
    } else if score(s[0]) >= score(x) {
      var rest := s[1..];
      var r := Insert(score, x, rest);
      InsertOrders(score, x, rest);
      forall y | y in r ensures score(s[0]) >= score(y) {
        assert y in multiset(r);
        if y != x {
          assert y in rest;
        }
      }
      DescendingCons(score, s[0], r);
    } else {
      DescendingCons(score, x, s);
    }
  }

  lemma {:induction false} InsertStable<T>(score: T -> real, x: T, s: seq<T>, v: real)
    requires Descending(score, s)
    ensures AtScore(score, v, Insert(score, x, s)) == AtScore(score, v, s + [x])
  {
    if s != [] && score(s[0]) >= score(x) {
      InsertStable(score, x, s[1..], v);
      assert (s + [x])[1..] == s[1..] + [x];
      assert ([s[0]] + Insert(score, x, s[1..]))[1..] == Insert(score, x, s[1..]);
    } else {
      AtScoreAppend(score, v, [x], s);
      AtScoreAppend(score, v, s, [x]);
      if s != [] && score(x) == v {
        NoneAtScore(score, v, s);
      }
    }
  }

  // The sort yields a descending permutation.
  lemma {:induction false} SortOrders<T>(score: T -> real, s: seq<T>)
    ensures Descending(score, SortDesc(score, s))
    ensures multiset(SortDesc(score, s)) == multiset(s)
  {
    if s == [] {
    } else {
      var n := |s| - 1;
      SortOrders(score, s[..n]);
      InsertOrders(score, s[n], SortDesc(score, s[..n]));
      assert s == s[..n] + [s[n]];
    }
  }

  // The sort keeps elements of equal score in their original order.
  lemma {:induction false} SortStable<T>(score: T -> real, s: seq<T>, v: real)
    ensures AtScore(score, v, SortDesc(score, s)) == AtScore(score, v, s)
  {
    if s == [] {
    } else {
      var n := |s| - 1;
      SortOrders(score, s[..n]);
      SortStable(score, s[..n], v);
      InsertStable(score, s[n], SortDesc(score, s[..n]), v);
      AtScoreAppend(score, v, SortDesc(score, s[..n]), [s[n]]);
      AtScoreAppend(score, v, s[..n], [s[n]]);
      assert s == s[..n] + [s[n]];
    }
  }

  // x comes before y somewhere in s.
  ghost predicate Precedes<T>(s: seq<T>, x: T, y: T) {
    exists i, j :: 0 <= i < j < |s| && s[i] == x && s[j] == y
  }

  lemma PrecedesBehind<T>(a: seq<T>, s: seq<T>, x: T, y: T)
    requires Precedes(s, x, y)
    ensures Precedes(a + s, x, y)
  {
    var i, j :| 0 <= i < j < |s| && s[i] == x && s[j] == y;
    assert (a + s)[|a| + i] == x && (a + s)[|a| + j] == y;
  }

  lemma PrecedesFirst<T>(x: T, s: seq<T>, y: T)
    requires y in s
    ensures Precedes([x] + s, x, y)
  {
    var j :| 0 <= j < |s| && s[j] == y;
    assert ([x] + s)[0] == x && ([x] + s)[j + 1] == y;
  }

  lemma {:induction false} AtScoreMembers<T>(score: T -> real, v: real, s: seq<T>)
    ensures forall x :: x in AtScore(score, v, s) <==> x in s && score(x) == v
  {
    if s == [] {
    } else {
      AtScoreMembers(score, v, s[1..]);
      assert s == [s[0]] + s[1..];
    }
  }

  lemma PrecedesSplit<T>(first: T, rest: seq<T>, x: T, y: T)
    ensures Precedes([first] + rest, x, y) <==> (x == first && y in rest) || Precedes(rest, x, y)
  {
    var s := [first] + rest;
    if Precedes(s, x, y) {
      var i, j :| 0 <= i < j < |s| && s[i] == x && s[j] == y;
      assert y == rest[j - 1];
      assert i > 0 ==> x == rest[i - 1];
    }
    if Precedes(rest, x, y) {
      PrecedesBehind([first], rest, x, y);
    }
    if x == first && y in rest {
      PrecedesFirst(x, rest, y);
    }
  }

  lemma AtScoreFirst<T>(score: T -> real, v: real, s: seq<T>)
    requires s != []
    ensures var rest := AtScore(score, v, s[1..]);
      AtScore(score, v, s) == if score(s[0]) == v then [s[0]] + rest else rest
  {
  }

  // Elements of one score precede each other in the whole as they do among their like.
  lemma {:induction false} AtScoreOrder<T>(score: T -> real, v: real, s: seq<T>, x: T, y: T)
    requires score(x) == v && score(y) == v
    ensures Precedes(AtScore(score, v, s), x, y) <==> Precedes(s, x, y)
  {
    if s == [] {
    } else {
      var rest := AtScore(score, v, s[1..]);
      AtScoreOrder(score, v, s[1..], x, y);
      AtScoreMembers(score, v, s[1..]);
      hide AtScore;
      assert s == [s[0]] + s[1..];
      PrecedesSplit(s[0], s[1..], x, y);
      PrecedesSplit(s[0], rest, x, y);
      AtScoreFirst(score, v, s);
    }
  }

  lemma NothingPrecedes<T>(x: T, y: T)
    ensures !Precedes([], x, y)
  {
  }

  lemma PrecedesLast<T>(rest: seq<T>, last: T, x: T, y: T)
    ensures Precedes(rest + [last], x, y) <==> Precedes(rest, x, y) || (x in rest && y == last)
  {
    var s := rest + [last];
    if Precedes(s, x, y) {
      var i, j :| 0 <= i < j < |s| && s[i] == x && s[j] == y;
      assert x == rest[i];
      assert j < |rest| ==> y == rest[j];
    }
    if Precedes(rest, x, y) {
      var i, j :| 0 <= i < j < |rest| && rest[i] == x && rest[j] == y;
      assert s[i] == x && s[j] == y;
    }
    if x in rest && y == last {
      var i :| 0 <= i < |rest| && rest[i] == x;
      assert s[i] == x && s[|rest|] == y;
    }
  }

  // The sort puts elements of equal score in their original order.
  lemma SortKeepsTies<T>(score: T -> real, s: seq<T>, x: T, y: T)
    requires score(x) == score(y)
    ensures Precedes(SortDesc(score, s), x, y) <==> Precedes(s, x, y)
  {
    SortStable(score, s, score(x));
    AtScoreOrder(score, score(x), s, x, y);
    AtScoreOrder(score, score(x), SortDesc(score, s), x, y);
  }

  lemma SortMembers<T>(score: T -> real, s: seq<T>)
    ensures forall x :: x in SortDesc(score, s) <==> x in s
    ensures |SortDesc(score, s)| == |s|
  {
    SortOrders(score, s);
    assert |multiset(SortDesc(score, s))| == |multiset(s)|;
    forall x ensures x in SortDesc(score, s) <==> x in s {
      assert x in multiset(SortDesc(score, s)) <==> x in multiset(s);
    }
  }

  // Joining on a separator loses nothing when one side does not contain it.
  lemma JoinLeft(a: string, x: string, b: string, y: string, sep: char)
    requires sep !in a && sep !in b
    ensures a + [sep] + x == b + [sep] + y <==> a == b && x == y
  {
    var p, q := a + [sep] + x, b + [sep] + y;
    assert p[|a|] == sep && q[|b|] == sep;
    assert forall i | 0 <= i < |a| :: p[i] == a[i];
    assert forall i | 0 <= i < |b| :: q[i] == b[i];
    if p == q {
      assert |a| == |b|;
      assert a == p[..|a|] && b == q[..|b|];
      assert x == p[|a| + 1..] && y == q[|b| + 1..];
    }
  }

  lemma JoinRight(x: string, a: string, y: string, b: string, sep: char)
    requires sep !in a && sep !in b
    ensures x + [sep] + a == y + [sep] + b <==> x == y && a == b
  {
    var p, q := x + [sep] + a, y + [sep] + b;
    assert p[|x|] == sep && q[|y|] == sep;
    assert forall i | |x| < i < |p| :: p[i] == a[i - |x| - 1];
    assert forall i | |y| < i < |q| :: q[i] == b[i - |y| - 1];
    if p == q {
      assert |x| == |y|;
      assert x == p[..|x|] && y == q[..|y|];
      assert a == p[|x| + 1..] && b == q[|y| + 1..];
    }
  }

  // Multiplication by a nonnegative factor keeps the order, by a positive one strictly.
  lemma MulMono(a: real, b: real, c: real)
    requires a <= b && c >= 0.0
    ensures a * c <= b * c
  {
  }

  lemma MulStrict(a: real, b: real, c: real)
    requires a < b && c > 0.0
    ensures a * c < b * c
  {
  }
}
