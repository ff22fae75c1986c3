// Orders and sorts shared by the models: Python's string order, `sorted(set)` and the stable
// `list.sort(key=...)`.

module Sorting {

  /** Python's string comparison: by code point, a proper prefix first. */
  predicate StrLe(a: string, b: string) {
    a == "" || (b != "" && (a[0] < b[0] || (a[0] == b[0] && StrLe(a[1..], b[1..]))))
  }

  /** `b` continues `a`, or the first character that differs is smaller in `a`. */
  lemma {:induction false} StrLeIs(a: string, b: string)
    ensures StrLe(a, b) <==> a <= b || exists i :: 0 <= i < |a| && i < |b| && a[..i] == b[..i] && a[i] < b[i]
  {
    if a != "" && b != "" {
      var x, y := a[1..], b[1..];
      StrLeIs(x, y);
      assert a == [a[0]] + x && b == [b[0]] + y;
      if a[0] == b[0] {
        assert a <= b <==> x <= y;
        if i :| 0 <= i < |x| && i < |y| && x[..i] == y[..i] && x[i] < y[i] {
          assert a[..i + 1] == [a[0]] + x[..i] && b[..i + 1] == [b[0]] + y[..i];
          assert a[i + 1] < b[i + 1];
        }
        if i :| 0 <= i < |a| && i < |b| && a[..i] == b[..i] && a[i] < b[i] {
          assert i > 0 && x[..i - 1] == a[..i][1..] && y[..i - 1] == b[..i][1..] && x[i - 1] < y[i - 1];
        }
      } else {
        assert a[..0] == b[..0];
        if i :| 0 <= i < |a| && i < |b| && a[..i] == b[..i] && a[i] < b[i] {
          if i > 0 { assert a[..i][0] == b[..i][0]; }
        }
      }
    }
  }

  lemma {:induction false} StrLeTotal(a: string, b: string)
    ensures StrLe(a, b) || StrLe(b, a)
  {
    if a != "" && b != "" && a[0] == b[0] { StrLeTotal(a[1..], b[1..]); }
  }

  lemma {:induction false} StrLeAntisymmetric(a: string, b: string)
    requires StrLe(a, b) && StrLe(b, a)
    ensures a == b
  {
    if a != "" && b != "" {
      StrLeAntisymmetric(a[1..], b[1..]);
      assert a == [a[0]] + a[1..] && b == [b[0]] + b[1..];
    }
  }

  lemma {:induction false} StrLeTransitive(a: string, b: string, c: string)
    requires StrLe(a, b) && StrLe(b, c)
    ensures StrLe(a, c)
  {
    if a != "" && a[0] == b[0] && b[0] == c[0] { StrLeTransitive(a[1..], b[1..], c[1..]); }
  }

  ghost predicate TotalPreorder<T(!new)>(le: (T, T) -> bool) {
    && (forall a, b :: le(a, b) || le(b, a))
    && (forall a, b, c :: le(a, b) && le(b, c) ==> le(a, c))
  }

  ghost predicate SortedBy<T(!new)>(s: seq<T>, le: (T, T) -> bool) {
    forall i, j :: 0 <= i < j < |s| ==> le(s[i], s[j])
  }

  ghost predicate Distinct<T>(s: seq<T>) {
    forall i, j :: 0 <= i < j < |s| ==> s[i] != s[j]
  }

  function Members<T>(s: seq<T>): (r: set<T>) {
    set x | x in s
  }

  /** Puts x before the first element it is not above: inserting from the right keeps the sort stable. */
  function Insert<T(!new)>(x: T, s: seq<T>, le: (T, T) -> bool): (r: seq<T>)
    requires TotalPreorder(le) && SortedBy(s, le)
    ensures SortedBy(r, le)
    ensures multiset(r) == multiset{x} + multiset(s)
  {
    if s == [] then [x]
    else if le(x, s[0]) then
      SortedCons(x, s, le);
      [x] + s
    else
      assert s == [s[0]] + s[1..];
      var t := Insert(x, s[1..], le);
      assert forall y :: y in t ==> y in multiset(t);
      assert le(s[0], x) && forall y :: y in s[1..] ==> le(s[0], y);
      assert SortedBy([s[0]] + t, le) by { SortedHead(s[0], t, le); }
      [s[0]] + t
  }

  lemma SortedHead<T(!new)>(x: T, s: seq<T>, le: (T, T) -> bool)
    requires SortedBy(s, le) && forall y :: y in s ==> le(x, y)
    ensures SortedBy([x] + s, le)
  {
  }

  lemma SortedCons<T(!new)>(x: T, s: seq<T>, le: (T, T) -> bool)
    requires TotalPreorder(le) && SortedBy(s, le) && s != [] && le(x, s[0])
    ensures SortedBy([x] + s, le)
  {
    forall y | y in s ensures le(x, y) {
      var i :| 0 <= i < |s| && s[i] == y;
      assert i == 0 || le(s[0], s[i]);
    }
    SortedHead(x, s, le);
  }

  function Sort<T(!new)>(s: seq<T>, le: (T, T) -> bool): (r: seq<T>)
    requires TotalPreorder(le)
    ensures SortedBy(r, le)
    ensures multiset(r) == multiset(s)
  {
    if s == [] then []
    else
      assert s == [s[0]] + s[1..];
      Insert(s[0], Sort(s[1..], le), le)
  }

  lemma StrLeIsOrder()
    ensures TotalPreorder(StrLe)
  {
    forall a, b ensures StrLe(a, b) || StrLe(b, a) { StrLeTotal(a, b); }
    forall a, b, c | StrLe(a, b) && StrLe(b, c) ensures StrLe(a, c) { StrLeTransitive(a, b, c); }
  }

  predicate IsLeast<T>(m: T, s: set<T>, le: (T, T) -> bool) {
    m in s && forall x :: x in s ==> le(m, x)
  }

  lemma LeastStep<T(!new)>(a: T, m: T, s: set<T>, le: (T, T) -> bool)
    requires TotalPreorder(le) && IsLeast(m, s, le)
    ensures IsLeast(if le(a, m) then a else m, s + {a}, le)
  {
    assert le(a, a) && (le(a, m) || le(m, a));
  }

  lemma {:induction false} LeastExists<T(!new)>(s: set<T>, le: (T, T) -> bool)
    requires s != {} && TotalPreorder(le)
    ensures exists m :: IsLeast(m, s, le)
  {
    var a :| a in s;
    var rest := s - {a};
    if rest == {} {
      assert le(a, a) && s == {a};
      assert IsLeast(a, s, le);
    } else {
      LeastExists(rest, le);
      var m :| IsLeast(m, rest, le);
      LeastStep(a, m, rest, le);
      assert rest + {a} == s;
    }
  }

  lemma LeastUnique(a: string, b: string, s: set<string>)
    requires IsLeast(a, s, StrLe) && IsLeast(b, s, StrLe)
    ensures a == b
  {
    StrLeAntisymmetric(a, b);
  }

  function Least(s: set<string>): (m: string)
    requires s != {}
    ensures IsLeast(m, s, StrLe)
  {
    StrLeIsOrder();
    LeastExists(s, StrLe);
    assert forall a, b | IsLeast(a, s, StrLe) && IsLeast(b, s, StrLe) :: a == b by {
      forall a, b | IsLeast(a, s, StrLe) && IsLeast(b, s, StrLe) ensures a == b { LeastUnique(a, b, s); }
    }
    var m :| m in s && IsLeast(m, s, StrLe);
    m
  }

  /** `sorted(keys)`: every key once, in increasing order. */
  function SortedKeys(s: set<string>): (r: seq<string>)
    ensures forall k :: k in r <==> k in s
    ensures Distinct(r)
    ensures SortedBy(r, StrLe)
  {
    if s == {} then []
    else
      var m := Least(s);
      var rest := SortedKeys(s - {m});
      assert forall k :: k in [m] + rest <==> k == m || k in rest;
      [m] + rest
  }

  /** Where the head of one sequence sits in a permutation of it, and what remains of both. */
  lemma SamePlace<T>(xs: seq<T>, ys: seq<T>) returns (i: nat)
    requires ys != [] && multiset(xs) == multiset(ys)
    ensures i < |xs| && xs[i] == ys[0]
    ensures multiset(xs[..i] + xs[i + 1..]) == multiset(ys[1..])
  {
    assert ys[0] in multiset(ys);
    i :| 0 <= i < |xs| && xs[i] == ys[0];
    var rest := xs[..i] + xs[i + 1..];
    assert multiset(xs) == multiset(rest) + multiset{ys[0]} by {
      assert xs == xs[..i] + [xs[i]] + xs[i + 1..];
    }
    assert multiset(ys) == multiset(ys[1..]) + multiset{ys[0]} by {
      assert ys == [ys[0]] + ys[1..];
    }
    assert multiset(rest) == multiset(xs) - multiset{ys[0]};
  }

  lemma {:induction false} SubsetCount<T>(a: set<T>, b: set<T>)
    requires a <= b
    ensures |a| <= |b|
  {
    if a != {} {
      var x :| x in a;
      SubsetCount(a - {x}, b - {x});
    }
  }

  lemma AppendAssoc<T>(a: seq<T>, b: seq<T>, c: seq<T>)
    ensures a + (b + c) == (a + b) + c
  {
  }

  function MapSeq<T, U>(f: T -> U, xs: seq<T>): seq<U> {
    if xs == [] then [] else [f(xs[0])] + MapSeq(f, xs[1..])
  }

  lemma {:induction false} MapWithout<T, U>(f: T -> U, xs: seq<T>, i: nat)
    requires i < |xs|
    ensures multiset(MapSeq(f, xs)) == multiset{f(xs[i])} + multiset(MapSeq(f, xs[..i] + xs[i + 1..]))
  {
    var rest := xs[..i] + xs[i + 1..];
    if i == 0 {
      assert rest == xs[1..];
    } else {
      MapWithout(f, xs[1..], i - 1);
      assert rest[1..] == xs[1..][..i - 1] + xs[1..][i..];
    }
  }

  /** Mapping respects permutations. */
  lemma {:induction false} MapPermutation<T, U>(f: T -> U, xs: seq<T>, ys: seq<T>)
    requires multiset(xs) == multiset(ys)
    ensures multiset(MapSeq(f, xs)) == multiset(MapSeq(f, ys))
    decreases |ys|
  {
    if ys == [] {
      assert |xs| == |multiset(xs)| == 0;
    } else {
      var i := SamePlace(xs, ys);
      MapPermutation(f, xs[..i] + xs[i + 1..], ys[1..]);
      MapWithout(f, xs, i);
    }
  }
}
