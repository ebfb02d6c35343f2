/** Lists: prefixes, mapping and filtering. */
module Sequences {
  function Take<T>(s: seq<T>, n: nat): seq<T> {
    if n <= |s| then s[..n] else s
  }

  function Drop<T>(s: seq<T>, n: nat): seq<T> {
    if n <= |s| then s[n..] else []
  }

  lemma Associative<T>(a: seq<T>, b: seq<T>, c: seq<T>)
    ensures a + b + c == a + (b + c)
  {
  }

  lemma TakeExtends<T>(s: seq<T>, rest: seq<T>, n: nat)
    requires n <= |s|
    ensures Take(s + rest, n) == Take(s, n)
  {
    assert (s + rest)[..n] == s[..n];
  }

  function Map<A, B>(f: A -> B, s: seq<A>): seq<B> {
    seq(|s|, i requires 0 <= i < |s| => f(s[i]))
  }

  function FlatMap<A, B>(f: A -> seq<B>, s: seq<A>): seq<B> {
    if s == [] then [] else f(s[0]) + FlatMap(f, s[1..])
  }

  lemma {:induction false} FlatMapOfConcat<A, B>(f: A -> seq<B>, a: seq<A>, b: seq<A>)
    ensures FlatMap(f, a + b) == FlatMap(f, a) + FlatMap(f, b)
  {
    if a == [] {
      assert a + b == b;
    } else {
      FlatMapOfConcat(f, a[1..], b);
      assert (a + b)[0] == a[0] && (a + b)[1..] == a[1..] + b;
      Associative(f(a[0]), FlatMap(f, a[1..]), FlatMap(f, b));
    }
  }

  lemma {:induction false} FlatMapOfEqual<A(!new), B>(f: A -> seq<B>, g: A -> seq<B>, s: seq<A>)
    requires forall a :: f(a) == g(a)
    ensures FlatMap(f, s) == FlatMap(g, s)
  {
    if s != [] {
      FlatMapOfEqual(f, g, s[1..]);
    }
  }

  lemma FlatMapOfOne<A, B>(f: A -> seq<B>, a: A)
    ensures FlatMap(f, [a]) == f(a)
  {
    assert FlatMap(f, [a]) == f(a) + FlatMap(f, []);
  }

  function Filter<T(!new)>(p: T -> bool, s: seq<T>): (r: seq<T>)
    ensures forall x :: x in r <==> x in s && p(x)
    ensures |r| <= |s|
  {
    if s == [] then []
    else if p(s[0]) then [s[0]] + Filter(p, s[1..])
    else Filter(p, s[1..])
  }

  lemma {:induction false} FilterSnoc<T(!new)>(p: T -> bool, s: seq<T>, x: T)
    ensures Filter(p, s + [x]) == Filter(p, s) + (if p(x) then [x] else [])
  {
    if s != [] {
      FilterSnoc(p, s[1..], x);
      assert (s + [x])[1..] == s[1..] + [x];
    }
  }

  lemma FilterPrefix<T(!new)>(p: T -> bool, s: seq<T>, i: nat)
    requires i < |s|
    ensures Filter(p, s[..i + 1]) == if p(s[i]) then Filter(p, s[..i]) + [s[i]] else Filter(p, s[..i])
  {
    assert s[..i + 1] == s[..i] + [s[i]];
    FilterSnoc(p, s[..i], s[i]);
  }

  lemma {:induction false} FilterConcat<T(!new)>(p: T -> bool, s: seq<T>, t: seq<T>)
    ensures Filter(p, s + t) == Filter(p, s) + Filter(p, t)
  {
    if s == [] {
      assert s + t == t;
    } else {
      FilterConcat(p, s[1..], t);
      assert (s + t)[0] == s[0] && (s + t)[1..] == s[1..] + t;
      Associative([s[0]], Filter(p, s[1..]), Filter(p, t));
    }
  }

  /** What passes the test stands in the filtered list after as many as pass before it. */
  lemma FilterPosition<T(!new)>(p: T -> bool, s: seq<T>, j: nat)
    requires j < |s| && p(s[j])
    ensures var i := |Filter(p, s[..j])|; i < |Filter(p, s)| && Filter(p, s)[i] == s[j]
  {
    var rest := s[j..];
    assert s == s[..j] + rest;
    FilterConcat(p, s[..j], rest);
    assert Filter(p, rest) == [s[j]] + Filter(p, rest[1..]);
  }

  lemma FilterPositionsAscend<T(!new)>(p: T -> bool, s: seq<T>, i: nat, j: nat)
    requires i < j < |s| && p(s[i])
    ensures |Filter(p, s[..i])| < |Filter(p, s[..j])|
  {
    var front := s[..j];
    FilterPosition(p, front, i);
    assert front[..i] == s[..i];
  }

  lemma {:induction false} FilterSource<T(!new)>(p: T -> bool, s: seq<T>, i: nat) returns (j: nat)
    requires i < |Filter(p, s)|
    ensures j < |s| && p(s[j]) && Filter(p, s)[i] == s[j] && |Filter(p, s[..j])| == i
  {
    var n := |s| - 1;
    assert s[..n + 1] == s;
    FilterPrefix(p, s, n);
    if i < |Filter(p, s[..n])| {
      j := FilterSource(p, s[..n], i);
      assert s[..n][..j] == s[..j];
    } else {
      j := n;
    }
  }

  lemma FilterOne<T(!new)>(p: T -> bool, x: T)
    requires p(x)
    ensures Filter(p, [x]) == [x]
  {
    assert Filter(p, [x]) == [x] + Filter(p, []);
  }

  lemma FilterNone<T(!new)>(p: T -> bool, x: T)
    requires !p(x)
    ensures Filter(p, [x]) == []
  {
    assert Filter(p, [x]) == Filter(p, []);
  }

  lemma {:induction false} FilterCongruent<T(!new)>(p: T -> bool, q: T -> bool, s: seq<T>)
    requires forall x :: x in s ==> p(x) == q(x)
    ensures Filter(p, s) == Filter(q, s)
  {
    if s != [] {
      FilterCongruent(p, q, s[1..]);
    }
  }

  lemma {:induction false} FilterAll<T(!new)>(p: T -> bool, s: seq<T>)
    requires forall x :: x in s ==> p(x)
    ensures Filter(p, s) == s
  {
    if s != [] {
      FilterAll(p, s[1..]);
    }
  }

  lemma {:induction false} FilterNobody<T(!new)>(p: T -> bool, s: seq<T>)
    requires forall x :: x in s ==> !p(x)
    ensures Filter(p, s) == []
  {
    if s != [] {
      FilterNobody(p, s[1..]);
    }
  }
}
