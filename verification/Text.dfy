/** Searching and trimming, over any alphabet. */
module Text {
  /** The position of the first c, or |s|. */
  function IndexOf<T(==)>(s: seq<T>, c: T): (i: nat)
    ensures i <= |s|
    ensures i < |s| ==> s[i] == c
    ensures c !in s[..i]
  {
    if s == [] || s[0] == c then 0
    else
      var i := 1 + IndexOf(s[1..], c);
      assert s[..i] == [s[0]] + s[1..][..i - 1];
      i
  }

  /** What comes before the first c; all of s when there is none. */
  function UpTo<T(==)>(s: seq<T>, c: T): (r: seq<T>)
    ensures r <= s && c !in r
  {
    s[..IndexOf(s, c)]
  }

  lemma {:induction false} IndexAfter<T>(a: seq<T>, c: T, rest: seq<T>)
    requires c !in a
    ensures IndexOf(a + [c] + rest, c) == |a|
  {
    if a == [] {
      assert a + [c] + rest == [c] + rest;
    } else {
      assert (a + [c] + rest)[1..] == a[1..] + [c] + rest;
      IndexAfter(a[1..], c, rest);
    }
  }

  lemma {:induction false} IndexOfConcat<T>(a: seq<T>, b: seq<T>, c: T)
    ensures IndexOf(a + b, c) == if c in a then IndexOf(a, c) else |a| + IndexOf(b, c)
  {
    if a == [] {
      assert a + b == b;
    } else if a[0] != c {
      IndexOfConcat(a[1..], b, c);
      assert (a + b)[1..] == a[1..] + b;
    }
  }

  lemma UpToOfConcat<T>(a: seq<T>, b: seq<T>, c: T)
    ensures UpTo(a + b, c) == if c in a then UpTo(a, c) else a + UpTo(b, c)
  {
    IndexOfConcat(a, b, c);
  }

  function StripLeft<T>(space: T -> bool, s: seq<T>): seq<T> {
    if s != [] && space(s[0]) then StripLeft(space, s[1..]) else s
  }

  function StripRight<T>(space: T -> bool, s: seq<T>): seq<T> {
    if s != [] && space(s[|s| - 1]) then StripRight(space, s[..|s| - 1]) else s
  }

  function Strip<T>(space: T -> bool, s: seq<T>): seq<T> {
    StripRight(space, StripLeft(space, s))
  }

  /** What is stripped on the left is a run of spaces. */
  lemma {:induction false} StripLeftIsSuffix<T>(space: T -> bool, s: seq<T>) returns (k: nat)
    ensures k <= |s| && StripLeft(space, s) == s[k..]
    ensures forall i | 0 <= i < k :: space(s[i])
  {
    if s != [] && space(s[0]) {
      k := StripLeftIsSuffix(space, s[1..]);
      assert s[1..][k..] == s[k + 1..];
      assert forall i | 0 < i < k + 1 :: s[i] == s[1..][i - 1];
      k := k + 1;
    } else {
      k := 0;
    }
  }

  lemma {:induction false} StripRightIsPrefix<T>(space: T -> bool, s: seq<T>) returns (k: nat)
    ensures k <= |s| && StripRight(space, s) == s[..k]
    ensures forall i | k <= i < |s| :: space(s[i])
  {
    if s != [] && space(s[|s| - 1]) {
      k := StripRightIsPrefix(space, s[..|s| - 1]);
      assert s[..|s| - 1][..k] == s[..k];
    } else {
      k := |s|;
    }
  }

  lemma StripKeeps<T>(space: T -> bool, s: seq<T>, c: T)
    requires c in s && !space(c)
    ensures c in Strip(space, s)
  {
    var i :| 0 <= i < |s| && s[i] == c;
    var k := StripLeftIsSuffix(space, s);
    assert s[k..][i - k] == c;
    var n := StripRightIsPrefix(space, s[k..]);
    assert s[k..][..n][i - k] == c;
  }

  // Characters

  predicate IsSpace(c: char) {
    '\t' <= c <= '\r' || 28 as char <= c <= ' '
  }

  function Trim(s: string): string {
    Strip(IsSpace, s)
  }

  /** Trimming removes tabs, line ends, separators and spaces. */
  lemma TrimmedAwayIff(c: char)
    ensures Trim([c]) == "" <==> c as int in {9, 10, 11, 12, 13, 28, 29, 30, 31, 32}
  {
    assert [c][1..] == "" && [c][..0] == "";
    assert StripLeft(IsSpace, [c]) == if IsSpace(c) then "" else [c];
  }

  function TrimLeft(s: string): string {
    StripLeft(IsSpace, s)
  }
}
