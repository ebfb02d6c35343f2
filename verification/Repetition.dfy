/** Reading a sequence as a run of pieces, one after another, and writing it back. */
module Repetition {
  import opened Wrappers
  import opened Sequences

  type pos = n: int | n > 0 witness 1

  datatype Piece<+T> = Piece(value: T, size: pos)

  type Reader<!B, !T, !E> = seq<B> -> Result<Piece<T>, E>

  /** The pieces of s. A piece may claim more than is left; fewer than min elements are not a piece and are ignored. */
  function Many<B, T, E>(read: Reader<B, T, E>, min: pos, s: seq<B>): Result<seq<T>, E>
    decreases |s|
  {
    if |s| < min then Success([])
    else
      match read(s)
      case Failure(e) => Failure(e)
      case Success(first) => Prepended([first.value], Many(read, min, Drop(s, first.size)))
  }

  function Prepended<T, E>(before: seq<T>, others: Result<seq<T>, E>): Result<seq<T>, E> {
    if others.Failure? then others else Success(before + others.value)
  }

  lemma PrependedNothing<T, E>(others: Result<seq<T>, E>)
    ensures Prepended([], others) == others
  {
    if others.Success? {
      assert [] + others.value == others.value;
    }
  }

  lemma PrependedTwice<T, E>(a: seq<T>, b: seq<T>, others: Result<seq<T>, E>)
    ensures Prepended(a, Prepended(b, others)) == Prepended(a + b, others)
  {
    if others.Success? {
      assert a + (b + others.value) == a + b + others.value;
    }
  }

  /** Every piece of s lies within s, and nothing is left over. */
  predicate Complete<B, T, E>(read: Reader<B, T, E>, min: pos, s: seq<B>)
    decreases |s|
  {
    s == [] ||
    (|s| >= min &&
     match read(s)
     case Failure(_) => false
     case Success(first) => first.size <= |s| && Complete(read, min, s[first.size..]))
  }

  /** A piece that lies within what is given is read the same whatever follows it. */
  ghost predicate Stable<B(!new), T, E>(read: Reader<B, T, E>) {
    forall s, rest | read(s).Success? && read(s).value.size <= |s| :: read(s + rest) == read(s)
  }

  /** A complete sequence gives its own pieces, followed by those of whatever comes after. */
  lemma {:induction false} ManyOfConcat<B(!new), T, E>(read: Reader<B, T, E>, min: pos, a: seq<B>, b: seq<B>)
    requires Stable(read) && Complete(read, min, a)
    ensures Many(read, min, a).Success?
    ensures Many(read, min, a + b) == Prepended(Many(read, min, a).value, Many(read, min, b))
    decreases |a|
  {
    if a == [] {
      assert a + b == b;
      PrependedNothing(Many(read, min, b));
    } else {
      var first := read(a).value;
      var rest := a[first.size..];
      ManyOfConcat(read, min, rest, b);
      assert read(a + b) == read(a);
      assert Drop(a + b, first.size) == rest + b;
      PrependedTwice([first.value], Many(read, min, rest).value, Many(read, min, b));
    }
  }

  /** Takes the items in order, stopping at the first failure. */
  function Steps<S, A, E>(step: (S, A) -> Result<S, E>, state: S, items: seq<A>): Result<S, E>
    decreases |items|
  {
    if items == [] then Success(state)
    else
      match step(state, items[0])
      case Failure(e) => Failure(e)
      case Success(after) => Steps(step, after, items[1..])
  }

  lemma StepsFromFirst<S, A, E>(step: (S, A) -> Result<S, E>, state: S, first: A, others: seq<A>)
    ensures Steps(step, state, [first] + others)
         == if step(state, first).Failure? then Failure(step(state, first).error)
            else Steps(step, step(state, first).value, others)
  {
    assert ([first] + others)[1..] == others;
  }

  function Fold<S, A>(gather: (S, A) -> S, state: S, items: seq<A>): S
    decreases |items|
  {
    if items == [] then state else Fold(gather, gather(state, items[0]), items[1..])
  }

  /** When taking what was written always succeeds, the steps over it are a plain fold. */
  lemma {:induction false} StepsOverWritten<S(!new), A, B(!new), E>(
      step: (S, A) -> Result<S, E>, write: B -> A, gather: (S, B) -> S, state: S, items: seq<B>, rest: seq<A>)
    requires forall s, b :: step(s, write(b)) == Success(gather(s, b))
    ensures Steps(step, state, Map(write, items) + rest) == Steps(step, Fold(gather, state, items), rest)
    decreases |items|
  {
    if items == [] {
      assert Map(write, items) + rest == rest;
    } else {
      StepsOverWritten(step, write, gather, gather(state, items[0]), items[1..], rest);
      assert Map(write, items) + rest == [write(items[0])] + (Map(write, items[1..]) + rest);
      StepsFromFirst(step, state, write(items[0]), Map(write, items[1..]) + rest);
    }
  }

  /** Reading gives back each good thing written, up to the view of it that the reader returns. */
  ghost predicate Undoes<A(!new), B(!new), T, E>(
      read: Reader<B, T, E>, min: pos, write: A -> seq<B>, view: A -> T, good: A -> bool) {
    forall a, rest {:trigger write(a) + rest} | good(a) ::
      |write(a)| >= min && read(write(a) + rest) == Success(Piece(view(a), |write(a)|))
  }

  lemma ManyAfterPiece<B, T, E>(read: Reader<B, T, E>, min: pos, first: seq<B>, value: T, after: seq<B>)
    requires |first| >= min && read(first + after) == Success(Piece(value, |first|))
    ensures Many(read, min, first + after) == Prepended([value], Many(read, min, after))
  {
    assert Drop(first + after, |first|) == after;
  }

  /** A run of written pieces is read back, in order, and then whatever follows it. */
  lemma {:induction false} ManyRoundTrip<A(!new), B(!new), T, E>(
      read: Reader<B, T, E>, min: pos, write: A -> seq<B>, view: A -> T, good: A -> bool, items: seq<A>, rest: seq<B>)
    requires Undoes(read, min, write, view, good)
    requires forall item | item in items :: good(item)
    ensures Many(read, min, FlatMap(write, items) + rest) == Prepended(Map(view, items), Many(read, min, rest))
  {
    var s := FlatMap(write, items) + rest;
    if items == [] {
      assert s == rest;
      PrependedNothing(Many(read, min, rest));
    } else {
      var first, after := write(items[0]), FlatMap(write, items[1..]) + rest;
      ManyRoundTrip(read, min, write, view, good, items[1..], rest);
      Associative(first, FlatMap(write, items[1..]), rest);
      ManyAfterPiece(read, min, first, view(items[0]), after);
      PrependedTwice([view(items[0])], Map(view, items[1..]), Many(read, min, rest));
      assert Map(view, items) == [view(items[0])] + Map(view, items[1..]);
    }
  }
}
