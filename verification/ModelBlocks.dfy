/** Time-limited model blocks: stacking, pruning, and what they do to durable blocks. */
module ModelBlocks {
  import opened Wrappers
  import opened PoolMeta
  import opened PoolOps

  /** One time-limited block request. */
  datatype Add = Add(at: real, ttl: real)

  function BlockRun(m: Meta, model: ModelId, source: string, adds: seq<Add>): Meta {
    if adds == [] then m
    else
      var a := adds[|adds| - 1];
      BlockedFor(BlockRun(m, model, source, adds[..|adds| - 1]), model, source, Some(a.ttl), a.at)
  }

  predicate Positive(adds: seq<Add>) {
    forall i | 0 <= i < |adds| :: adds[i].ttl > 0.0
  }

  predicate Forward(adds: seq<Add>) {
    forall i, j | 0 <= i < j < |adds| :: adds[i].at <= adds[j].at
  }

  function TtlFrom(adds: seq<Add>, i: nat): real
    requires i <= |adds|
    decreases |adds| - i
  {
    if i == |adds| then 0.0 else adds[i].ttl + TtlFrom(adds, i + 1)
  }

  lemma {:induction false} TtlFromSnoc(adds: seq<Add>, i: nat)
    requires i < |adds|
    ensures TtlFrom(adds, i) == TtlFrom(adds[..|adds| - 1], i) + adds[|adds| - 1].ttl
    decreases |adds| - i
  {
    if i < |adds| - 1 {
      TtlFromSnoc(adds, i + 1);
    } else {
      assert TtlFrom(adds, i + 1) == 0.0;
    }
  }

  /** When the block would end if it started with the i-th request. */
  function EndFrom(adds: seq<Add>, i: nat): real
    requires i < |adds|
  {
    adds[i].at + TtlFrom(adds, i)
  }

  predicate HasUntil(m: Meta, model: ModelId) {
    model in m.blockedModels && m.blockedModels[model].until.Some?
  }

  function Until(m: Meta, model: ModelId): real
    requires HasUntil(m, model)
  {
    m.blockedModels[model].until.value
  }

  /** Stacked requests end at the latest of the ends counted from each request, for any clock. */
  lemma {:induction false} StackedUntil(m: Meta, model: ModelId, source: string, adds: seq<Add>) returns (start: nat)
    requires model != "" && !HasUntil(m, model)
    requires adds != [] && Positive(adds)
    ensures HasUntil(BlockRun(m, model, source, adds), model)
    ensures start < |adds| && Until(BlockRun(m, model, source, adds), model) == EndFrom(adds, start)
    ensures forall i: nat | i < |adds| :: EndFrom(adds, i) <= Until(BlockRun(m, model, source, adds), model)
  {
    var n := |adds| - 1;
    var prefix := adds[..n];
    forall i: nat | i < n
      ensures EndFrom(adds, i) == EndFrom(prefix, i) + adds[n].ttl
    {
      TtlFromSnoc(adds, i);
    }
    assert EndFrom(adds, n) == adds[n].at + adds[n].ttl by {
      assert TtlFrom(adds, n + 1) == 0.0;
    }
    start := n;
    if prefix != [] {
      var before := StackedUntil(m, model, source, prefix);
      if Until(BlockRun(m, model, source, prefix), model) > adds[n].at {
        start := before;
      }
    }
  }

  // ------------------------------------------------------------ conservation of time

  /** The time within [from, to] during which the model is blocked by a time-limited block. */
  function BlockedSpan(m: Meta, model: ModelId, from: real, to: real): real
    requires HasUntil(m, model)
  {
    RMax(0.0, RMin(to, Until(m, model)) - from)
  }

  /** Within the interval, the model is blocked exactly on an initial part of that length. */
  lemma BlockedSpanIsBlockedTime(m: Meta, model: ModelId, from: real, to: real, t: real)
    requires model != "" && HasUntil(m, model) && from <= t < to
    ensures IsModelBlocked(m, model, false, t) <==> t < from + BlockedSpan(m, model, from, to)
  {
  }

  /** Total blocked time from the first request up to the last one. */
  function BlockedUpToLast(m: Meta, model: ModelId, source: string, adds: seq<Add>): real
    requires model != "" && Positive(adds)
  {
    if |adds| <= 1 then 0.0
    else
      var prefix := adds[..|adds| - 1];
      BlockRunHasUntil(m, model, source, prefix);
      BlockedUpToLast(m, model, source, prefix)
      + BlockedSpan(BlockRun(m, model, source, prefix), model, prefix[|prefix| - 1].at, adds[|adds| - 1].at)
  }

  lemma BlockRunHasUntil(m: Meta, model: ModelId, source: string, adds: seq<Add>)
    requires model != "" && adds != [] && Positive(adds)
    ensures HasUntil(BlockRun(m, model, source, adds), model)
  {
  }

  /** Requests made at nondecreasing times block the model for exactly the sum of their lengths. */
  lemma {:induction false} BlockedTimeIsConserved(
      m: Meta, model: ModelId, source: string, adds: seq<Add>, horizon: real)
    requires model != "" && !HasUntil(m, model)
    requires adds != [] && Positive(adds) && Forward(adds)
    requires HasUntil(BlockRun(m, model, source, adds), model)
    requires horizon >= Until(BlockRun(m, model, source, adds), model)
    ensures BlockedUpToLast(m, model, source, adds)
            + BlockedSpan(BlockRun(m, model, source, adds), model, adds[|adds| - 1].at, horizon)
            == TtlFrom(adds, 0)
  {
    var n := |adds| - 1;
    var prefix := adds[..n];
    TtlFromSnoc(adds, 0);
    if prefix != [] {
      BlockRunHasUntil(m, model, source, prefix);
      BlockedTimeIsConserved(m, model, source, prefix, Until(BlockRun(m, model, source, prefix), model));
      assert prefix[n - 1].at < Until(BlockRun(m, model, source, prefix), model);
    }
  }

  // ------------------------------------------------------------ durable blocks

  /** A request leaves a durable block behind exactly when it carries no time limit. */
  lemma DurableAfterBlockIff(m: Meta, model: ModelId, source: string, ttl: Option<real>, now: real, t: real)
    requires model != ""
    ensures IsModelBlocked(BlockedFor(m, model, source, ttl, now), model, true, t)
            <==> (ttl.None? || ttl.value <= 0.0) && !IsTemporarySource(source)
  {
  }

  // ------------------------------------------------------------ pruning

  /** Eager pruning, lazy pruning and no pruning give the same answer from the prune on. */
  lemma PruningIsInvisible(m: Meta, pruned: real, model: ModelId, durableOnly: bool, t: real)
    requires pruned <= t
    ensures IsModelBlocked(Pruned(m, pruned), model, durableOnly, t) == IsModelBlocked(m, model, durableOnly, t)
    ensures IsModelBlocked(View(m, t), model, durableOnly, t) == IsModelBlocked(m, model, durableOnly, t)
    ensures LiveBlocks(Pruned(m, pruned).blockedModels, t) == LiveBlocks(m.blockedModels, t)
    ensures model != "" ==> (model in View(m, t).blockedModels <==> IsModelBlocked(m, model, false, t))
  {
  }

  /** The lapsed blocks are exactly those pruning removes. */
  lemma PrunedCount(m: Meta, now: real)
    ensures Pruned(m, now).blockedModels.Keys == m.blockedModels.Keys - LapsedModels(m.blockedModels, now)
    ensures forall model | model in m.blockedModels && model != "" ::
              model in LapsedModels(m.blockedModels, now) <==> !IsModelBlocked(m, model, false, now)
    ensures |m.blockedModels| - |Pruned(m, now).blockedModels| == |LapsedModels(m.blockedModels, now)|
  {
    var kept := Pruned(m, now).blockedModels.Keys;
    var gone := LapsedModels(m.blockedModels, now);
    assert kept + gone == m.blockedModels.Keys;
    assert |kept + gone| == |kept| + |gone|;
  }
}
