/** How repeated free-usage errors stack up on one account. */
module FreeUsageRuns {
  import opened Wrappers
  import opened PoolMeta
  import opened PoolOps
  import PoolRuns

  datatype Hit = Hit(usage: FreeUsage, model: ModelId, at: real)

  function HitRun(m: Meta, hits: seq<Hit>): Meta {
    if hits == [] then m
    else
      var h := hits[|hits| - 1];
      FreeUsageHit(HitRun(m, hits[..|hits| - 1]), h.usage, h.model, h.at)
  }

  /** A clock that has passed zero. */
  predicate Started(hits: seq<Hit>) {
    forall i | 0 <= i < |hits| :: hits[i].at > 0.0
  }

  /** A clock that does not run backwards either. */
  predicate Forward(hits: seq<Hit>) {
    Started(hits) && forall i, j | 0 <= i < j < |hits| :: hits[i].at <= hits[j].at
  }

  function Last<T>(s: seq<T>): T
    requires s != []
  {
    s[|s| - 1]
  }

  predicate Spaced(stack: seq<StatusEntry>) {
    forall j | 1 <= j < |stack| :: stack[j].at - stack[j - 1].at >= FREE_USAGE_RESTACK_MIN_SEC
  }

  predicate StackDisciplined(m: Meta) {
    && 1 <= m.cooldownCount == |m.statusStack| <= FREE_USAGE_STACK_MAX
    && Spaced(m.statusStack)
    && 0.0 < Last(m.statusStack).at
    && m.cooldownUntil.Some?
    && m.cooldownUntil.value >= Last(m.statusStack).at + PROBE_HOLD_COOLDOWN_SEC
  }

  lemma FirstHit(m: Meta, h: Hit)
    requires PoolRuns.Inv(m) && m.cooldownCount == 0 && h.at > 0.0
    ensures StackDisciplined(FreeUsageHit(m, h.usage, h.model, h.at))
    ensures FreeUsageHit(m, h.usage, h.model, h.at).statusStack == [StatusEntry(FreeUsageExhausted, h.at)]
  {
  }

  lemma GrownStack(stack: seq<StatusEntry>, entry: StatusEntry)
    requires stack != [] && Spaced(stack) && entry.at - Last(stack).at >= FREE_USAGE_RESTACK_MIN_SEC
    ensures var s := LastN(stack + [entry], FREE_USAGE_STACK_MAX);
            s != [] && Spaced(s) && Last(s) == entry
  {
    assert Spaced(stack + [entry]);
  }

  lemma NextHit(m: Meta, h: Hit)
    requires StackDisciplined(m) && h.at > 0.0
    ensures StackDisciplined(FreeUsageHit(m, h.usage, h.model, h.at))
  {
    var v := View(m, h.at);
    if Restacks(v, h.at) {
      assert h.at - Last(m.statusStack).at >= FREE_USAGE_RESTACK_MIN_SEC;
      GrownStack(m.statusStack, StatusEntry(FreeUsageExhausted, h.at));
    }
  }

  /**
   From a clear account, any run of free-usage errors keeps one stack entry per counted
   error, between one and four of them, at least thirty seconds apart, even if the clock
   steps back between errors.
   */
  lemma {:induction false} StackStaysDisciplined(m: Meta, hits: seq<Hit>)
    requires PoolRuns.Inv(m) && m.cooldownCount == 0
    requires hits != [] && Started(hits)
    ensures StackDisciplined(HitRun(m, hits))
  {
    var prefix := hits[..|hits| - 1];
    if prefix == [] {
      FirstHit(m, Last(hits));
    } else {
      StackStaysDisciplined(m, prefix);
      NextHit(HitRun(m, prefix), Last(hits));
    }
  }

  /**
   The errors that count: the first one, and then each with room and thirty seconds of
   distance. On an account held for renewal (its label says expired, not cooldown) an
   error after the end marker has passed counts as well, and displaces the oldest.
   */
  function Counted(held: bool, previous: real, counted: seq<real>, at: real): seq<real> {
    if counted == [] then [at]
    else if held && at >= previous + PROBE_HOLD_COOLDOWN_SEC then
      if |counted| < FREE_USAGE_STACK_MAX then counted + [at] else counted[1..] + [at]
    else if |counted| < FREE_USAGE_STACK_MAX && at - Last(counted) >= FREE_USAGE_RESTACK_MIN_SEC then counted + [at]
    else counted
  }

  function CountedTimes(held: bool, hits: seq<Hit>): seq<real> {
    if hits == [] then []
    else
      var prefix := hits[..|hits| - 1];
      Counted(held, if prefix == [] then 0.0 else Last(prefix).at, CountedTimes(held, prefix), Last(hits).at)
  }

  predicate Records(m: Meta, held: bool, last: real, counted: seq<real>) {
    && m.poolStatus == Some(Cooldown)
    && (held <==> IsRenewBlocking(m.lastRenewStatus))
    && m.cooldownUntil == Some(last + PROBE_HOLD_COOLDOWN_SEC)
    && 0 < m.cooldownCount == |counted| == |m.statusStack|
    && Last(counted) <= last
    && forall i | 0 <= i < |counted| :: m.statusStack[i] == StatusEntry(FreeUsageExhausted, counted[i])
  }

  lemma RestacksIff(m: Meta, held: bool, last: real, counted: seq<real>, at: real)
    requires StackDisciplined(m) && at >= last && Records(m, held, last, counted)
    ensures Restacks(View(m, at), at) <==>
      || (held && at >= last + PROBE_HOLD_COOLDOWN_SEC)
      || (|counted| < FREE_USAGE_STACK_MAX && at - Last(counted) >= FREE_USAGE_RESTACK_MIN_SEC)
  {
    assert Last(m.statusStack).at == Last(counted);
    assert StillActive(View(m, at), at) <==> !(held && at >= last + PROBE_HOLD_COOLDOWN_SEC);
  }

  lemma NextStack(m: Meta, held: bool, last: real, counted: seq<real>, at: real)
    requires StackDisciplined(m) && at >= last && Records(m, held, last, counted)
    ensures var stack, next := FreeUsageStack(View(m, at), at), Counted(held, last, counted, at);
            && FreeUsageCount(View(m, at), at) == |next| == |stack|
            && forall i | 0 <= i < |next| :: stack[i] == StatusEntry(FreeUsageExhausted, next[i])
  {
    var v := View(m, at);
    RestacksIff(m, held, last, counted, at);
    assert counted != [];
    if Restacks(v, at) {
      var longer := m.statusStack + [StatusEntry(FreeUsageExhausted, at)];
      assert FreeUsageStack(v, at) == LastN(longer, FREE_USAGE_STACK_MAX);
    }
  }

  lemma NextRecord(m: Meta, held: bool, last: real, counted: seq<real>, h: Hit)
    requires StackDisciplined(m) && h.at >= last && Records(m, held, last, counted)
    ensures Records(FreeUsageHit(m, h.usage, h.model, h.at), held, h.at, Counted(held, last, counted, h.at))
  {
    NextStack(m, held, last, counted, h.at);
  }

  /** On every clear account the stack records exactly the counted errors. */
  lemma {:induction false} StackRecordsCountedErrors(m: Meta, hits: seq<Hit>)
    requires PoolRuns.Inv(m) && m.cooldownCount == 0
    requires hits != [] && Forward(hits)
    ensures var held := IsRenewBlocking(m.lastRenewStatus);
            Records(HitRun(m, hits), held, Last(hits).at, CountedTimes(held, hits))
  {
    var held, prefix, h := IsRenewBlocking(m.lastRenewStatus), hits[..|hits| - 1], Last(hits);
    if prefix == [] {
      FirstRecord(m, h);
      assert HitRun(m, hits) == FreeUsageHit(m, h.usage, h.model, h.at);
    } else {
      StackStaysDisciplined(m, prefix);
      StackRecordsCountedErrors(m, prefix);
      var before, counted := HitRun(m, prefix), CountedTimes(held, prefix);
      NextRecord(before, held, Last(prefix).at, counted, h);
      assert HitRun(m, hits) == FreeUsageHit(before, h.usage, h.model, h.at);
    }
  }

  lemma FirstRecord(m: Meta, h: Hit)
    requires PoolRuns.Inv(m) && m.cooldownCount == 0 && h.at > 0.0
    ensures Records(FreeUsageHit(m, h.usage, h.model, h.at), IsRenewBlocking(m.lastRenewStatus), h.at, [h.at])
  {
    FirstHit(m, h);
  }

  /** The recorded end of the cooldown never moves backwards, on any account. */
  lemma UntilNeverDecreases(m: Meta, h: Hit)
    ensures var n := FreeUsageHit(m, h.usage, h.model, h.at);
            && n.cooldownUntil.Some?
            && n.cooldownUntil.value >= h.at + PROBE_HOLD_COOLDOWN_SEC
            && (m.cooldownUntil.Some? ==> n.cooldownUntil.value >= m.cooldownUntil.value)
  {
  }

  lemma {:induction false} GrowthIncreases(a: nat, b: nat)
    requires a <= b
    ensures 1.0 <= Growth(a) <= Growth(b)
    decreases b
  {
    if a < b {
      GrowthIncreases(a, b - 1);
    } else if b > 0 {
      GrowthIncreases(a - 1, b - 1);
    }
  }

  /** The displayed wait grows with the count, from fifteen minutes up to one hour. */
  lemma DisplayTtlBounds(a: nat, b: nat)
    requires a <= b
    ensures FREE_USAGE_COOLDOWN_BASE_SEC <= DisplayTtl(a) <= DisplayTtl(b) <= FREE_USAGE_COOLDOWN_MAX_SEC
    ensures b <= 1 ==> DisplayTtl(b) == FREE_USAGE_COOLDOWN_BASE_SEC
    ensures a >= 5 ==> DisplayTtl(a) == FREE_USAGE_COOLDOWN_MAX_SEC
  {
    GrowthIncreases(NMax(1, a) - 1, NMax(1, b) - 1);
    if a >= 5 {
      assert Growth(2) == 2.25;
      assert Growth(4) > 5.0;
      GrowthIncreases(4, a - 1);
    }
  }
}
