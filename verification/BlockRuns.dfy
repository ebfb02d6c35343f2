/** Model blocks under all operations: what each leaves of a block, and when a durable one stands. */
module BlockRuns {
  import opened Wrappers
  import opened Latch
  import opened PoolMeta
  import opened PoolOps
  import opened PoolRuns
  import opened Tallies

  /** A block that has not lapsed: by whom, since when and until when. */
  datatype Hold = Hold(source: string, since: real, until: Option<real>)

  predicate Stands(h: Option<Hold>, t: real) {
    h.Some? && (h.value.until.None? || t < h.value.until.value)
  }

  function StandingAt(h: Option<Hold>, t: real): Option<Hold> {
    if Stands(h, t) then h else None
  }

  function HoldOf(m: Meta, model: ModelId, t: real): Option<Hold> {
    if model in m.blockedModels then
      var b := m.blockedModels[model];
      StandingAt(Some(Hold(b.source, b.blockedAt, b.until)), t)
    else None
  }

  /** A block laid now: time is counted from the end of the one that stands, if that has one. */
  function Laid(h: Option<Hold>, source: string, ttl: Option<real>, now: real): Option<Hold> {
    if ttl.Some? && ttl.value > 0.0 then
      var from := if h.Some? && h.value.until.Some? && h.value.until.value > now then h.value.until.value else now;
      Some(Hold(source, now, Some(from + ttl.value)))
    else Some(Hold(source, now, None))
  }

  /** A free-usage error blocks the model it names, or else the requested one, for three minutes an error counted. */
  function Exhausts(usage: FreeUsage, requested: ModelId, model: ModelId): bool {
    model != "" && model == if usage.model != "" then usage.model else requested
  }

  function LaidByUsage(
      h: Option<Hold>, usage: FreeUsage, requested: ModelId, model: ModelId, count: nat, now: real): Option<Hold>
  {
    if Exhausts(usage, requested, model) then Laid(h, "temp_usage", Some(180.0 * count as real), now) else h
  }

  function LaidByHandler(
      h: Option<Hold>, handler: Handler, requested: ModelId, model: ModelId, count: nat, now: real): Option<Hold>
  {
    if requested == "" then h
    else
      match handler
      case UsageHandler(usage) => LaidByUsage(h, usage, requested, model, count, now)
      case ModelGoneHandler(ttl) => if requested == model then Laid(h, "upstream_error", Some(ttl), now) else h
      case NoHandler => h
  }

  predicate IsTemporary(h: Hold) {
    h.until.Some? || h.source == "temp_usage" || h.source == "soft" || h.source == "temporary"
  }

  /** What an operation makes of the block of one model. `handled` and `counted` are the failure counts once
      the handler has run and at the end. */
  function Next(
      op: Op, h: Option<Hold>, model: ModelId, cooling: bool, handled: nat, counted: nat, now: real): Option<Hold>
  {
    match op
    case BlockModel(named, source, ttl) => if named == model then Laid(h, source, ttl, now) else h
    case UnblockModel(named) => if named == "" || named == model then None else h
    case SetEnabled(enabled) => if enabled then None else h
    case FreeUsageExhaustion(usage, requested) => LaidByUsage(h, usage, requested, model, counted, now)
    case ProbeError(free, requested, _, _) =>
      if free.Some? then LaidByUsage(h, free.value, requested, model, handled, now) else h
    case ReportFailure(free, _, handler, requested) =>
      var g := LaidByHandler(h, handler, requested, model, handled, now);
      if free.Some? then LaidByUsage(g, free.value, requested, model, counted, now) else g
    case ReportSuccess(named) =>
      if named == model && !cooling && h.Some? && IsTemporary(h.value) then None else h
    case ProbeOk(named) =>
      if named == model && h.Some?
         && (IsTemporary(h.value) || h.value.source == "probe" || h.value.source == "") then None
      else h
    case _ => h
  }

  /** The failure count once a free-usage error or the handler has been dealt with. */
  function CountWhenHandled(op: Op, m: Meta, now: real): nat {
    match op
    case ReportFailure(_, _, handler, model) => Handled(m, handler, model, now).cooldownCount
    case ProbeError(free, model, _, _) =>
      if free.Some? then FreeUsageHit(m, free.value, model, now).cooldownCount else m.cooldownCount
    case _ => m.cooldownCount
  }

  // One step

  /** Up to four errors are counted, and each adds three minutes to the block of the model. */
  lemma SoftBlockIsThreeMinutesEach(count: nat)
    requires 1 <= count <= 4
    ensures SoftBlockTtl(count) == 180.0 * count as real
  {
    assert Growth(0) == 1.0 && Growth(1) == 1.5 && Growth(2) == 2.25 && Growth(3) == 3.375;
  }

  lemma BlockedForHold(m: Meta, named: ModelId, source: string, ttl: Option<real>, now: real, model: ModelId, t: real)
    requires model != "" && now <= t
    ensures HoldOf(BlockedFor(m, named, source, ttl, now), model, t)
         == StandingAt(if named == model then Laid(HoldOf(m, model, now), source, ttl, now)
                       else HoldOf(m, model, now), t)
  {
  }

  lemma FreeUsageHold(m: Meta, usage: FreeUsage, requested: ModelId, now: real, model: ModelId, t: real)
    requires model != "" && now <= t
    ensures var n := FreeUsageHit(m, usage, requested, now);
            HoldOf(n, model, t)
            == StandingAt(LaidByUsage(HoldOf(m, model, now), usage, requested, model, n.cooldownCount, now), t)
  {
    var n, v := FreeUsageHit(m, usage, requested, now), View(m, now);
    var named := if usage.model != "" then usage.model else requested;
    var ttl := SoftBlockTtl(FreeUsageCount(v, now));
    assert n.cooldownCount == FreeUsageCount(v, now);
    SoftBlockIsThreeMinutesEach(n.cooldownCount);
    BlockedForHold(m, named, "temp_usage", Some(ttl), now, model, t);
    assert n.blockedModels == BlockedFor(m, named, "temp_usage", Some(ttl), now).blockedModels;
  }

  lemma HandlerHold(m: Meta, handler: Handler, requested: ModelId, now: real, model: ModelId, t: real)
    requires model != "" && now <= t
    ensures var n := Handled(m, handler, requested, now);
            HoldOf(n, model, t)
            == StandingAt(LaidByHandler(HoldOf(m, model, now), handler, requested, model, n.cooldownCount, now), t)
  {
    match handler
    case UsageHandler(usage) => FreeUsageHold(m, usage, requested, now, model, t);
    case ModelGoneHandler(ttl) =>
      if requested != "" {
        var b := BlockedFor(m, requested, "upstream_error", Some(ttl), now);
        BlockedForHold(m, requested, "upstream_error", Some(ttl), now, model, t);
        assert SoftKicked(b, now).blockedModels == b.blockedModels;
      }
    case NoHandler =>
  }

  lemma RecordedHold(
      h: Meta, seen: seq<StatusEntry>, streak: nat, free: Option<FreeUsage>, empty: bool, requested: ModelId,
      now: real, model: ModelId, t: real)
    requires model != "" && now <= t
    ensures var n, g := FailureRecorded(h, seen, streak, free, empty, requested, now), HoldOf(h, model, now);
            HoldOf(n, model, t)
            == StandingAt(if free.Some? then LaidByUsage(g, free.value, requested, model, n.cooldownCount, now) else g,
                          t)
  {
    if free.Some? {
      var f := FreeUsageHit(h, free.value, requested, now);
      FreeUsageHold(h, free.value, requested, now, model, t);
      var n := FailureRecorded(h, seen, streak, free, empty, requested, now);
      assert n.blockedModels == f.blockedModels && n.cooldownCount == f.cooldownCount;
    }
  }

  lemma HandlerLaysStanding(
      h: Option<Hold>, handler: Handler, requested: ModelId, model: ModelId, count: nat, now: real)
    requires h == StandingAt(h, now)
    ensures var g := LaidByHandler(h, handler, requested, model, count, now); StandingAt(g, now) == g
  {
  }

  lemma FailureHold(
      v: Meta, m: Meta, free: Option<FreeUsage>, empty: bool, handler: Handler, requested: ModelId, now: real,
      model: ModelId, t: real)
    requires model != "" && now <= t
    ensures var h, n := Handled(m, handler, requested, now), FailureOf(v, m, free, empty, handler, requested, now);
            HoldOf(n, model, t) == StandingAt(Next(ReportFailure(free, empty, handler, requested),
                                                   HoldOf(m, model, now), model, false,
                                                   h.cooldownCount, n.cooldownCount, now), t)
  {
    var h, before := Handled(m, handler, requested, now), HoldOf(m, model, now);
    var n := FailureRecorded(h, v.statusStack, v.consecutiveFails + 1, free, empty, requested, now);
    var g := LaidByHandler(before, handler, requested, model, h.cooldownCount, now);
    assert HoldOf(h, model, now) == g by {
      HandlerHold(m, handler, requested, now, model, now);
      HandlerLaysStanding(before, handler, requested, model, h.cooldownCount, now);
    }
    assert HoldOf(n, model, t) == StandingAt(
      if free.Some? then LaidByUsage(g, free.value, requested, model, n.cooldownCount, now) else g, t) by {
      RecordedHold(h, v.statusStack, v.consecutiveFails + 1, free, empty, requested, now, model, t);
    }
    FailureLaysBoth(before, free, empty, handler, requested, model, h.cooldownCount, n.cooldownCount, now);
  }

  lemma FailureLaysBoth(
      h: Option<Hold>, free: Option<FreeUsage>, empty: bool, handler: Handler, requested: ModelId, model: ModelId,
      handled: nat, counted: nat, now: real)
    ensures var g := LaidByHandler(h, handler, requested, model, handled, now);
            Next(ReportFailure(free, empty, handler, requested), h, model, false, handled, counted, now)
            == if free.Some? then LaidByUsage(g, free.value, requested, model, counted, now) else g
  {
  }

  lemma SuccessHold(m: Meta, named: ModelId, now: real, model: ModelId, t: real)
    requires Inv(m) && model != "" && now <= t
    ensures HoldOf(LiveSuccess(m, named, now), model, t)
         == StandingAt(Next(ReportSuccess(named), HoldOf(m, model, now), model, m.cooldownCount > 0, 0, 0, now), t)
  {
    CoolingIsClockFree(m, now, now);
    var touched := Touched(m, true, None, Some(0), true, now);
    assert touched.blockedModels == m.blockedModels;
    SettledHold(touched, named, now, model, t);
  }

  lemma SettledHold(m: Meta, named: ModelId, now: real, model: ModelId, t: real)
    requires model != "" && now <= t
    ensures HoldOf(SuccessSettled(m, named, now), model, t)
         == StandingAt(Next(ReportSuccess(named), HoldOf(m, model, now), model, false, 0, 0, now), t)
  {
  }

  lemma ProbeErrorHold(
      m: Meta, free: Option<FreeUsage>, requested: ModelId, autoKick: bool, kickAt: nat, now: real,
      model: ModelId, t: real)
    requires model != "" && now <= t
    ensures var op := ProbeError(free, requested, autoKick, kickAt);
            var n := ProbeFailed(m, free, requested, autoKick, kickAt, now);
            HoldOf(n, model, t) == StandingAt(Next(op, HoldOf(m, model, now), model, false,
                                                   CountWhenHandled(op, m, now), n.cooldownCount, now), t)
  {
    if free.Some? {
      FreeUsageHold(m, free.value, requested, now, model, t);
    }
  }

  lemma ProbeOkHold(m: Meta, named: ModelId, now: real, model: ModelId, t: real)
    requires model != "" && now <= t
    ensures HoldOf(ProbeSucceeded(m, named, now), model, t)
         == StandingAt(Next(ProbeOk(named), HoldOf(m, model, now), model, false, 0, 0, now), t)
  {
  }

  /** What every operation leaves, from now on, of the block of every model. */
  predicate HoldsAs(op: Op, m: Meta, model: ModelId, now: real, t: real) {
    HoldOf(Step(op, m, now), model, t)
    == StandingAt(Next(op, HoldOf(m, model, now), model, m.cooldownCount > 0, CountWhenHandled(op, m, now),
                       Step(op, m, now).cooldownCount, now), t)
  }

  lemma {:induction false} TrafficHold(op: Op, m: Meta, model: ModelId, now: real, t: real)
    requires Inv(m) && IsTraffic(op) && model != "" && now <= t
    ensures HoldsAs(op, m, model, now, t)
  {
    match op
    case ReportSuccess(named) => SuccessHold(m, named, now, model, t);
    case ReportFailure(free, empty, handler, requested) =>
      FailureHold(View(m, now), m, free, empty, handler, requested, now, model, t);
    case FreeUsageExhaustion(usage, requested) => FreeUsageHold(m, usage, requested, now, model, t);
    case ProbeError(free, requested, autoKick, kickAt) =>
      ProbeErrorHold(m, free, requested, autoKick, kickAt, now, model, t);
    case KickSoft =>
  }

  lemma {:induction false} RenewalHold(op: Op, m: Meta, model: ModelId, now: real, t: real)
    requires IsRenewal(op) && model != "" && now <= t
    ensures HoldsAs(op, m, model, now, t)
  {
  }

  lemma UnblockedHold(m: Meta, named: ModelId, now: real, model: ModelId, t: real)
    requires model != "" && now <= t
    ensures HoldOf(Unblocked(m, named, now), model, t)
         == StandingAt(if named == "" || named == model then None else HoldOf(m, model, now), t)
  {
  }

  lemma PrunedHold(m: Meta, now: real, model: ModelId, t: real)
    requires model != "" && now <= t
    ensures HoldOf(Pruned(m, now), model, t) == StandingAt(HoldOf(m, model, now), t)
  {
  }

  lemma {:induction false} UpkeepHold(op: Op, m: Meta, model: ModelId, now: real, t: real)
    requires IsUpkeep(op) && model != "" && now <= t
    ensures HoldsAs(op, m, model, now, t)
  {
    match op
    case BlockModel(named, source, ttl) => BlockedForHold(m, named, source, ttl, now, model, t);
    case UnblockModel(named) => UnblockedHold(m, named, now, model, t);
    case PruneBlocks => PrunedHold(m, now, model, t);
    case ClockPrune =>
    case SaveLastProbe(writes) => assert ProbeSaved(m, writes, now).blockedModels == m.blockedModels;
  }

  lemma EnabledHold(m: Meta, enabled: bool, now: real, model: ModelId, t: real)
    requires model != "" && now <= t
    ensures HoldOf(EnabledSet(m, enabled, now), model, t)
         == StandingAt(if enabled then None else HoldOf(m, model, now), t)
  {
  }

  lemma {:induction false} SwitchHold(op: Op, m: Meta, model: ModelId, now: real, t: real)
    requires IsSwitch(op) && model != "" && now <= t
    ensures HoldsAs(op, m, model, now, t)
  {
    if op.SetEnabled? {
      EnabledHold(m, op.enabled, now, model, t);
    }
  }

  lemma {:induction false} ReenableHold(op: Op, m: Meta, model: ModelId, now: real, t: real)
    requires IsReenable(op) && model != "" && now <= t
    ensures HoldsAs(op, m, model, now, t)
  {
    assert Step(op, m, now).blockedModels == m.blockedModels;
  }

  lemma {:induction false} RecoveryHold(op: Op, m: Meta, model: ModelId, now: real, t: real)
    requires IsRecovery(op) && model != "" && now <= t
    ensures HoldsAs(op, m, model, now, t)
  {
    if op.ProbeOk? {
      ProbeOkHold(m, op.model, now, model, t);
    }
  }

  lemma {:induction false} StepHolds(op: Op, m: Meta, model: ModelId, now: real, t: real)
    requires Inv(m) && model != "" && now <= t
    ensures HoldsAs(op, m, model, now, t)
  {
    if IsTraffic(op) {
      TrafficHold(op, m, model, now, t);
    } else if IsRenewal(op) {
      RenewalHold(op, m, model, now, t);
    } else if IsUpkeep(op) {
      UpkeepHold(op, m, model, now, t);
    } else if IsRecovery(op) {
      RecoveryHold(op, m, model, now, t);
    } else if IsSwitch(op) {
      SwitchHold(op, m, model, now, t);
    } else {
      ReenableHold(op, m, model, now, t);
    }
  }

  /** A model is blocked at t exactly while a block of it stands. */
  lemma BlockedIffStands(m: Meta, model: ModelId, t: real)
    requires model != ""
    ensures IsModelBlocked(m, model, false, t) <==> HoldOf(m, model, t).Some?
    ensures IsModelBlocked(m, model, true, t) <==> HoldOf(m, model, t).Some? && !IsTemporary(HoldOf(m, model, t).value)
  {
  }

  // Durable blocks over whole runs

  predicate DurablyBlocked(m: Meta, model: ModelId) {
    model in m.blockedModels && m.blockedModels[model].until.None?
    && m.blockedModels[model].source !in {"temp_usage", "soft", "temporary"}
  }

  predicate HasNoEnd(ttl: Option<real>) {
    ttl.None? || ttl.value <= 0.0
  }

  /** The operation lays a durable block on the model. */
  predicate LaysDurable(op: Op, model: ModelId) {
    match op
    case BlockModel(named, source, ttl) =>
      named == model && HasNoEnd(ttl) && source !in {"temp_usage", "soft", "temporary"}
    case ReportFailure(free, _, handler, requested) =>
      && requested == model && handler.ModelGoneHandler? && handler.durableTtl <= 0.0
      && !(free.Some? && Exhausts(free.value, requested, model))
    case _ => false
  }

  /** The operation takes a durable block off the model, or puts a temporary one in its place. */
  predicate LiftsDurable(op: Op, m: Meta, model: ModelId) {
    match op
    case BlockModel(named, source, ttl) => named == model
    case UnblockModel(named) => named == "" || named == model
    case SetEnabled(enabled) => enabled
    case FreeUsageExhaustion(usage, requested) => Exhausts(usage, requested, model)
    case ProbeError(free, requested, _, _) => free.Some? && Exhausts(free.value, requested, model)
    case ReportFailure(free, _, handler, requested) =>
      || (free.Some? && Exhausts(free.value, requested, model))
      || (handler.UsageHandler? && requested != "" && Exhausts(handler.usage, requested, model))
      || (handler.ModelGoneHandler? && requested == model)
    case ProbeOk(named) =>
      named == model && model in m.blockedModels && m.blockedModels[model].source in {"probe", ""}
    case _ => false
  }

  lemma DurableIffHold(m: Meta, model: ModelId, t: real)
    requires model != ""
    ensures DurablyBlocked(m, model) <==> HoldOf(m, model, t).Some? && !IsTemporary(HoldOf(m, model, t).value)
    ensures DurablyBlocked(m, model) <==> IsModelBlocked(m, model, true, t)
    ensures DurablyBlocked(m, model) ==> HoldOf(m, model, t).value.source == m.blockedModels[model].source
  {
  }

  /** For every operation: a durable block stands afterwards iff the operation lays it, or it stood and is not
      lifted. */
  lemma {:induction false} StepDurable(op: Op, m: Meta, model: ModelId, now: real)
    requires Inv(m) && model != ""
    ensures DurablyBlocked(Step(op, m, now), model)
        <==> LaysDurable(op, model) || (DurablyBlocked(m, model) && !LiftsDurable(op, m, model))
  {
    var h, n := HoldOf(m, model, now), Step(op, m, now);
    DurableIffHold(m, model, now);
    DurableIffHold(n, model, now);
    StepHolds(op, m, model, now, now);
    NextDurable(op, m, h, model, m.cooldownCount > 0, CountWhenHandled(op, m, now), n.cooldownCount, now);
  }

  lemma {:induction false} NextDurable(
      op: Op, m: Meta, h: Option<Hold>, model: ModelId, cooling: bool, handled: nat, counted: nat, now: real)
    requires model != "" && h == StandingAt(h, now)
    requires DurablyBlocked(m, model) <==> h.Some? && !IsTemporary(h.value)
    requires DurablyBlocked(m, model) ==> h.value.source == m.blockedModels[model].source
    ensures var g := StandingAt(Next(op, h, model, cooling, handled, counted, now), now);
            g.Some? && !IsTemporary(g.value)
            <==> LaysDurable(op, model) || (DurablyBlocked(m, model) && !LiftsDurable(op, m, model))
  {
  }

  predicate LaidAt(events: seq<Event>, i: nat, id: AccountId, model: ModelId) {
    i < |events| && events[i].id == id && LaysDurable(events[i].op, model)
  }

  predicate LiftedAt(metas: map<AccountId, Meta>, events: seq<Event>, i: nat, id: AccountId, model: ModelId) {
    i < |events| && events[i].id == id
    && !LaysDurable(events[i].op, model) && LiftsDurable(events[i].op, Get(Run(metas, events[..i]), id), model)
  }

  function Layings(events: seq<Event>, id: AccountId, model: ModelId): nat -> bool {
    (i: nat) => LaidAt(events, i, id, model)
  }

  function Liftings(metas: map<AccountId, Meta>, events: seq<Event>, id: AccountId, model: ModelId): nat -> bool {
    (i: nat) => LiftedAt(metas, events, i, id, model)
  }

  /** A durable block was laid (or stood from the start), and nothing since lifted or replaced it. */
  ghost predicate UnliftedBlock(metas: map<AccountId, Meta>, events: seq<Event>, id: AccountId, model: ModelId) {
    Unlifted(DurablyBlocked(Get(metas, id), model),
             Layings(events, id, model), Liftings(metas, events, id, model), |events|)
  }

  lemma UnliftedBlockStep(metas: map<AccountId, Meta>, events: seq<Event>, id: AccountId, model: ModelId)
    requires events != []
    ensures var n := |events| - 1;
            UnliftedBlock(metas, events, id, model)
            <==> LaidAt(events, n, id, model)
                 || (UnliftedBlock(metas, events[..n], id, model) && !LiftedAt(metas, events, n, id, model))
  {
    var n, prefix := |events| - 1, events[..|events| - 1];
    var sets, lifts := Layings(events, id, model), Liftings(metas, events, id, model);
    var sets2, lifts2 := Layings(prefix, id, model), Liftings(metas, prefix, id, model);
    forall k: nat | k < n
      ensures sets(k) == sets2(k) && lifts(k) == lifts2(k)
    {
      assert events[..k] == prefix[..k];
    }
    UnliftedGrows(DurablyBlocked(Get(metas, id), model), sets, lifts, sets2, lifts2, n);
  }

  lemma DurableAfterEvent(metas: map<AccountId, Meta>, e: Event, id: AccountId, model: ModelId)
    requires PoolInv(metas) && id != "" && model != ""
    ensures DurablyBlocked(Get(Apply(metas, e), id), model)
        <==> (e.id == id && LaysDurable(e.op, model))
             || (DurablyBlocked(Get(metas, id), model)
                 && !(e.id == id && !LaysDurable(e.op, model) && LiftsDurable(e.op, Get(metas, id), model)))
  {
    if e.id == id {
      StepDurable(e.op, Get(metas, id), model, e.now);
    }
  }

  /** After every run, at every time, a model is durably blocked exactly when something laid a durable block on it
      and nothing since lifted or replaced it. */
  lemma {:induction false} DurableIffUnlifted(
      metas: map<AccountId, Meta>, events: seq<Event>, id: AccountId, model: ModelId, t: real)
    requires PoolInv(metas) && id != "" && model != ""
    ensures IsModelBlocked(Get(Run(metas, events), id), model, true, t) <==> UnliftedBlock(metas, events, id, model)
    decreases |events|
  {
    DurableIffHold(Get(Run(metas, events), id), model, t);
    if events != [] {
      var n := |events| - 1;
      RunKeepsInv(metas, events[..n]);
      DurableIffUnlifted(metas, events[..n], id, model, t);
      DurableIffHold(Get(Run(metas, events[..n]), id), model, t);
      UnliftedBlockStep(metas, events, id, model);
      DurableAfterEvent(Run(metas, events[..n]), events[n], id, model);
    }
  }
}
