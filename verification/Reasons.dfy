/**
 Why an account is switched off, and how its last renewal went, told by its history. The
 board is a machine of its own; on it, a source that blames the account's quota or a probe
 is found in one place, as the two source fields of a reachable record never disagree.
 */
module Reasons {
  import opened Wrappers
  import opened PoolMeta
  import opened PoolOps
  import opened PoolRuns
  import opened Switches
  import opened Tallies

  datatype Board = Board(
    enabled: bool,
    forQuota: bool,
    reason: string,
    source: string,
    quotaSource: string,
    renewal: RenewStatus)

  function BoardOf(m: Meta): Board {
    Board(m.enabled, m.disabledForQuota, m.disabledReason, m.disabledSource, m.quotaSource, m.lastRenewStatus)
  }

  /** A source is on record only while the account is disabled for quota, which no enabled account is. */
  predicate SourceFits(b: Board) {
    (b.source != "" ==> b.forQuota) && (b.forQuota ==> !b.enabled)
  }

  predicate Occurs(word: string, s: string) {
    exists i | 0 <= i <= |s| :: word <= s[i..]
  }

  /** A failed probe is to blame. */
  predicate ByProbe(b: Board) {
    b.quotaSource == "model_health" || b.quotaSource == "probe" || b.quotaSource == "probe_kick"
  }

  predicate SaysProbeFailed(reason: string) {
    "模型探测失败" <= reason || "模型不可用" <= reason || "探测连续失败" <= reason
  }

  /** A successful probe switches the account on. */
  predicate ProbeLifts(b: Board) {
    && !b.enabled && !b.forQuota
    && (ByProbe(b) || ((b.quotaSource == "" || b.quotaSource == "None")
                       && (SaysProbeFailed(b.reason) || "临时额度耗尽" <= b.reason)))
  }

  /** The clean-up of accounts kicked by probes switches it on. */
  predicate CleanUpLifts(b: Board) {
    !b.enabled && !b.forQuota && (ByProbe(b) || SaysProbeFailed(b.reason))
  }

  /** A healthy quota snapshot switches it on. */
  predicate SnapshotLifts(b: Board) {
    || b.forQuota
    || b.quotaSource == "billing" || b.quotaSource == "upstream_error"
    || b.quotaSource == "model_health" || b.quotaSource == "quota"
    || (!b.enabled && Occurs("额度", b.reason))
  }

  function SwitchedOn(b: Board): Board {
    Board(true, false, "", "", "", b.renewal)
  }

  function Forgiven(b: Board): Board {
    b.(enabled := true, reason := "", source := "")
  }

  function Next(op: Op, b: Board): Board {
    match op
    case ReportFailure(_, _, _, _) => if IsFreeUsage(op) then Forgiven(b).(forQuota := false) else b
    case FreeUsageExhaustion(_, _) => Forgiven(b).(forQuota := false)
    case ProbeError(_, _, _, _) => if IsFreeUsage(op) then Forgiven(b).(forQuota := false) else b
    case ProbeOk(_) => if ProbeLifts(b) then Forgiven(b) else b
    case ReenableProbeKicks => if CleanUpLifts(b) then Forgiven(b) else b
    case SaveHealthyQuota => if SnapshotLifts(b) then SwitchedOn(b) else b
    case ReenableForQuota => SwitchedOn(b)
    case SetEnabled(enabled) => if enabled then SwitchedOn(b) else b.(enabled := false)
    case KickHard(reason) => b.(enabled := false, reason := reason)
    case DisableForQuota(reason, source) => Board(false, true, reason, source, source, b.renewal)
    case MarkExpired => if b.renewal == NoRenew then b.(renewal := RenewExpired) else b
    case RecordRenewFailure => b.(renewal := RenewFailed)
    case MarkSsoAttempt => b.(renewal := SsoAttempt)
    case MarkSsoFailure => b.(renewal := SsoFailed)
    case ClearExpired =>
      if b.forQuota then b.(renewal := RenewOk)
      else if b.renewal == NoSsoRemoved then Forgiven(b).(renewal := RenewOk)
      else b.(enabled := true, renewal := RenewOk)
    case _ => b
  }

  // One step

  lemma {:induction false} MentionsIffOccurs(word: string, s: string)
    ensures Mentions(s, word) <==> Occurs(word, s)
  {
    if s != "" {
      MentionsIffOccurs(word, s[1..]);
      forall i | 0 <= i < |s|
        ensures s[1..][i..] == s[i + 1..]
      {
      }
      if Occurs(word, s[1..]) {
        var i :| 0 <= i <= |s[1..]| && word <= s[1..][i..];
        assert word <= s[i + 1..];
      }
      if Occurs(word, s) {
        var i :| 0 <= i <= |s| && word <= s[i..];
        if i > 0 {
          assert word <= s[1..][i - 1..];
        }
      }
    }
    assert s[0..] == s;
  }

  lemma Opens(s: string, a: string, b: string, c: string)
    ensures HasPrefix(s, [a, b, c]) <==> a <= s || b <= s || c <= s
  {
    assert [a, b, c][0] == a && [a, b, c][1] == b && [a, b, c][2] == c;
  }

  lemma OpensFour(s: string, a: string, b: string, c: string, d: string)
    ensures HasPrefix(s, [a, b, c, d]) <==> a <= s || b <= s || c <= s || d <= s
  {
    assert [a, b, c, d][0] == a && [a, b, c, d][1] == b && [a, b, c, d][2] == c && [a, b, c, d][3] == d;
  }

  lemma ProbeLiftsIff(m: Meta, now: real)
    requires SourceFits(BoardOf(m))
    ensures ProbeReenables(View(m, now)) <==> ProbeLifts(BoardOf(m))
  {
    OpensFour(m.disabledReason, "模型探测失败", "模型不可用", "探测连续失败", "临时额度耗尽");
  }

  lemma CleanUpLiftsIff(m: Meta)
    requires SourceFits(BoardOf(m))
    ensures DisabledByProbe(m) <==> CleanUpLifts(BoardOf(m))
  {
    Opens(m.disabledReason, "探测连续失败", "模型探测失败", "模型不可用");
  }

  lemma SnapshotLiftsIff(m: Meta)
    requires SourceFits(BoardOf(m))
    ensures WasQuotaDisabled(m) <==> SnapshotLifts(BoardOf(m))
  {
    MentionsIffOccurs("额度", m.disabledReason);
  }

  lemma FreeUsageBoard(m: Meta, usage: FreeUsage, model: ModelId, now: real)
    ensures BoardOf(FreeUsageHit(m, usage, model, now)) == Forgiven(BoardOf(m)).(forQuota := false)
  {
  }

  lemma HandlerBoard(m: Meta, handler: Handler, model: ModelId, now: real)
    ensures BoardOf(Handled(m, handler, model, now))
         == if handler.UsageHandler? && model != "" then Forgiven(BoardOf(m)).(forQuota := false) else BoardOf(m)
  {
    if handler.UsageHandler? {
      FreeUsageBoard(m, handler.usage, model, now);
    }
  }

  lemma FailureBoard(m: Meta, free: Option<FreeUsage>, empty: bool, handler: Handler, model: ModelId, now: real)
    ensures BoardOf(LiveFailure(m, free, empty, handler, model, now))
         == Next(ReportFailure(free, empty, handler, model), BoardOf(m))
  {
    var h := Handled(m, handler, model, now);
    HandlerBoard(m, handler, model, now);
    if free.Some? {
      FreeUsageBoard(h, free.value, model, now);
    }
  }

  lemma SuccessBoard(m: Meta, model: ModelId, now: real)
    ensures BoardOf(LiveSuccess(m, model, now)) == BoardOf(m)
  {
  }

  lemma ProbeErrorBoard(m: Meta, free: Option<FreeUsage>, model: ModelId, autoKick: bool, kickAt: nat, now: real)
    ensures BoardOf(ProbeFailed(m, free, model, autoKick, kickAt, now))
         == Next(ProbeError(free, model, autoKick, kickAt), BoardOf(m))
  {
    if free.Some? {
      FreeUsageBoard(m, free.value, model, now);
    }
  }

  lemma {:induction false} TrafficBoard(op: Op, m: Meta, now: real)
    requires IsTraffic(op)
    ensures BoardOf(Step(op, m, now)) == Next(op, BoardOf(m))
  {
    match op
    case ReportSuccess(model) => SuccessBoard(m, model, now);
    case ReportFailure(free, empty, handler, model) => FailureBoard(m, free, empty, handler, model, now);
    case FreeUsageExhaustion(usage, model) => FreeUsageBoard(m, usage, model, now);
    case ProbeError(free, model, autoKick, kickAt) => ProbeErrorBoard(m, free, model, autoKick, kickAt, now);
    case KickSoft =>
  }

  lemma {:induction false} RenewalBoard(op: Op, m: Meta, now: real)
    requires IsRenewal(op) && SourceFits(BoardOf(m))
    ensures BoardOf(Step(op, m, now)) == Next(op, BoardOf(m))
  {
  }

  lemma {:induction false} UpkeepBoard(op: Op, m: Meta, now: real)
    requires IsUpkeep(op)
    ensures BoardOf(Step(op, m, now)) == BoardOf(m)
  {
  }

  lemma {:induction false} SwitchBoard(op: Op, m: Meta, now: real)
    requires IsSwitch(op)
    ensures BoardOf(Step(op, m, now)) == Next(op, BoardOf(m))
  {
  }

  lemma {:induction false} RecoveryBoard(op: Op, m: Meta, now: real)
    requires IsRecovery(op) && SourceFits(BoardOf(m))
    ensures BoardOf(Step(op, m, now)) == Next(op, BoardOf(m))
  {
    ProbeLiftsIff(m, now);
  }

  lemma {:induction false} ReenableBoard(op: Op, m: Meta, now: real)
    requires IsReenable(op) && SourceFits(BoardOf(m))
    ensures BoardOf(Step(op, m, now)) == Next(op, BoardOf(m))
  {
    CleanUpLiftsIff(m);
    SnapshotLiftsIff(m);
  }

  /** On a record whose sources fit, every operation moves the record as it moves the board, and they fit again. */
  lemma {:induction false} StepBoard(op: Op, m: Meta, now: real)
    requires SourceFits(BoardOf(m))
    ensures BoardOf(Step(op, m, now)) == Next(op, BoardOf(m)) && SourceFits(BoardOf(Step(op, m, now)))
  {
    if IsTraffic(op) {
      TrafficBoard(op, m, now);
    } else if IsRenewal(op) {
      RenewalBoard(op, m, now);
    } else if IsUpkeep(op) {
      UpkeepBoard(op, m, now);
    } else if IsSwitch(op) {
      SwitchBoard(op, m, now);
    } else if IsRecovery(op) {
      RecoveryBoard(op, m, now);
    } else {
      ReenableBoard(op, m, now);
    }
  }

  // Whole runs

  function BoardRun(first: Board, events: seq<Event>, id: AccountId): Board {
    if events == [] then first
    else
      var e, b := events[|events| - 1], BoardRun(first, events[..|events| - 1], id);
      if e.id == id then Next(e.op, b) else b
  }

  lemma BoardAfterEvent(metas: map<AccountId, Meta>, e: Event, id: AccountId)
    requires id != "" && SourceFits(BoardOf(Get(metas, id)))
    ensures BoardOf(Get(Apply(metas, e), id))
         == if e.id == id then Next(e.op, BoardOf(Get(metas, id))) else BoardOf(Get(metas, id))
    ensures SourceFits(BoardOf(Get(Apply(metas, e), id)))
  {
    if e.id == id {
      StepBoard(e.op, Get(metas, id), e.now);
    }
  }

  /** After every run the switches, reasons, sources and renewal status of an account are those its events tell. */
  lemma {:induction false} RecordFollowsBoard(metas: map<AccountId, Meta>, events: seq<Event>, id: AccountId)
    requires id != "" && SourceFits(BoardOf(Get(metas, id)))
    ensures var b := BoardOf(Get(Run(metas, events), id));
            b == BoardRun(BoardOf(Get(metas, id)), events, id) && SourceFits(b)
  {
    if events != [] {
      var n := |events| - 1;
      RecordFollowsBoard(metas, events[..n], id);
      BoardAfterEvent(Run(metas, events[..n]), events[n], id);
    }
  }
}
