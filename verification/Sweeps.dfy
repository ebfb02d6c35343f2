/** Maintenance that goes over every account: each sweep is a run of events, one an account. */
module Sweeps {
  import opened PoolMeta
  import opened PoolOps
  import opened PoolRuns
  import opened Scanning

  /** Every account outside `todo` has taken the step, the others not yet; the nameless account is never written. */
  predicate Swept(was: map<AccountId, Meta>, cur: map<AccountId, Meta>, todo: set<AccountId>, op: Op, now: real) {
    && cur.Keys == was.Keys
    && forall id | id in was :: cur[id] == if id in todo || id == "" then was[id] else Step(op, was[id], now)
  }

  predicate AllAre(events: seq<Event>, op: Op, now: real) {
    forall e | e in events :: e.op == op && e.now == now
  }

  /** The sweep so far: which records have changed, and the events that changed them. */
  predicate Sweeping(
      was: map<AccountId, Meta>, cur: map<AccountId, Meta>, todo: set<AccountId>,
      op: Op, events: seq<Event>, now: real)
  {
    && Swept(was, cur, todo, op, now)
    && cur == Run(was, events)
    && AllAre(events, op, now)
    && todo <= was.Keys
  }

  lemma SweepStep(
      was: map<AccountId, Meta>, cur: map<AccountId, Meta>, todo: set<AccountId>, id: AccountId,
      op: Op, events: seq<Event>, now: real)
    requires Sweeping(was, cur, todo, op, events, now) && id in todo
    ensures cur[id] == was[id]
    ensures Sweeping(was, Apply(cur, Event(id, op, now)), todo - {id}, op, events + [Event(id, op, now)], now)
  {
    var e := Event(id, op, now);
    RunOfOneMore(was, events, e);
    ApplyStored(cur, e);
    assert cur[id] == was[id];
    SweptStep(was, cur, todo, id, op, now);
  }

  lemma SweptStep(
      was: map<AccountId, Meta>, cur: map<AccountId, Meta>, todo: set<AccountId>, id: AccountId, op: Op, now: real)
    requires Swept(was, cur, todo, op, now) && id in todo && id in was
    ensures Swept(was, if id == "" then cur else cur[id := Step(op, was[id], now)], todo - {id}, op, now)
  {
    var next, left := if id == "" then cur else cur[id := Step(op, was[id], now)], todo - {id};
    forall k | k in was
      ensures next[k] == if k in left || k == "" then was[k] else Step(op, was[k], now)
    {
      if k != id {
        assert next[k] == cur[k] && (k in left <==> k in todo);
      }
    }
  }

  // Counting what a sweep removes

  /** The lapsed blocks of the given accounts, each with its account. */
  ghost function LapsedEntries(metas: map<AccountId, Meta>, ids: set<AccountId>, now: real): set<(AccountId, ModelId)> {
    set id, model | id in ids && id in metas && id != "" && model in LapsedModels(metas[id].blockedModels, now) ::
      (id, model)
  }

  ghost function Tagged(id: AccountId, models: set<ModelId>): set<(AccountId, ModelId)> {
    set model | model in models :: (id, model)
  }

  lemma {:induction false} TaggedCount(id: AccountId, models: set<ModelId>)
    ensures |Tagged(id, models)| == |models|
  {
    if models != {} {
      var model :| model in models;
      TaggedCount(id, models - {model});
      assert Tagged(id, models) == Tagged(id, models - {model}) + {(id, model)};
    }
  }

  lemma LapsedEntriesGrow(metas: map<AccountId, Meta>, done: set<AccountId>, id: AccountId, now: real)
    requires id in metas && id !in done
    ensures |LapsedEntries(metas, done + {id}, now)|
         == |LapsedEntries(metas, done, now)| + if id == "" then 0 else |LapsedModels(metas[id].blockedModels, now)|
  {
    var before, after := LapsedEntries(metas, done, now), LapsedEntries(metas, done + {id}, now);
    if id == "" {
      assert after == before;
    } else {
      var models := LapsedModels(metas[id].blockedModels, now);
      var here := Tagged(id, models);
      assert after == before + here;
      assert before !! here;
      assert |here| == |models| by {
        TaggedCount(id, models);
      }
    }
  }

  /** How many blocks have lapsed on the accounts outside `todo`. */
  ghost function LapsedOutside(metas: map<AccountId, Meta>, todo: set<AccountId>, now: real): nat {
    |LapsedEntries(metas, metas.Keys - todo, now)|
  }

  lemma LapsedOutsideGrows(metas: map<AccountId, Meta>, todo: set<AccountId>, id: AccountId, now: real)
    requires id in metas && id in todo
    ensures LapsedOutside(metas, todo - {id}, now)
         == LapsedOutside(metas, todo, now) + if id == "" then 0 else |LapsedModels(metas[id].blockedModels, now)|
  {
    LapsedEntriesGrow(metas, metas.Keys - todo, id, now);
    assert metas.Keys - (todo - {id}) == metas.Keys - todo + {id};
  }

  ghost function KickedAccounts(metas: map<AccountId, Meta>): set<AccountId> {
    set id | id in metas && DisabledByProbe(metas[id])
  }

  ghost function KickedOutside(metas: map<AccountId, Meta>, todo: set<AccountId>): nat {
    |KickedAccounts(metas) - todo|
  }

  lemma KickedOutsideGrows(metas: map<AccountId, Meta>, todo: set<AccountId>, id: AccountId)
    requires id in metas && id in todo
    ensures KickedOutside(metas, todo - {id})
         == KickedOutside(metas, todo) + if DisabledByProbe(metas[id]) then 1 else 0
  {
    OneLess(KickedAccounts(metas), todo, id);
  }

  lemma KickedOutsideNone(metas: map<AccountId, Meta>)
    ensures KickedOutside(metas, metas.Keys) == 0 && KickedOutside(metas, {}) == |KickedAccounts(metas)|
  {
    assert KickedAccounts(metas) - metas.Keys == {};
    assert KickedAccounts(metas) - {} == KickedAccounts(metas);
  }

  // What sweeps leave alone

  /** Operations that are neither a failure nor a recovery of any account, and no renewal. */
  predicate IsQuiet(op: Op) {
    op.PruneBlocks? || op.ReenableProbeKicks?
  }

  /** A sweep in the middle of a run neither ends a failure nor adds one. */
  lemma {:induction false} SweepsChangeNoFailure(
      metas: map<AccountId, Meta>, run: seq<Event>, sweep: seq<Event>, id: AccountId)
    requires PoolInv(metas) && id != ""
    requires forall e | e in sweep :: IsQuiet(e.op)
    ensures UnrecoveredFailure(metas, run + sweep, id) <==> UnrecoveredFailure(metas, run, id)
  {
    if sweep == [] {
      assert run + sweep == run;
    } else {
      var n := |sweep| - 1;
      var events := run + sweep[..n];
      SweepsChangeNoFailure(metas, run, sweep[..n], id);
      assert sweep[n] in sweep;
      assert run + sweep == events + [sweep[n]];
      QuietEventChangesNoFailure(metas, events, sweep[n], id);
    }
  }

  lemma QuietEventChangesNoFailure(metas: map<AccountId, Meta>, events: seq<Event>, e: Event, id: AccountId)
    requires PoolInv(metas) && id != "" && IsQuiet(e.op)
    ensures UnrecoveredFailure(metas, events + [e], id) <==> UnrecoveredFailure(metas, events, id)
  {
    var n := |events|;
    assert (events + [e])[..n] == events;
    UnrecoveredFailureStep(metas, events + [e], id);
  }

  /** A finished sweep changes no account's cooldown or renewal hold. */
  lemma SweepKeepsPolicies(was: map<AccountId, Meta>, cur: map<AccountId, Meta>, op: Op, now: real, id: AccountId)
    requires PoolInv(was) && Swept(was, cur, {}, op, now) && IsQuiet(op) && id in was
    ensures Inv(cur[id])
    ensures cur[id].cooldownCount > 0 <==> was[id].cooldownCount > 0
    ensures cur[id].lastRenewStatus == was[id].lastRenewStatus
  {
    StepKeepsInv(op, was[id], now);
  }
}
