/** Process-local marks of requests in flight, which lapse if they are never released. */
module InFlight {
  import opened PoolMeta
  import opened Rotation

  type Marks = map<AccountId, Mark>

  function Noted(marks: Marks, id: AccountId, now: real): Marks {
    marks[id := Mark(EffectiveInflight(marks, id, now) + 1, now + INFLIGHT_TTL)]
  }

  function Released(marks: Marks, id: AccountId, now: real): Marks {
    if EffectiveInflight(marks, id, now) <= 1 then marks - {id}
    else marks[id := Mark(marks[id].count - 1, now + INFLIGHT_TTL)]
  }

  /** A release takes one request off the count, if there is any. */
  lemma ReleaseCount(marks: Marks, id: AccountId, now: real)
    ensures var before := EffectiveInflight(marks, id, now);
            EffectiveInflight(Released(marks, id, now), id, now) == if before > 0 then before - 1 else 0
  {
  }

  function Purged(marks: Marks, now: real): Marks {
    map id | id in marks && marks[id].expiresAt > now :: marks[id]
  }

  /** A purge drops exactly the marks that count nothing any more. */
  lemma PurgeKeepsLive(marks: Marks, id: AccountId, now: real)
    requires id in marks && marks[id].count > 0
    ensures id in Purged(marks, now) <==> EffectiveInflight(marks, id, now) > 0
    ensures id in Purged(marks, now) ==> Purged(marks, now)[id] == marks[id]
  {
  }

  datatype Event = Pick(id: AccountId, at: real) | Release(id: AccountId, at: real) | Purge(at: real)

  function Apply(marks: Marks, e: Event): Marks {
    match e
    case Pick(id, at) => Noted(marks, id, at)
    case Release(id, at) => Released(marks, id, at)
    case Purge(at) => Purged(marks, at)
  }

  function Run(events: seq<Event>): Marks {
    if events == [] then map[] else Apply(Run(events[..|events| - 1]), events[|events| - 1])
  }

  lemma RunOfOneMore(events: seq<Event>, e: Event)
    ensures Run(events + [e]) == Apply(Run(events), e)
  {
    assert (events + [e])[..|events|] == events;
  }

  /** The plain counter of requests not yet released; it does not go below zero. */
  function Outstanding(events: seq<Event>, id: AccountId): nat {
    if events == [] then 0
    else
      var before := Outstanding(events[..|events| - 1], id);
      match events[|events| - 1]
      case Pick(other, _) => if other == id then before + 1 else before
      case Release(other, _) => if other == id && before > 0 then before - 1 else before
      case Purge(_) => before
  }

  /** Marks never claim more requests than are outstanding, whatever the clock does. */
  lemma {:induction false} NeverAboveOutstanding(events: seq<Event>, id: AccountId, t: real)
    ensures id in Run(events) ==> Run(events)[id].count <= Outstanding(events, id)
    ensures EffectiveInflight(Run(events), id, t) <= Outstanding(events, id)
  {
    if events != [] {
      NeverAboveOutstanding(events[..|events| - 1], id, events[|events| - 1].at);
    }
  }

  predicate Concerns(e: Event, id: AccountId) {
    !e.Purge? && e.id == id
  }

  /** While requests on the account are outstanding, its next event, and the read at t, come before the marks lapse. */
  predicate Prompt(events: seq<Event>, id: AccountId, t: real) {
    events == [] ||
    var e := events[|events| - 1];
    && e.at <= t
    && if Concerns(e, id)
       then (Outstanding(events, id) == 0 || t < e.at + INFLIGHT_TTL) && Prompt(events[..|events| - 1], id, e.at)
       else Prompt(events[..|events| - 1], id, t)
  }

  /** If no gap lets the marks lapse, they are the outstanding counter. */
  lemma {:induction false} PromptMarksAreExact(events: seq<Event>, id: AccountId, t: real)
    requires Prompt(events, id, t)
    ensures EffectiveInflight(Run(events), id, t) == Outstanding(events, id)
    ensures id in Run(events) ==> Run(events)[id].count > 0
  {
    if events != [] {
      var e := events[|events| - 1];
      PromptMarksAreExact(events[..|events| - 1], id, if Concerns(e, id) then e.at else t);
    }
  }

  function WithoutPurges(events: seq<Event>): seq<Event> {
    if events == [] then []
    else
      var e := events[|events| - 1];
      WithoutPurges(events[..|events| - 1]) + (if e.Purge? then [] else [e])
  }

  predicate Forward(events: seq<Event>) {
    forall i, j | 0 <= i < j < |events| :: events[i].at <= events[j].at
  }

  /** The smaller map lacks only marks that have lapsed by now. */
  predicate LacksOnlyLapsed(purged: Marks, full: Marks, now: real) {
    && (forall id | id in purged :: id in full && purged[id] == full[id])
    && (forall id | id in full && id !in purged :: full[id].expiresAt <= now)
  }

  lemma SameLaterReads(purged: Marks, full: Marks, now: real, id: AccountId, t: real)
    requires LacksOnlyLapsed(purged, full, now) && now <= t
    ensures EffectiveInflight(purged, id, t) == EffectiveInflight(full, id, t)
  {
  }

  lemma ApplyKeepsAgreement(purged: Marks, full: Marks, now: real, e: Event)
    requires LacksOnlyLapsed(purged, full, now) && now <= e.at
    ensures LacksOnlyLapsed(Apply(purged, e), if e.Purge? then full else Apply(full, e), e.at)
  {
    if !e.Purge? {
      SameLaterReads(purged, full, now, e.id, e.at);
    }
  }

  /** Purging never changes what a later read sees. */
  lemma {:induction false} PurgingIsInvisible(events: seq<Event>, id: AccountId, t: real)
    requires Forward(events) && (events != [] ==> events[|events| - 1].at <= t)
    ensures EffectiveInflight(Run(events), id, t) == EffectiveInflight(Run(WithoutPurges(events)), id, t)
    ensures LacksOnlyLapsed(Run(events), Run(WithoutPurges(events)), t)
  {
    if events != [] {
      var e := events[|events| - 1];
      var prefix := events[..|events| - 1];
      PurgingIsInvisible(prefix, id, e.at);
      var kept := WithoutPurges(prefix);
      assert WithoutPurges(events) == if e.Purge? then kept else kept + [e];
      assert (kept + [e])[..|kept|] == kept;
      ApplyKeepsAgreement(Run(prefix), Run(kept), e.at, e);
      SameLaterReads(Run(events), Run(WithoutPurges(events)), e.at, id, t);
    }
  }
}
