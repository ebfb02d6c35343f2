/** Conversation affinity: which account served a conversation, kept under keys that lapse. */
module Affinity {
  import opened Wrappers
  import opened Text
  import opened Scanning

  type Fingerprint = string

  datatype Entry = Entry(
    account: string,
    boundAt: real,
    lastSeen: real,
    hits: nat,
    session: Option<string>,
    promptKey: Option<string>)

  datatype Stored = Stored(entry: Entry, expiresAt: real)

  type Keys = map<Fingerprint, Stored>

  /** Keys live a whole number of seconds, at least one. */
  function TtlSeconds(ttl: real): (r: real)
    ensures r.Floor as real == r
    ensures if ttl < 1.0 then r == 1.0 else r <= ttl < r + 1.0
  {
    if ttl < 1.0 then 1.0 else ttl.Floor as real
  }

  function LiveAt(keys: Keys, fp: Fingerprint, now: real): Option<Entry> {
    if fp in keys && now < keys[fp].expiresAt then Some(keys[fp].entry) else None
  }

  /** A bind time of zero reads as absent. */
  function OrNow(time: real, now: real): real {
    if time == 0.0 then now else time
  }

  function Given(text: string): Option<string> {
    if Trim(text) == "" then None else Some(Trim(text))
  }

  function Or<T>(first: Option<T>, second: Option<T>): Option<T> {
    if first.Some? then first else second
  }

  datatype Event =
    | Bind(fp: Fingerprint, account: string, ttl: real, session: string, promptKey: string, at: real)
    | Get(fp: Fingerprint, ttl: real, at: real)
    | Clear(fp: Fingerprint, at: real)
    | ClearAccount(account: string, at: real)

  function Stamped(entry: Entry, ttl: real, now: real): Stored {
    Stored(entry, now + TtlSeconds(ttl))
  }

  function Bound(previous: Option<Entry>, account: string, session: string, promptKey: string, now: real): Entry {
    match previous
    case None => Entry(account, now, now, 1, Given(session), Given(promptKey))
    case Some(p) =>
      Entry(account, if p.account == account then OrNow(p.boundAt, now) else now, now, p.hits + 1,
            Or(Given(session), p.session), Or(Given(promptKey), p.promptKey))
  }

  function Touched(entry: Entry, now: real): Entry {
    entry.(boundAt := OrNow(entry.boundAt, now), lastSeen := now, hits := entry.hits + 1)
  }

  predicate IsHeld(keys: Keys, fp: Fingerprint, account: string, now: real) {
    match LiveAt(keys, fp, now)
    case None => false
    case Some(entry) => entry.account == account
  }

  function HeldBy(keys: Keys, account: string, now: real): set<Fingerprint> {
    set fp | fp in keys && IsHeld(keys, fp, account, now)
  }

  function Apply(keys: Keys, e: Event): Keys {
    match e
    case Bind(fp, account, ttl, session, promptKey, now) =>
      if fp == "" || account == "" then keys
      else keys[fp := Stamped(Bound(LiveAt(keys, fp, now), account, session, promptKey, now), ttl, now)]
    case Get(fp, ttl, now) =>
      if fp == "" || LiveAt(keys, fp, now).None? then keys
      else keys[fp := Stamped(Touched(keys[fp].entry, now), ttl, now)]
    case Clear(fp, now) => if fp == "" then keys else keys - {fp}
    case ClearAccount(account, now) => if account == "" then keys else keys - HeldBy(keys, account, now)
  }

  class AffinityStore {
    var keys: Keys

    constructor ()
      ensures keys == map[]
    {
      keys := map[];
    }

    method BindAccount(fp: Fingerprint, account: string, ttl: real, session: string, promptKey: string, now: real)
      modifies this
      ensures keys == Apply(old(keys), Bind(fp, account, ttl, session, promptKey, now))
    {
      if fp == "" || account == "" {
        return;
      }
      var hits, boundAt := 0, now;
      var sessionKept, promptKept := None, None;
      if fp in keys && now < keys[fp].expiresAt {
        var previous := keys[fp].entry;
        hits, sessionKept, promptKept := previous.hits, previous.session, previous.promptKey;
        if previous.account == account {
          boundAt := OrNow(previous.boundAt, now);
        }
      }
      sessionKept := Or(Given(session), sessionKept);
      promptKept := Or(Given(promptKey), promptKept);
      keys := keys[fp := Stamped(Entry(account, boundAt, now, hits + 1, sessionKept, promptKept), ttl, now)];
    }

    /** Returns the entry as refreshed. */
    method GetEntry(fp: Fingerprint, ttl: real, now: real) returns (entry: Option<Entry>)
      modifies this
      ensures keys == Apply(old(keys), Get(fp, ttl, now))
      ensures entry == if fp == "" then None else LiveAt(keys, fp, now)
      ensures entry.Some? <==> fp != "" && LiveAt(old(keys), fp, now).Some?
    {
      if fp == "" || fp !in keys || keys[fp].expiresAt <= now {
        return None;
      }
      var refreshed := Touched(keys[fp].entry, now);
      keys := keys[fp := Stamped(refreshed, ttl, now)];
      entry := Some(refreshed);
    }

    method Forget(fp: Fingerprint, now: real)
      modifies this
      ensures keys == Apply(old(keys), Clear(fp, now))
    {
      if fp != "" {
        keys := keys - {fp};
      }
    }

    /** Scans every key, in any order, deletes those bound to the account and counts them. */
    method ClearForAccount(account: string, now: real) returns (removed: nat)
      modifies this
      ensures keys == Apply(old(keys), ClearAccount(account, now))
      ensures removed == if account == "" then 0 else |HeldBy(old(keys), account, now)|
    {
      removed := 0;
      if account == "" {
        return;
      }
      removed := DeleteHeld(account, now, HeldBy(keys, account, now));
    }

    method DeleteHeld(account: string, now: real, ghost held: set<Fingerprint>) returns (removed: nat)
      requires held <= keys.Keys && forall fp | fp in keys :: fp in held <==> IsHeld(keys, fp, account, now)
      modifies this
      ensures keys == old(keys) - held && removed == |held|
    {
      ghost var was := keys;
      removed := 0;
      var toScan := keys.Keys;
      assert held - toScan == {};
      while toScan != {}
        invariant toScan <= was.Keys
        invariant keys == Without(was, held - toScan)
        invariant removed == |held - toScan|
        decreases |toScan|
      {
        var fp :| fp in toScan;
        ScanKey(was, held, toScan, fp, account, now);
        toScan := toScan - {fp};
        var dropped := DeleteIfBound(fp, account, now);
        removed := removed + dropped;
      }
      assert held - {} == held;
    }

    /** One turn of the scan; a key that has lapsed by now is passed over. */
    method DeleteIfBound(fp: Fingerprint, account: string, now: real) returns (dropped: nat)
      requires fp in keys
      modifies this
      ensures dropped == if IsHeld(old(keys), fp, account, now) then 1 else 0
      ensures keys == if dropped == 1 then old(keys) - {fp} else old(keys)
    {
      if now < keys[fp].expiresAt && keys[fp].entry.account == account {
        keys := keys - {fp};
        return 1;
      }
      return 0;
    }
  }

  lemma ScanKey(was: Keys, held: set<Fingerprint>, todo: set<Fingerprint>, fp: Fingerprint, account: string, now: real)
    requires fp in todo && todo <= was.Keys
    ensures fp in Without(was, held - todo)
    ensures IsHeld(Without(was, held - todo), fp, account, now) == IsHeld(was, fp, account, now)
    ensures fp !in held ==> held - (todo - {fp}) == held - todo
    ensures fp in held ==>
      && |held - (todo - {fp})| == |held - todo| + 1
      && Without(was, held - (todo - {fp})) == Without(was, held - todo) - {fp}
  {
    ScanOne(was, held, todo, fp);
  }

  // Runs, and what an entry says about its history

  function Run(events: seq<Event>): Keys {
    if events == [] then map[] else Apply(Run(events[..|events| - 1]), events[|events| - 1])
  }

  predicate Binds(e: Event, fp: Fingerprint) {
    e.Bind? && e.fp == fp && e.account != ""
  }

  predicate Touches(e: Event, fp: Fingerprint) {
    Binds(e, fp) || (e.Get? && e.fp == fp)
  }

  /** The account of the last bind. */
  function Holder(events: seq<Event>, fp: Fingerprint): string {
    if events == [] then ""
    else
      var e := events[|events| - 1];
      if Binds(e, fp) then e.account else Holder(events[..|events| - 1], fp)
  }

  /** When the holder was first bound, with no other account bound since. */
  function TenureStart(events: seq<Event>, fp: Fingerprint): real {
    if events == [] then 0.0
    else
      var e, before := events[|events| - 1], events[..|events| - 1];
      if Binds(e, fp) && Holder(before, fp) != e.account then e.at else TenureStart(before, fp)
  }

  function TouchCount(events: seq<Event>, fp: Fingerprint): nat {
    if events == [] then 0
    else TouchCount(events[..|events| - 1], fp) + (if Touches(events[|events| - 1], fp) then 1 else 0)
  }

  function LastTouch(events: seq<Event>, fp: Fingerprint): real {
    if events == [] then 0.0
    else
      var e := events[|events| - 1];
      if Touches(e, fp) then e.at else LastTouch(events[..|events| - 1], fp)
  }

  /** The last non-empty text given by a bind. */
  function LastGiven(events: seq<Event>, fp: Fingerprint, text: Event -> string): Option<string> {
    if events == [] then None
    else
      var e, before := events[|events| - 1], events[..|events| - 1];
      if Binds(e, fp) && Given(text(e)).Some? then Given(text(e)) else LastGiven(before, fp, text)
  }

  function SessionIn(e: Event): string {
    if e.Bind? then e.session else ""
  }

  function PromptKeyIn(e: Event): string {
    if e.Bind? then e.promptKey else ""
  }

  function Summary(events: seq<Event>, fp: Fingerprint): Entry {
    Entry(Holder(events, fp), TenureStart(events, fp), LastTouch(events, fp), TouchCount(events, fp),
          LastGiven(events, fp, SessionIn), LastGiven(events, fp, PromptKeyIn))
  }

  predicate Removes(e: Event, fp: Fingerprint, holder: string) {
    || (e.Clear? && e.fp == fp)
    || (e.ClearAccount? && e.account != "" && e.account == holder)
  }

  /** The lifetime given with the event, in whole seconds and at least one, reaches beyond t. */
  predicate Reaches(e: Event, t: real)
    requires e.Bind? || e.Get?
  {
    t - e.at < 1.0 || t - e.at < e.ttl.Floor as real
  }

  /** The events open with a bind of fp; since then no gap between touches, nor the one up to t,
      reached its TTL, and nothing removed the entry. */
  predicate Unbroken(events: seq<Event>, fp: Fingerprint, t: real) {
    events != [] &&
    var e, before := events[|events| - 1], events[..|events| - 1];
    if before == [] then Binds(e, fp) && Reaches(e, t)
    else if Touches(e, fp) then Unbroken(before, fp, e.at) && Reaches(e, t)
    else !Removes(e, fp, Holder(before, fp)) && Unbroken(before, fp, t)
  }

  /** How long the history before e must have held for the entry to be there at t: up to e, if e touches it. */
  function Reach(e: Event, fp: Fingerprint, t: real): real {
    if Touches(e, fp) then e.at else t
  }

  predicate Forward(events: seq<Event>) {
    && (forall i | 0 <= i < |events| :: events[i].at > 0.0)
    && (forall i, j | 0 <= i < j < |events| :: events[i].at <= events[j].at)
  }

  predicate EndsBy(events: seq<Event>, t: real) {
    events != [] ==> events[|events| - 1].at <= t
  }

  /** The entry was absent when event s began. */
  predicate AbsentBefore(events: seq<Event>, s: nat, fp: Fingerprint)
    requires s < |events|
  {
    LiveAt(Run(events[..s]), fp, events[s].at).None?
  }

  lemma {:induction false} UnbrokenStartsWithBind(events: seq<Event>, fp: Fingerprint, t: real)
    requires Unbroken(events, fp, t)
    ensures Binds(events[0], fp)
    ensures Forward(events) ==> TenureStart(events, fp) > 0.0
  {
    var before := events[..|events| - 1];
    if before != [] {
      UnbrokenStartsWithBind(before, fp, Reach(events[|events| - 1], fp, t));
    }
  }

  lemma LastOfSlice(events: seq<Event>, s: nat)
    requires s < |events|
    ensures var slice, before := events[s..], events[..|events| - 1];
            slice[|slice| - 1] == events[|events| - 1] && slice[..|slice| - 1] == before[s..]
    ensures s < |events| - 1 ==> events[..|events| - 1][..s] == events[..s]
  {
  }

  lemma SummaryOfOne(e: Event, fp: Fingerprint, t: real)
    requires Unbroken([e], fp, t)
    ensures Binds(e, fp) && Reaches(e, t)
    ensures Summary([e], fp) == Entry(e.account, e.at, e.at, 1, Given(e.session), Given(e.promptKey))
  {
    var none: seq<Event> := [e][..|[e]| - 1];
    assert none == [];
    assert Holder(none, fp) == "" && TenureStart([e], fp) == e.at;
    assert TouchCount([e], fp) == 1;
    assert LastGiven([e], fp, SessionIn) == Given(e.session);
    assert LastGiven([e], fp, PromptKeyIn) == Given(e.promptKey);
  }

  /** One more event on an entry that summarises the events so far. */
  lemma SummaryStep(keys: Keys, before: seq<Event>, e: Event, fp: Fingerprint, t: real)
    requires fp != "" && before != [] && Unbroken(before + [e], fp, t)
    requires LiveAt(keys, fp, Reach(e, fp, t)) == Some(Summary(before, fp))
    requires TenureStart(before, fp) > 0.0
    ensures LiveAt(Apply(keys, e), fp, t) == Some(Summary(before + [e], fp))
  {
    assert (before + [e])[..|before|] == before;
  }

  lemma FirstBindIsLive(keys: Keys, e: Event, fp: Fingerprint, t: real)
    requires fp != "" && LiveAt(keys, fp, e.at).None? && Unbroken([e], fp, t)
    ensures LiveAt(Apply(keys, e), fp, t) == Some(Summary([e], fp))
  {
    SummaryOfOne(e, fp, t);
  }

  /** If nothing broke the history since the entry was absent, the entry is there and sums it up. */
  lemma {:induction false} UnbrokenIsLive(events: seq<Event>, s: nat, fp: Fingerprint, t: real)
    requires fp != "" && Forward(events) && s < |events|
    requires AbsentBefore(events, s, fp) && Unbroken(events[s..], fp, t)
    ensures LiveAt(Run(events), fp, t) == Some(Summary(events[s..], fp))
    decreases |events|
  {
    LastOfSlice(events, s);
    var e, before := events[|events| - 1], events[..|events| - 1];
    if s == |events| - 1 {
      assert before == events[..s] && events[s..] == [e];
      FirstBindIsLive(Run(before), e, fp, t);
    } else {
      var early := Reach(e, fp, t);
      var front := before[s..];
      assert Unbroken(front, fp, early);
      assert LiveAt(Run(before), fp, early) == Some(Summary(front, fp)) by {
        UnbrokenIsLive(before, s, fp, early);
      }
      assert TenureStart(front, fp) > 0.0 by {
        UnbrokenStartsWithBind(front, fp, early);
      }
      assert front + [e] == events[s..];
      assert LiveAt(Apply(Run(before), e), fp, t) == Some(Summary(front + [e], fp)) by {
        SummaryStep(Run(before), front, e, fp, t);
      }
    }
  }

  /** A live entry has such a history. */
  lemma {:induction false} LiveIsUnbroken(events: seq<Event>, fp: Fingerprint, t: real) returns (s: nat)
    requires fp != "" && Forward(events) && EndsBy(events, t)
    requires LiveAt(Run(events), fp, t).Some?
    ensures s < |events| && AbsentBefore(events, s, fp) && Unbroken(events[s..], fp, t)
  {
    var n := |events| - 1;
    var e, before := events[n], events[..n];
    var keys := Run(before);
    if Binds(e, fp) && LiveAt(keys, fp, e.at).None? {
      s := n;
      StartIsUnbroken(keys, e, fp, t);
      assert events[n..] == [e];
    } else {
      LiveBeforeToo(keys, e, fp, t);
      s := LiveIsUnbroken(before, fp, Reach(e, fp, t));
      assert events == before + [e];
      HistoryGoesOn(before, e, s, fp, t);
    }
  }

  /** An entry that no bind begins anew was already there. */
  lemma LiveBeforeToo(keys: Keys, e: Event, fp: Fingerprint, t: real)
    requires fp != "" && e.at <= t && LiveAt(Apply(keys, e), fp, t).Some?
    requires !(Binds(e, fp) && LiveAt(keys, fp, e.at).None?)
    ensures LiveAt(keys, fp, Reach(e, fp, t)).Some?
  {
  }

  lemma HistoryGoesOn(before: seq<Event>, e: Event, s: nat, fp: Fingerprint, t: real)
    requires fp != "" && Forward(before) && s < |before| && e.at <= t
    requires AbsentBefore(before, s, fp) && Unbroken(before[s..], fp, Reach(e, fp, t))
    requires LiveAt(Apply(Run(before), e), fp, t).Some?
    ensures AbsentBefore(before + [e], s, fp) && Unbroken((before + [e])[s..], fp, t)
  {
    UnbrokenIsLive(before, s, fp, Reach(e, fp, t));
    LiveStays(Run(before), before[s..], e, fp, t);
    assert (before + [e])[..s] == before[..s];
    assert (before + [e])[s..] == before[s..] + [e];
  }

  lemma StartIsUnbroken(keys: Keys, e: Event, fp: Fingerprint, t: real)
    requires fp != "" && Binds(e, fp) && LiveAt(Apply(keys, e), fp, t).Some?
    ensures Unbroken([e], fp, t)
  {
    assert [e][..|[e]| - 1] == [];
  }

  lemma LiveStays(keys: Keys, before: seq<Event>, e: Event, fp: Fingerprint, t: real)
    requires before != [] && e.at <= t && Unbroken(before, fp, Reach(e, fp, t))
    requires LiveAt(keys, fp, Reach(e, fp, t)) == Some(Summary(before, fp))
    requires fp != "" && LiveAt(Apply(keys, e), fp, t).Some?
    ensures Unbroken(before + [e], fp, t)
  {
    assert (before + [e])[..|before|] == before;
    assert !Touches(e, fp) ==> IsHeld(keys, fp, Holder(before, fp), e.at);
  }

  /** At every time, the entry is there iff no gap reached its TTL since it was last absent, and it sums up that
      history:
      hits are the touches, the bind time begins the tenure of the account bound last, the texts are the last given. */
  lemma {:induction false} EntryIsItsHistory(events: seq<Event>, fp: Fingerprint, t: real)
    requires fp != "" && Forward(events) && EndsBy(events, t)
    ensures LiveAt(Run(events), fp, t).Some? <==>
      exists s: nat | s < |events| :: AbsentBefore(events, s, fp) && Unbroken(events[s..], fp, t)
    ensures forall s: nat | s < |events| && AbsentBefore(events, s, fp) && Unbroken(events[s..], fp, t) ::
      LiveAt(Run(events), fp, t) == Some(Summary(events[s..], fp))
  {
    forall s: nat | s < |events| && AbsentBefore(events, s, fp) && Unbroken(events[s..], fp, t)
      ensures LiveAt(Run(events), fp, t) == Some(Summary(events[s..], fp))
    {
      UnbrokenIsLive(events, s, fp, t);
    }
    if LiveAt(Run(events), fp, t).Some? {
      var s := LiveIsUnbroken(events, fp, t);
    }
  }

  /** An entry bound or read now is kept for the whole seconds of the lifetime given, and for one at least. */
  lemma EntriesKeepTheirLifetime(keys: Keys, e: Event, fp: Fingerprint, t: real)
    requires fp != "" && Touches(e, fp) && (e.Get? ==> LiveAt(keys, fp, e.at).Some?)
    ensures LiveAt(Apply(keys, e), fp, t).Some? <==>
              t < e.at + (if e.ttl >= 1.0 then e.ttl.Floor as real else 1.0)
  {
  }

  /** A read counts one more hit and leaves the bind time, unless that is zero, which reads as absent. */
  lemma ReadRefreshes(keys: Keys, fp: Fingerprint, ttl: real, at: real)
    requires fp != "" && LiveAt(keys, fp, at).Some?
    ensures var was, now := LiveAt(keys, fp, at).value, LiveAt(Apply(keys, Get(fp, ttl, at)), fp, at);
            now == Some(was.(hits := was.hits + 1, lastSeen := at,
                             boundAt := if was.boundAt == 0.0 then at else was.boundAt))
  {
  }

  /** Blank text counts as none; other text is kept, with no spaces before it. */
  lemma BlankTextIsNone(text: string)
    ensures Given(text).None? <==> forall c | c in text :: IsSpace(c)
    ensures Given(text).Some? ==> forall c | c in text && !IsSpace(c) :: c in Given(text).value
  {
    forall c | c in text && !IsSpace(c)
      ensures c in Trim(text)
    {
      StripKeeps(IsSpace, text, c);
    }
    if forall c | c in text :: IsSpace(c) {
      BlankStrips(text);
    }
  }

  lemma {:induction false} BlankStrips(text: string)
    requires forall c | c in text :: IsSpace(c)
    ensures Trim(text) == ""
  {
    if text != "" {
      assert text[0] in text;
      BlankStrips(text[1..]);
    }
  }

  /** Clearing an account removes its live entries and changes no other. */
  lemma ClearingRemovesExactly(keys: Keys, account: string, now: real, fp: Fingerprint, t: real)
    requires account != "" && now <= t
    ensures LiveAt(Apply(keys, ClearAccount(account, now)), fp, t)
         == match LiveAt(keys, fp, t)
            case None => None
            case Some(entry) => if entry.account == account then None else Some(entry)
  {
  }
}
