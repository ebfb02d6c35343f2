/** The account map in one file, behind a read cache checked against the file's modification time. */
module AuthStore {
  import opened Wrappers
  import opened Scanning

  type AccountId = string

  /** "" stands for an absent user, principal or token; a value that is not a record is kept but never merged. */
  datatype Value =
    | Account(userId: string, principalId: string, token: string, rest: string)
    | Other(text: string)

  type Data = map<AccountId, Value>

  datatype File = Missing | Unreadable(mtime: int) | Holding(data: Data, mtime: int)

  datatype Cache = Cache(data: Option<Data>, mtime: Option<int>, statAt: real)

  const EMPTY := Cache(None, None, 0.0)
  const STAT_MIN_INTERVAL := 0.25

  function Contents(file: File): Data {
    if file.Holding? then file.data else map[]
  }

  function Mtime(file: File): Option<int> {
    if file.Missing? then None else Some(file.mtime)
  }

  // One look at the cache

  predicate TrustsCache(cache: Cache, now: real) {
    now - cache.statAt < STAT_MIN_INTERVAL && cache.mtime.Some?
  }

  function Hit(cache: Cache, file: File, now: real): Option<Data> {
    if cache.data.Some? && (TrustsCache(cache, now) || (!file.Missing? && cache.mtime == Mtime(file))) then cache.data
    else None
  }

  function AfterLook(cache: Cache, file: File, now: real): Cache {
    if cache.data.Some? && !TrustsCache(cache, now) && !file.Missing? then cache.(statAt := now) else cache
  }

  /** A read looks once without the lock, at t1, and on a miss again under it, at t2. */
  function ReadResult(cache: Cache, file: File, t1: real, t2: real): Data {
    match Hit(cache, file, t1)
    case Some(data) => data
    case None => Hit(AfterLook(cache, file, t1), file, t2).GetOr(Contents(file))
  }

  function AfterRead(cache: Cache, file: File, t1: real, t2: real): Cache {
    var looked := AfterLook(cache, file, t1);
    if Hit(cache, file, t1).Some? then looked
    else if Hit(looked, file, t2).Some? then AfterLook(looked, file, t2)
    else Cache(Some(Contents(file)), Mtime(file), t2)
  }

  // Merging upserts

  /** Another key holds the same user or the same token as the new entry. */
  predicate Supersedes(entry: Value, id: AccountId, key: AccountId, value: Value)
    requires entry.Account?
  {
    var uid := if entry.userId != "" then entry.userId else entry.principalId;
    && key != id
    && value.Account?
    && (|| (uid != "" && (value.userId == uid || value.principalId == uid))
        || (entry.token != "" && value.token == entry.token))
  }

  function Superseded(data: Data, id: AccountId, entry: Value): set<AccountId>
    requires entry.Account?
  {
    set key | key in data && Supersedes(entry, id, key, data[key])
  }

  function Upserted(data: Data, id: AccountId, entry: Value, merge: bool): Data
    requires entry.Account?
  {
    (if merge then Without(data, Superseded(data, id, entry)) else data)[id := entry]
  }

  datatype Event =
    | Read(t1: real, t2: real)
    | Write(data: Data, mtime: int, at: real)
    | Mutate(mutator: Data -> Data, mtime: int, at: real)
    | Upsert(id: AccountId, entry: Value, merge: bool, mtime: int, at: real)

  /** The map that a writing event leaves, given the one it found. */
  function Written(e: Event, before: Data): Data {
    match e
    case Read(_, _) => before
    case Write(data, _, _) => data
    case Mutate(mutator, _, _) => mutator(before)
    case Upsert(id, entry, merge, _, _) =>
      if id == "" || entry.Other? then before else Upserted(before, id, entry, merge)
  }

  predicate Writes(e: Event) {
    e.Write? || e.Mutate? || (e.Upsert? && e.id != "" && e.entry.Account?)
  }

  datatype State = State(file: File, cache: Cache)

  function Apply(s: State, e: Event): State {
    if e.Read? then State(s.file, AfterRead(s.cache, s.file, e.t1, e.t2))
    else if !Writes(e) then s
    else
      var data := Written(e, Contents(s.file));
      State(Holding(data, e.mtime), Cache(Some(data), Some(e.mtime), e.at))
  }

  class AuthStore {
    var file: File
    var cache: Cache

    ghost function Now(): State
      reads this
    {
      State(file, cache)
    }

    constructor (found: File)
      ensures Now() == State(found, EMPTY)
    {
      file, cache := found, EMPTY;
    }

    method SetCache(data: Data, mtime: Option<int>, now: real)
      modifies `cache
      ensures cache == Cache(Some(data), mtime, now)
    {
      cache := Cache(Some(data), mtime, now);
    }

    method CachedRead(now: real) returns (data: Option<Data>)
      modifies `cache
      ensures data == Hit(old(cache), file, now)
      ensures cache == AfterLook(old(cache), file, now)
    {
      if cache.data.None? {
        return None;
      }
      if now - cache.statAt < STAT_MIN_INTERVAL && cache.mtime.Some? {
        return cache.data;
      }
      if file.Missing? {
        return None;
      }
      cache := cache.(statAt := now);
      if cache.mtime == Some(file.mtime) {
        return cache.data;
      }
      return None;
    }

    method ReadAuthMap(t1: real, t2: real) returns (data: Data)
      modifies `cache
      ensures data == ReadResult(old(cache), file, t1, t2)
      ensures Now() == Apply(old(Now()), Read(t1, t2))
    {
      var cached := CachedRead(t1);
      if cached.Some? {
        return cached.value;
      }
      cached := CachedRead(t2);
      if cached.Some? {
        return cached.value;
      }
      data := if file.Holding? then file.data else map[];
      SetCache(data, if file.Missing? then None else Some(file.mtime), t2);
    }

    method WriteAuthMap(data: Data, mtime: int, now: real)
      modifies this
      ensures Now() == Apply(old(Now()), Write(data, mtime, now))
    {
      file := Holding(data, mtime);
      SetCache(data, Some(mtime), now);
    }

    method MutateAuthMap(mutator: Data -> Data, mtime: int, now: real) returns (data: Data)
      modifies this
      ensures Now() == Apply(old(Now()), Mutate(mutator, mtime, now))
      ensures data == mutator(Contents(old(file)))
    {
      data := map[];
      if file.Holding? {
        data := file.data;
      }
      data := mutator(data);
      WriteAuthMap(data, mtime, now);
    }

    method UpsertAuthEntry(id: AccountId, entry: Value, merge: bool, mtime: int, now: real) returns (stored: AccountId)
      modifies this
      ensures Now() == Apply(old(Now()), Upsert(id, entry, merge, mtime, now))
      ensures stored == id
    {
      stored := id;
      if id == "" || entry.Other? {
        return;
      }
      var data := if file.Holding? then file.data else map[];
      data := Merged(data, id, entry, merge);
      WriteAuthMap(data, mtime, now);
    }

    /** Deletes, key by key, what the entry supersedes, and stores it. */
    static method Merged(data: Data, id: AccountId, entry: Value, merge: bool) returns (merged: Data)
      requires entry.Account?
      ensures merged == Upserted(data, id, entry, merge)
    {
      merged := data;
      if merge {
        var todo := data.Keys;
        ghost var superseded := Superseded(data, id, entry);
        assert superseded - todo == {};
        while todo != {}
          invariant todo <= data.Keys
          invariant merged == Without(data, superseded - todo)
        {
          var key :| key in todo;
          ScanOne(data, superseded, todo, key);
          if Supersedes(entry, id, key, merged[key]) {
            merged := merged - {key};
          }
          todo := todo - {key};
        }
        assert superseded - {} == superseded;
      }
      merged := merged[id := entry];
    }
  }

  // One process: the cache is coherent

  predicate Coherent(s: State) {
    s.cache.data.Some? ==> s.cache.data.value == Contents(s.file)
  }

  function Run(start: State, events: seq<Event>): State {
    if events == [] then start else Apply(Run(start, events[..|events| - 1]), events[|events| - 1])
  }

  /** The map left by the last write, mutation or upsert. */
  function LastWritten(found: Data, events: seq<Event>): Data {
    if events == [] then found else Written(events[|events| - 1], LastWritten(found, events[..|events| - 1]))
  }

  lemma {:induction false} RunIsCoherent(found: File, events: seq<Event>)
    ensures var s := Run(State(found, EMPTY), events);
            Coherent(s) && Contents(s.file) == LastWritten(Contents(found), events)
  {
    if events != [] {
      RunIsCoherent(found, events[..|events| - 1]);
    }
  }

  /** With one process, every read returns the map last written, whatever the clock says and however the
      file is stamped. */
  lemma ReadsAreCurrent(found: File, events: seq<Event>, t1: real, t2: real)
    ensures var s := Run(State(found, EMPTY), events);
            ReadResult(s.cache, s.file, t1, t2) == LastWritten(Contents(found), events)
  {
    RunIsCoherent(found, events);
  }

  /** A cache just filled by a write, or by a read that went to the file, is trusted for a quarter of a second whatever
      becomes of the file, and after that exactly while the file has the same modification time. */
  lemma FilledCacheIsTrustedIff(s: State, e: Event, file: File, t: real)
    requires Writes(e) || (e.Read? && !s.file.Missing?
                           && Hit(s.cache, s.file, e.t1).None?
                           && Hit(AfterLook(s.cache, s.file, e.t1), s.file, e.t2).None?)
    ensures var after, filled := Apply(s, e), if e.Read? then e.t2 else e.at;
            && after.cache.data == Some(Contents(after.file))
            && (Hit(after.cache, file, t).Some? <==>
                  t - filled < 0.25 || (!file.Missing? && Mtime(file) == Mtime(after.file)))
  {
  }

  /** What a write, a mutation or an upsert leaves in the file. */
  lemma WritesReachTheFile(s: State, e: Event)
    ensures var after := Contents(Apply(s, e).file);
            match e
            case Read(_, _) => after == Contents(s.file)
            case Write(data, _, _) => after == data
            case Mutate(mutator, _, _) => after == mutator(Contents(s.file))
            case Upsert(id, entry, merge, _, _) =>
              if id == "" || entry.Other? then after == Contents(s.file)
              else
                && id in after && after[id] == entry
                && forall key | key in after && key != id :: key in Contents(s.file)
  {
  }

  // Another process writes the file: its map can stay unseen

  /** The cache was filled from a file with another modification time. */
  predicate WrittenElsewhere(s: State) {
    s.cache.data.Some? && s.cache.mtime.Some? && !s.file.Missing? && s.cache.mtime != Mtime(s.file)
  }

  /** The cache answers without looking at the file, as its last check is recent enough. */
  predicate Recent(cache: Cache, checkedAt: real, now: real) {
    cache.mtime.Some? && now - checkedAt < 0.25
  }

  /**
   In every state: a read returns the file's map iff the cache is empty or holds that very
   map, or neither look accepts the cache. The first look accepts it when recently checked
   or when the modification times agree, and otherwise restarts the interval that the second
   look goes by, unless there is no file.
   */
  lemma ReadIsCurrentIff(s: State, t1: real, t2: real)
    ensures ReadResult(s.cache, s.file, t1, t2) == Contents(s.file) <==>
      || s.cache.data.None?
      || s.cache.data.value == Contents(s.file)
      || (&& !Recent(s.cache, s.cache.statAt, t1)
          && !Recent(s.cache, if s.file.Missing? then s.cache.statAt else t1, t2)
          && (s.file.Missing? || s.cache.mtime != Mtime(s.file)))
  {
  }

  /** Reads that take the lock within the check interval never notice the other process, however many there are. */
  lemma {:induction false} PromptReadsStayStale(s: State, looks: seq<Event>, t1: real, t2: real)
    requires WrittenElsewhere(s)
    requires forall r | r in looks :: r.Read? && r.t2 - r.t1 < 0.25
    requires t2 - t1 < 0.25
    ensures var after := Run(s, looks);
            && WrittenElsewhere(after) && after.file == s.file
            && after.cache.data == s.cache.data
            && ReadResult(after.cache, after.file, t1, t2) == s.cache.data.value
  {
    if looks != [] {
      var last := looks[|looks| - 1];
      assert last in looks;
      PromptReadsStayStale(s, looks[..|looks| - 1], last.t1, last.t2);
    }
  }

  /** The map read at noon is still returned an hour after another process wrote the file. */
  lemma ForeignWriteStaysUnseen()
    ensures var before: Data, after: Data := map[], map["a" := Other("")];
            var first := Apply(State(Holding(before, 1), EMPTY), Read(43200.0, 43200.0));
            var written := State(Holding(after, 2), first.cache);
            && ReadResult(written.cache, written.file, 46800.0, 46800.1) == before
            && Contents(written.file) == after && after != before
  {
    var before: Data, after: Data := map[], map["a" := Other("")];
    assert "a" in after && "a" !in before;
  }

  // Merging keeps accounts unique

  function EffectiveUser(value: Value): string {
    if value.Other? then "" else if value.userId != "" then value.userId else value.principalId
  }

  predicate SameAccount(a: Value, b: Value) {
    && a.Account? && b.Account?
    && ((EffectiveUser(a) != "" && EffectiveUser(a) == EffectiveUser(b)) || (a.token != "" && a.token == b.token))
  }

  predicate NoDuplicates(data: Data) {
    forall a, b | a in data && b in data && a != b :: !SameAccount(data[a], data[b])
  }

  lemma MergingKeepsUnique(data: Data, id: AccountId, entry: Value)
    requires entry.Account? && NoDuplicates(data)
    ensures NoDuplicates(Upserted(data, id, entry, true))
  {
  }

  /** A plain upsert keeps accounts unique iff no other key has the same account. */
  lemma PlainUpsertKeepsUniqueIff(data: Data, id: AccountId, entry: Value)
    requires entry.Account? && NoDuplicates(data)
    ensures NoDuplicates(Upserted(data, id, entry, false)) <==>
      forall key | key in data && key != id :: !SameAccount(data[key], entry)
  {
    var after := Upserted(data, id, entry, false);
    if NoDuplicates(after) {
      forall key | key in data && key != id
        ensures !SameAccount(data[key], entry)
      {
        assert key in after && id in after && after[key] == data[key];
      }
    }
  }

  /** From a map without duplicates, no run of merging upserts and reads ever makes one. */
  lemma {:induction false} MergingRunsKeepUnique(found: Data, events: seq<Event>)
    requires NoDuplicates(found)
    requires forall e | e in events :: e.Read? || (e.Upsert? && e.merge)
    ensures NoDuplicates(LastWritten(found, events))
  {
    if events != [] {
      var e, before := events[|events| - 1], events[..|events| - 1];
      assert e in events;
      MergingRunsKeepUnique(found, before);
      if Writes(e) {
        MergingKeepsUnique(LastWritten(found, before), e.id, e.entry);
      }
    }
  }

  /** An entry of another account that an upsert drops all the same: its principal is the new entry's user. */
  predicate PrincipalClashes(value: Value, entry: Value) {
    value.Account? && EffectiveUser(entry) != "" && value.principalId == EffectiveUser(entry)
  }

  /** An upsert stores its entry, adds no other key and changes no other entry; it drops one
      iff that is the same account or its principal is the new entry's user. */
  lemma UpsertDropsIff(data: Data, id: AccountId, entry: Value, key: AccountId)
    requires entry.Account?
    ensures var after := Upserted(data, id, entry, true);
            && id in after && after[id] == entry
            && (key != id && key in after ==> key in data && after[key] == data[key])
            && (key != id && key in data ==>
                  (key !in after <==> SameAccount(data[key], entry) || PrincipalClashes(data[key], entry)))
  {
  }

  /** All entries of other accounts survive an upsert iff none has the new entry's user as its principal. */
  lemma OtherAccountsSurviveIff(data: Data, id: AccountId, entry: Value)
    requires entry.Account?
    ensures var after := Upserted(data, id, entry, true);
            (forall key | key in data && key != id && !SameAccount(data[key], entry) ::
               key in after && after[key] == data[key])
            <==>
            (forall key | key in data && key != id && !SameAccount(data[key], entry) ::
               !PrincipalClashes(data[key], entry))
  {
    forall key | key in data && key != id
      ensures key !in Upserted(data, id, entry, true)
              <==> SameAccount(data[key], entry) || PrincipalClashes(data[key], entry)
    {
      UpsertDropsIff(data, id, entry, key);
    }
  }

  /** The account of user uA is dropped when one of user uB is stored, for uB is its principal. */
  lemma UpsertMayDropAnotherUser()
    ensures var mine, other := Account("uA", "uB", "token-a", ""), Account("uB", "", "token-b", "");
            && EffectiveUser(mine) == "uA" && EffectiveUser(other) == "uB"
            && !SameAccount(mine, other)
            && "a" !in Upserted(map["a" := mine], "b", other, true)
  {
    var mine, other := Account("uA", "uB", "token-a", ""), Account("uB", "", "token-b", "");
    UpsertDropsIff(map["a" := mine], "b", other, "a");
  }

  /** Over any run of merging upserts under other keys an entry stays as it was iff no upsert
      stores the same account or has that entry's principal as its user. */
  lemma {:induction false} EntrySurvivesRunIff(found: Data, events: seq<Event>, key: AccountId)
    requires key in found
    requires forall e | e in events :: e.Read? || (e.Upsert? && e.merge && e.id != key)
    ensures key in LastWritten(found, events) ==> LastWritten(found, events)[key] == found[key]
    ensures key in LastWritten(found, events) <==>
      forall e | e in events && Writes(e) :: !SameAccount(found[key], e.entry) && !PrincipalClashes(found[key], e.entry)
  {
    if events != [] {
      var e, prefix := events[|events| - 1], events[..|events| - 1];
      assert events == prefix + [e] && e in events;
      EntrySurvivesRunIff(found, prefix, key);
      if Writes(e) {
        UpsertDropsIff(LastWritten(found, prefix), e.id, e.entry, key);
      }
    }
  }
}
