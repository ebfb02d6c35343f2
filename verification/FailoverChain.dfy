/** The ordered list of accounts tried for one request. */
module FailoverChain {
  import opened Wrappers
  import opened Sequences
  import opened PoolMeta
  import opened PoolOps
  import opened PoolRuns
  import opened Switches
  import opened Rotation

  const MAX_FAILOVER_ATTEMPTS: nat := 4

  /** `prefer == ""`: no conversation affinity. `configured` is the policy's attempt limit. */
  datatype Request = Request(prefer: string, maxAttempts: Option<int>, configured: nat, mode: Mode)

  function UserOf(c: Creds): string {
    if c.userId != "" then c.userId else c.authKey
  }

  predicate EndsWith(s: string, suffix: string) {
    |s| >= |suffix| && s[|s| - |suffix|..] == suffix
  }

  predicate Prefers(pref: string, c: Creds) {
    c.authKey == pref || c.userId == pref || EndsWith(c.authKey, "::" + pref)
  }

  // ------------------------------------------------------------ list helpers

  /** The preferred entries, or the others, in their given order. */
  function Split(pref: string, preferred: bool, cs: seq<Creds>): (r: seq<Creds>)
    ensures forall c :: c in r <==> c in cs && Prefers(pref, c) == preferred
  {
    Filter(c => Prefers(pref, c) == preferred, cs)
  }

  function PreferredFirst(pref: string, cs: seq<Creds>): seq<Creds> {
    Split(pref, true, cs) + Split(pref, false, cs)
  }

  lemma {:induction false} SplitIsPermutation(pref: string, cs: seq<Creds>)
    ensures multiset(Split(pref, true, cs)) + multiset(Split(pref, false, cs)) == multiset(cs)
  {
    if cs != [] {
      SplitIsPermutation(pref, cs[1..]);
      assert cs == [cs[0]] + cs[1..];
    }
  }

  // ------------------------------------------------------------ candidates

  /** How many attempts are wanted: four when the request does not say, and at least one. */
  function LimitTarget(req: Request): (n: nat)
    ensures req.maxAttempts.None? ==> n == 4
    ensures req.maxAttempts.Some? ==> n >= 1 && n >= req.maxAttempts.value && (n == 1 || n == req.maxAttempts.value)
  {
    if req.maxAttempts.None? then MAX_FAILOVER_ATTEMPTS
    else if req.maxAttempts.value > 1 then req.maxAttempts.value
    else 1
  }

  function WindowSize(req: Request, order: seq<Creds>): nat {
    NMin(|order|, NMax(24, LimitTarget(req) * 12))
  }

  function Unexpired(cs: seq<Creds>, now: real): seq<Creds> {
    Filter(c => !TokenExpired(c, now), cs)
  }

  /** Live accounts with a usable token, the preferred one moved to the front. */
  function Order(req: Request, live: seq<Creds>, now: real): seq<Creds> {
    var usable := Unexpired(live, now);
    if req.prefer != "" then PreferredFirst(req.prefer, usable) else usable
  }

  function Rotated(s: seq<Creds>, start: nat): seq<Creds>
    requires start <= |s|
  {
    s[start..] + s[..start]
  }

  /** Whether the rotation cursor is used, and so advanced. */
  predicate UsesCursor(req: Request, order: seq<Creds>) {
    req.mode == RoundRobin && |order| > WindowSize(req, order)
  }

  function Window(req: Request, order: seq<Creds>, cursor: nat, shuffled: seq<Creds>): seq<Creds> {
    var n := WindowSize(req, order);
    if req.mode == Random && |order| > n then Take(shuffled, n)
    else if UsesCursor(req, order) then
      var w := Take(Rotated(order, PickIndex(cursor, |order|)), n);
      if req.prefer != "" then PreferredFirst(req.prefer, w) else w
    else Take(order, NMax(n, 64))
  }

  function AfterWindow(req: Request, order: seq<Creds>, cursor: nat): nat {
    if UsesCursor(req, order) then NextCursor(cursor, |order|) else cursor
  }

  function Admitted(tier: Tier, cs: seq<Creds>, ctx: Context): seq<Creds> {
    Filter(c => Admits(tier, c, ctx), cs)
  }

  function Extra(req: Request, order: seq<Creds>, window: seq<Creds>): seq<Creds> {
    Take(Filter(c => c !in window, order), NMax(32, WindowSize(req, order)))
  }

  function ExtraLimit(req: Request): nat {
    NMax(8, LimitTarget(req) * 2)
  }

  /** The accounts of the first tier that admits any of the window; failing that, a few from beyond it. */
  function Candidates(req: Request, order: seq<Creds>, window: seq<Creds>, ctx: Context): seq<Creds> {
    if Admitted(Full, window, ctx) != [] then Admitted(Full, window, ctx)
    else if Admitted(IgnoreSoftBlocks, window, ctx) != [] then Admitted(IgnoreSoftBlocks, window, ctx)
    else if Admitted(IgnoreAllBlocks, window, ctx) != [] then Admitted(IgnoreAllBlocks, window, ctx)
    else if Admitted(IgnoreDisabled, window, ctx) != [] then Admitted(IgnoreDisabled, window, ctx)
    else Take(Admitted(Full, Extra(req, order, window), ctx), ExtraLimit(req))
  }

  /** Every candidate is usable and not cooling, and lesser tiers are used only when nothing better is in the window. */
  lemma CandidatesAreSound(req: Request, order: seq<Creds>, window: seq<Creds>, ctx: Context)
    ensures forall c :: c in Candidates(req, order, window, ctx) ==>
              && (c in window || c in order)
              && !TokenExpired(c, ctx.now)
              && !Cooling(c, ctx)
    ensures (exists c :: c in window && Admits(Full, c, ctx))
            ==> forall c :: c in Candidates(req, order, window, ctx) ==> c in window && Admits(Full, c, ctx)
    ensures (exists c :: c in window && (Admits(IgnoreAllBlocks, c, ctx) || Admits(IgnoreDisabled, c, ctx)))
            ==> Candidates(req, order, window, ctx) != []
  {
    forall c | c in window && Admits(Full, c, ctx)
      ensures c in Admitted(Full, window, ctx)
    {
    }
    forall c | c in window && Admits(IgnoreAllBlocks, c, ctx)
      ensures c in Admitted(IgnoreAllBlocks, window, ctx)
    {
    }
    forall c | c in window && Admits(IgnoreDisabled, c, ctx)
      ensures c in Admitted(IgnoreDisabled, window, ctx)
    {
    }
  }

  // ------------------------------------------------------------ one entry per user

  function Users(cs: seq<Creds>): set<string> {
    set c | c in cs :: UserOf(c)
  }

  /** The first entry of every user. */
  function Dedup(cs: seq<Creds>): seq<Creds> {
    if cs == [] then []
    else
      var c := cs[|cs| - 1];
      var d := Dedup(cs[..|cs| - 1]);
      if UserOf(c) in Users(d) then d else d + [c]
  }

  predicate DistinctUsers(cs: seq<Creds>) {
    forall i, j | 0 <= i < j < |cs| :: UserOf(cs[i]) != UserOf(cs[j])
  }

  lemma UsersSnoc(cs: seq<Creds>, c: Creds)
    ensures Users(cs + [c]) == Users(cs) + {UserOf(c)}
  {
    assert forall x :: x in cs + [c] <==> x in cs || x == c;
    assert c in cs + [c];
  }

  lemma {:induction false} DedupIsExact(cs: seq<Creds>)
    ensures DistinctUsers(Dedup(cs))
    ensures forall c :: c in Dedup(cs) ==> c in cs
    ensures Users(Dedup(cs)) == Users(cs)
  {
    if cs != [] {
      var prefix := cs[..|cs| - 1];
      DedupIsExact(prefix);
      assert cs == prefix + [cs[|cs| - 1]];
      var d := Dedup(prefix);
      UsersSnoc(prefix, cs[|cs| - 1]);
      UsersSnoc(d, cs[|cs| - 1]);
      forall i | 0 <= i < |d| ensures UserOf(d[i]) in Users(d) {
        assert d[i] in d;
      }
    }
  }

  /** The first entry of a user is kept, and stands after as many as there are users before it. */
  lemma {:induction false} DedupKeepsFirst(cs: seq<Creds>, i: nat)
    requires i < |cs| && UserOf(cs[i]) !in Users(cs[..i])
    ensures |Users(cs[..i])| < |Dedup(cs)| && Dedup(cs)[|Users(cs[..i])|] == cs[i]
  {
    var n := |cs| - 1;
    if i < n {
      DedupKeepsFirst(cs[..n], i);
      assert cs[..n][..i] == cs[..i];
    } else {
      DedupIsExact(cs[..n]);
      CountOfUsers(Dedup(cs[..n]));
    }
  }

  lemma {:induction false} CountOfUsers(cs: seq<Creds>)
    requires DistinctUsers(cs)
    ensures |Users(cs)| == |cs|
  {
    if cs == [] {
      assert Users(cs) == {};
    } else {
      var n := |cs| - 1;
      CountOfUsers(cs[..n]);
      assert cs == cs[..n] + [cs[n]];
      UsersSnoc(cs[..n], cs[n]);
      assert UserOf(cs[n]) !in Users(cs[..n]);
    }
  }

  // ------------------------------------------------------------ ordering

  datatype Keyed = Keyed(key: Key, creds: Creds)

  /** Python's stable sort. */
  function Sorted(s: seq<Keyed>): seq<Keyed> {
    if s == [] then [] else Insert(Sorted(s[..|s| - 1]), s[|s| - 1])
  }

  function Insert(s: seq<Keyed>, x: Keyed): seq<Keyed> {
    if s == [] || !Before(x.key, s[|s| - 1].key) then s + [x]
    else Insert(s[..|s| - 1], x) + [s[|s| - 1]]
  }

  predicate Ascending(s: seq<Keyed>) {
    forall i, j | 0 <= i < j < |s| :: !Before(s[j].key, s[i].key)
  }

  lemma NotBeforeIsTransitive(a: Key, b: Key, c: Key)
    requires !Before(b, a) && !Before(c, b)
    ensures !Before(c, a)
  {
  }

  lemma {:induction false} InsertIsPermutation(s: seq<Keyed>, x: Keyed)
    ensures multiset(Insert(s, x)) == multiset(s) + multiset{x}
  {
    if s != [] && Before(x.key, s[|s| - 1].key) {
      InsertIsPermutation(s[..|s| - 1], x);
      assert s == s[..|s| - 1] + [s[|s| - 1]];
    }
  }

  lemma {:induction false} InsertKeepsAscending(s: seq<Keyed>, x: Keyed)
    requires Ascending(s)
    ensures Ascending(Insert(s, x))
  {
    if s != [] {
      var front, last := s[..|s| - 1], s[|s| - 1];
      if Before(x.key, last.key) {
        InsertKeepsAscending(front, x);
        InsertIsPermutation(front, x);
        forall i | 0 <= i < |Insert(front, x)| ensures !Before(last.key, Insert(front, x)[i].key) {
          assert Insert(front, x)[i] in multiset(Insert(front, x));
        }
      } else {
        forall i | 0 <= i < |s| ensures !Before(x.key, s[i].key) {
          NotBeforeIsTransitive(s[i].key, last.key, x.key);
        }
      }
    }
  }

  lemma {:induction false} InsertIsStable(s: seq<Keyed>, x: Keyed, k: Key)
    ensures Filter((y: Keyed) => y.key == k, Insert(s, x)) == Filter((y: Keyed) => y.key == k, s + [x])
  {
    var same := (y: Keyed) => y.key == k;
    if s != [] && Before(x.key, s[|s| - 1].key) {
      var front, last := s[..|s| - 1], s[|s| - 1];
      assert s == front + [last];
      InsertIsStable(front, x, k);
      FilterSnoc(same, Insert(front, x), last);
      FilterSnoc(same, front, x);
      FilterSnoc(same, front, last);
      FilterSnoc(same, s, x);
    }
  }

  lemma {:induction false} SortedIsStable(s: seq<Keyed>, k: Key)
    ensures Ascending(Sorted(s))
    ensures multiset(Sorted(s)) == multiset(s)
    ensures Filter((y: Keyed) => y.key == k, Sorted(s)) == Filter((y: Keyed) => y.key == k, s)
  {
    if s != [] {
      var front, x := s[..|s| - 1], s[|s| - 1];
      assert s == front + [x];
      SortedIsStable(front, k);
      InsertKeepsAscending(Sorted(front), x);
      InsertIsPermutation(Sorted(front), x);
      InsertIsStable(Sorted(front), x, k);
      var same := (y: Keyed) => y.key == k;
      FilterSnoc(same, front, x);
      FilterSnoc(same, Sorted(front), x);
    }
  }

  /** The sort key of the account at the given position of the candidate list. */
  function KeyOf(mode: Mode, c: Creds, position: nat, ctx: Context, spread: Spread): Key {
    var inflight := EffectiveInflight(spread.marks, c.authKey, ctx.now);
    var penalty := HealthPenalty(ViewOf(c, ctx), inflight, ctx.now);
    match mode
    case RoundRobin => Key((penalty / 3.0).Floor as real, inflight as real, position as real)
    case LeastUsed => LeastUsedKey(c, ctx, spread)
    case Random => Key(penalty, 0.0, 0.0)
  }

  function WithKeys(mode: Mode, cs: seq<Creds>, ctx: Context, spread: Spread): seq<Keyed> {
    if cs == [] then []
    else
      var n := |cs| - 1;
      WithKeys(mode, cs[..n], ctx, spread) + [Keyed(KeyOf(mode, cs[n], n, ctx, spread), cs[n])]
  }

  function CredsOf(s: seq<Keyed>): seq<Creds> {
    if s == [] then [] else CredsOf(s[..|s| - 1]) + [s[|s| - 1].creds]
  }

  lemma {:induction false} CredsOfInsert(s: seq<Keyed>, x: Keyed)
    ensures multiset(CredsOf(Insert(s, x))) == multiset(CredsOf(s)) + multiset{x.creds}
  {
    if s == [] || !Before(x.key, s[|s| - 1].key) {
      assert (s + [x])[..|s|] == s;
    } else {
      var front, last := s[..|s| - 1], s[|s| - 1];
      CredsOfInsert(front, x);
      assert (Insert(front, x) + [last])[..|Insert(front, x)|] == Insert(front, x);
    }
  }

  lemma {:induction false} CredsOfSorted(s: seq<Keyed>)
    ensures multiset(CredsOf(Sorted(s))) == multiset(CredsOf(s))
  {
    if s != [] {
      CredsOfSorted(s[..|s| - 1]);
      CredsOfInsert(Sorted(s[..|s| - 1]), s[|s| - 1]);
    }
  }

  lemma {:induction false} CredsOfWithKeys(mode: Mode, cs: seq<Creds>, ctx: Context, spread: Spread)
    ensures CredsOf(WithKeys(mode, cs, ctx, spread)) == cs
  {
    if cs != [] {
      var n := |cs| - 1;
      CredsOfWithKeys(mode, cs[..n], ctx, spread);
      var k := WithKeys(mode, cs[..n], ctx, spread);
      assert WithKeys(mode, cs, ctx, spread)[..|k|] == k;
      assert cs == cs[..n] + [cs[n]];
    }
  }

  ghost predicate Permutes(shuffle: seq<Creds> -> seq<Creds>) {
    forall s {:trigger shuffle(s)} :: multiset(shuffle(s)) == multiset(s)
  }

  function Ranked(
      mode: Mode, cs: seq<Creds>, shuffle: seq<Creds> -> seq<Creds>, ctx: Context, spread: Spread): seq<Creds>
  {
    CredsOf(Sorted(WithKeys(mode, if mode == Random then shuffle(cs) else cs, ctx, spread)))
  }

  lemma RankedIsPermutation(mode: Mode, cs: seq<Creds>, shuffle: seq<Creds> -> seq<Creds>, ctx: Context, spread: Spread)
    requires Permutes(shuffle)
    ensures multiset(Ranked(mode, cs, shuffle, ctx, spread)) == multiset(cs)
  {
    var s := if mode == Random then shuffle(cs) else cs;
    CredsOfSorted(WithKeys(mode, s, ctx, spread));
    CredsOfWithKeys(mode, s, ctx, spread);
  }

  // ------------------------------------------------------------ affinity and truncation

  predicate FitToLead(c: Creds, ctx: Context) {
    && !BlockedHere(c, false, ctx)
    && ViewOf(c, ctx).consecutiveFails < 2
    && !TokenExpired(c, ctx.now)
  }

  function Pinned(pref: string, cs: seq<Creds>, ctx: Context): seq<Creds> {
    var sticky := Split(pref, true, cs);
    if pref == "" || sticky == [] then cs
    else if FitToLead(sticky[0], ctx) then sticky + Split(pref, false, cs)
    else Split(pref, false, cs) + sticky
  }

  lemma PinnedIsPermutation(pref: string, cs: seq<Creds>, ctx: Context)
    ensures multiset(Pinned(pref, cs, ctx)) == multiset(cs)
  {
    SplitIsPermutation(pref, cs);
  }

  function AttemptLimit(req: Request, ready: nat): nat {
    if req.maxAttempts.Some? then LimitTarget(req)
    else if ready < 2 then NMax(NMax(1, req.configured), NMin(8, NMax(4, if ready == 0 then 4 else ready)))
    else NMax(1, req.configured)
  }

  function UniqueOf(
      req: Request, order: seq<Creds>, cursor: nat, shuffle: seq<Creds> -> seq<Creds>, ctx: Context): seq<Creds>
  {
    Dedup(Candidates(req, order, Window(req, order, cursor, shuffle(order)), ctx))
  }

  /** The de-duplicated candidates in the order they are tried. */
  function LineupOf(
      req: Request, unique: seq<Creds>, shuffle: seq<Creds> -> seq<Creds>, ctx: Context, spread: Spread): seq<Creds>
  {
    Pinned(req.prefer, Ranked(req.mode, unique, shuffle, ctx, spread), ctx)
  }

  function Cut(req: Request, lineup: seq<Creds>, now: real): seq<Creds> {
    Unexpired(Take(lineup, AttemptLimit(req, |lineup|)), now)
  }

  /** Everything one selection depends on; `shuffle` stands for the random permutations drawn. */
  datatype Selection = Selection(
    req: Request,
    live: seq<Creds>,
    cursor: nat,
    shuffle: seq<Creds> -> seq<Creds>,
    spread: Spread,
    ctx: Context
  ) {
    ghost predicate Valid() {
      Permutes(shuffle)
    }

    function Fresh(): seq<Creds> {
      Order(req, live, ctx.now)
    }

    function Considered(): seq<Creds> {
      Window(req, Fresh(), cursor, shuffle(Fresh()))
    }

    function Unique(): seq<Creds> {
      UniqueOf(req, Fresh(), cursor, shuffle, ctx)
    }

    function NextCursor(): nat {
      AfterWindow(req, Fresh(), cursor)
    }

    function Lineup(): seq<Creds> {
      LineupOf(req, Unique(), shuffle, ctx, spread)
    }

    function Chain(): seq<Creds> {
      Cut(req, Lineup(), ctx.now)
    }
  }

  // ------------------------------------------------------------ correctness

  lemma SamePermutationSameMembers<T>(a: seq<T>, b: seq<T>)
    requires multiset(a) == multiset(b)
    ensures |a| == |b|
    ensures forall x :: x in a <==> x in b
  {
    assert |a| == |multiset(a)| == |multiset(b)| == |b|;
    forall x ensures x in a <==> x in b {
      assert x in a <==> x in multiset(a);
      assert x in b <==> x in multiset(b);
    }
  }

  lemma ConsideredIsFresh(s: Selection)
    requires s.Valid()
    ensures forall c :: c in s.Considered() ==> c in s.Fresh()
    ensures forall c :: c in s.Fresh() ==> c in s.live && !TokenExpired(c, s.ctx.now)
  {
    SamePermutationSameMembers(s.shuffle(s.Fresh()), s.Fresh());
    WindowIsFromOrder(s.req, s.Fresh(), s.cursor, s.shuffle(s.Fresh()));
  }

  lemma WindowIsFromOrder(req: Request, order: seq<Creds>, cursor: nat, shuffled: seq<Creds>)
    requires forall c :: c in shuffled <==> c in order
    ensures forall c :: c in Window(req, order, cursor, shuffled) ==> c in order
  {
  }

  lemma UniqueIsSound(s: Selection)
    requires s.Valid()
    ensures DistinctUsers(s.Unique())
    ensures forall c :: c in s.Unique() ==> c in s.live && !TokenExpired(c, s.ctx.now) && !Cooling(c, s.ctx)
    ensures (exists c :: c in s.Considered() && Admits(Full, c, s.ctx))
            ==> forall c :: c in s.Unique() ==> c in s.Considered() && Admits(Full, c, s.ctx)
  {
    ConsideredIsFresh(s);
    CandidatesAreSound(s.req, s.Fresh(), s.Considered(), s.ctx);
    DedupIsExact(Candidates(s.req, s.Fresh(), s.Considered(), s.ctx));
  }

  lemma UserCount(cs: seq<Creds>, i: nat, c: Creds)
    requires DistinctUsers(cs) && i < |cs| && c in multiset(cs) && UserOf(cs[i]) == UserOf(c)
    ensures cs[i] == c && multiset(cs)[c] == 1
  {
    var j :| 0 <= j < |cs| && cs[j] == c;
    assert i == j;
    var before, after := cs[..i], cs[i + 1..];
    assert cs == before + [c] + after;
    assert forall k | 0 <= k < |before| :: UserOf(before[k]) != UserOf(c);
    assert forall k | 0 <= k < |after| :: UserOf(after[k]) != UserOf(c);
    assert multiset(before)[c] == 0 && multiset(after)[c] == 0;
  }

  lemma RepeatedMember<T>(b: seq<T>, i: nat, j: nat)
    requires i < j < |b| && b[i] == b[j]
    ensures multiset(b)[b[j]] >= 2
  {
    assert b == b[..j] + b[j..];
    assert b[i] == b[..j][i] && b[j] == b[j..][0];
    assert b[j] in multiset(b[..j]) && b[j] in multiset(b[j..]);
  }

  /** Having one entry per user does not depend on the order. */
  lemma DistinctUsersArePermutable(a: seq<Creds>, b: seq<Creds>)
    requires multiset(a) == multiset(b) && DistinctUsers(a)
    ensures DistinctUsers(b)
  {
    forall i, j | 0 <= i < j < |b| ensures UserOf(b[i]) != UserOf(b[j]) {
      if UserOf(b[i]) == UserOf(b[j]) {
        assert b[j] in multiset(a) && b[i] in multiset(a);
        var k :| 0 <= k < |a| && a[k] == b[i];
        if b[i] == b[j] {
          RepeatedMember(b, i, j);
        }
        UserCount(a, k, b[j]);
      }
    }
  }

  lemma LineupIsPermutation(s: Selection)
    requires s.Valid()
    ensures multiset(s.Lineup()) == multiset(s.Unique())
    ensures |s.Lineup()| == |s.Unique()| && forall c :: c in s.Lineup() <==> c in s.Unique()
  {
    var ranked := Ranked(s.req.mode, s.Unique(), s.shuffle, s.ctx, s.spread);
    RankedIsPermutation(s.req.mode, s.Unique(), s.shuffle, s.ctx, s.spread);
    PinnedIsPermutation(s.req.prefer, ranked, s.ctx);
    SamePermutationSameMembers(s.Lineup(), s.Unique());
  }

  /**
   What every failover chain satisfies, for any mode, rotation, shuffle and load marks:
   it is the beginning of a rearrangement of the de-duplicated candidates; its accounts
   are live, unexpired, not cooling and of different users; and when the window holds
   a fully eligible account, no lesser one is in the chain.
   */
  lemma {:induction false} ChainIsCorrect(s: Selection)
    requires s.Valid()
    ensures multiset(s.Lineup()) == multiset(s.Unique())
    ensures s.Chain() == Take(s.Lineup(), AttemptLimit(s.req, |s.Unique()|))
    ensures forall c :: c in s.Chain() ==> c in s.live && !TokenExpired(c, s.ctx.now) && !Cooling(c, s.ctx)
    ensures DistinctUsers(s.Chain())
    ensures (exists c :: c in s.Considered() && Admits(Full, c, s.ctx))
            ==> forall c :: c in s.Chain() ==> c in s.Considered() && Admits(Full, c, s.ctx)
  {
    UniqueIsSound(s);
    LineupIsPermutation(s);
    DistinctUsersArePermutable(s.Unique(), s.Lineup());
    var head := Take(s.Lineup(), AttemptLimit(s.req, |s.Lineup()|));
    assert forall c :: c in head ==> c in s.Lineup();
    FilterAll(c => !TokenExpired(c, s.ctx.now), head);
    assert s.Chain() == head;
  }

  /** No two accounts of a chain have the same user id, nor, where neither has one, the same key. */
  lemma ChainUsersDiffer(s: Selection, i: nat, j: nat)
    requires s.Valid() && i < j < |s.Chain()|
    ensures var c, d := s.Chain()[i], s.Chain()[j];
            if c.userId == "" then c.authKey != d.authKey || d.userId != "" else c.userId != d.userId
  {
    assert UserOf(s.Chain()[i]) != UserOf(s.Chain()[j]) by {
      ChainIsCorrect(s);
    }
  }

  /** The chain has one entry per candidate user, up to the attempts requested or else configured, and at least one. */
  lemma ChainLength(s: Selection)
    requires s.Valid()
    ensures |s.Chain()| == NMin(|s.Unique()|, AttemptLimit(s.req, |s.Unique()|))
    ensures var wanted := if s.req.maxAttempts.Some? then s.req.maxAttempts.value else s.req.configured;
            |s.Chain()| == if |s.Unique()| <= 1 then |s.Unique()|
                           else if wanted <= 1 then 1
                           else if wanted <= |s.Unique()| then wanted
                           else |s.Unique()|
    ensures s.Chain() == [] <==> s.Unique() == []
  {
    var n := |s.Unique()|;
    assert s.Chain() == Take(s.Lineup(), AttemptLimit(s.req, n)) by {
      ChainIsCorrect(s);
    }
    assert |s.Lineup()| == n by {
      LineupIsPermutation(s);
    }
  }

  /** The chain is empty only if no account of the window, nor of the slice tried after it, can be admitted at all. */
  lemma ChainIsEmptyIff(s: Selection)
    requires s.Valid()
    ensures s.Chain() == []
            <==> (forall c :: c in s.Considered() ==>
                    !Admits(IgnoreAllBlocks, c, s.ctx) && !Admits(IgnoreDisabled, c, s.ctx))
                 && (forall c :: c in Extra(s.req, s.Fresh(), s.Considered()) ==> !Admits(Full, c, s.ctx))
  {
    ChainLength(s);
    CandidatesIsEmptyIff(s.req, s.Fresh(), s.Considered(), s.ctx);
    DedupIsEmptyIff(Candidates(s.req, s.Fresh(), s.Considered(), s.ctx));
  }

  lemma DedupIsEmptyIff(cs: seq<Creds>)
    ensures Dedup(cs) == [] <==> cs == []
  {
    DedupIsExact(cs);
    if cs != [] {
      assert UserOf(cs[0]) in Users(cs);
    }
  }

  lemma CandidatesIsEmptyIff(req: Request, order: seq<Creds>, window: seq<Creds>, ctx: Context)
    ensures Candidates(req, order, window, ctx) == []
            <==> (forall c :: c in window ==> !Admits(IgnoreAllBlocks, c, ctx) && !Admits(IgnoreDisabled, c, ctx))
                 && (forall c :: c in Extra(req, order, window) ==> !Admits(Full, c, ctx))
  {
    EmptyIff(Full, window, ctx);
    EmptyIff(IgnoreSoftBlocks, window, ctx);
    EmptyIff(IgnoreAllBlocks, window, ctx);
    EmptyIff(IgnoreDisabled, window, ctx);
    EmptyIff(Full, Extra(req, order, window), ctx);
  }

  lemma EmptyIff(tier: Tier, cs: seq<Creds>, ctx: Context)
    ensures Admitted(tier, cs, ctx) == [] <==> forall c :: c in cs ==> !Admits(tier, c, ctx)
  {
    if Admitted(tier, cs, ctx) != [] {
      assert Admitted(tier, cs, ctx)[0] in Admitted(tier, cs, ctx);
    }
  }

  /** The preferred candidates in the order of the ranking. */
  function PreferredRanked(s: Selection): seq<Creds> {
    Split(s.req.prefer, true, Ranked(s.req.mode, s.Unique(), s.shuffle, s.ctx, s.spread))
  }

  /** A preferred account leads the chain iff the first preferred one in the ranking is fit to, or there is no
      other account. */
  lemma PreferredLeadsIff(s: Selection)
    requires s.Valid() && s.req.prefer != ""
    ensures s.Chain() != [] && Prefers(s.req.prefer, s.Chain()[0])
        <==> PreferredRanked(s) != []
             && (|| (forall c :: c in s.Unique() ==> Prefers(s.req.prefer, c))
                 || (var m := ViewOf(PreferredRanked(s)[0], s.ctx);
                     m.consecutiveFails <= 1 && !IsModelBlocked(m, s.ctx.model, false, s.ctx.now)))
    ensures PreferredRanked(s) != [] && FitToLead(PreferredRanked(s)[0], s.ctx) ==>
              s.Chain() != [] && s.Chain()[0] == PreferredRanked(s)[0]
  {
    var ranked := Ranked(s.req.mode, s.Unique(), s.shuffle, s.ctx, s.spread);
    RankedIsPermutation(s.req.mode, s.Unique(), s.shuffle, s.ctx, s.spread);
    SamePermutationSameMembers(ranked, s.Unique());
    ChainHead(s);
    PinnedHeadIff(s.req.prefer, ranked, s.ctx);
    if PreferredRanked(s) != [] {
      PreferredRankedMembers(s);
      UniqueIsSound(s);
    }
  }

  lemma ChainHead(s: Selection)
    requires s.Valid()
    ensures s.Chain() == [] <==> s.Lineup() == []
    ensures s.Chain() != [] ==> s.Chain()[0] == s.Lineup()[0]
  {
    ChainIsCorrect(s);
    LineupIsPermutation(s);
  }

  lemma PinnedHeadIff(pref: string, cs: seq<Creds>, ctx: Context)
    requires pref != ""
    ensures var sticky, pinned := Split(pref, true, cs), Pinned(pref, cs, ctx);
            && (pinned != [] && Prefers(pref, pinned[0])
                <==> sticky != [] && (FitToLead(sticky[0], ctx) || forall c :: c in cs ==> Prefers(pref, c)))
            && (sticky != [] && FitToLead(sticky[0], ctx) ==> pinned != [] && pinned[0] == sticky[0])
  {
    var sticky, rest := Split(pref, true, cs), Split(pref, false, cs);
    assert sticky != [] ==> sticky[0] in sticky;
    assert rest != [] ==> rest[0] in rest;
    assert cs != [] ==> cs[0] in cs;
  }

  lemma PreferredRankedMembers(s: Selection)
    requires s.Valid()
    ensures forall c :: c in PreferredRanked(s) <==> c in s.Unique() && Prefers(s.req.prefer, c)
    ensures PreferredRanked(s) != [] ==> PreferredRanked(s)[0] in PreferredRanked(s)
  {
    RankedIsPermutation(s.req.mode, s.Unique(), s.shuffle, s.ctx, s.spread);
    SamePermutationSameMembers(Ranked(s.req.mode, s.Unique(), s.shuffle, s.ctx, s.spread), s.Unique());
  }

  // ------------------------------------------------------------ policy, end to end

  /** A failed account is in no chain before it recovers. */
  lemma {:induction false} FailedAccountsAreNeverChained(
      s: Selection, metas: map<AccountId, Meta>, events: seq<Event>, c: Creds)
    requires s.Valid() && PoolInv(metas) && c.authKey != ""
    requires s.ctx.metas == Run(metas, events) && UnrecoveredFailure(metas, events, c.authKey)
    ensures c !in s.Chain()
  {
    ChainIsCorrect(s);
    CoolingIffUnrecoveredFailure(metas, events, c.authKey, s.ctx.now);
  }

  /** After any run an account disabled for quota is in no chain. */
  lemma {:induction false} QuotaDisabledIsNeverChained(
      s: Selection, metas: map<AccountId, Meta>, events: seq<Event>, c: Creds)
    requires s.Valid() && QuotaInv(metas)
    requires s.ctx.metas == Run(metas, events) && Get(s.ctx.metas, c.authKey).disabledForQuota
    ensures c !in s.Chain()
  {
    var candidates := Candidates(s.req, s.Fresh(), s.Considered(), s.ctx);
    forall tier: Tier
      ensures !Admits(tier, c, s.ctx)
    {
      QuotaDisabledIsInNoTier(metas, events, c, tier, s.ctx.model, s.ctx.now);
    }
    assert c !in candidates;
    assert c !in s.Unique() by {
      DedupIsExact(candidates);
    }
    assert s.Chain() == Take(s.Lineup(), AttemptLimit(s.req, |s.Unique()|)) by {
      ChainIsCorrect(s);
    }
    LineupIsPermutation(s);
  }

  /** In a reachable state a fully eligible account has no failure streak, and so is fit to lead. */
  lemma EligibleIsFitToLead(metas: map<AccountId, Meta>, events: seq<Event>, c: Creds, ctx: Context)
    requires PoolInv(metas) && StreakInv(metas) && ctx.metas == Run(metas, events)
    requires Admits(Full, c, ctx)
    ensures FitToLead(c, ctx)
  {
    RunKeepsInv(metas, events);
    RunKeepsStreaks(metas, events);
    var m := Get(ctx.metas, c.authKey);
    CoolingIsClockFree(m, ctx.now, ctx.now);
  }

  /** After any run, when the window holds a fully eligible account, a preferred candidate leads the chain. */
  lemma PreferredLeadsAfterRun(s: Selection, metas: map<AccountId, Meta>, events: seq<Event>)
    requires s.Valid() && s.req.prefer != ""
    requires PoolInv(metas) && StreakInv(metas) && s.ctx.metas == Run(metas, events)
    requires exists c :: c in s.Considered() && Admits(Full, c, s.ctx)
    ensures (exists c :: c in s.Unique() && Prefers(s.req.prefer, c))
        <==> s.Chain() != [] && Prefers(s.req.prefer, s.Chain()[0])
  {
    UniqueIsSound(s);
    PreferredRankedMembers(s);
    PreferredLeadsIff(s);
    if PreferredRanked(s) != [] {
      EligibleIsFitToLead(metas, events, PreferredRanked(s)[0], s.ctx);
    }
  }
}
