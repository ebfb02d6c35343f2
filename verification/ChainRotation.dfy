/** How the cursor moves the window of a failover chain, and with it the accounts that are tried first. */
module ChainRotation {
  import opened Wrappers
  import opened Sequences
  import opened PoolMeta
  import opened Rotation
  import opened FailoverChain
  import opened ChainOrder
  import opened ExpiredAccounts

  /** A stretch of a circle of accounts. */
  function Arc(circle: seq<Creds>, start: nat, length: nat): (arc: seq<Creds>)
    requires circle != []
    ensures |arc| == length && forall i | 0 <= i < length :: arc[i] == circle[(start + i) % |circle|]
  {
    seq(length, i requires 0 <= i < length => circle[(start + i) % |circle|])
  }

  /** How many accounts a window has room for: a dozen an attempt, and at least two dozen. */
  function Room(req: Request): (n: nat)
    ensures n >= 24 && n >= 12 * LimitTarget(req) && (n == 24 || n == 12 * LimitTarget(req))
  {
    if LimitTarget(req) <= 2 then 24 else 12 * LimitTarget(req)
  }

  lemma WrappedIndex(start: nat, i: nat, n: nat)
    requires start < n && i < n
    ensures (start + i) % n == if start + i < n then start + i else start + i - n
  {
    if start + i < n {
      SmallModulus(start + i, n);
    } else {
      SmallModulus(start + i - n, n);
      OneRoundMore(start + i - n, n);
    }
  }

  lemma OneRoundMore(x: nat, n: nat)
    requires n > 0
    ensures (x + n) % n == x % n
  {
    var q, p := x / n + 1, (x + n) / n;
    assert x + n == q * n + x % n && x + n == p * n + (x + n) % n;
    if p < q {
      NextMultiple(p, q, n);
    }
    if q < p {
      NextMultiple(q, p, n);
    }
  }

  lemma {:induction false} ModulusTwice(cursor: nat, i: nat, n: nat)
    requires n > 0
    ensures (cursor % n + i) % n == (cursor + i) % n
  {
    if cursor >= n {
      ModulusTwice(cursor - n, i, n);
      OneRoundMore(cursor - n, n);
      OneRoundMore(cursor - n + i, n);
    } else {
      SmallModulus(cursor, n);
    }
  }

  lemma RotationIsArc(order: seq<Creds>, cursor: nat, length: nat)
    requires order != [] && length <= |order|
    ensures Take(Rotated(order, PickIndex(cursor, |order|)), length) == Arc(order, cursor, length)
  {
    var n := |order|;
    var start := PickIndex(cursor, n);
    var rotated := Rotated(order, start);
    forall i | 0 <= i < length
      ensures rotated[i] == order[(cursor + i) % n]
    {
      WrappedIndex(start, i, n);
      ModulusTwice(cursor, i, n);
    }
  }

  lemma WindowIsArc(req: Request, order: seq<Creds>, cursor: nat, shuffled: seq<Creds>)
    requires req.mode == RoundRobin && |order| > Room(req)
    ensures Window(req, order, cursor, shuffled)
         == if req.prefer == "" then Arc(order, cursor, Room(req))
            else PreferredFirst(req.prefer, Arc(order, cursor, Room(req)))
  {
    assert WindowSize(req, order) == Room(req);
    assert Take(Rotated(order, PickIndex(cursor, |order|)), Room(req)) == Arc(order, cursor, Room(req)) by {
      RotationIsArc(order, cursor, Room(req));
    }
  }

  lemma WindowIsAll(req: Request, order: seq<Creds>, cursor: nat, shuffled: seq<Creds>)
    requires |order| <= Room(req)
    ensures Window(req, order, cursor, shuffled) == order
  {
    assert WindowSize(req, order) == |order|;
  }

  /** In round robin the window is the stretch of the fresh accounts that begins at the cursor, as far as there is
      room, with preferred accounts first; when there is room for all, it is all of them from the first on. */
  lemma WindowFollowsCursor(s: Selection)
    requires s.req.mode == RoundRobin
    ensures |s.Fresh()| > Room(s.req) ==>
              var arc := Arc(s.Fresh(), s.cursor, Room(s.req));
              s.Considered() == if s.req.prefer == "" then arc else PreferredFirst(s.req.prefer, arc)
    ensures |s.Fresh()| <= Room(s.req) ==> s.Considered() == s.Fresh()
  {
    if |s.Fresh()| > Room(s.req) {
      WindowIsArc(s.req, s.Fresh(), s.cursor, s.shuffle(s.Fresh()));
    } else {
      WindowIsAll(s.req, s.Fresh(), s.cursor, s.shuffle(s.Fresh()));
    }
  }

  /** The cursor goes round the fresh accounts one by one, and stays while there is room for all. */
  lemma CursorMoves(s: Selection)
    requires s.req.mode == RoundRobin
    ensures s.NextCursor() == if |s.Fresh()| > Room(s.req) then (s.cursor + 1) % |s.Fresh()| else s.cursor
  {
    if |s.Fresh()| > Room(s.req) {
      ModulusTwice(s.cursor, 1, |s.Fresh()|);
    }
  }

  /** In the other modes the cursor is not used: least-used considers the first accounts, at least 64 of them, and
      random as many of a shuffle as there is room for. */
  lemma WindowOfOtherModes(s: Selection)
    requires s.req.mode != RoundRobin && s.Valid()
    ensures s.NextCursor() == s.cursor
    ensures |s.Fresh()| <= Room(s.req) ==> s.Considered() == s.Fresh()
    ensures s.req.mode == LeastUsed && |s.Fresh()| <= 64 ==> s.Considered() == s.Fresh()
    ensures s.req.mode == LeastUsed && |s.Fresh()| > Room(s.req) >= 64 ==> s.Considered() == s.Fresh()[..Room(s.req)]
    ensures s.req.mode == LeastUsed && |s.Fresh()| > 64 > Room(s.req) ==> s.Considered() == s.Fresh()[..64]
    ensures s.req.mode == Random && |s.Fresh()| > Room(s.req) ==>
              s.Considered() == Take(s.shuffle(s.Fresh()), Room(s.req)) && |s.Considered()| == Room(s.req)
  {
    SamePermutationSameMembers(s.shuffle(s.Fresh()), s.Fresh());
  }

  // ------------------------------------------------------------ the fresh accounts

  lemma PreferredComeFirst(pref: string, cs: seq<Creds>)
    ensures forall c :: c in PreferredFirst(pref, cs) <==> c in cs
    ensures forall i, j | 0 <= i < j < |PreferredFirst(pref, cs)| ::
              Prefers(pref, PreferredFirst(pref, cs)[j]) ==> Prefers(pref, PreferredFirst(pref, cs)[i])
  {
    var first, others := Split(pref, true, cs), Split(pref, false, cs);
    assert forall i | 0 <= i < |first| :: first[i] in first;
    assert forall i | 0 <= i < |others| :: others[i] in others;
  }

  /** Preferred entries come first, and both kinds keep their order. */
  lemma {:induction false} PreferredFirstIsStable(pref: string, cs: seq<Creds>)
    ensures forall c :: c in PreferredFirst(pref, cs) <==> c in cs
    ensures Split(pref, true, PreferredFirst(pref, cs)) == Split(pref, true, cs)
    ensures Split(pref, false, PreferredFirst(pref, cs)) == Split(pref, false, cs)
    ensures forall i, j | 0 <= i < j < |PreferredFirst(pref, cs)| ::
              Prefers(pref, PreferredFirst(pref, cs)[j]) ==> Prefers(pref, PreferredFirst(pref, cs)[i])
  {
    var first, others := Split(pref, true, cs), Split(pref, false, cs);
    var yes, no := c => Prefers(pref, c) == true, c => Prefers(pref, c) == false;
    FilterConcat(yes, first, others);
    FilterConcat(no, first, others);
    FilterAll(yes, first);
    FilterAll(no, others);
    FilterNobody(yes, others);
    FilterNobody(no, first);
    PreferredComeFirst(pref, cs);
  }

  /** Who is preferred: the account of that key, any of that user, and any whose key ends in "::" and that name. */
  lemma PreferredIff(pref: string, c: Creds)
    ensures Prefers(pref, c) <==>
      c.authKey == pref || c.userId == pref || exists issuer: string :: c.authKey == issuer + "::" + pref
  {
    var suffix := "::" + pref;
    if EndsWith(c.authKey, suffix) {
      assert c.authKey == c.authKey[..|c.authKey| - |suffix|] + suffix;
      assert c.authKey == c.authKey[..|c.authKey| - |suffix|] + "::" + pref;
    }
    forall issuer: string | c.authKey == issuer + "::" + pref
      ensures EndsWith(c.authKey, suffix)
    {
      assert c.authKey == issuer + suffix;
    }
  }

  /** A selection works on the live accounts whose token has more than a minute left, in their order, preferred ones
      first. */
  lemma FreshAccounts(s: Selection, c: Creds)
    ensures c in s.Fresh() <==> c in s.live && (c.expiresAt.Some? ==> s.ctx.now < c.expiresAt.value - 60.0)
    ensures s.req.prefer == "" ==> s.Fresh() == Filter(d => !TokenExpired(d, s.ctx.now), s.live)
    ensures s.req.prefer != "" ==>
              s.Fresh() == PreferredFirst(s.req.prefer, Filter(d => !TokenExpired(d, s.ctx.now), s.live))
  {
  }

  // ------------------------------------------------------------ fairness

  /** How often a window opens with the account, in m consecutive selections. */
  function TimesOpened(s: Selection, m: nat, c: Creds): nat
    decreases m
  {
    if m == 0 then 0
    else (if s.Considered() != [] && s.Considered()[0] == c then 1 else 0)
         + TimesOpened(s.(cursor := s.NextCursor()), m - 1, c)
  }

  predicate NoRepeats(cs: seq<Creds>) {
    forall i, j | 0 <= i < j < |cs| :: cs[i] != cs[j]
  }

  lemma WindowOpensAtCursor(s: Selection)
    requires s.req.mode == RoundRobin && s.req.prefer == "" && |s.Fresh()| > Room(s.req)
    ensures s.Considered() != [] && s.Considered()[0] == s.Fresh()[s.cursor % |s.Fresh()|]
    ensures s.NextCursor() == Rotation.NextCursor(s.cursor, |s.Fresh()|)
  {
    WindowFollowsCursor(s);
  }

  lemma {:induction false} TimesOpenedIsTimesPicked(s: Selection, m: nat, i: nat)
    requires s.req.mode == RoundRobin && s.req.prefer == "" && |s.Fresh()| > Room(s.req)
    requires NoRepeats(s.Fresh()) && i < |s.Fresh()|
    ensures TimesOpened(s, m, s.Fresh()[i]) == TimesPicked(s.cursor, |s.Fresh()|, m, i)
    decreases m
  {
    if m > 0 {
      var next := s.(cursor := s.NextCursor());
      WindowOpensAtCursor(s);
      assert next.Fresh() == s.Fresh();
      TimesOpenedIsTimesPicked(next, m - 1, i);
    }
  }

  /** In a pool larger than a window, m consecutive round-robin selections without a preference open their windows
      with every account its share of times, rounded up or down. */
  lemma WindowsAreFair(s: Selection, m: nat, c: Creds)
    requires s.req.mode == RoundRobin && s.req.prefer == "" && |s.Fresh()| > Room(s.req)
    requires NoRepeats(s.Fresh()) && c in s.Fresh()
    ensures m / |s.Fresh()| <= TimesOpened(s, m, c) <= (m + |s.Fresh()| - 1) / |s.Fresh()|
  {
    var i :| 0 <= i < |s.Fresh()| && s.Fresh()[i] == c;
    TimesOpenedIsTimesPicked(s, m, i);
    RoundRobinIsFair(s.cursor, |s.Fresh()|, m, i);
  }

  // ------------------------------------------------------------ a preferred account outside the window

  lemma FullCircleIndex(start: nat, i: nat, n: nat)
    requires start < n && i < n
    ensures (start + i) % n == 0 <==> (start == 0 && i == 0) || start + i == n
  {
    WrappedIndex(start, i, n);
  }

  lemma FirstInArcIff(circle: seq<Creds>, cursor: nat, length: nat)
    requires NoRepeats(circle) && 0 < length < |circle|
    ensures var start := cursor % |circle|;
            circle[0] in Arc(circle, cursor, length) <==> start == 0 || start + length > |circle|
  {
    var n := |circle|;
    var start, arc := cursor % n, Arc(circle, cursor, length);
    forall i | 0 <= i < length
      ensures arc[i] == circle[0] <==> (start == 0 && i == 0) || start + i == n
    {
      ModulusTwice(cursor, i, n);
      FullCircleIndex(start, i, n);
    }
    if start == 0 {
      assert arc[0] in arc;
    } else if start + length > n {
      assert arc[n - start] in arc;
    }
  }

  /** The preferred account is put first of all before the window is cut out at the cursor. So in a pool larger than a
      window it is considered only if the stretch from the cursor on begins with it or comes round to it. */
  lemma PreferredIsConsideredIff(s: Selection)
    requires s.req.mode == RoundRobin && s.req.prefer != ""
    requires |s.Fresh()| > Room(s.req) && NoRepeats(s.Fresh())
    ensures var start := s.cursor % |s.Fresh()|;
            s.Fresh()[0] in s.Considered() <==> start == 0 || start + Room(s.req) > |s.Fresh()|
  {
    var circle, room := s.Fresh(), Room(s.req);
    var arc := Arc(circle, s.cursor, room);
    assert s.Considered() == PreferredFirst(s.req.prefer, arc) by {
      WindowFollowsCursor(s);
    }
    assert circle[0] in PreferredFirst(s.req.prefer, arc) <==> circle[0] in arc by {
      PreferredFirstIsStable(s.req.prefer, arc);
    }
    FirstInArcIff(circle, s.cursor, room);
  }

  function Nth(i: nat): Creds {
    Creds(seq(i + 1, _ => 'a'), "", None, "t")
  }

  /** Twenty-five healthy accounts, the first of which is preferred, and the cursor at the second. */
  function PassingOver(spread: Spread): Selection {
    Selection(Request("a", Some(1), 1, RoundRobin), seq(25, i requires 0 <= i < 25 => Nth(i)), 1, cs => cs, spread,
              Context(map[], "", 0.0))
  }

  lemma NthIsPreferredIff(i: nat)
    ensures Prefers("a", Nth(i)) <==> i == 0
  {
    var key := Nth(i).authKey;
    assert !EndsWith(key, "::" + "a") by {
      if |key| >= 3 {
        assert key[|key| - 3..][0] == 'a' && ("::" + "a")[0] == ':';
      }
    }
    assert key == "a" <==> i == 0 by {
      assert |"a"| == 1 && |key| == i + 1;
    }
  }

  lemma PassingOverFresh(s: Selection, spread: Spread)
    requires s == PassingOver(spread)
    ensures s.Fresh() == s.live && NoRepeats(s.live)
  {
    var live := s.live;
    assert Unexpired(live, 0.0) == live by {
      FilterAll(c => !TokenExpired(c, 0.0), live);
    }
    forall i | 0 <= i < |live|
      ensures Prefers("a", live[i]) <==> i == 0
    {
      NthIsPreferredIff(i);
    }
    FirstIsPreferred("a", live);
    forall i, j | 0 <= i < j < |live|
      ensures live[i] != live[j]
    {
      assert |live[i].authKey| == i + 1 && |live[j].authKey| == j + 1;
    }
  }

  lemma FirstIsPreferred(pref: string, cs: seq<Creds>)
    requires cs != [] && forall i | 0 <= i < |cs| :: Prefers(pref, cs[i]) <==> i == 0
    ensures PreferredFirst(pref, cs) == cs
  {
    var others := cs[1..];
    assert cs == [cs[0]] + others;
    assert forall c | c in others :: !Prefers(pref, c);
    FilterNobody(c => Prefers(pref, c) == true, others);
    FilterAll(c => Prefers(pref, c) == false, others);
  }

  lemma PassingOverWindow(s: Selection, spread: Spread)
    requires s == PassingOver(spread)
    ensures s.live[0] !in s.Considered() && s.live[1] in s.Considered()
    ensures forall c :: c in s.Considered() ==> c in s.live
  {
    PassingOverFresh(s, spread);
    PreferredIsConsideredIff(s);
    var arc := Arc(s.live, 1, 24);
    assert s.Considered() == PreferredFirst("a", arc) by {
      WindowFollowsCursor(s);
    }
    PreferredFirstIsStable("a", arc);
    assert arc[0] == s.live[1] && arc[0] in arc;
  }

  /** A fully eligible account of the window makes a chain, and one of accounts of the window. */
  lemma EligibleWindowMakesChain(s: Selection, c: Creds)
    requires s.Valid() && c in s.Considered() && Admits(Full, c, s.ctx)
    ensures s.Chain() != [] && forall d :: d in s.Chain() ==> d in s.Considered()
  {
    ChainIsCorrect(s);
    ChainIsEmptyIff(s);
    assert Admits(IgnoreAllBlocks, c, s.ctx);
  }

  lemma FreshAccountIsAdmitted(c: Creds)
    requires c.expiresAt.None?
    ensures Admits(Full, c, Context(map[], "", 0.0))
  {
  }

  /** An affinity that the chain does not honour, though the account preferred is healthy and idle. */
  lemma PreferredIsPassedOver(spread: Spread)
    ensures var s := PassingOver(spread);
            && s.Valid() && Nth(0) in s.Fresh() && Prefers("a", Nth(0)) && Admits(Full, Nth(0), s.ctx)
            && s.Chain() != [] && forall c :: c in s.Chain() ==> !Prefers("a", c)
  {
    var s := PassingOver(spread);
    var live := s.live;
    assert live[0] == Nth(0) && live[1] == Nth(1) && live[0] in live;
    assert Nth(0) in s.Fresh() by {
      PassingOverFresh(s, spread);
    }
    assert s.Chain() != [] && forall c :: c in s.Chain() ==> c in live && c != live[0] by {
      PassingOverWindow(s, spread);
      FreshAccountIsAdmitted(Nth(1));
      EligibleWindowMakesChain(s, Nth(1));
    }
    FreshAccountIsAdmitted(Nth(0));
    NthIsPreferredIff(0);
    OthersAreNotPreferred(live, s.Chain());
  }

  lemma OthersAreNotPreferred(live: seq<Creds>, chain: seq<Creds>)
    requires live != [] && forall i | 0 <= i < |live| :: live[i] == Nth(i)
    requires forall c :: c in chain ==> c in live && c != live[0]
    ensures forall c :: c in chain ==> !Prefers("a", c)
  {
    forall c | c in chain
      ensures !Prefers("a", c)
    {
      var i :| 0 <= i < |live| && live[i] == c;
      NthIsPreferredIff(i);
    }
  }

  // ------------------------------------------------------------ chains of an even pool

  /** Nothing but its place tells an account of the list from another. */
  predicate Even(cs: seq<Creds>, ctx: Context, spread: Spread) {
    forall c, d | c in cs && d in cs ::
      && HealthPenalty(ViewOf(c, ctx), EffectiveInflight(spread.marks, c.authKey, ctx.now), ctx.now)
         == HealthPenalty(ViewOf(d, ctx), EffectiveInflight(spread.marks, d.authKey, ctx.now), ctx.now)
      && EffectiveInflight(spread.marks, c.authKey, ctx.now) == EffectiveInflight(spread.marks, d.authKey, ctx.now)
  }

  lemma {:induction false} SortedOfAscending(s: seq<Keyed>)
    requires Ascending(s)
    ensures Sorted(s) == s
  {
    if s != [] {
      var n := |s| - 1;
      SortedOfAscending(s[..n]);
      assert n > 0 ==> !Before(s[n].key, s[n - 1].key);
    }
  }

  lemma EvenKeysAscend(cs: seq<Creds>, ctx: Context, spread: Spread, i: nat, j: nat)
    requires Even(cs, ctx, spread) && i < j < |cs|
    ensures !Before(KeyOf(RoundRobin, cs[j], j, ctx, spread), KeyOf(RoundRobin, cs[i], i, ctx, spread))
  {
    assert cs[i] in cs && cs[j] in cs;
  }

  lemma EvenIsRanked(cs: seq<Creds>, shuffle: seq<Creds> -> seq<Creds>, ctx: Context, spread: Spread)
    requires Even(cs, ctx, spread)
    ensures Ranked(RoundRobin, cs, shuffle, ctx, spread) == cs
  {
    var keyed := WithKeys(RoundRobin, cs, ctx, spread);
    assert CredsOf(keyed) == cs && |keyed| == |cs| by {
      CredsOfWithKeys(RoundRobin, cs, ctx, spread);
      KeyedLength(keyed);
    }
    forall i, j | 0 <= i < j < |keyed|
      ensures !Before(keyed[j].key, keyed[i].key)
    {
      KeysOfCandidates(RoundRobin, cs, ctx, spread, i);
      KeysOfCandidates(RoundRobin, cs, ctx, spread, j);
      EvenKeysAscend(cs, ctx, spread, i, j);
    }
    SortedOfAscending(keyed);
  }

  /** In a pool larger than a window whose accounts are of different users, fully eligible and evenly loaded, the
      chain of a round-robin selection without a preference is the stretch of accounts that begins at the cursor. */
  lemma EvenChainFollowsCursor(s: Selection)
    requires s.Valid() && s.req.mode == RoundRobin && s.req.prefer == "" && |s.Fresh()| > Room(s.req)
    requires forall c :: c in s.Considered() ==> Admits(Full, c, s.ctx)
    requires DistinctUsers(s.Considered()) && Even(s.Considered(), s.ctx, s.spread)
    ensures s.Chain() == Take(Arc(s.Fresh(), s.cursor, Room(s.req)), AttemptLimit(s.req, Room(s.req)))
  {
    var window := s.Considered();
    WindowFollowsCursor(s);
    assert Admitted(Full, window, s.ctx) == window by {
      FilterAll(c => Admits(Full, c, s.ctx), window);
    }
    assert s.Unique() == window by {
      DedupOfDistinct(window);
    }
    assert s.Lineup() == window by {
      EvenIsRanked(window, s.shuffle, s.ctx, s.spread);
    }
    ChainIsCorrect(s);
  }
}
