/** In which order a failover chain tries its accounts. */
module ChainOrder {
  import opened Sequences
  import opened Text
  import opened Rotation
  import opened FailoverChain

  /** The sort key of a candidate: its position counts only in round robin. */
  function RankKey(s: Selection, c: Creds): Key {
    KeyOf(s.req.mode, c, IndexOf(s.Unique(), c), s.ctx, s.spread)
  }

  predicate AscendsBy(key: Creds -> Key, cs: seq<Creds>) {
    forall i, j | 0 <= i < j < |cs| :: !Before(key(cs[j]), key(cs[i]))
  }

  lemma {:induction false} KeysOfCandidates(mode: Mode, cs: seq<Creds>, ctx: Context, spread: Spread, i: nat)
    requires i < |cs|
    ensures |WithKeys(mode, cs, ctx, spread)| == |cs|
    ensures WithKeys(mode, cs, ctx, spread)[i] == Keyed(KeyOf(mode, cs[i], i, ctx, spread), cs[i])
  {
    var n := |cs| - 1;
    var front, last := WithKeys(mode, cs[..n], ctx, spread), Keyed(KeyOf(mode, cs[n], n, ctx, spread), cs[n]);
    assert WithKeys(mode, cs, ctx, spread) == front + [last];
    CredsOfWithKeys(mode, cs[..n], ctx, spread);
    KeyedLength(front);
    if i < n {
      KeysOfCandidates(mode, cs[..n], ctx, spread, i);
    }
  }

  lemma {:induction false} KeyedLength(s: seq<Keyed>)
    ensures |CredsOf(s)| == |s|
  {
    if s != [] {
      KeyedLength(s[..|s| - 1]);
    }
  }

  lemma {:induction false} CredsAt(s: seq<Keyed>, i: nat)
    requires i < |s|
    ensures |CredsOf(s)| == |s| && CredsOf(s)[i] == s[i].creds
  {
    var n := |s| - 1;
    if n > 0 {
      CredsAt(s[..n], if i < n then i else 0);
    }
  }

  /** Entries of a list without repeated users stand where they are first found. */
  lemma {:induction false} PositionIsFirst(cs: seq<Creds>, i: nat)
    requires DistinctUsers(cs) && i < |cs|
    ensures IndexOf(cs, cs[i]) == i
  {
    if i > 0 {
      PositionIsFirst(cs[1..], i - 1);
    }
  }

  lemma RankedAscends(s: Selection)
    requires s.Valid()
    ensures AscendsBy(c => RankKey(s, c), Ranked(s.req.mode, s.Unique(), s.shuffle, s.ctx, s.spread))
  {
    var cs := if s.req.mode == Random then s.shuffle(s.Unique()) else s.Unique();
    var keyed := WithKeys(s.req.mode, cs, s.ctx, s.spread);
    var sorted := Sorted(keyed);
    var ranked := CredsOf(sorted);
    SortedIsStable(keyed, Key(0.0, 0.0, 0.0));
    forall i | 0 <= i < |sorted|
      ensures |ranked| == |sorted| && ranked[i] == sorted[i].creds && sorted[i].key == RankKey(s, sorted[i].creds)
    {
      CredsAt(sorted, i);
      SortedHasRankKey(s, cs, sorted, i);
    }
    assert sorted == [] ==> ranked == [];
    AscendsByKeys(c => RankKey(s, c), sorted, ranked);
  }

  lemma AscendsByKeys(key: Creds -> Key, sorted: seq<Keyed>, ranked: seq<Creds>)
    requires Ascending(sorted) && |ranked| == |sorted|
    requires forall i | 0 <= i < |sorted| :: ranked[i] == sorted[i].creds && sorted[i].key == key(sorted[i].creds)
    ensures AscendsBy(key, ranked)
  {
  }

  lemma SortedHasRankKey(s: Selection, cs: seq<Creds>, sorted: seq<Keyed>, i: nat)
    requires s.Valid() && cs == (if s.req.mode == Random then s.shuffle(s.Unique()) else s.Unique())
    requires multiset(sorted) == multiset(WithKeys(s.req.mode, cs, s.ctx, s.spread)) && i < |sorted|
    ensures sorted[i].key == RankKey(s, sorted[i].creds)
  {
    var keyed := WithKeys(s.req.mode, cs, s.ctx, s.spread);
    assert sorted[i] in multiset(keyed);
    var k :| 0 <= k < |keyed| && keyed[k] == sorted[i];
    KeyIsRankKey(s, cs, k);
  }

  lemma KeyIsRankKey(s: Selection, cs: seq<Creds>, k: nat)
    requires s.Valid() && cs == (if s.req.mode == Random then s.shuffle(s.Unique()) else s.Unique())
    requires k < |WithKeys(s.req.mode, cs, s.ctx, s.spread)|
    ensures var keyed := WithKeys(s.req.mode, cs, s.ctx, s.spread)[k];
            keyed.key == RankKey(s, keyed.creds)
  {
    CredsOfWithKeys(s.req.mode, cs, s.ctx, s.spread);
    CredsAt(WithKeys(s.req.mode, cs, s.ctx, s.spread), k);
    KeysOfCandidates(s.req.mode, cs, s.ctx, s.spread, k);
    UniqueIsSound(s);
    if s.req.mode != Random {
      PositionIsFirst(cs, k);
    }
  }

  /** Filtering keeps the order. */
  lemma {:induction false} FilterAscends(key: Creds -> Key, p: Creds -> bool, cs: seq<Creds>)
    requires AscendsBy(key, cs)
    ensures AscendsBy(key, Filter(p, cs))
  {
    if cs != [] {
      FilterAscends(key, p, cs[1..]);
      forall c | c in cs[1..]
        ensures !Before(key(c), key(cs[0]))
      {
        var j :| 0 <= j < |cs[1..]| && cs[1..][j] == c;
        assert cs[j + 1] == c;
      }
    }
  }

  /** Apart from moving preferred accounts to an end, the chain goes by ascending sort key. */
  lemma ChainAscends(s: Selection, i: nat, j: nat)
    requires s.Valid() && i < j < |s.Chain()|
    requires s.req.prefer == "" || Prefers(s.req.prefer, s.Chain()[i]) == Prefers(s.req.prefer, s.Chain()[j])
    ensures !Before(RankKey(s, s.Chain()[j]), RankKey(s, s.Chain()[i]))
  {
    var key := c => RankKey(s, c);
    var ranked := Ranked(s.req.mode, s.Unique(), s.shuffle, s.ctx, s.spread);
    RankedAscends(s);
    FilterAscends(key, c => Prefers(s.req.prefer, c) == true, ranked);
    FilterAscends(key, c => Prefers(s.req.prefer, c) == false, ranked);
    ChainIsCorrect(s);
    PinnedAscends(key, s.req.prefer, ranked, s.ctx, i, j);
  }

  lemma PinnedAscends(key: Creds -> Key, pref: string, cs: seq<Creds>, ctx: Context, i: nat, j: nat)
    requires AscendsBy(key, cs) && AscendsBy(key, Split(pref, true, cs)) && AscendsBy(key, Split(pref, false, cs))
    requires i < j < |Pinned(pref, cs, ctx)|
    requires pref == "" || Prefers(pref, Pinned(pref, cs, ctx)[i]) == Prefers(pref, Pinned(pref, cs, ctx)[j])
    ensures !Before(key(Pinned(pref, cs, ctx)[j]), key(Pinned(pref, cs, ctx)[i]))
  {
    var sticky, rest := Split(pref, true, cs), Split(pref, false, cs);
    assert forall k | 0 <= k < |sticky| :: sticky[k] in sticky;
    assert forall k | 0 <= k < |rest| :: rest[k] in rest;
  }
}
