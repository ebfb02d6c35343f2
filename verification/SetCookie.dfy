/** Splitting Set-Cookie headers that were folded into one line with commas, which dates contain too. */
module SetCookie {
  import opened Text
  import opened Sequences

  predicate IsTokenChar(c: char) {
    'a' <= c <= 'z' || 'A' <= c <= 'Z' || '0' <= c <= '9' || c == '-' || c == '_' || c == '.'
  }

  predicate IsToken(s: string) {
    s != "" && forall c | c in s :: IsTokenChar(c)
  }

  /** A name and '=' come first, the '=' within the first attribute. */
  predicate StartsCookie(s: string) {
    '=' in UpTo(s, ';') && IsToken(Trim(UpTo(s, '=')))
  }

  predicate Starts(s: string) {
    StartsCookie(s) && TrimLeft(s) == s
  }

  /** The comma at i ends a cookie: a ';' comes before it and another cookie after it. */
  predicate IsBoundary(s: string, i: nat) {
    i < |s| && s[i] == ',' && ';' in s[..i] && StartsCookie(TrimLeft(s[i + 1..]))
  }

  /** The first boundary at or after i, or |s|. */
  function BoundaryFrom(s: string, i: nat): (b: nat)
    requires i <= |s|
    ensures i <= b <= |s|
    ensures b < |s| ==> IsBoundary(s, b)
    ensures forall j | i <= j < b :: !IsBoundary(s, j)
    decreases |s| - i
  {
    if i == |s| || IsBoundary(s, i) then i else BoundaryFrom(s, i + 1)
  }

  lemma BoundaryIsUnique(s: string, b: nat)
    requires IsBoundary(s, b) && forall j | 0 <= j < b :: !IsBoundary(s, j)
    ensures BoundaryFrom(s, 0) == b
  {
  }

  lemma BoundaryFound(s: string, index: int)
    requires 0 <= index ==> IsBoundary(s, index) && forall j: nat | j < index :: !IsBoundary(s, j)
    requires index < 0 ==> forall j: nat | j < |s| :: !IsBoundary(s, j)
    ensures BoundaryFrom(s, 0) == if index < 0 then |s| else index
  {
  }

  method NextCookieBoundary(joined: string) returns (index: int)
    ensures 0 <= index ==> IsBoundary(joined, index) && forall j: nat | j < index :: !IsBoundary(joined, j)
    ensures index < 0 ==> forall j: nat | j < |joined| :: !IsBoundary(joined, j)
  {
    var pos := 0;
    while pos < |joined|
      invariant pos <= |joined|
      invariant forall j: nat | j < pos :: !IsBoundary(joined, j)
    {
      var comma := pos + IndexOf(joined[pos..], ',');
      NoBoundaryBeforeComma(joined, pos);
      if comma == |joined| {
        return -1;
      }
      var after := TrimLeft(joined[comma + 1..]);
      if ';' in joined[..comma] && after != "" {
        if '=' in UpTo(after, ';') && IsToken(Trim(UpTo(after, '='))) {
          return comma;
        }
      }
      pos := comma + 1;
    }
    return -1;
  }

  lemma NoBoundaryBeforeComma(s: string, pos: nat)
    requires pos <= |s|
    ensures forall j | pos <= j < pos + IndexOf(s[pos..], ',') :: !IsBoundary(s, j)
  {
    var n := IndexOf(s[pos..], ',');
    forall j | pos <= j < pos + n
      ensures s[j] != ','
    {
      assert s[j] == s[pos..][..n][j - pos];
    }
  }

  function FirstBoundary(s: string): nat {
    BoundaryFrom(s, 0)
  }

  /** The pieces between cuts, trimmed, leaving out the character at each cut. */
  function SplitBy(cut: string -> nat, s: string): (r: seq<string>)
    ensures r != []
    decreases |s|
  {
    var b := cut(s);
    if b >= |s| then [Trim(s)]
    else
      TrimLeftShortens(s[b + 1..]);
      [Trim(s[..b])] + SplitBy(cut, TrimLeft(s[b + 1..]))
  }

  function Pieces(s: string): seq<string> {
    SplitBy(FirstBoundary, s)
  }

  lemma {:induction false} TrimLeftShortens(s: string)
    ensures |TrimLeft(s)| <= |s|
  {
    if s != [] {
      TrimLeftShortens(s[1..]);
    }
  }

  function NonEmpty(pieces: seq<string>): seq<string> {
    Filter(p => p != "", pieces)
  }

  function Cookies(joined: string): seq<string> {
    NonEmpty(Pieces(joined))
  }

  /** Where the first cookie of a line with commas ends, or -1. */
  method FindCut(cur: string) returns (index: int)
    ensures if index < 0 then FirstBoundary(cur) == |cur| else FirstBoundary(cur) == index && index < |cur|
  {
    index := -1;
    NoBoundaryBeforeComma(cur, 0);
    if ',' in cur {
      index := NextCookieBoundary(cur);
    }
    BoundaryFound(cur, index);
  }

  method SplitSetCookie(joined: string) returns (cookies: seq<string>)
    ensures cookies == Cookies(joined)
  {
    var out: seq<string>, cur := [], joined;
    while true
      invariant out + Pieces(cur) == Pieces(joined)
      decreases |cur|
    {
      var index := FindCut(cur);
      ghost var pieces := Pieces(cur);
      if index < 0 {
        assert pieces == [Trim(cur)];
        out := out + [Trim(cur)];
        break;
      }
      var first, rest := Trim(cur[..index]), TrimLeft(cur[index + 1..]);
      TrimLeftShortens(cur[index + 1..]);
      assert pieces == [first] + Pieces(rest);
      Associative(out, [first], Pieces(rest));
      out, cur := out + [first], rest;
    }
    cookies := NonEmpty(out);
  }

  // When un-folding undoes folding

  function Join(cookies: seq<string>): string {
    if cookies == [] then ""
    else if |cookies| == 1 then cookies[0]
    else cookies[0] + ", " + Join(cookies[1..])
  }

  /** A trimmed, non-empty text that holds no boundary of its own. */
  predicate IsWhole(c: string) {
    c != "" && Trim(c) == c && forall j | 0 <= j < |c| :: !IsBoundary(c, j)
  }

  /** Each cookie is whole, each but the last has a ';', and each but the first opens with a name and '='. */
  predicate Unfoldable(cookies: seq<string>) {
    && (forall c | c in cookies :: IsWhole(c))
    && (forall i | 0 <= i < |cookies| - 1 :: ';' in cookies[i])
    && (forall i | 0 < i < |cookies| :: StartsCookie(cookies[i]))
  }

  lemma TrimmedOnTheLeft(c: string)
    requires Trim(c) == c
    ensures TrimLeft(c) == c
  {
    var k := StripLeftIsSuffix(IsSpace, c);
    var n := StripRightIsPrefix(IsSpace, c[k..]);
  }

  /** A comma put after a text does not change whether a cookie starts there. */
  lemma StartIgnoresNextCookie(rest: string, tail: string)
    requires tail != "" ==> tail[0] == ','
    ensures StartsCookie(rest + tail) == StartsCookie(rest)
  {
    UpToOfConcat(rest, tail, ';');
    UpToOfConcat(rest, tail, '=');
    if '=' !in rest && '=' in tail {
      var token := rest + UpTo(tail, '=');
      assert token[|rest|] == ',';
      StripKeeps(IsSpace, token, ',');
    }
  }

  lemma TrimLeftOfConcat(rest: string, tail: string)
    requires tail != "" ==> !IsSpace(tail[0])
    ensures TrimLeft(rest + tail) == TrimLeft(rest) + tail
  {
    var s := rest + tail;
    var k := StripLeftIsSuffix(IsSpace, s);
    var n := StripLeftIsSuffix(IsSpace, rest);
    assert tail != "" ==> !IsSpace(s[|rest|]);
    assert forall i | 0 <= i < |rest| :: s[i] == rest[i];
    StripLeftStops(rest, n);
    StripLeftStops(s, k);
    assert k == n;
    assert s[k..] == rest[k..] + tail;
  }

  lemma {:induction false} StripLeftStops(s: string, k: nat)
    requires k <= |s| && TrimLeft(s) == s[k..]
    ensures k < |s| ==> !IsSpace(s[k])
  {
    var left := TrimLeft(s);
    TrimLeftTwice(s);
    if left != "" && IsSpace(left[0]) {
      TrimLeftShortens(left[1..]);
    }
  }

  /** What follows a cookie after a comma neither adds a boundary to it nor takes one away. */
  lemma BoundaryIgnoresNextCookie(c: string, tail: string, j: nat)
    requires j < |c| && (tail != "" ==> tail[0] == ',')
    ensures IsBoundary(c + tail, j) == IsBoundary(c, j)
  {
    assert (c + tail)[j + 1..] == c[j + 1..] + tail && (c + tail)[..j] == c[..j];
    TrimLeftOfConcat(c[j + 1..], tail);
    StartIgnoresNextCookie(TrimLeft(c[j + 1..]), tail);
  }

  lemma JointIsBoundary(c: string, after: string)
    requires ';' in c && Starts(after)
    ensures var s := c + ", " + after;
            IsBoundary(s, |c|) && s[..|c|] == c && TrimLeft(s[|c| + 1..]) == after
  {
    var s := c + ", " + after;
    assert s[..|c|] == c;
    assert s[|c| + 1..] == " " + after && (" " + after)[1..] == after;
  }

  /** The line after the first cookie of a folded line, and the piece of its own that it makes. */
  lemma WholeCookieEndsAtJoint(c: string, tail: string)
    requires forall j | 0 <= j < |c| :: !IsBoundary(c, j)
    requires tail != "" ==> tail[0] == ',' && IsBoundary(c + tail, |c|)
    ensures FirstBoundary(c + tail) == |c|
  {
    forall j | 0 <= j < |c|
      ensures !IsBoundary(c + tail, j)
    {
      BoundaryIgnoresNextCookie(c, tail, j);
    }
    if tail != "" {
      BoundaryIsUnique(c + tail, |c|);
    }
  }

  lemma JoinedStarts(cookies: seq<string>)
    requires cookies != [] && cookies[0] != "" && Trim(cookies[0]) == cookies[0] && StartsCookie(cookies[0])
    ensures Starts(Join(cookies))
  {
    var c, s := cookies[0], Join(cookies);
    var tail := s[|c|..];
    assert s == c + tail && (tail != "" ==> tail[0] == ',');
    StartIgnoresNextCookie(c, tail);
    TrimmedOnTheLeft(c);
    TrimLeftOfConcat(c, tail);
  }

  lemma JoinedCookieSplits(c: string, after: string)
    requires IsWhole(c) && ';' in c && Starts(after)
    ensures Pieces(c + ", " + after) == [c] + Pieces(after)
  {
    var s, tail := c + ", " + after, ", " + after;
    JointIsBoundary(c, after);
    assert s == c + tail;
    WholeCookieEndsAtJoint(c, tail);
  }

  lemma {:induction false} UnfoldableSplits(cookies: seq<string>)
    requires cookies != [] && Unfoldable(cookies)
    ensures Pieces(Join(cookies)) == cookies
  {
    var c, others := cookies[0], cookies[1..];
    assert c in cookies && [c] + others == cookies;
    if others == [] {
      WholeCookieEndsAtJoint(c, "");
      assert c + "" == c;
    } else {
      assert Unfoldable(others) by {
        assert forall d | d in others :: d in cookies;
      }
      UnfoldableSplits(others);
      assert others[0] in cookies;
      JoinedStarts(others);
      JoinedCookieSplits(c, Join(others));
    }
  }

  /** A first piece as long as the first cookie shows that the cookie holds no boundary. */
  lemma FirstPieceIsWhole(c: string, tail: string)
    requires tail != "" ==> tail[0] == ','
    requires c != "" && Pieces(c + tail)[0] == c
    ensures IsWhole(c) && FirstBoundary(c + tail) >= |c|
  {
    var s := c + tail;
    var b := FirstBoundary(s);
    var first := if b >= |s| then s else s[..b];
    assert Trim(first) == c;
    TrimShortens(first);
    assert b >= |c|;
    TrimTwice(first);
    forall j | 0 <= j < |c|
      ensures !IsBoundary(c, j)
    {
      BoundaryIgnoresNextCookie(c, tail, j);
    }
  }

  lemma TrimShortens(s: string)
    ensures |Trim(s)| <= |s|
  {
    var k := StripLeftIsSuffix(IsSpace, s);
    var n := StripRightIsPrefix(IsSpace, s[k..]);
  }

  lemma {:induction false} TrimRightTwice(s: string)
    ensures StripRight(IsSpace, StripRight(IsSpace, s)) == StripRight(IsSpace, s)
  {
    if s != "" {
      TrimRightTwice(s[..|s| - 1]);
    }
  }

  lemma TrimTwice(s: string)
    ensures Trim(Trim(s)) == Trim(s)
  {
    var left := TrimLeft(s);
    var n := StripRightIsPrefix(IsSpace, left);
    TrimLeftTwice(s);
    TrimRightTwice(left);
    if n > 0 {
      var k := StripLeftIsSuffix(IsSpace, s);
      StripLeftStops(s, k);
      assert left[..n][0] == left[0] == s[k];
    }
  }

  lemma {:induction false} SplittingIsUnfoldable(cookies: seq<string>)
    requires cookies != [] && "" !in cookies && Pieces(Join(cookies)) == cookies
    ensures Unfoldable(cookies)
  {
    var c, others, s := cookies[0], cookies[1..], Join(cookies);
    var tail := s[|c|..];
    assert c in cookies && s == c + tail && (tail != "" ==> tail[0] == ',');
    assert IsWhole(c) by {
      FirstPieceIsWhole(c, tail);
    }
    if others == [] {
      assert cookies == [c];
    } else {
      assert ';' in c && StartsCookie(others[0]) by {
        PiecesLookLikeCookies(s);
      }
      assert Pieces(Join(others)) == others by {
        RestOfPieces(cookies);
      }
      assert "" !in others by {
        assert forall d | d in others :: d in cookies;
      }
      SplittingIsUnfoldable(others);
      assert cookies == [c] + others;
      UnfoldableFromFirst(c, others);
    }
  }

  /** The pieces after the first are those of the line that joins the other cookies. */
  lemma RestOfPieces(cookies: seq<string>)
    requires |cookies| > 1 && "" !in cookies && Pieces(Join(cookies)) == cookies
    ensures Pieces(Join(cookies[1..])) == cookies[1..]
  {
    var c, others, s := cookies[0], cookies[1..], Join(cookies);
    var after := Join(others);
    assert s == c + ", " + after && s == c + (", " + after);
    PiecesLookLikeCookies(s);
    FirstPieceIsWhole(c, ", " + after);
    assert others[0] == cookies[1] && cookies[1] in cookies;
    assert Trim(others[0]) == others[0] by {
      PiecesAreTrimmed(s);
    }
    JoinedStarts(others);
    JoinedCookieSplits(c, after);
    assert ([c] + Pieces(after))[1..] == Pieces(after);
  }

  lemma {:induction false} PiecesAreTrimmed(s: string)
    ensures forall i | 0 <= i < |Pieces(s)| :: Trim(Pieces(s)[i]) == Pieces(s)[i]
    decreases |s|
  {
    var b := FirstBoundary(s);
    if b < |s| {
      var rest := TrimLeft(s[b + 1..]);
      TrimLeftShortens(s[b + 1..]);
      TrimTwice(s[..b]);
      PiecesAreTrimmed(rest);
      assert Pieces(s) == [Trim(s[..b])] + Pieces(rest);
    } else {
      TrimTwice(s);
    }
  }

  lemma UnfoldableFromFirst(c: string, others: seq<string>)
    requires IsWhole(c) && ';' in c && others != [] && Unfoldable(others) && StartsCookie(others[0])
    ensures Unfoldable([c] + others)
  {
  }

  /** Splitting what was joined gives the cookies back, in order, exactly for the lists described by `Unfoldable`. */
  lemma UnfoldingUndoesFoldingIff(cookies: seq<string>)
    ensures Cookies(Join(cookies)) == cookies <==> Unfoldable(cookies)
  {
    if cookies == [] {
      assert Pieces("") == [""];
      FilterNone(p => p != "", "");
    } else {
      if Unfoldable(cookies) {
        UnfoldableSplits(cookies);
        assert "" !in cookies;
        FilterAll(p => p != "", cookies);
      }
      if Cookies(Join(cookies)) == cookies {
        CookiesLookLikeCookies(Join(cookies));
        SplittingIsUnfoldable(cookies);
      }
    }
  }

  // The cookies that servers send

  /** A trimmed cookie that opens with a token and '=' and has a ';'; no '=' comes between
      a comma within it and the next ';', as in the dates of Expires. */
  predicate IsCookie(c: string) {
    && Trim(c) == c
    && '=' in c && IsToken(UpTo(c, '='))
    && ';' in c
    && forall i | 0 <= i < |c| && c[i] == ',' :: '=' !in UpTo(c[i + 1..], ';')
  }

  lemma NameComesFirst(c: string)
    requires IsCookie(c)
    ensures '=' in UpTo(c, ';')
  {
    var name, head := UpTo(c, '='), UpTo(c, ';');
    assert forall i | 0 <= i < |name| :: name[i] == c[i] && name[i] in name;
    assert ';' !in name;
    assert c[|name|] == '=' && c[|head|] == ';';
    assert |name| < |head|;
    assert head[|name|] == '=';
  }

  lemma TokenNeedsNoTrimming(s: string)
    requires IsToken(s)
    ensures Trim(s) == s && TrimLeft(s) == s
  {
    assert s[0] in s && s[|s| - 1] in s;
  }

  lemma CookieStartsCookie(c: string)
    requires IsCookie(c)
    ensures StartsCookie(c)
  {
    NameComesFirst(c);
    TokenNeedsNoTrimming(UpTo(c, '='));
  }

  /** A comma within a cookie is no boundary, whatever further cookies follow. */
  lemma InnerCommaStartsNothing(rest: string, tail: string)
    requires '=' !in UpTo(rest, ';')
    requires tail != "" ==> tail[0] == ','
    ensures !StartsCookie(TrimLeft(rest + tail))
  {
    TrimLeftOfConcat(rest, tail);
    StartIgnoresNextCookie(TrimLeft(rest), tail);
    var k := StripLeftIsSuffix(IsSpace, rest);
    assert rest == rest[..k] + rest[k..];
    UpToOfConcat(rest[..k], rest[k..], ';');
  }

  lemma CookieIsWhole(c: string)
    requires IsCookie(c)
    ensures IsWhole(c)
  {
    forall j | 0 <= j < |c|
      ensures !IsBoundary(c, j)
    {
      if c[j] == ',' {
        InnerCommaStartsNothing(c[j + 1..], "");
        assert c[j + 1..] + "" == c[j + 1..];
      }
    }
  }

  /** Splitting what was joined gives such cookies back, in order. */
  lemma UnfoldingUndoesFolding(cookies: seq<string>)
    requires forall c | c in cookies :: IsCookie(c)
    ensures Cookies(Join(cookies)) == cookies
  {
    forall c | c in cookies
      ensures IsWhole(c) && ';' in c && StartsCookie(c)
    {
      CookieIsWhole(c);
      CookieStartsCookie(c);
    }
    UnfoldingUndoesFoldingIff(cookies);
  }

  /** Two cookies without attributes come back as one. */
  lemma BareCookiesStayFolded()
    ensures Cookies(Join(["a=1", "b=2"])) == ["a=1, b=2"]
  {
    assert Join(["b=2"]) == "b=2" && ["a=1", "b=2"][1..] == ["b=2"];
    assert Join(["a=1", "b=2"]) == "a=1, b=2";
    NoAttributeNoSplit("a=1, b=2");
    FilterOne(p => p != "", "a=1, b=2");
  }

  // Nothing is lost

  function Kept(c: char): string {
    if IsSpace(c) || c == ',' then "" else [c]
  }

  /** The text without spaces and commas. */
  function Squeeze(s: string): string {
    FlatMap(Kept, s)
  }

  function Concatenated(pieces: seq<string>): string {
    if pieces == [] then "" else pieces[0] + Concatenated(pieces[1..])
  }

  lemma SqueezeOfConcat(a: string, b: string)
    ensures Squeeze(a + b) == Squeeze(a) + Squeeze(b)
  {
    FlatMapOfConcat(Kept, a, b);
  }

  lemma {:induction false} SqueezeOfSpaces(s: string)
    requires forall c | c in s :: IsSpace(c)
    ensures Squeeze(s) == ""
  {
    if s != "" {
      SqueezeOfSpaces(s[1..]);
    }
  }

  lemma SqueezeIgnoresTrimming(s: string)
    ensures Squeeze(TrimLeft(s)) == Squeeze(s) && Squeeze(Trim(s)) == Squeeze(s)
  {
    var k := StripLeftIsSuffix(IsSpace, s);
    var left := s[k..];
    assert s == s[..k] + left;
    SqueezeOfSpaces(s[..k]);
    SqueezeOfConcat(s[..k], left);
    var n := StripRightIsPrefix(IsSpace, left);
    assert left == left[..n] + left[n..];
    SqueezeOfSpaces(left[n..]);
    SqueezeOfConcat(left[..n], left[n..]);
  }

  lemma {:induction false} NonEmptyKeepsText(pieces: seq<string>)
    ensures Concatenated(NonEmpty(pieces)) == Concatenated(pieces)
  {
    if pieces != [] {
      NonEmptyKeepsText(pieces[1..]);
      var kept := NonEmpty(pieces[1..]);
      if pieces[0] != "" {
        assert ([pieces[0]] + kept)[1..] == kept;
      } else {
        assert NonEmpty(pieces) == kept;
        assert "" + Concatenated(kept) == Concatenated(kept);
      }
    }
  }

  /** On every input, splitting loses nothing but spaces and commas, and keeps the order. */
  lemma SplittingLosesOnlySpacesAndCommas(joined: string)
    ensures Squeeze(Concatenated(Cookies(joined))) == Squeeze(joined)
  {
    NonEmptyKeepsText(Pieces(joined));
    CuttingAtCommasKeepsText(FirstBoundary, joined);
  }

  lemma {:induction false} CuttingAtCommasKeepsText(cut: string -> nat, s: string)
    requires forall t | cut(t) < |t| :: t[cut(t)] == ','
    ensures Squeeze(Concatenated(SplitBy(cut, s))) == Squeeze(s)
    decreases |s|
  {
    var b := cut(s);
    if b >= |s| {
      SqueezeIgnoresTrimming(s);
      assert Concatenated([Trim(s)]) == Trim(s);
    } else {
      assert s[b] == ',';
      var rest := TrimLeft(s[b + 1..]);
      TrimLeftShortens(s[b + 1..]);
      CuttingAtCommasKeepsText(cut, rest);
      SqueezeAtComma(s, b);
      SqueezeAtCut(Trim(s[..b]), SplitBy(cut, rest));
    }
  }

  lemma SqueezeAtComma(s: string, b: nat)
    requires b < |s| && s[b] == ','
    ensures Squeeze(s) == Squeeze(Trim(s[..b])) + Squeeze(TrimLeft(s[b + 1..]))
  {
    var first, after := s[..b], s[b + 1..];
    SqueezeIgnoresTrimming(first);
    SqueezeIgnoresTrimming(after);
    SqueezeOfConcat(first, "," + after);
    assert s == first + ("," + after) && ("," + after)[1..] == after;
  }

  lemma SqueezeAtCut(first: string, others: seq<string>)
    ensures Squeeze(Concatenated([first] + others)) == Squeeze(first) + Squeeze(Concatenated(others))
  {
    assert ([first] + others)[1..] == others;
    SqueezeOfConcat(first, Concatenated(others));
  }

  // Names

  /** A cookie is split from the one before it exactly when its name, apart from a space before the '=', has only
      letters, digits, hyphens, underscores and dots. */
  lemma CookieIsSplitIff(name: string, pad: string)
    requires name != "" && Trim(name) == name && '=' !in name && ';' !in name && ',' !in name
    requires pad == "" || pad == " "
    ensures var c, d := "a=1; Path=/", name + pad + "=x";
            Cookies(c + ", " + d) ==
              if forall x | x in name ::
                   'a' <= x <= 'z' || 'A' <= x <= 'Z' || '0' <= x <= '9' || x == '-' || x == '_' || x == '.'
              then [c, d] else [c + ", " + d]
  {
    var c, d := "a=1; Path=/", name + pad + "=x";
    var line := c + ", " + d;
    NameIsUpToEquals(name, pad);
    TrimmedOnTheLeft(name);
    StripLeftStops(name, 0);
    assert d[0] == name[0] && !IsSpace(d[0]);
    assert c[3] == ';' && forall j | 0 <= j < |c| :: c[j] != ',';
    if IsToken(name) {
      assert Cookies(line) == [c, d] by {
        PairSplits(c, d);
      }
    } else {
      assert Cookies(line) == [line] by {
        NoBoundaryInPair(c, d);
        assert Trim(line) == line;
        FilterOne(p => p != "", line);
      }
    }
  }

  lemma PairSplits(c: string, d: string)
    requires IsWhole(c) && ';' in c && Starts(d) && ';' !in d && d != "" && Trim(d) == d
    ensures Cookies(c + ", " + d) == [c, d]
  {
    JoinedCookieSplits(c, d);
    NoAttributeNoSplit(d);
    assert Pieces(c + ", " + d) == [c, d];
    FilterAll(p => p != "", [c, d]);
  }

  lemma NameIsUpToEquals(name: string, pad: string)
    requires name != "" && Trim(name) == name && '=' !in name && ';' !in name && ',' !in name
    requires pad == "" || pad == " "
    ensures var d := name + pad + "=x";
            && ';' !in d && ',' !in d && UpTo(d, ';') == d && UpTo(d, '=') == name + pad
            && (StartsCookie(d) <==> IsToken(name))
  {
    var d := name + pad + "=x";
    UpToOfConcat(name + pad, "=x", '=');
    assert d[|name + pad|] == '=';
    assert forall i | 0 <= i < |d| :: d[i] == if i < |name + pad| then (name + pad)[i] else "=x"[i - |name + pad|];
    assert forall i | 0 <= i < |name| :: name[i] in name;
    PaddedNameTrims(name, pad);
  }

  lemma PaddedNameTrims(name: string, pad: string)
    requires name != "" && Trim(name) == name && (pad == "" || pad == " ")
    ensures Trim(name + pad) == name
  {
    TrimmedOnTheLeft(name);
    StripLeftStops(name, 0);
    assert (name + pad)[0] == name[0] && TrimLeft(name + pad) == name + pad;
    assert StripRight(IsSpace, name) == name;
    if pad == " " {
      assert (name + " ")[..|name|] == name;
    } else {
      assert name + pad == name;
    }
  }

  lemma OnlyComma(c: string, d: string)
    requires ',' !in c && ',' !in d
    ensures forall j | 0 <= j < |c + ", " + d| && (c + ", " + d)[j] == ',' :: j == |c|
  {
    var line := c + ", " + d;
    assert forall i | 0 <= i < |c| :: c[i] in c && line[i] == c[i];
    assert forall i | 0 <= i < |d| :: d[i] in d && line[|c| + 2 + i] == d[i];
  }

  lemma NoBoundaryInPair(c: string, d: string)
    requires ',' !in c && ',' !in d && d != "" && !IsSpace(d[0]) && !StartsCookie(d)
    ensures FirstBoundary(c + ", " + d) == |c + ", " + d|
  {
    var line := c + ", " + d;
    assert !IsBoundary(line, |c|) by {
      assert line[|c| + 1..] == " " + d && (" " + d)[1..] == d && TrimLeft(" " + d) == TrimLeft(d) == d;
    }
    OnlyComma(c, d);
    forall j | 0 <= j < |line|
      ensures !IsBoundary(line, j)
    {
      assert line[j] == ',' ==> j == |c|;
    }
  }

  // What the pieces look like

  lemma PrefixStartsCookie(p: string, s: string)
    requires StartsCookie(s) && p <= s && IndexOf(s, '=') < |p|
    ensures StartsCookie(p)
  {
    var rest := s[|p|..];
    assert s == p + rest;
    UpToOfConcat(p, rest, '=');
    UpToOfConcat(p, rest, ';');
    IndexOfConcat(p, rest, '=');
  }

  lemma TrimmedStartsCookie(p: string, s: string)
    requires StartsCookie(s) && p <= s && IndexOf(s, '=') < |p| && TrimLeft(p) == p
    ensures StartsCookie(Trim(p))
  {
    var n := StripRightIsPrefix(IsSpace, p);
    assert p[IndexOf(s, '=')] == '=';
    PrefixStartsCookie(p[..n], s);
  }

  lemma {:induction false} TrimLeftTwice(s: string)
    ensures TrimLeft(TrimLeft(s)) == TrimLeft(s)
  {
    if s != "" {
      TrimLeftTwice(s[1..]);
    }
  }

  predicate LooksFolded(r: seq<string>) {
    && (forall i | 0 <= i < |r| - 1 :: ';' in r[i])
    && (forall i | 0 < i < |r| :: StartsCookie(r[i]))
  }

  /** Each cookie found but the last holds a ';', each but the first opens with a name and '=';
      only a blank line has none, and no other piece is dropped. */
  lemma CookiesLookLikeCookies(s: string)
    ensures LooksFolded(Cookies(s))
    ensures Cookies(s) == if Trim(s) == "" then [] else Pieces(s)
  {
    PiecesLookLikeCookies(s);
    var b := FirstBoundary(s);
    if b < |s| {
      assert s[b] in s && !IsSpace(s[b]);
      StripKeeps(IsSpace, s, s[b]);
      assert forall i | 0 <= i < |Pieces(s)| :: Pieces(s)[i] != "";
    }
    if Trim(s) != "" {
      FilterAll(p => p != "", Pieces(s));
    } else {
      assert Pieces(s) == [""] && [""][1..] == [];
    }
  }

  /** Cookies without attributes are never separated: a ';' before the comma is needed. */
  lemma NoAttributeNoSplit(s: string)
    requires ';' !in s
    ensures Pieces(s) == [Trim(s)]
  {
  }

  lemma {:induction false} PiecesLookLikeCookies(s: string)
    ensures LooksFolded(Pieces(s))
    ensures Starts(s) ==> StartsCookie(Pieces(s)[0])
    decreases |s|
  {
    var b := FirstBoundary(s);
    FirstOfPieces(s);
    if Starts(s) {
      FirstPieceStarts(s, b);
    }
    if b < |s| {
      var first, rest := Trim(s[..b]), TrimLeft(s[b + 1..]);
      TrimLeftShortens(s[b + 1..]);
      PiecesLookLikeCookies(rest);
      PiecesFromFirst(s, first, rest, Pieces(rest));
    }
  }

  lemma FirstOfPieces(s: string)
    ensures Pieces(s)[0] == Trim(s[..FirstBoundary(s)])
    ensures FirstBoundary(s) == |s| ==> |Pieces(s)| == 1
  {
    assert s[..|s|] == s;
  }

  lemma PiecesFromFirst(s: string, first: string, rest: string, others: seq<string>)
    requires FirstBoundary(s) < |s| && others == Pieces(rest)
    requires first == Trim(s[..FirstBoundary(s)]) && rest == TrimLeft(s[FirstBoundary(s) + 1..])
    requires LooksFolded(others) && (Starts(rest) ==> StartsCookie(others[0]))
    ensures LooksFolded(Pieces(s))
  {
    assert Pieces(s) == [first] + others;
    assert ';' in first && Starts(rest) by {
      BoundaryParts(s, FirstBoundary(s));
    }
    FoldedFromFirst(first, others);
  }

  lemma BoundaryParts(s: string, b: nat)
    requires IsBoundary(s, b)
    ensures ';' in Trim(s[..b]) && Starts(TrimLeft(s[b + 1..]))
  {
    StripKeeps(IsSpace, s[..b], ';');
    TrimLeftTwice(s[b + 1..]);
  }

  lemma FoldedFromFirst(first: string, others: seq<string>)
    requires ';' in first && others != [] && StartsCookie(others[0]) && LooksFolded(others)
    ensures LooksFolded([first] + others)
  {
  }

  lemma FirstPieceStarts(s: string, b: nat)
    requires Starts(s) && (b == |s| || IsBoundary(s, b))
    ensures StartsCookie(Trim(s[..b]))
  {
    if b == |s| {
      assert s[..b] == s;
      TrimmedStartsCookie(s, s);
    } else {
      EqualsComesFirst(s, b);
      StripLeftOfPrefix(s, b);
      TrimmedStartsCookie(s[..b], s);
    }
  }

  lemma StripLeftOfPrefix(s: string, b: nat)
    requires 0 < b <= |s| && TrimLeft(s) == s
    ensures TrimLeft(s[..b]) == s[..b]
  {
    assert s[..b][0] == s[0];
    if IsSpace(s[0]) {
      TrimLeftShortens(s[1..]);
    }
  }

  lemma EqualsComesFirst(s: string, b: nat)
    requires StartsCookie(s) && b <= |s| && ';' in s[..b]
    ensures IndexOf(s, '=') < b
  {
    var head := UpTo(s, ';');
    assert s == s[..b] + s[b..] && s == head + s[|head|..];
    IndexOfConcat(s[..b], s[b..], ';');
    IndexOfConcat(head, s[|head|..], '=');
  }
}
