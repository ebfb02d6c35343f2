/** The nested create-session request, and the walk that finds URLs in nested replies. */
module CreateSession {
  import opened Wrappers
  import opened Sequences
  import opened Repetition
  import opened Protobuf

  const NEWLINE: byte := 10
  const HTTP: Bytes := [104, 116, 116, 112, 58, 47, 47]
  const HTTPS: Bytes := [104, 116, 116, 112, 115, 58, 47, 47]

  /** Printable text has no line feed: the one fact about text used here. */
  ghost predicate NoLineFeeds(printable: Printable) {
    forall s | printable(s) :: NEWLINE !in s
  }

  // The request

  function StringField(no: nat, text: Bytes): Bytes {
    ItemBytes(Raw(no, text))
  }

  function EncodeRequest(email: Bytes, password: Bytes, turnstile: Bytes, castle: Bytes): Bytes {
    var credentials := StringField(1, StringField(1, email) + StringField(2, password));
    var antiAbuse := StringField(1, turnstile) + (if castle != [] then StringField(2, castle) else StringField(2, []));
    StringField(1, credentials) + StringField(4, antiAbuse)
  }

  function Pair(a: Item, b: Item): Bytes {
    MessageBytes([a, b])
  }

  lemma PairIsBoth(a: Item, b: Item)
    ensures Pair(a, b) == ItemBytes(a) + ItemBytes(b)
  {
    FlatMapOfOne(ItemBytes, b);
    assert [a, b][1..] == [b];
  }

  lemma PairDecodes(printable: Printable, a: Item, b: Item)
    ensures Decode(printable, Pair(a, b)) == Success([Surfaced(printable, a), Surfaced(printable, b)])
  {
    MessageRoundTrip(printable, [a, b]);
    assert Map(item => Surfaced(printable, item), [a, b]) == [Surfaced(printable, a), Surfaced(printable, b)];
  }

  lemma OneDecodes(printable: Printable, a: Item)
    ensures Decode(printable, ItemBytes(a)) == Success([Surfaced(printable, a)])
  {
    FlatMapOfOne(ItemBytes, a);
    MessageRoundTrip(printable, [a]);
    assert Map(item => Surfaced(printable, item), [a]) == [Surfaced(printable, a)];
  }

  lemma FirstFieldIsOpaque(printable: Printable, no: nat, text: Bytes, rest: Bytes)
    requires NoLineFeeds(printable)
    ensures var payload := StringField(1, text) + rest;
            Surfaced(printable, Raw(no, payload)) == Opaque(no, payload, |payload|)
  {
    assert Varint(1 * 8 + WT_LEN)[0] == NEWLINE;
    var payload := StringField(1, text) + rest;
    assert payload[0] == NEWLINE;
  }

  /** Decoding the request, and then its nested fields, gives back the four strings. */
  lemma {:induction false} RequestRoundTrip(
      printable: Printable, email: Bytes, password: Bytes, turnstile: Bytes, castle: Bytes)
    requires NoLineFeeds(printable)
    ensures exists credentials, antiAbuse, emailPassword ::
      && Decode(printable, EncodeRequest(email, password, turnstile, castle))
      == Success([Opaque(1, credentials, |credentials|), Opaque(4, antiAbuse, |antiAbuse|)])
      && Decode(printable, credentials) == Success([Opaque(1, emailPassword, |emailPassword|)])
      && Decode(printable, emailPassword)
      == Success([Surfaced(printable, Raw(1, email)), Surfaced(printable, Raw(2, password))])
      && Decode(printable, antiAbuse)
      == Success([Surfaced(printable, Raw(1, turnstile)), Surfaced(printable, Raw(2, castle))])
  {
    var emailPassword := Pair(Raw(1, email), Raw(2, password));
    var credentials := ItemBytes(Raw(1, emailPassword));
    var antiAbuse := Pair(Raw(1, turnstile), Raw(2, castle));
    RequestIsNested(email, password, turnstile, castle);
    PairDecodes(printable, Raw(1, credentials), Raw(4, antiAbuse));
    OneDecodes(printable, Raw(1, emailPassword));
    PairDecodes(printable, Raw(1, email), Raw(2, password));
    PairDecodes(printable, Raw(1, turnstile), Raw(2, castle));
    PairIsBoth(Raw(1, email), Raw(2, password));
    PairIsBoth(Raw(1, turnstile), Raw(2, castle));
    FirstFieldIsOpaque(printable, 1, email, StringField(2, password));
    FirstFieldIsOpaque(printable, 4, turnstile, StringField(2, castle));
    FirstFieldIsOpaque(printable, 1, emailPassword, []);
    assert credentials + [] == credentials;
  }

  lemma RequestIsNested(email: Bytes, password: Bytes, turnstile: Bytes, castle: Bytes)
    ensures EncodeRequest(email, password, turnstile, castle)
         == Pair(Raw(1, ItemBytes(Raw(1, Pair(Raw(1, email), Raw(2, password))))),
                 Raw(4, Pair(Raw(1, turnstile), Raw(2, castle))))
  {
    PairIsBoth(Raw(1, email), Raw(2, password));
    PairIsBoth(Raw(1, turnstile), Raw(2, castle));
    PairIsBoth(Raw(1, ItemBytes(Raw(1, Pair(Raw(1, email), Raw(2, password))))),
               Raw(4, Pair(Raw(1, turnstile), Raw(2, castle))));
  }

  // The walk

  predicate IsUrl(text: Bytes) {
    HTTP <= text || HTTPS <= text
  }

  /** URLs open with "http://" or "https://". */
  lemma IsUrlIff(text: Bytes)
    ensures IsUrl(text) <==>
      exists rest: Bytes :: text == Ascii("http://") + rest || text == Ascii("https://") + rest
  {
    assert HTTP == Ascii("http://") && HTTPS == Ascii("https://");
    if HTTP <= text {
      assert text == Ascii("http://") + text[|HTTP|..];
    }
    if HTTPS <= text {
      assert text == Ascii("https://") + text[|HTTPS|..];
    }
  }

  /** Decoded payloads are at least two bytes shorter than the message: a tag and a length precede each. */
  lemma {:induction false} PayloadsAreShorter(printable: Printable, s: Bytes)
    ensures Decode(printable, s).Success? ==>
      forall f | f in Decode(printable, s).value && f.Opaque? :: |f.chunk| + 2 <= |s|
    decreases |s|
  {
    if s != [] && Decode(printable, s).Success? {
      var first := DecodeField(printable, s).value;
      PayloadsAreShorter(printable, Drop(s, first.size));
      FirstPayloadIsShorter(printable, s);
      var others := Decode(printable, Drop(s, first.size));
      assert Decode(printable, s).value == [first.value] + others.value;
    }
  }

  lemma FirstPayloadIsShorter(printable: Printable, s: Bytes)
    requires DecodeField(printable, s).Success?
    ensures var field := DecodeField(printable, s).value.value;
            field.Opaque? ==> |field.chunk| + 2 <= |s|
  {
  }

  /** The URLs among the fields of a message, in order, at any depth; a payload that is no message has none. */
  function Urls(printable: Printable, s: Bytes): seq<Bytes>
    decreases |s|, 1, 0
  {
    PayloadsAreShorter(printable, s);
    match Decode(printable, s)
    case Failure(_) => []
    case Success(fields) => FieldUrls(printable, fields, |s|)
  }

  function FieldUrls(printable: Printable, fields: seq<Field>, bound: nat): seq<Bytes>
    requires forall f | f in fields && f.Opaque? :: |f.chunk| < bound
    decreases bound, 0, |fields|
  {
    if fields == [] then []
    else
      assert forall f | f in fields[1..] :: f in fields;
      UrlsOf(printable, fields[0], bound) + FieldUrls(printable, fields[1..], bound)
  }

  function UrlsOf(printable: Printable, f: Field, bound: nat): seq<Bytes>
    requires f.Opaque? ==> |f.chunk| < bound
    decreases bound, 0, 0
  {
    match f
    case Text(_, raw) => if IsUrl(raw) then [raw] else []
    case Opaque(_, chunk, _) => Urls(printable, chunk)
    case _ => []
  }

  method ExtractUrls(printable: Printable, fields: seq<Field>, ghost bound: nat) returns (urls: seq<Bytes>)
    requires forall f | f in fields && f.Opaque? :: |f.chunk| < bound
    ensures urls == FieldUrls(printable, fields, bound)
    decreases bound, 1
  {
    urls := [];
    for i := 0 to |fields|
      invariant forall f | f in fields[i..] :: f in fields
      invariant urls + FieldUrls(printable, fields[i..], bound) == FieldUrls(printable, fields, bound)
    {
      assert fields[i..][1..] == fields[i + 1..];
      var here := UrlsInField(printable, fields[i], bound);
      urls := urls + here;
    }
  }

  /** One turn of the walk; a payload that does not decode is passed over. */
  method UrlsInField(printable: Printable, f: Field, ghost bound: nat) returns (urls: seq<Bytes>)
    requires f.Opaque? ==> |f.chunk| < bound
    ensures urls == UrlsOf(printable, f, bound)
    decreases bound, 0
  {
    urls := [];
    if f.Text? {
      if IsUrl(f.raw) {
        urls := [f.raw];
      }
    } else if f.Opaque? && f.chunk != [] {
      var nested := DecodeMessage(printable, f.chunk);
      if nested.Success? {
        PayloadsAreShorter(printable, f.chunk);
        urls := ExtractUrls(printable, nested.value, |f.chunk|);
      }
    }
  }

  // Nested messages as trees

  datatype Tree = Leaf(no: nat, text: Bytes) | Node(no: nat, kids: seq<Tree>)

  function TreeItem(t: Tree): Item
    decreases t, 1
  {
    match t
    case Leaf(no, text) => Raw(no, text)
    case Node(no, kids) => Raw(no, ForestBytes(kids))
  }

  function ForestBytes(trees: seq<Tree>): Bytes
    decreases trees, 0
  {
    if trees == [] then [] else ItemBytes(TreeItem(trees[0])) + ForestBytes(trees[1..])
  }

  /** The leaves are text. */
  predicate PrintableLeaves(printable: Printable, trees: seq<Tree>) {
    trees != [] ==>
      && PrintableLeaves(printable, trees[1..])
      && match trees[0]
         case Leaf(_, text) => printable(text)
         case Node(_, kids) => PrintableLeaves(printable, kids)
  }

  /** The leaves that are URLs, left to right. */
  function LeafUrls(trees: seq<Tree>): seq<Bytes> {
    if trees == [] then []
    else
      (match trees[0]
       case Leaf(_, text) => if IsUrl(text) then [text] else []
       case Node(_, kids) => LeafUrls(kids)) + LeafUrls(trees[1..])
  }

  function ForestItems(trees: seq<Tree>): seq<Item> {
    Map(TreeItem, trees)
  }

  lemma {:induction false} ForestIsMessage(trees: seq<Tree>)
    ensures ForestBytes(trees) == MessageBytes(ForestItems(trees))
  {
    if trees != [] {
      ForestIsMessage(trees[1..]);
      assert ForestItems(trees) == [TreeItem(trees[0])] + ForestItems(trees[1..]);
    }
  }

  lemma ForestDecodes(printable: Printable, trees: seq<Tree>)
    ensures Decode(printable, ForestBytes(trees)) == Success(Map(t => Surfaced(printable, TreeItem(t)), trees))
  {
    ForestIsMessage(trees);
    MessageRoundTrip(printable, ForestItems(trees));
    assert Map(item => Surfaced(printable, item), ForestItems(trees))
        == Map(t => Surfaced(printable, TreeItem(t)), trees);
  }

  /** What the walk finds, told on the tree: a nested message that reads as text is not entered. */
  function WalkedUrls(printable: Printable, trees: seq<Tree>): seq<Bytes> {
    if trees == [] then []
    else
      (match trees[0]
       case Leaf(_, text) => if IsUrl(text) then [text] else []
       case Node(_, kids) => if printable(ForestBytes(kids)) then [] else WalkedUrls(printable, kids))
      + WalkedUrls(printable, trees[1..])
  }

  /** The first byte of a nested message is a tag, never the 'h' of a URL. */
  lemma MessageIsNoUrl(trees: seq<Tree>)
    ensures !IsUrl(ForestBytes(trees))
  {
    if trees != [] {
      var v := TreeItem(trees[0]).no * 8 + WT_LEN;
      assert v % 8 == 2 && Varint(v)[0] == if v < 128 then v else v % 128 + 128;
      assert ForestBytes(trees)[0] == Varint(v)[0];
    }
  }

  lemma {:induction false} WalkIsToldByTheTree(printable: Printable, trees: seq<Tree>)
    requires PrintableLeaves(printable, trees)
    ensures Urls(printable, ForestBytes(trees)) == WalkedUrls(printable, trees)
    decreases trees, 1
  {
    var view := t => Surfaced(printable, TreeItem(t));
    ForestDecodes(printable, trees);
    PayloadsAreShorter(printable, ForestBytes(trees));
    WalkOfFields(printable, trees, Map(view, trees), |ForestBytes(trees)|);
  }

  lemma {:induction false} WalkOfFields(printable: Printable, trees: seq<Tree>, fields: seq<Field>, bound: nat)
    requires PrintableLeaves(printable, trees)
    requires |fields| == |trees| && forall i | 0 <= i < |trees| :: fields[i] == Surfaced(printable, TreeItem(trees[i]))
    requires forall f | f in fields && f.Opaque? :: |f.chunk| < bound
    ensures FieldUrls(printable, fields, bound) == WalkedUrls(printable, trees)
    decreases trees, 0
  {
    if trees != [] {
      assert forall f | f in fields[1..] :: f in fields;
      WalkOfFields(printable, trees[1..], fields[1..], bound);
      assert FieldUrls(printable, fields, bound)
          == UrlsOf(printable, fields[0], bound) + FieldUrls(printable, fields[1..], bound);
      WalkOfTree(printable, trees, fields[0], bound);
    }
  }

  lemma {:induction false} WalkOfTree(printable: Printable, trees: seq<Tree>, f: Field, bound: nat)
    requires PrintableLeaves(printable, trees) && trees != []
    requires f == Surfaced(printable, TreeItem(trees[0])) && (f.Opaque? ==> |f.chunk| < bound)
    ensures UrlsOf(printable, f, bound) ==
      match trees[0]
      case Leaf(_, text) => if IsUrl(text) then [text] else []
      case Node(_, kids) => if printable(ForestBytes(kids)) then [] else WalkedUrls(printable, kids)
    decreases trees[0], 2
  {
    match trees[0]
    case Leaf(_, _) =>
    case Node(_, kids) =>
      if printable(ForestBytes(kids)) {
        MessageIsNoUrl(kids);
      } else {
        WalkIsToldByTheTree(printable, kids);
      }
  }

  /** No nested message that holds a URL reads as text itself. */
  predicate Lossless(printable: Printable, trees: seq<Tree>) {
    trees != [] ==>
      && Lossless(printable, trees[1..])
      && match trees[0]
         case Leaf(_, _) => true
         case Node(_, kids) =>
           if printable(ForestBytes(kids)) then LeafUrls(kids) == [] else Lossless(printable, kids)
  }

  lemma {:induction false} WalkFindsNoMore(printable: Printable, trees: seq<Tree>)
    ensures |WalkedUrls(printable, trees)| <= |LeafUrls(trees)|
  {
    if trees != [] {
      WalkFindsNoMore(printable, trees[1..]);
      if trees[0].Node? {
        WalkFindsNoMore(printable, trees[0].kids);
      }
    }
  }

  lemma EqualParts<T>(a: seq<T>, b: seq<T>, c: seq<T>, d: seq<T>)
    requires |a| <= |c| && |b| <= |d|
    ensures a + b == c + d <==> a == c && b == d
  {
    if a + b == c + d {
      assert |a + b| == |c + d|;
      assert a == (a + b)[..|a|] && c == (c + d)[..|c|];
      assert b == (a + b)[|a|..] && d == (c + d)[|c|..];
    }
  }

  lemma {:induction false} WalkedIsLossless(printable: Printable, trees: seq<Tree>)
    ensures WalkedUrls(printable, trees) == LeafUrls(trees) <==> Lossless(printable, trees)
  {
    if trees != [] {
      WalkedIsLossless(printable, trees[1..]);
      WalkFindsNoMore(printable, trees[1..]);
      match trees[0]
      case Leaf(_, text) =>
        var here := if IsUrl(text) then [text] else [];
        EqualParts(here, WalkedUrls(printable, trees[1..]), here, LeafUrls(trees[1..]));
      case Node(_, kids) =>
        WalkedIsLossless(printable, kids);
        WalkFindsNoMore(printable, kids);
        var here := if printable(ForestBytes(kids)) then [] else WalkedUrls(printable, kids);
        EqualParts(here, WalkedUrls(printable, trees[1..]), LeafUrls(kids), LeafUrls(trees[1..]));
    }
  }

  /** On every tree with text at its leaves, the walk finds exactly the URLs at the leaves, at every depth and in order,
      iff no nested message that holds a URL reads as text itself. */
  lemma {:induction false} WalkFindsTheLeavesIff(printable: Printable, trees: seq<Tree>)
    requires PrintableLeaves(printable, trees)
    ensures Urls(printable, ForestBytes(trees)) == LeafUrls(trees) <==> Lossless(printable, trees)
  {
    WalkIsToldByTheTree(printable, trees);
    WalkedIsLossless(printable, trees);
  }

  /** Every nested message opens with field 1, as those of the request do. */
  predicate OpensWithFieldOne(trees: seq<Tree>) {
    trees != [] ==>
      && OpensWithFieldOne(trees[1..])
      && match trees[0]
         case Leaf(_, _) => true
         case Node(_, kids) => kids != [] && kids[0].no == 1 && OpensWithFieldOne(kids)
  }

  lemma {:induction false} FieldOneIsLossless(printable: Printable, trees: seq<Tree>)
    requires NoLineFeeds(printable) && OpensWithFieldOne(trees)
    ensures Lossless(printable, trees)
  {
    if trees != [] {
      FieldOneIsLossless(printable, trees[1..]);
      if trees[0].Node? {
        NodeIsOpaque(printable, trees[0].no, trees[0].kids);
        FieldOneIsLossless(printable, trees[0].kids);
      }
    }
  }

  /** When every nested message opens with field 1, the walk finds exactly the URLs at the leaves. */
  lemma {:induction false} WalkFindsTheLeaves(printable: Printable, trees: seq<Tree>)
    requires NoLineFeeds(printable) && PrintableLeaves(printable, trees) && OpensWithFieldOne(trees)
    ensures Urls(printable, ForestBytes(trees)) == LeafUrls(trees)
  {
    FieldOneIsLossless(printable, trees);
    WalkFindsTheLeavesIff(printable, trees);
  }

  lemma NodeIsOpaque(printable: Printable, no: nat, kids: seq<Tree>)
    requires NoLineFeeds(printable) && kids != [] && kids[0].no == 1
    ensures !printable(ForestBytes(kids))
    ensures Surfaced(printable, TreeItem(Node(no, kids))) == Opaque(no, ForestBytes(kids), |ForestBytes(kids)|)
  {
    var payload := TreeItem(kids[0]).payload;
    FirstFieldIsOpaque(printable, no, payload, ForestBytes(kids[1..]));
  }

  // A reply whose URL is lost

  /** Text stays text with a printable ASCII character put before it. */
  ghost predicate TakesAscii(printable: Printable) {
    forall b: byte, s | 32 <= b <= 126 && printable(s) :: printable([b] + s)
  }

  /** A URL of 32 to 126 bytes in field 4 of a nested message: the tag is '"' and the length is printable as well, so
      the message reads as text that is no URL, and the walk finds nothing. */
  lemma ShortUrlIsLost(printable: Printable, no: nat, url: Bytes)
    requires TakesAscii(printable) && printable(url) && IsUrl(url) && 32 <= |url| <= 126
    ensures var reply := [Node(no, [Leaf(4, url)])];
            LeafUrls(reply) == [url] && Urls(printable, ForestBytes(reply)) == []
  {
    var inner := [Leaf(4, url)];
    var reply := [Node(no, inner)];
    assert inner[1..] == [] && reply[1..] == [];
    assert ForestBytes(inner) == [34] + ([|url|] + url) by {
      assert Varint(4 * 8 + WT_LEN) == [34] && Varint(|url|) == [|url|];
    }
    assert printable([|url|] + url);
    assert PrintableLeaves(printable, inner) && PrintableLeaves(printable, reply);
    WalkIsToldByTheTree(printable, reply);
  }

  /** One such reply, with ASCII text alone counting as printable. */
  lemma UrlIsLost()
    ensures var ascii: Printable := s => forall b | b in s :: 32 <= b <= 126;
            var url := HTTPS + seq(24, _ => 97);
            Urls(ascii, ForestBytes([Node(1, [Leaf(4, url)])])) == [] && IsUrl(url)
  {
    var ascii: Printable := s => forall b | b in s :: 32 <= b <= 126;
    var url: Bytes := HTTPS + seq(24, _ => 97);
    ShortUrlIsLost(ascii, 1, url);
  }
}
