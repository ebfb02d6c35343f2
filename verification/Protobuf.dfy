/** Protocol Buffers encoding: base-128 varints and tagged fields, written and read back. */
module Protobuf {
  import opened Wrappers
  import opened Sequences
  import opened Repetition

  type byte = b: int | 0 <= b < 256
  type Bytes = seq<byte>

  function Code(c: char): byte
    requires c as int < 128
  {
    c as int
  }

  /** The bytes of ASCII text. */
  function Ascii(s: string): Bytes
    requires forall i | 0 <= i < |s| :: s[i] as int < 128
  {
    seq(|s|, i requires 0 <= i < |s| => Code(s[i]))
  }

  datatype Error = NegativeVarint | IndexOutOfRange | UnsupportedWireType(wireType: nat)

  const WT_VARINT := 0
  const WT_FIXED64 := 1
  const WT_LEN := 2
  const WT_FIXED32 := 5

  // Bit arithmetic on naturals of any size

  function Pow2(k: nat): (p: nat)
    ensures p > 0
  {
    if k == 0 then 1 else 2 * Pow2(k - 1)
  }

  function BitOr(a: nat, b: nat): nat {
    if a == 0 then b
    else if b == 0 then a
    else 2 * BitOr(a / 2, b / 2) + (if a % 2 == 1 || b % 2 == 1 then 1 else 0)
  }

  lemma BitOrEven(a: nat, b: nat)
    ensures BitOr(a, 2 * b) == 2 * BitOr(a / 2, b) + a % 2
  {
    assert (2 * b) / 2 == b && (2 * b) % 2 == 0;
  }

  lemma DoubleFactor(x: nat, p: nat)
    ensures x * (2 * p) == 2 * (x * p)
  {
  }

  /** OR-ing in bits above all bits present is adding them. */
  lemma {:induction false} OrIsSumOfDisjoint(a: nat, x: nat, k: nat)
    requires a < Pow2(k)
    ensures x * Pow2(k) >= 0
    ensures BitOr(a, x * Pow2(k)) == a + x * Pow2(k)
  {
    if k > 0 {
      var p := Pow2(k - 1);
      var b: nat := x * p;
      DoubleFactor(x, p);
      assert x * Pow2(k) == 2 * b;
      OrIsSumOfDisjoint(a / 2, x, k - 1);
      BitOrEven(a, b);
    }
  }

  lemma {:induction false} OrIsCommutative(a: nat, b: nat)
    ensures BitOr(a, b) == BitOr(b, a)
  {
    if a > 0 && b > 0 {
      OrIsCommutative(a / 2, b / 2);
    }
  }

  lemma {:induction false} Pow2Adds(j: nat, k: nat)
    ensures Pow2(j + k) == Pow2(j) * Pow2(k)
  {
    if j > 0 {
      var p, q := Pow2(j - 1), Pow2(k);
      Pow2Adds(j - 1, k);
      assert Pow2(j) == 2 * p && Pow2(j + k) == 2 * (p * q);
      DoubleFactor(q, p);
    }
  }

  // Varints

  /** Seven bits at a time, lowest first; every byte but the last has its high bit set. */
  function Varint(v: nat): (s: Bytes)
    ensures |s| > 0
  {
    if v < 128 then [v] else [v % 128 + 128] + Varint(v / 128)
  }

  datatype Reading = Reading(value: nat, size: nat)

  /** The varint at the start of s, and how many bytes it takes. */
  function ReadVarint(s: Bytes): (r: Option<Reading>)
    ensures r.Some? ==> 1 <= r.value.size <= |s|
  {
    if s == [] then None
    else if s[0] < 128 then Some(Reading(s[0], 1))
    else
      match ReadVarint(s[1..])
      case None => None
      case Some(high) => Some(Reading(s[0] - 128 + 128 * high.value, high.size + 1))
  }

  /** Reading undoes writing, whatever follows. */
  lemma {:induction false} VarintRoundTrip(v: nat, rest: Bytes)
    ensures ReadVarint(Varint(v) + rest) == Some(Reading(v, |Varint(v)|))
  {
    var s := Varint(v) + rest;
    if v >= 128 {
      VarintRoundTrip(v / 128, rest);
      assert s[1..] == Varint(v / 128) + rest;
    }
  }

  /** Writing undoes reading exactly for the encodings that do not end in a padding zero. */
  lemma {:induction false} VarintIsCanonicalIff(s: Bytes)
    requires ReadVarint(s).Some?
    ensures var Reading(v, k) := ReadVarint(s).value;
            s[..k] == Varint(v) <==> k == 1 || s[k - 1] != 0
  {
    var Reading(v, k) := ReadVarint(s).value;
    if s[0] >= 128 {
      VarintIsCanonicalIff(s[1..]);
      var Reading(high, size) := ReadVarint(s[1..]).value;
      assert v == s[0] - 128 + 128 * high && s[..k] == [s[0]] + s[1..][..size];
      if v < 128 {
        ZeroReadsFromZeros(s[1..]);
      } else {
        assert v % 128 == s[0] - 128 && v / 128 == high;
        assert Varint(v)[1..] == Varint(high) && s[..k][1..] == s[1..][..size];
      }
    }
  }

  lemma {:induction false} ZeroReadsFromZeros(s: Bytes)
    requires ReadVarint(s).Some? && ReadVarint(s).value.value == 0
    ensures s[ReadVarint(s).value.size - 1] == 0
  {
    if s[0] >= 128 {
      ZeroReadsFromZeros(s[1..]);
    }
  }

  lemma {:induction false} ReadVarintExtends(s: Bytes, rest: Bytes)
    requires ReadVarint(s).Some?
    ensures ReadVarint(s + rest) == ReadVarint(s)
  {
    if s[0] >= 128 {
      ReadVarintExtends(s[1..], rest);
      assert (s + rest)[1..] == s[1..] + rest;
    }
  }

  method EncodeVarint(value: int) returns (r: Result<Bytes, Error>)
    ensures r == if value < 0 then Failure(NegativeVarint) else Success(Varint(value))
  {
    if value < 0 {
      return Failure(NegativeVarint);
    }
    var out: Bytes, left := [], value;
    while left / 128 > 0
      invariant left >= 0
      invariant out + Varint(left) == Varint(value)
    {
      out := out + [left % 128 + 128];
      left := left / 128;
    }
    r := Success(out + [left % 128]);
  }

  /** Reads the varint at index i, OR-ing seven bits at a time; next is the index after it. */
  method ReadVarintAt(data: Bytes, i: nat) returns (r: Result<nat, Error>, next: nat)
    requires i <= |data|
    ensures match ReadVarint(data[i..])
            case None => r == Failure(IndexOutOfRange)
            case Some(reading) => r == Success(reading.value) && next == i + reading.size
  {
    var value: nat, shift: nat, j := 0, 0, i;
    while true
      invariant i <= j <= |data|
      invariant value < Pow2(shift)
      invariant ReadVarint(data[i..]) == Lowered(ReadVarint(data[j..]), value, shift, j - i)
      decreases |data| - j
    {
      if j >= |data| {
        return Failure(IndexOutOfRange), j;
      }
      var b := data[j];
      LoweredStep(data[j..], value, shift, j - i);
      assert data[j..][1..] == data[j + 1..];
      value := WithBitsAt(value, b, shift);
      j := j + 1;
      if b < 128 {
        return Success(value), j;
      }
      shift := shift + 7;
    }
  }

  /** The low seven bits of b, OR-ed in at the shift. */
  function WithBitsAt(value: nat, b: byte, shift: nat): (r: nat)
    requires value < Pow2(shift)
    ensures r == value + b % 128 * Pow2(shift)
  {
    OrIsSumOfDisjoint(value, b % 128, shift);
    BitOr(value, b % 128 * Pow2(shift))
  }

  /** What was read of the high part, put above the bits and bytes already taken. */
  function Lowered(high: Option<Reading>, value: nat, shift: nat, taken: nat): Option<Reading> {
    if high.None? then None
    else Some(Reading(value + high.value.value * Pow2(shift), high.value.size + taken))
  }

  lemma {:induction false} LoweredStep(s: Bytes, value: nat, shift: nat, taken: nat)
    requires s != [] && value < Pow2(shift)
    ensures value + s[0] % 128 * Pow2(shift) < Pow2(shift + 7)
    ensures Lowered(ReadVarint(s), value, shift, taken)
         == if s[0] < 128 then Some(Reading(value + s[0] % 128 * Pow2(shift), taken + 1))
            else Lowered(ReadVarint(s[1..]), value + s[0] % 128 * Pow2(shift), shift + 7, taken + 1)
  {
    Pow2Plus7(shift);
    TimesAtMost(s[0] % 128, 127, Pow2(shift));
    if s[0] >= 128 && ReadVarint(s[1..]).Some? {
      Distribute(s[0] % 128, ReadVarint(s[1..]).value.value, Pow2(shift));
    }
  }

  lemma Pow2Plus7(k: nat)
    ensures Pow2(k + 7) == 128 * Pow2(k)
  {
    Pow2Adds(7, k);
    assert Pow2(7) == 128;
  }

  lemma TimesAtMost(a: nat, b: nat, p: nat)
    requires a <= b
    ensures a * p <= b * p
  {
  }

  lemma Distribute(a: nat, h: nat, p: nat)
    ensures (a + 128 * h) * p == a * p + h * (128 * p)
  {
  }

  // Fields, written

  datatype Item = Raw(no: nat, payload: Bytes) | Number(no: nat, value: nat)

  function Tag(no: nat, wireType: nat): Bytes
    requires wireType < 8
  {
    Varint(no * 8 + wireType)
  }

  function ItemBytes(item: Item): (s: Bytes)
    ensures s != []
  {
    match item
    case Raw(no, payload) => Tag(no, WT_LEN) + Varint(|payload|) + payload
    case Number(no, value) => Tag(no, WT_VARINT) + Varint(value)
  }

  function MessageBytes(items: seq<Item>): Bytes {
    FlatMap(ItemBytes, items)
  }

  method EncodeTag(no: int, wireType: nat) returns (r: Result<Bytes, Error>)
    requires wireType < 8
    ensures r == if no < 0 then Failure(NegativeVarint) else Success(Tag(no, wireType))
  {
    if no >= 0 {
      assert Pow2(3) == 8;
      OrIsSumOfDisjoint(wireType, no, 3);
      OrIsCommutative(wireType, no * 8);
      r := EncodeVarint(BitOr(no * 8, wireType));
    } else {
      // The low three bits of no * 8 are clear, so OR-ing into them adds, and the result stays negative.
      r := EncodeVarint(no * 8 + wireType);
    }
  }

  /** A length-delimited field; a string is given as its UTF-8 bytes. */
  method EncodeBytes(no: int, payload: Bytes) returns (r: Result<Bytes, Error>)
    ensures r == if no < 0 then Failure(NegativeVarint) else Success(ItemBytes(Raw(no, payload)))
  {
    var tag :- EncodeTag(no, WT_LEN);
    var length := EncodeVarint(|payload|);
    r := Success(tag + length.value + payload);
  }

  method EncodeVarintField(no: int, value: int) returns (r: Result<Bytes, Error>)
    ensures r == if no < 0 || value < 0 then Failure(NegativeVarint) else Success(ItemBytes(Number(no, value)))
  {
    var tag :- EncodeTag(no, WT_VARINT);
    var number :- EncodeVarint(value);
    r := Success(tag + number);
  }

  /** The whole message, or an error if some field number is negative. */
  method EncodeMessage(fields: seq<(int, Bytes)>) returns (r: Result<Bytes, Error>)
    ensures r.Success? <==> forall f | f in fields :: f.0 >= 0
    ensures r.Success? ==> exists items | AreRaw(items, fields) :: r.value == MessageBytes(items)
    ensures r.Failure? ==> r.error == NegativeVarint
  {
    var out: Bytes := [];
    ghost var items: seq<Item> := [];
    for i := 0 to |fields|
      invariant forall f | f in fields[..i] :: f.0 >= 0
      invariant AreRaw(items, fields[..i])
      invariant out == MessageBytes(items)
    {
      assert fields[..i + 1] == fields[..i] + [fields[i]];
      var field :- EncodeBytes(fields[i].0, fields[i].1);
      ghost var item := Raw(fields[i].0, fields[i].1);
      MessageOfOneMore(items, item);
      out, items := out + field, items + [item];
    }
    assert fields[..|fields|] == fields;
    r := Success(out);
  }

  predicate AreRaw(items: seq<Item>, fields: seq<(int, Bytes)>) {
    |items| == |fields| && forall i | 0 <= i < |items| :: IsRaw(items[i], fields[i])
  }

  predicate IsRaw(item: Item, field: (int, Bytes)) {
    item.Raw? && item.no == field.0 && item.payload == field.1
  }

  lemma MessageOfOneMore(items: seq<Item>, item: Item)
    ensures MessageBytes(items + [item]) == MessageBytes(items) + ItemBytes(item)
  {
    FlatMapOfConcat(ItemBytes, items, [item]);
    FlatMapOfOne(ItemBytes, item);
  }

  // Fields, read

  /** Decoded fields. A length-delimited payload is Text when printable, else Opaque with the length it claimed. */
  datatype Field =
    | Int(no: nat, value: nat)
    | Fixed64(no: nat, chunk: Bytes)
    | Text(no: nat, raw: Bytes)
    | Opaque(no: nat, chunk: Bytes, claimed: nat)
    | Fixed32(no: nat, chunk: Bytes)

  /** Whether bytes are printable UTF-8; nothing else about text matters here. */
  type Printable = Bytes -> bool

  function Delimited(printable: Printable, no: nat, chunk: Bytes, claimed: nat): Field {
    if printable(chunk) then Text(no, chunk) else Opaque(no, chunk, claimed)
  }

  /** The rest of a field whose tag took the first tagSize bytes. */
  function DecodePayload(
      printable: Printable, no: nat, wireType: nat, tagSize: pos, s: Bytes): (r: Result<Piece<Field>, Error>)
  {
    if wireType == WT_VARINT then
      match ReadVarint(s)
      case None => Failure(IndexOutOfRange)
      case Some(v) => Success(Piece(Int(no, v.value), tagSize + v.size))
    else if wireType == WT_FIXED64 then
      Success(Piece(Fixed64(no, Take(s, 8)), tagSize + 8))
    else if wireType == WT_LEN then
      match ReadVarint(s)
      case None => Failure(IndexOutOfRange)
      case Some(len) =>
        var chunk := Take(s[len.size..], len.value);
        Success(Piece(Delimited(printable, no, chunk, len.value), tagSize + len.size + len.value))
    else if wireType == WT_FIXED32 then
      Success(Piece(Fixed32(no, Take(s, 4)), tagSize + 4))
    else
      Failure(UnsupportedWireType(wireType))
  }

  /** The first field of s; its size may exceed s, when its payload is cut short. */
  function DecodeField(printable: Printable, s: Bytes): Result<Piece<Field>, Error> {
    match ReadVarint(s)
    case None => Failure(IndexOutOfRange)
    case Some(tag) => DecodePayload(printable, tag.value / 8, tag.value % 8, tag.size, s[tag.size..])
  }

  function FieldReader(printable: Printable): Reader<byte, Field, Error> {
    s => DecodeField(printable, s)
  }

  function Decode(printable: Printable, s: Bytes): Result<seq<Field>, Error> {
    Many(FieldReader(printable), 1, s)
  }

  method DecodeMessage(printable: Printable, data: Bytes) returns (r: Result<seq<Field>, Error>)
    ensures r == Decode(printable, data)
  {
    var fields: seq<Field>, i: nat := [], 0;
    PrependedNothing(Decode(printable, data));
    while i < |data|
      invariant Decode(printable, data) == Prepended(fields, Decode(printable, Drop(data, i)))
      decreases |data| - i
    {
      ghost var s := data[i..];
      var field, next :- DecodeFieldAt(printable, data, i);
      ghost var others := Decode(printable, Drop(data, next));
      assert Drop(s, next - i) == Drop(data, next);
      assert Decode(printable, s) == Prepended([field], others);
      PrependedTwice(fields, [field], others);
      fields, i := fields + [field], next;
    }
    assert fields + [] == fields;
    r := Success(fields);
  }

  /** One turn of the decoding loop: the field at index i, and the index after it. */
  method DecodeFieldAt(printable: Printable, data: Bytes, i: nat) returns (r: Result<Field, Error>, next: nat)
    requires i < |data|
    ensures match DecodeField(printable, data[i..])
            case Failure(e) => r == Failure(e)
            case Success(piece) => r == Success(piece.value) && next == i + piece.size
  {
    ghost var s := data[i..];
    next := i;
    var tag, at :- ReadVarintAt(data, i);
    ghost var rest := data[at..];
    assert s[at - i..] == rest;
    assert DecodeField(printable, s) == DecodePayload(printable, tag / 8, tag % 8, at - i, rest);
    r, next := DecodePayloadAt(printable, data, tag / 8, tag % 8, at, at - i);
  }

  method DecodePayloadAt(printable: Printable, data: Bytes, no: nat, wireType: nat, at: nat, ghost tagSize: pos)
    returns (r: Result<Field, Error>, next: nat)
    requires at <= |data|
    ensures match DecodePayload(printable, no, wireType, tagSize, data[at..])
            case Failure(e) => r == Failure(e)
            case Success(piece) => r == Success(piece.value) && next + tagSize == at + piece.size
  {
    next := at;
    if wireType == WT_VARINT {
      var value, after :- ReadVarintAt(data, at);
      return Success(Int(no, value)), after;
    } else if wireType == WT_FIXED64 {
      return Success(Fixed64(no, Take(data[at..], 8))), at + 8;
    } else if wireType == WT_LEN {
      var length, start :- ReadVarintAt(data, at);
      assert data[at..][start - at..] == data[start..];
      return Success(Delimited(printable, no, Take(data[start..], length), length)), start + length;
    } else if wireType == WT_FIXED32 {
      return Success(Fixed32(no, Take(data[at..], 4))), at + 4;
    } else {
      return Failure(UnsupportedWireType(wireType)), at;
    }
  }

  // Concatenation and round trips

  lemma PayloadExtends(printable: Printable, no: nat, wireType: nat, tagSize: pos, s: Bytes, rest: Bytes)
    requires var r := DecodePayload(printable, no, wireType, tagSize, s);
             r.Success? && r.value.size <= tagSize + |s|
    ensures DecodePayload(printable, no, wireType, tagSize, s + rest)
         == DecodePayload(printable, no, wireType, tagSize, s)
  {
    if wireType == WT_VARINT {
      ReadVarintExtends(s, rest);
    } else if wireType == WT_LEN {
      ReadVarintExtends(s, rest);
      ChunkExtends(s, rest, ReadVarint(s).value.size, ReadVarint(s).value.value);
    } else {
      TakeExtends(s, rest, if wireType == WT_FIXED64 then 8 else 4);
    }
  }

  lemma ChunkExtends(s: Bytes, rest: Bytes, from: nat, n: nat)
    requires from + n <= |s|
    ensures Take((s + rest)[from..], n) == Take(s[from..], n)
  {
    assert (s + rest)[from..] == s[from..] + rest;
    TakeExtends(s[from..], rest, n);
  }

  /** What follows a complete field does not change how it is read. */
  lemma FieldsAreStable(printable: Printable)
    ensures Stable(FieldReader(printable))
  {
    forall s, rest | DecodeField(printable, s).Success? && DecodeField(printable, s).value.size <= |s|
      ensures DecodeField(printable, s + rest) == DecodeField(printable, s)
    {
      ReadVarintExtends(s, rest);
      var Reading(tag, size) := ReadVarint(s).value;
      assert (s + rest)[size..] == s[size..] + rest;
      PayloadExtends(printable, tag / 8, tag % 8, size, s[size..], rest);
    }
  }

  /** Every field of the message ends within it. */
  predicate CompleteMessage(printable: Printable, s: Bytes) {
    Complete(FieldReader(printable), 1, s)
  }

  /** A complete message decodes to its own fields, followed by those of whatever comes after. */
  lemma DecodeOfConcat(printable: Printable, a: Bytes, b: Bytes)
    requires CompleteMessage(printable, a)
    ensures Decode(printable, a).Success?
    ensures Decode(printable, a + b) == Prepended(Decode(printable, a).value, Decode(printable, b))
  {
    FieldsAreStable(printable);
    ManyOfConcat(FieldReader(printable), 1, a, b);
  }

  function Surfaced(printable: Printable, item: Item): Field {
    match item
    case Raw(no, payload) => Delimited(printable, no, payload, |payload|)
    case Number(no, value) => Int(no, value)
  }

  lemma DelimitedRoundTrip(printable: Printable, no: nat, tagSize: pos, payload: Bytes, rest: Bytes)
    ensures DecodePayload(printable, no, WT_LEN, tagSize, Varint(|payload|) + (payload + rest))
         == Success(Piece(Delimited(printable, no, payload, |payload|), tagSize + |Varint(|payload|)| + |payload|))
  {
    var length := Varint(|payload|);
    VarintRoundTrip(|payload|, payload + rest);
    assert (length + (payload + rest))[|length|..] == payload + rest;
    TakeExtends(payload, rest, |payload|);
  }

  lemma TagRoundTrip(printable: Printable, no: nat, wireType: nat, after: Bytes)
    requires wireType < 8
    ensures DecodeField(printable, Tag(no, wireType) + after)
         == DecodePayload(printable, no, wireType, |Tag(no, wireType)|, after)
  {
    var tag, value := Tag(no, wireType), no * 8 + wireType;
    assert ReadVarint(tag + after) == Some(Reading(value, |tag|)) by {
      VarintRoundTrip(value, after);
    }
    assert value / 8 == no && value % 8 == wireType;
    assert (tag + after)[|tag|..] == after;
  }

  lemma RawRoundTrip(printable: Printable, no: nat, payload: Bytes, rest: Bytes)
    ensures var bytes := ItemBytes(Raw(no, payload));
            DecodeField(printable, bytes + rest) == Success(Piece(Surfaced(printable, Raw(no, payload)), |bytes|))
  {
    var tag, length := Tag(no, WT_LEN), Varint(|payload|);
    var after := length + (payload + rest);
    assert ItemBytes(Raw(no, payload)) + rest == tag + after by {
      Associative(tag + length, payload, rest);
      Associative(tag, length, payload + rest);
    }
    var decoded := DecodePayload(printable, no, WT_LEN, |tag|, after);
    assert DecodeField(printable, tag + after) == decoded by {
      TagRoundTrip(printable, no, WT_LEN, after);
    }
    DelimitedRoundTrip(printable, no, |tag|, payload, rest);
  }

  lemma NumberRoundTrip(printable: Printable, no: nat, value: nat, rest: Bytes)
    ensures var bytes := ItemBytes(Number(no, value));
            DecodeField(printable, bytes + rest) == Success(Piece(Int(no, value), |bytes|))
  {
    Associative(Tag(no, WT_VARINT), Varint(value), rest);
    TagRoundTrip(printable, no, WT_VARINT, Varint(value) + rest);
    VarintRoundTrip(value, rest);
  }

  /** Decoding an encoded message gives its fields, in order, with their numbers and payloads. */
  lemma MessageRoundTrip(printable: Printable, items: seq<Item>)
    ensures Decode(printable, MessageBytes(items)) == Success(Map(item => Surfaced(printable, item), items))
  {
    var read, write, view := FieldReader(printable), (item: Item) => ItemBytes(item), item => Surfaced(printable, item);
    forall item, rest: Bytes
      ensures |write(item)| >= 1 && read(write(item) + rest) == Success(Piece(view(item), |write(item)|))
    {
      match item
      case Raw(no, payload) => RawRoundTrip(printable, no, payload, rest);
      case Number(no, value) => NumberRoundTrip(printable, no, value, rest);
    }
    ManyRoundTrip(read, 1, write, view, _ => true, items, []);
    FlatMapOfEqual(write, ItemBytes, items);
    assert MessageBytes(items) + [] == MessageBytes(items);
    assert Map(view, items) + [] == Map(view, items);
  }

  // Fields that the encoder does not write

  lemma FieldThenRest(printable: Printable, s: Bytes, field: Field, size: pos, rest: Bytes)
    requires s != [] && DecodeField(printable, s) == Success(Piece(field, size)) && Drop(s, size) == rest
    ensures Decode(printable, s) == Prepended([field], Decode(printable, rest))
  {
  }

  /** Eight bytes after a tag of type 1 are the chunk of the field, or as many as are left. */
  lemma Fixed64IsRead(printable: Printable, no: nat, chunk: Bytes, rest: Bytes)
    requires |chunk| == 8 || (|chunk| < 8 && rest == [])
    ensures Decode(printable, Varint(8 * no + 1) + (chunk + rest))
         == Prepended([Fixed64(no, chunk)], Decode(printable, rest))
  {
    var tag := Varint(8 * no + 1);
    TagRoundTrip(printable, no, 1, chunk + rest);
    assert rest == [] ==> chunk + rest == chunk;
    FieldThenRest(printable, tag + (chunk + rest), Fixed64(no, chunk), |tag| + 8, rest);
  }

  /** Four bytes after a tag of type 5 are the chunk of the field, or as many as are left. */
  lemma Fixed32IsRead(printable: Printable, no: nat, chunk: Bytes, rest: Bytes)
    requires |chunk| == 4 || (|chunk| < 4 && rest == [])
    ensures Decode(printable, Varint(8 * no + 5) + (chunk + rest))
         == Prepended([Fixed32(no, chunk)], Decode(printable, rest))
  {
    var tag := Varint(8 * no + 5);
    TagRoundTrip(printable, no, 5, chunk + rest);
    assert rest == [] ==> chunk + rest == chunk;
    FieldThenRest(printable, tag + (chunk + rest), Fixed32(no, chunk), |tag| + 4, rest);
  }

  lemma CutChunk(printable: Printable, no: nat, tagSize: pos, payload: Bytes, missing: pos)
    ensures var length := Varint(|payload| + missing);
            DecodePayload(printable, no, WT_LEN, tagSize, length + payload)
            == Success(Piece(if printable(payload) then Text(no, payload)
                             else Opaque(no, payload, |payload| + missing),
                             tagSize + |length| + |payload| + missing))
  {
    var length := Varint(|payload| + missing);
    VarintRoundTrip(|payload| + missing, payload);
    assert (length + payload)[|length|..] == payload;
  }

  /** A payload cut short at the end of the message is kept as far as it goes, as text if that much is printable, else
      with the length it claimed. */
  lemma CutPayloadIsKept(printable: Printable, no: nat, payload: Bytes, missing: pos)
    ensures Decode(printable, Varint(8 * no + 2) + (Varint(|payload| + missing) + payload))
         == Success([if printable(payload) then Text(no, payload) else Opaque(no, payload, |payload| + missing)])
  {
    var tag, length := Varint(8 * no + 2), Varint(|payload| + missing);
    var field := if printable(payload) then Text(no, payload) else Opaque(no, payload, |payload| + missing);
    assert DecodeField(printable, tag + (length + payload))
        == Success(Piece(field, |tag| + |length| + |payload| + missing)) by {
      TagRoundTrip(printable, no, 2, length + payload);
      CutChunk(printable, no, |tag|, payload, missing);
    }
    FieldThenRest(printable, tag + (length + payload), field, |tag| + |length| + |payload| + missing, []);
    assert [field] + [] == [field];
  }

  /** When a varint is cut short: every byte has its high bit set. */
  lemma {:induction false} CutVarintIff(s: Bytes)
    ensures ReadVarint(s).None? <==> forall i | 0 <= i < |s| :: s[i] >= 128
  {
    if s != [] {
      CutVarintIff(s[1..]);
      assert forall i | 0 < i < |s| :: s[i] == s[1..][i - 1];
    }
  }

  /** When and how a field fails to decode: its tag is cut short; its type is none of the five known; or its type has a
      number or length, and that is cut short. */
  lemma FieldErrorIff(printable: Printable, s: Bytes)
    ensures var r := DecodeField(printable, s);
            if ReadVarint(s).None? then r == Failure(IndexOutOfRange)
            else
              var tag := ReadVarint(s).value;
              var t, cut := tag.value % 8, ReadVarint(s[tag.size..]).None?;
              && (r.Failure? <==> t == 3 || t == 4 || t >= 6 || ((t == 0 || t == 2) && cut))
              && (r.Failure? ==> r.error == if t == 0 || t == 2 then IndexOutOfRange else UnsupportedWireType(t))
  {
  }

  /** Two messages with the same bytes are the same message. */
  lemma EncodingIsInjective(a: seq<Item>, b: seq<Item>)
    requires MessageBytes(a) == MessageBytes(b)
    ensures a == b
  {
    var none: Printable := _ => false;
    var view := item => Surfaced(none, item);
    MessageRoundTrip(none, a);
    MessageRoundTrip(none, b);
    assert Map(view, a) == Map(view, b);
    forall i | 0 <= i < |a|
      ensures a[i] == b[i]
    {
      assert Map(view, a)[i] == view(a[i]) && Map(view, b)[i] == view(b[i]);
    }
  }
}
