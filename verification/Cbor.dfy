/**
 The CBOR decoder of the passkey code. The specification is an encoder: every data item of the
 supported subset (section 3 of RFC 8949), with each length in any width that holds it. The
 decoder accepts exactly the encodings of the items within its limits, and returns their meaning.
 */
module Cbor {
  import opened Sequences
  import opened Wrappers

  /** How bytes become text is left open. */
  type Utf8 = seq<Byte> -> string

  const MAX_BINARY_BYTES := 2 * 1024 * 1024
  const MAX_DEPTH := 16
  const MAX_CONTAINER_ITEMS := 1024
  const MAX_TOTAL_ITEMS := 4096

  datatype Value =
    | Number(n: int)
    | Bytes(bytes: seq<Byte>)
    | Text(text: string)
    | List(values: seq<Value>)
    | Map(entries: seq<Value>) // each key with its value after it, in order of insertion
    | Bool(b: bool)
    | Null

  datatype Error =
    | TooDeep | UnexpectedEnd | Indefinite | UnsupportedLength | IntegerTooLarge
    | Truncated | TooManyItems | DuplicateKey | Unsupported | TooLarge | TrailingBytes

  // ---------------------------------------------------------------- numbers in bytes

  function BigEndian(bytes: seq<Byte>): nat {
    if bytes == [] then 0 else BigEndian(bytes[..|bytes| - 1]) * 256 + bytes[|bytes| - 1]
  }

  function ToBytes(n: nat, size: nat): (bytes: seq<Byte>)
    ensures |bytes| == size
    decreases size
  {
    if size == 0 then [] else ToBytes(n / 256, size - 1) + [n % 256]
  }

  function Pow256(size: nat): (p: nat)
    ensures p >= 1
  {
    if size == 0 then 1 else 256 * Pow256(size - 1)
  }

  lemma {:induction false} BigEndianOfToBytes(n: nat, size: nat)
    requires n < Pow256(size)
    ensures BigEndian(ToBytes(n, size)) == n
    decreases size
  {
    if size > 0 {
      BigEndianOfToBytes(n / 256, size - 1);
      assert ToBytes(n, size)[..size - 1] == ToBytes(n / 256, size - 1);
    }
  }

  lemma {:induction false} ToBytesOfBigEndian(bytes: seq<Byte>)
    ensures ToBytes(BigEndian(bytes), |bytes|) == bytes
    ensures BigEndian(bytes) < Pow256(|bytes|)
  {
    if bytes != [] {
      ToBytesOfBigEndian(bytes[..|bytes| - 1]);
      assert bytes == bytes[..|bytes| - 1] + [bytes[|bytes| - 1]];
    }
  }

  // ---------------------------------------------------------------- the encoder

  datatype Width = Immediate | One | Two | Four | Eight

  function Size(w: Width): nat {
    match w case Immediate => 0 case One => 1 case Two => 2 case Four => 4 case Eight => 8
  }

  predicate Holds(w: Width, n: nat) {
    n <= MAX_SAFE_INTEGER && if w.Immediate? then n < 24 else n < Pow256(Size(w))
  }

  function Additional(w: Width, n: nat): (a: nat)
    requires Holds(w, n)
    ensures a < 28
  {
    match w case Immediate => n case One => 24 case Two => 25 case Four => 26 case Eight => 27
  }

  /** A data item as written: the widths and tags chosen show here, and not in the value. */
  datatype Item =
    | Integer(w: Width, negative: bool, n: nat)
    | Chunk(w: Width, isText: bool, bytes: seq<Byte>)
    | Container(w: Width, keyed: bool, contents: Items) // a map holds its keys and values in turn
    | Tagged(w: Width, tag: nat, item: Item)
    | Simple(code: nat)

  datatype Items = Nil | Cons(first: Item, others: Items)

  function Length(contents: Items): nat {
    if contents.Nil? then 0 else 1 + Length(contents.others)
  }

  function Major(item: Item): (major: nat)
    ensures major < 8
  {
    match item
    case Integer(_, negative, _) => if negative then 1 else 0
    case Chunk(_, isText, _) => if isText then 3 else 2
    case Container(_, keyed, _) => if keyed then 5 else 4
    case Tagged(_, _, _) => 6
    case Simple(_) => 7
  }

  function WidthOf(item: Item): Width {
    if item.Simple? then Immediate else item.w
  }

  /** The number that the head of an item carries. */
  function Count(item: Item): nat {
    match item
    case Integer(_, _, n) => n
    case Chunk(_, _, bytes) => |bytes|
    case Container(_, keyed, contents) => if keyed then Length(contents) / 2 else Length(contents)
    case Tagged(_, tag, _) => tag
    case Simple(code) => code
  }

  function Head(major: nat, w: Width, n: nat): (bytes: seq<Byte>)
    requires major < 8 && Holds(w, n)
    ensures |bytes| == 1 + Size(w)
  {
    [major * 32 + Additional(w, n)] + if w.Immediate? then [] else ToBytes(n, Size(w))
  }

  /** The head holds its number, a map has a value for each key, and the item is one of those supported. */
  predicate Encodable(item: Item) {
    && Holds(WidthOf(item), Count(item))
    && (item.Container? ==> AllEncodable(item.contents) && (item.keyed ==> Length(item.contents) % 2 == 0))
    && (item.Tagged? ==> Encodable(item.item))
    && (item.Simple? ==> 20 <= item.code <= 23)
  }

  predicate AllEncodable(contents: Items) {
    contents.Nil? || (Encodable(contents.first) && AllEncodable(contents.others))
  }

  function Encode(item: Item): seq<Byte>
    requires Encodable(item)
    decreases item, 1
  {
    Head(Major(item), WidthOf(item), Count(item)) + Payload(item)
  }

  function Payload(item: Item): seq<Byte>
    requires Encodable(item)
    decreases item, 0
  {
    match item
    case Chunk(_, _, bytes) => bytes
    case Container(_, _, contents) => EncodeAll(contents)
    case Tagged(_, _, inner) => Encode(inner)
    case _ => []
  }

  function EncodeAll(contents: Items): seq<Byte>
    requires AllEncodable(contents)
  {
    if contents.Nil? then [] else Encode(contents.first) + EncodeAll(contents.others)
  }

  function Meaning(utf8: Utf8, item: Item): Value {
    match item
    case Integer(_, negative, n) => Number(if negative then -1 - n else n)
    case Chunk(_, isText, bytes) => if isText then Text(utf8(bytes)) else Bytes(bytes)
    case Container(_, keyed, contents) => Collection(keyed, Meanings(utf8, contents))
    case Tagged(_, _, inner) => Meaning(utf8, inner)
    case Simple(code) => Constant(code)
  }

  function Collection(keyed: bool, values: seq<Value>): Value {
    if keyed then Map(values) else List(values)
  }

  function Constant(code: nat): Value {
    if code == 20 then Bool(false) else if code == 21 then Bool(true) else Null
  }

  function Meanings(utf8: Utf8, contents: Items): seq<Value> {
    if contents.Nil? then [] else [Meaning(utf8, contents.first)] + Meanings(utf8, contents.others)
  }

  /** The container slots an item takes up, inner containers included. */
  function Cost(item: Item): nat {
    match item
    case Container(_, _, contents) => Length(contents) + Costs(contents)
    case Tagged(_, _, inner) => Cost(inner)
    case _ => 0
  }

  function Costs(contents: Items): nat {
    if contents.Nil? then 0 else Cost(contents.first) + Costs(contents.others)
  }

  /** After `read`, would `next` stand in the place of a key and repeat an earlier one? Objects never repeat. */
  predicate RepeatsKey(read: seq<Value>, next: Value) {
    && |read| % 2 == 0
    && (next.Number? || next.Text? || next.Bool? || next.Null?)
    && HasKey(read, next)
  }

  predicate HasKey(entries: seq<Value>, key: Value) {
    |entries| >= 2 && (entries[0] == key || HasKey(entries[2..], key))
  }

  /** Within the depth and container limits, and without repeated keys. */
  predicate Within(utf8: Utf8, item: Item, depth: nat) {
    && depth <= MAX_DEPTH
    && (item.Container? ==>
          Length(item.contents) <= MAX_CONTAINER_ITEMS && AllWithin(utf8, item.contents, depth + 1, item.keyed, []))
    && (item.Tagged? ==> Within(utf8, item.item, depth + 1))
  }

  predicate AllWithin(utf8: Utf8, contents: Items, depth: nat, keyed: bool, read: seq<Value>) {
    contents.Nil? ||
    (&& Within(utf8, contents.first, depth)
     && !(keyed && RepeatsKey(read, Meaning(utf8, contents.first)))
     && AllWithin(utf8, contents.others, depth, keyed, read + [Meaning(utf8, contents.first)]))
  }

  predicate Acceptable(utf8: Utf8, item: Item) {
    Encodable(item) && Within(utf8, item, 0) && Cost(item) <= MAX_TOTAL_ITEMS
  }

  // ---------------------------------------------------------------- the decoder, as a function

  /** A decoded value, the bytes after it, and the container slots reserved so far. */
  datatype Decoded<T> = Decoded(value: T, rest: seq<Byte>, items: nat)

  function LengthSize(additional: nat): Option<nat> {
    if additional == 24 then Some(1) else if additional == 25 then Some(2)
    else if additional == 26 then Some(4) else if additional == 27 then Some(8) else None
  }

  /** The length after an initial byte, and how many bytes it took. */
  function LengthOf(rest: seq<Byte>, additional: nat): (r: Result<(nat, nat), Error>)
    ensures r.Ok? ==> r.value.1 <= |rest|
  {
    if additional < 24 then
      Ok((additional, 0))
    else
      var size := LengthSize(additional);
      if size.None? || |rest| < size.value then
        Err(UnsupportedLength)
      else
        var n := BigEndian(rest[..size.value]);
        if n > MAX_SAFE_INTEGER then Err(IntegerTooLarge) else Ok((n, size.value))
  }

  predicate CanReserve(items: nat, count: nat) {
    count <= MAX_CONTAINER_ITEMS && items + count <= MAX_TOTAL_ITEMS
  }

  /** The container slots of an array or a map of a given length. */
  function Slots(keyed: bool, length: nat): nat {
    if keyed then length * 2 else length
  }

  /** Decode the value at the front of some bytes. */
  function DecodeValue(utf8: Utf8, bytes: seq<Byte>, items: nat, depth: nat): Result<Decoded<Value>, Error>
    decreases MAX_DEPTH + 1 - depth, 1, 0
  {
    if depth > MAX_DEPTH then Err(TooDeep)
    else if bytes == [] then Err(UnexpectedEnd)
    else if bytes[0] % 32 == 31 then Err(Indefinite)
    else
      var read := LengthOf(bytes[1..], bytes[0] % 32);
      if read.Err? then Err(read.error)
      else DecodePayload(utf8, bytes[0] / 32, bytes[0] % 32, read.value.0, bytes[1..][read.value.1..], items, depth)
  }

  /** What follows the initial byte and the length. */
  function DecodePayload(utf8: Utf8, major: nat, additional: nat, length: nat, rest: seq<Byte>, items: nat, depth: nat)
    : Result<Decoded<Value>, Error>
    requires depth <= MAX_DEPTH
    decreases MAX_DEPTH + 1 - depth, 0, 0
  {
    if major == 0 then Ok(Decoded(Number(length), rest, items))
    else if major == 1 then Ok(Decoded(Number(-1 - length), rest, items))
    else if major == 2 || major == 3 then
      if |rest| < length then Err(Truncated)
      else Ok(Decoded(if major == 2 then Bytes(rest[..length]) else Text(utf8(rest[..length])), rest[length..], items))
    else if major == 4 || major == 5 then
      var count := Slots(major == 5, length);
      if !CanReserve(items, count) then Err(TooManyItems)
      else
        var contents := DecodeAll(utf8, rest, items + count, depth + 1, count, major == 5, []);
        if contents.Err? then Err(contents.error)
        else Ok(Decoded(Collection(major == 5, contents.value.value), contents.value.rest, contents.value.items))
    else if major == 6 then DecodeValue(utf8, rest, items, depth + 1)
    else if 20 <= additional <= 23 then Ok(Decoded(Constant(additional), rest, items))
    else Err(Unsupported)
  }

  /** Decode `count` more values of a container after those in `read`. */
  function DecodeAll(utf8: Utf8, bytes: seq<Byte>, items: nat, depth: nat, count: nat, keyed: bool, read: seq<Value>)
    : Result<Decoded<seq<Value>>, Error>
    decreases MAX_DEPTH + 1 - depth, 2, count
  {
    if count == 0 then Ok(Decoded(read, bytes, items))
    else
      var next := DecodeValue(utf8, bytes, items, depth);
      if next.Err? then Err(next.error)
      else if keyed && RepeatsKey(read, next.value.value) then Err(DuplicateKey)
      else DecodeAll(utf8, next.value.rest, next.value.items, depth, count - 1, keyed, read + [next.value.value])
  }

  // ---------------------------------------------------------------- every encoding is decoded

  lemma LengthOfHead(major: nat, w: Width, n: nat, tail: seq<Byte>)
    requires major < 8 && Holds(w, n)
    ensures
      var bytes := Head(major, w, n) + tail;
      && bytes[0] / 32 == major && bytes[0] % 32 == Additional(w, n) != 31
      && LengthOf(bytes[1..], bytes[0] % 32) == Ok((n, Size(w)))
      && bytes[1..][Size(w)..] == tail
  {
    var bytes := Head(major, w, n) + tail;
    var rest := if w.Immediate? then tail else ToBytes(n, Size(w)) + tail;
    assert bytes == [major * 32 + Additional(w, n)] + rest;
    assert bytes[1..] == rest;
    if !w.Immediate? {
      CutAtSeam(ToBytes(n, Size(w)), tail);
      LengthOfWidth(w, n, rest);
    }
  }

  lemma LengthOfWidth(w: Width, n: nat, rest: seq<Byte>)
    requires !w.Immediate? && Holds(w, n) && |rest| >= Size(w) && rest[..Size(w)] == ToBytes(n, Size(w))
    ensures LengthOf(rest, Additional(w, n)) == Ok((n, Size(w)))
  {
    BigEndianOfToBytes(n, Size(w));
  }

  lemma DecodeAfterHead(utf8: Utf8, major: nat, w: Width, n: nat, bytes: seq<Byte>, rest: seq<Byte>, items: nat,
      depth: nat)
    requires major < 8 && Holds(w, n) && depth <= MAX_DEPTH && bytes == Head(major, w, n) + rest
    ensures DecodeValue(utf8, bytes, items, depth)
        == DecodePayload(utf8, major, Additional(w, n), n, rest, items, depth)
  {
    LengthOfHead(major, w, n, rest);
  }

  /** Decoding an encoding gives its meaning whatever follows it, and reserves exactly its cost. */
  lemma {:induction false} DecodeOfEncode(utf8: Utf8, item: Item, bytes: seq<Byte>, tail: seq<Byte>, items: nat,
      depth: nat)
    requires Encodable(item) && Within(utf8, item, depth) && items + Cost(item) <= MAX_TOTAL_ITEMS
    requires bytes == Encode(item) + tail
    ensures DecodeValue(utf8, bytes, items, depth) == Ok(Decoded(Meaning(utf8, item), tail, items + Cost(item)))
    decreases item, 1
  {
    var rest := Payload(item) + tail;
    Regroup(Head(Major(item), WidthOf(item), Count(item)), Payload(item), tail);
    DecodeAfterHead(utf8, Major(item), WidthOf(item), Count(item), bytes, rest, items, depth);
    DecodeOfPayload(utf8, item, rest, tail, items, depth);
  }

  lemma {:induction false} DecodeOfPayload(utf8: Utf8, item: Item, rest: seq<Byte>, tail: seq<Byte>, items: nat,
      depth: nat)
    requires Encodable(item) && Within(utf8, item, depth) && items + Cost(item) <= MAX_TOTAL_ITEMS
    requires rest == Payload(item) + tail
    ensures DecodePayload(utf8, Major(item), Additional(WidthOf(item), Count(item)), Count(item), rest, items, depth)
            == Ok(Decoded(Meaning(utf8, item), tail, items + Cost(item)))
    decreases item, 0
  {
    match item {
      case Container(w, keyed, contents) =>
        DecodeOfContainer(utf8, keyed, contents, Additional(w, Count(item)), Count(item), rest, items, depth,
                          Decoded(Meanings(utf8, contents), tail, items + Cost(item)));
      case Tagged(_, _, _) =>
        DecodeOfTagged(utf8, item, rest, tail, items, depth);
      case _ =>
        DecodeOfFlat(utf8, item, rest, tail, items, depth);
    }
  }

  lemma DecodeOfFlat(utf8: Utf8, item: Item, rest: seq<Byte>, tail: seq<Byte>, items: nat, depth: nat)
    requires Encodable(item) && depth <= MAX_DEPTH && !item.Container? && !item.Tagged?
    requires rest == Payload(item) + tail
    ensures DecodePayload(utf8, Major(item), Additional(WidthOf(item), Count(item)), Count(item), rest, items, depth)
            == Ok(Decoded(Meaning(utf8, item), tail, items))
  {
    if item.Chunk? {
      CutAtSeam(item.bytes, tail);
    } else {
      EmptyIsUnit(tail);
    }
  }

  lemma {:induction false} DecodeOfTagged(utf8: Utf8, item: Item, rest: seq<Byte>, tail: seq<Byte>, items: nat,
      depth: nat)
    requires Encodable(item) && Within(utf8, item, depth) && item.Tagged? && items + Cost(item) <= MAX_TOTAL_ITEMS
    requires rest == Payload(item) + tail
    ensures DecodePayload(utf8, Major(item), Additional(WidthOf(item), Count(item)), Count(item), rest, items, depth)
            == Ok(Decoded(Meaning(utf8, item), tail, items + Cost(item)))
    decreases item.item, 2
  {
    DecodeOfEncode(utf8, item.item, rest, tail, items, depth + 1);
    TagIsPassedOver(utf8, Additional(WidthOf(item), Count(item)), Count(item), rest, items, depth);
  }

  lemma TagIsPassedOver(utf8: Utf8, additional: nat, tag: nat, rest: seq<Byte>, items: nat, depth: nat)
    requires depth <= MAX_DEPTH
    ensures DecodePayload(utf8, 6, additional, tag, rest, items, depth) == DecodeValue(utf8, rest, items, depth + 1)
  {
  }

  lemma ContainerOfContents(utf8: Utf8, keyed: bool, additional: nat, length: nat, rest: seq<Byte>, items: nat,
      depth: nat, all: Decoded<seq<Value>>)
    requires depth <= MAX_DEPTH && CanReserve(items, Slots(keyed, length))
    requires DecodeAll(utf8, rest, items + Slots(keyed, length), depth + 1, Slots(keyed, length), keyed, []) == Ok(all)
    ensures DecodePayload(utf8, if keyed then 5 else 4, additional, length, rest, items, depth)
            == Ok(Decoded(Collection(keyed, all.value), all.rest, all.items))
  {
  }

  lemma {:induction false} DecodeOfContainer(utf8: Utf8, keyed: bool, contents: Items, additional: nat, length: nat,
      rest: seq<Byte>, items: nat, depth: nat, all: Decoded<seq<Value>>)
    requires depth <= MAX_DEPTH && AllEncodable(contents) && AllWithin(utf8, contents, depth + 1, keyed, [])
    requires Length(contents) == Slots(keyed, length) <= MAX_CONTAINER_ITEMS
    requires rest == EncodeAll(contents) + all.rest && all.value == Meanings(utf8, contents)
    requires all.items == items + Slots(keyed, length) + Costs(contents) <= MAX_TOTAL_ITEMS
    ensures DecodePayload(utf8, if keyed then 5 else 4, additional, length, rest, items, depth)
            == Ok(Decoded(Collection(keyed, all.value), all.rest, all.items))
    decreases contents, 1
  {
    EmptyIsUnit(all.value);
    DecodeOfEncodeAll(utf8, contents, rest, items + Slots(keyed, length), depth + 1, keyed, [], all);
    ContainerOfContents(utf8, keyed, additional, length, rest, items, depth, all);
  }

  lemma {:induction false} DecodeOfEncodeAll(utf8: Utf8, contents: Items, bytes: seq<Byte>, items: nat, depth: nat,
      keyed: bool, read: seq<Value>, all: Decoded<seq<Value>>)
    requires AllEncodable(contents) && AllWithin(utf8, contents, depth, keyed, read)
    requires bytes == EncodeAll(contents) + all.rest && all.value == read + Meanings(utf8, contents)
    requires all.items == items + Costs(contents) <= MAX_TOTAL_ITEMS
    ensures DecodeAll(utf8, bytes, items, depth, Length(contents), keyed, read) == Ok(all)
    decreases contents, 0
  {
    if contents.Nil? {
      EmptyIsUnit(all.rest);
      EmptyIsUnit(read);
    } else {
      var next := Decoded(Meaning(utf8, contents.first), EncodeAll(contents.others) + all.rest,
        items + Cost(contents.first));
      Regroup(Encode(contents.first), EncodeAll(contents.others), all.rest);
      Regroup(read, [next.value], Meanings(utf8, contents.others));
      DecodeOfFront(utf8, contents, bytes, items, depth, keyed, read, next);
      DecodeOfEncodeAll(utf8, contents.others, next.rest, next.items, depth, keyed, read + [next.value], all);
    }
  }

  lemma {:induction false} DecodeOfFront(utf8: Utf8, contents: Items, bytes: seq<Byte>, items: nat, depth: nat,
      keyed: bool, read: seq<Value>, next: Decoded<Value>)
    requires AllEncodable(contents) && AllWithin(utf8, contents, depth, keyed, read) && contents.Cons?
    requires bytes == Encode(contents.first) + next.rest && next.value == Meaning(utf8, contents.first)
    requires next.items == items + Cost(contents.first) <= MAX_TOTAL_ITEMS
    ensures DecodeAll(utf8, bytes, items, depth, Length(contents), keyed, read)
            == DecodeAll(utf8, next.rest, next.items, depth, Length(contents.others), keyed, read + [next.value])
    decreases contents.first, 3
  {
    DecodeOfFirst(utf8, contents.first, bytes, items, depth, Length(contents), keyed, read, next);
  }

  lemma {:induction false} DecodeOfFirst(utf8: Utf8, first: Item, bytes: seq<Byte>, items: nat, depth: nat, count: nat,
      keyed: bool, read: seq<Value>, next: Decoded<Value>)
    requires Encodable(first) && Within(utf8, first, depth) && !(keyed && RepeatsKey(read, next.value)) && count > 0
    requires bytes == Encode(first) + next.rest && next.value == Meaning(utf8, first)
    requires next.items == items + Cost(first) <= MAX_TOTAL_ITEMS
    ensures DecodeAll(utf8, bytes, items, depth, count, keyed, read)
            == DecodeAll(utf8, next.rest, next.items, depth, count - 1, keyed, read + [next.value])
    decreases first, 2
  {
    DecodeOfEncode(utf8, first, bytes, next.rest, items, depth);
  }

  // ---------------------------------------------------------------- nothing else is decoded

  function WidthFor(additional: nat): Width {
    if additional < 24 then Immediate else if additional == 24 then One
    else if additional == 25 then Two else if additional == 26 then Four else Eight
  }

  lemma LengthIsHeld(rest: seq<Byte>, additional: nat)
    requires LengthOf(rest, additional).Ok?
    ensures
      var (n, size) := LengthOf(rest, additional).value;
      var w := WidthFor(additional);
      && Holds(w, n) && Additional(w, n) == additional && Size(w) == size
      && (additional >= 24 ==> rest[..size] == ToBytes(n, size))
  {
    if additional >= 24 {
      ToBytesOfBigEndian(rest[..LengthSize(additional).value]);
    }
  }

  lemma HeadOfLength(bytes: seq<Byte>)
    requires bytes != [] && LengthOf(bytes[1..], bytes[0] % 32).Ok?
    ensures
      var (n, size) := LengthOf(bytes[1..], bytes[0] % 32).value;
      var w := WidthFor(bytes[0] % 32);
      && Holds(w, n) && Additional(w, n) == bytes[0] % 32
      && bytes == Head(bytes[0] / 32, w, n) + bytes[1..][size..]
  {
    var size := LengthOf(bytes[1..], bytes[0] % 32).value.1;
    LengthIsHeld(bytes[1..], bytes[0] % 32);
    assert bytes == [bytes[0]] + bytes[1..][..size] + bytes[1..][size..];
  }

  /** `item` accounts for the bytes the decoder took, the value it returned and the slots it reserved. */
  predicate Explains(utf8: Utf8, item: Item, bytes: seq<Byte>, items: nat, depth: nat, d: Decoded<Value>) {
    && Encodable(item) && Within(utf8, item, depth)
    && bytes == Encode(item) + d.rest && d.value == Meaning(utf8, item)
    && d.items == items + Cost(item) <= MAX_TOTAL_ITEMS
  }

  /** Whatever was decoded is the encoding of an item within the limits, followed by the bytes left over. */
  lemma {:induction false} EncodeOfDecode(utf8: Utf8, bytes: seq<Byte>, items: nat, depth: nat) returns (item: Item)
    requires DecodeValue(utf8, bytes, items, depth).Ok? && items <= MAX_TOTAL_ITEMS
    ensures Explains(utf8, item, bytes, items, depth, DecodeValue(utf8, bytes, items, depth).value)
    decreases MAX_DEPTH + 1 - depth, 1, 0
  {
    var length := LengthOf(bytes[1..], bytes[0] % 32).value;
    var rest := bytes[1..][length.1..];
    var w := WidthFor(bytes[0] % 32);
    HeadOfLength(bytes);
    item := EncodeOfPayload(utf8, bytes[0] / 32, w, length.0, rest, items, depth);
    Regroup(Head(Major(item), WidthOf(item), Count(item)), Payload(item),
      DecodeValue(utf8, bytes, items, depth).value.rest);
  }

  /** `item` has that head and accounts for what the decoder made of the bytes after it. */
  predicate ExplainsPayload(utf8: Utf8, item: Item, major: nat, w: Width, n: nat, rest: seq<Byte>, items: nat,
      depth: nat, d: Decoded<Value>)
  {
    && Encodable(item) && Within(utf8, item, depth)
    && Major(item) == major && WidthOf(item) == w && Count(item) == n
    && rest == Payload(item) + d.rest && d.value == Meaning(utf8, item)
    && d.items == items + Cost(item) <= MAX_TOTAL_ITEMS
  }

  lemma {:induction false} EncodeOfPayload(utf8: Utf8, major: nat, w: Width, n: nat, rest: seq<Byte>, items: nat,
      depth: nat)
    returns (item: Item)
    requires major < 8 && Holds(w, n) && depth <= MAX_DEPTH && items <= MAX_TOTAL_ITEMS
    requires DecodePayload(utf8, major, Additional(w, n), n, rest, items, depth).Ok?
    ensures ExplainsPayload(utf8, item, major, w, n, rest, items, depth,
        DecodePayload(utf8, major, Additional(w, n), n, rest, items, depth).value)
    decreases MAX_DEPTH + 1 - depth, 0, 1
  {
    if major == 4 || major == 5 {
      item := EncodeOfContainer(utf8, major, w, n, rest, items, depth);
    } else if major == 6 {
      var inner := EncodeOfDecode(utf8, rest, items, depth + 1);
      item := Tagged(w, n, inner);
    } else {
      item := EncodeOfFlat(utf8, major, w, n, rest, items, depth);
    }
  }

  lemma EncodeOfFlat(utf8: Utf8, major: nat, w: Width, n: nat, rest: seq<Byte>, items: nat, depth: nat)
    returns (item: Item)
    requires major < 4 || major == 7
    requires Holds(w, n) && depth <= MAX_DEPTH && items <= MAX_TOTAL_ITEMS
    requires DecodePayload(utf8, major, Additional(w, n), n, rest, items, depth).Ok?
    ensures ExplainsPayload(utf8, item, major, w, n, rest, items, depth,
        DecodePayload(utf8, major, Additional(w, n), n, rest, items, depth).value)
  {
    if major == 2 || major == 3 {
      item := Chunk(w, major == 3, rest[..n]);
    } else {
      EmptyIsUnit(rest);
      item := if major == 7 then Simple(n) else Integer(w, major == 1, n);
    }
  }

  lemma ContainerIsExplained(utf8: Utf8, keyed: bool, w: Width, n: nat, contents: Items, rest: seq<Byte>, items: nat,
      depth: nat, all: Decoded<seq<Value>>)
    requires Holds(w, n) && depth <= MAX_DEPTH && CanReserve(items, Slots(keyed, n))
    requires AllEncodable(contents) && AllWithin(utf8, contents, depth + 1, keyed, [])
        && Length(contents) == Slots(keyed, n)
    requires rest == EncodeAll(contents) + all.rest && all.value == Meanings(utf8, contents)
    requires all.items == items + Slots(keyed, n) + Costs(contents) <= MAX_TOTAL_ITEMS
    ensures ExplainsPayload(utf8, Container(w, keyed, contents), if keyed then 5 else 4, w, n, rest, items, depth,
                            Decoded(Collection(keyed, all.value), all.rest, all.items))
  {
  }

  lemma {:induction false} EncodeOfContainer(utf8: Utf8, major: nat, w: Width, n: nat, rest: seq<Byte>, items: nat,
      depth: nat)
    returns (item: Item)
    requires 4 <= major <= 5 && Holds(w, n) && depth <= MAX_DEPTH && items <= MAX_TOTAL_ITEMS
    requires DecodePayload(utf8, major, Additional(w, n), n, rest, items, depth).Ok?
    ensures ExplainsPayload(utf8, item, major, w, n, rest, items, depth,
        DecodePayload(utf8, major, Additional(w, n), n, rest, items, depth).value)
    decreases MAX_DEPTH + 1 - depth, 0, 0
  {
    var keyed := major == 5;
    var count := Slots(keyed, n);
    var all := DecodeAll(utf8, rest, items + count, depth + 1, count, keyed, []).value;
    var contents := EncodeAllOfDecode(utf8, rest, items + count, depth + 1, count, keyed, []);
    EmptyIsUnit(Meanings(utf8, contents));
    ContainerIsExplained(utf8, keyed, w, n, contents, rest, items, depth, all);
    item := Container(w, keyed, contents);
  }

  lemma {:induction false} EncodeAllOfDecode(utf8: Utf8, bytes: seq<Byte>, items: nat, depth: nat, count: nat,
      keyed: bool, read: seq<Value>)
    returns (contents: Items)
    requires DecodeAll(utf8, bytes, items, depth, count, keyed, read).Ok? && items <= MAX_TOTAL_ITEMS
    ensures
      var d := DecodeAll(utf8, bytes, items, depth, count, keyed, read).value;
      && AllEncodable(contents) && AllWithin(utf8, contents, depth, keyed, read) && Length(contents) == count
      && bytes == EncodeAll(contents) + d.rest && d.value == read + Meanings(utf8, contents)
      && d.items == items + Costs(contents) <= MAX_TOTAL_ITEMS
    decreases MAX_DEPTH + 1 - depth, 2, count
  {
    if count == 0 {
      contents := Nil;
      EmptyIsUnit(bytes);
      EmptyIsUnit(read);
    } else {
      var next := DecodeValue(utf8, bytes, items, depth).value;
      var first := EncodeOfDecode(utf8, bytes, items, depth);
      var others := EncodeAllOfDecode(utf8, next.rest, next.items, depth, count - 1, keyed, read + [next.value]);
      contents := Cons(first, others);
      Regroup(Encode(first), EncodeAll(others), DecodeAll(utf8, bytes, items, depth, count, keyed, read).value.rest);
      Regroup(read, [next.value], Meanings(utf8, others));
    }
  }

  // ---------------------------------------------------------------- the two entry points

  function PrefixOf(utf8: Utf8, input: seq<Byte>): Result<(Value, int), Error> {
    if |input| > MAX_BINARY_BYTES then Err(TooLarge)
    else
      var decoded := DecodeValue(utf8, input, 0, 0);
      if decoded.Err? then Err(decoded.error) else Ok((decoded.value.value, |input| - |decoded.value.rest|))
  }

  function Whole(utf8: Utf8, input: seq<Byte>): Result<Value, Error> {
    var prefix := PrefixOf(utf8, input);
    if prefix.Err? then Err(prefix.error)
    else if prefix.value.1 != |input| then Err(TrailingBytes)
    else Ok(prefix.value.0)
  }

  ghost predicate IsEncodingOf(utf8: Utf8, input: seq<Byte>, value: Value, item: Item) {
    Acceptable(utf8, item) && Encode(item) == input && Meaning(utf8, item) == value
  }

  lemma PrefixIsEncoding(utf8: Utf8, input: seq<Byte>) returns (item: Item)
    requires PrefixOf(utf8, input).Ok?
    ensures
      var (value, bytesRead) := PrefixOf(utf8, input).value;
      0 < bytesRead <= |input| && IsEncodingOf(utf8, input[..bytesRead], value, item)
  {
    item := EncodeOfDecode(utf8, input, 0, 0);
    CutAtSeam(Encode(item), DecodeValue(utf8, input, 0, 0).value.rest);
  }

  lemma EncodingIsPrefix(utf8: Utf8, input: seq<Byte>, bytesRead: nat, item: Item)
    requires bytesRead <= |input| <= MAX_BINARY_BYTES && Acceptable(utf8, item) && Encode(item) == input[..bytesRead]
    ensures PrefixOf(utf8, input) == Ok((Meaning(utf8, item), bytesRead))
  {
    assert input == Encode(item) + input[bytesRead..];
    DecodeOfEncode(utf8, item, input, input[bytesRead..], 0, 0);
  }

  /** A prefix is decoded exactly if it encodes an acceptable item, and then to what that item means. */
  lemma PrefixIffEncoding(utf8: Utf8, input: seq<Byte>, value: Value, bytesRead: int)
    requires |input| <= MAX_BINARY_BYTES
    ensures PrefixOf(utf8, input) == Ok((value, bytesRead))
            <==> 0 <= bytesRead <= |input| && exists item :: IsEncodingOf(utf8, input[..bytesRead], value, item)
  {
    if PrefixOf(utf8, input) == Ok((value, bytesRead)) {
      var item := PrefixIsEncoding(utf8, input);
    }
    if 0 <= bytesRead <= |input| && exists item :: IsEncodingOf(utf8, input[..bytesRead], value, item) {
      var item :| IsEncodingOf(utf8, input[..bytesRead], value, item);
      EncodingIsPrefix(utf8, input, bytesRead, item);
    }
  }

  lemma WholeIffEncoding(utf8: Utf8, input: seq<Byte>, value: Value)
    requires |input| <= MAX_BINARY_BYTES
    ensures Whole(utf8, input) == Ok(value) <==> exists item :: IsEncodingOf(utf8, input, value, item)
  {
    PrefixIffEncoding(utf8, input, value, |input|);
    assert input[..|input|] == input;
  }

  /** Bytes after an item change neither the value nor the number of bytes read. */
  lemma AppendingChangesNothing(utf8: Utf8, input: seq<Byte>, more: seq<Byte>)
    requires PrefixOf(utf8, input).Ok? && |input + more| <= MAX_BINARY_BYTES
    ensures PrefixOf(utf8, input + more) == PrefixOf(utf8, input)
  {
    var item := PrefixIsEncoding(utf8, input);
    var bytesRead := PrefixOf(utf8, input).value.1;
    assert (input + more)[..bytesRead] == input[..bytesRead];
    EncodingIsPrefix(utf8, input + more, bytesRead, item);
  }

  // ---------------------------------------------------------------- the decoder, as it runs

  /** The decoder's place in its input. */
  class State {
    const buffer: seq<Byte>
    var offset: nat
    var items: nat

    ghost predicate Valid()
      reads this
    {
      offset <= |buffer| && items <= MAX_TOTAL_ITEMS
    }

    function Rest(): seq<Byte>
      reads this
      requires Valid()
    {
      buffer[offset..]
    }

    constructor (buffer: seq<Byte>)
      ensures Valid() && this.buffer == buffer && offset == 0 && items == 0
    {
      this.buffer := buffer;
      offset, items := 0, 0;
    }

    method ReadLength(additional: nat) returns (r: Result<nat, Error>)
      requires Valid()
      modifies this`offset
      ensures Valid()
      ensures
        var length := LengthOf(old(Rest()), additional);
        if length.Err? then r == Err(length.error)
        else r == Ok(length.value.0) && Rest() == old(Rest())[length.value.1..]
    {
      if additional < 24 {
        return Ok(additional);
      }
      var size := LengthSize(additional);
      if size.None? || offset + size.value > |buffer| {
        return Err(UnsupportedLength);
      }
      var value, index := 0, 0;
      while index < size.value
        invariant 0 <= index <= size.value && offset == old(offset) + index <= |buffer|
        invariant value == BigEndian(old(Rest())[..index])
      {
        assert old(Rest())[..index + 1][..index] == old(Rest())[..index];
        value := value * 256 + buffer[offset];
        offset, index := offset + 1, index + 1;
      }
      if value > MAX_SAFE_INTEGER {
        return Err(IntegerTooLarge);
      }
      return Ok(value);
    }

    method ReserveCborItems(count: nat) returns (reserved: bool)
      requires Valid()
      modifies this`items
      ensures Valid() && reserved == CanReserve(old(items), count)
      ensures items == if reserved then old(items) + count else old(items)
    {
      if count > MAX_CONTAINER_ITEMS || items + count > MAX_TOTAL_ITEMS {
        return false;
      }
      items := items + count;
      return true;
    }

    /** Having started with `rest` and come to this state with `r` is what the specification says. */
    ghost predicate Agrees(r: Result<Value, Error>, spec: Result<Decoded<Value>, Error>)
      requires Valid()
      reads this
    {
      if spec.Err? then r == Err(spec.error)
      else r == Ok(spec.value.value) && Rest() == spec.value.rest && items == spec.value.items
    }

    method DecodeCborValue(utf8: Utf8, depth: nat) returns (r: Result<Value, Error>)
      requires Valid()
      modifies this
      ensures Valid() && Agrees(r, DecodeValue(utf8, old(Rest()), old(items), depth))
      decreases MAX_DEPTH + 1 - depth, 1
    {
      if depth > MAX_DEPTH {
        return Err(TooDeep);
      }
      if offset >= |buffer| {
        return Err(UnexpectedEnd);
      }
      var initial := buffer[offset];
      offset := offset + 1;
      var major, additional := initial / 32, initial % 32;
      if additional == 31 {
        return Err(Indefinite);
      }
      var read := ReadLength(additional);
      if read.Err? {
        return Err(read.error);
      }
      r := DecodeContent(utf8, major, additional, read.value, depth);
    }

    /** The branches on the major type, once the length has been read. */
    method DecodeContent(utf8: Utf8, major: nat, additional: nat, length: nat, depth: nat)
      returns (r: Result<Value, Error>)
      requires Valid() && depth <= MAX_DEPTH
      modifies this
      ensures Valid() && Agrees(r, DecodePayload(utf8, major, additional, length, old(Rest()), old(items), depth))
      decreases MAX_DEPTH + 1 - depth, 0
    {
      if major == 0 {
        return Ok(Number(length));
      }
      if major == 1 {
        return Ok(Number(-1 - length as int));
      }
      if major == 2 || major == 3 {
        if offset + length > |buffer| {
          return Err(Truncated);
        }
        var value := buffer[offset..offset + length];
        offset := offset + length;
        assert old(Rest())[..length] == value && old(Rest())[length..] == Rest();
        return Ok(if major == 2 then Bytes(value) else Text(utf8(value)));
      }
      if major == 4 || major == 5 {
        var count := Slots(major == 5, length);
        var reserved := ReserveCborItems(count);
        if !reserved {
          return Err(TooManyItems);
        }
        var contents := DecodeContents(utf8, depth + 1, count, major == 5);
        return if contents.Err? then Err(contents.error) else Ok(Collection(major == 5, contents.value));
      }
      if major == 6 {
        r := DecodeCborValue(utf8, depth + 1);
        return;
      }
      if 20 <= additional <= 23 {
        return Ok(Constant(additional));
      }
      return Err(Unsupported);
    }

    /** The loops over the elements of an array and over the entries of a map. */
    method DecodeContents(utf8: Utf8, depth: nat, count: nat, keyed: bool) returns (r: Result<seq<Value>, Error>)
      requires Valid()
      modifies this
      ensures Valid()
      ensures
        var spec := DecodeAll(utf8, old(Rest()), old(items), depth, count, keyed, []);
        if spec.Err? then r == Err(spec.error)
        else r == Ok(spec.value.value) && Rest() == spec.value.rest && items == spec.value.items
      decreases MAX_DEPTH + 1 - depth, 2
    {
      var values: seq<Value> := [];
      ghost var spec := DecodeAll(utf8, Rest(), items, depth, count, keyed, []);
      while |values| < count
        invariant Valid() && |values| <= count
        invariant spec == DecodeAll(utf8, Rest(), items, depth, count - |values|, keyed, values)
        decreases count - |values|
      {
        var next := DecodeCborValue(utf8, depth);
        if next.Err? {
          return Err(next.error);
        }
        if keyed && RepeatsKey(values, next.value) {
          return Err(DuplicateKey);
        }
        values := values + [next.value];
      }
      return Ok(values);
    }
  }

  method DecodeCborPrefix(utf8: Utf8, input: seq<Byte>) returns (r: Result<(Value, int), Error>)
    ensures r == PrefixOf(utf8, input)
  {
    if |input| > MAX_BINARY_BYTES {
      return Err(TooLarge);
    }
    var state := new State(input);
    var value := state.DecodeCborValue(utf8, 0);
    assert input[0..] == input;
    return if value.Err? then Err(value.error) else Ok((value.value, state.offset));
  }

  method DecodeCbor(utf8: Utf8, input: seq<Byte>) returns (r: Result<Value, Error>)
    ensures r == Whole(utf8, input)
  {
    var decoded := DecodeCborPrefix(utf8, input);
    if decoded.Err? {
      return Err(decoded.error);
    }
    if decoded.value.1 != |input| {
      return Err(TrailingBytes);
    }
    return Ok(decoded.value.0);
  }
}
