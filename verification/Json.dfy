/**
 The canonical text of a plugin manifest. It is compared with an independent reading of a JSON
 value, in which an object is a map: two values have the same canonical text exactly if they read
 the same.
 */
module Json {
  import opened Sequences
  import opened Unicode

  const NUL: Unit := 0
  const COMMA: Unit := 44
  const OPEN_BRACKET: Unit := 91
  const CLOSE_BRACKET: Unit := 93
  const LETTER_U: Unit := 117
  const OPEN_BRACE: Unit := 123
  const CLOSE_BRACE: Unit := 125
  const NULL_TEXT: Text := [110, 117, 108, 108]
  const TRUE_TEXT: Text := [116, 114, 117, 101]
  const FALSE_TEXT: Text := [102, 97, 108, 115, 101]

  /** What parsing JSON text can give. A number is known by the text JavaScript writes it as. */
  datatype Value =
    | Null
    | Bool(b: bool)
    | Number(numeral: Text)
    | Infinite(negative: bool) // a numeral beyond the largest double
    | String(text: Text)
    | Array(elements: Elements)
    | Object(fields: Fields)

  datatype Elements = NoElements | Element(value: Value, others: Elements)

  datatype Fields = NoFields | Field(key: Text, value: Value, others: Fields)

  predicate HasKey(fs: Fields, key: Text) {
    fs.Field? && (fs.key == key || HasKey(fs.others, key))
  }

  /** The characters of the numbers that JavaScript writes: digits, sign, point and exponent. */
  predicate NumeralUnit(u: Unit) {
    48 <= u <= 57 || u == 43 || u == 45 || u == 46 || u == 101
  }

  /** A digit or a minus sign in front, and nothing but the characters of numbers. */
  predicate Numeral(x: Text) {
    x != [] && (48 <= x[0] <= 57 || x[0] == 45) && forall u | u in x :: NumeralUnit(u)
  }

  /** Numbers are written as numbers, and no object repeats a key. */
  predicate Proper(v: Value) {
    match v
    case Number(numeral) => Numeral(numeral)
    case Array(elements) => ProperElements(elements)
    case Object(fields) => ProperFields(fields)
    case _ => true
  }

  predicate ProperElements(es: Elements) {
    es.Element? ==> Proper(es.value) && ProperElements(es.others)
  }

  predicate ProperFields(fs: Fields) {
    fs.Field? ==> Proper(fs.value) && ProperFields(fs.others) && !HasKey(fs.others, fs.key)
  }

  // ---------------------------------------------------------------- strings

  function HexDigit(d: nat): (u: Unit)
    requires d < 16
  {
    if d < 10 then 48 + d else 87 + d
  }

  function Escape(u: Unit): Text {
    [BACKSLASH, LETTER_U, HexDigit(u / 4096), HexDigit(u / 256 % 16), HexDigit(u / 16 % 16), HexDigit(u % 16)]
  }

  /** The letter after the backslash in the escapes that have one, and 0 otherwise. */
  function ShortEscape(u: Unit): (letter: Unit)
    ensures letter != LETTER_U
  {
    if u == QUOTE || u == BACKSLASH then u
    else if u == 8 then 98 else if u == 9 then 116 else if u == 10 then 110
    else if u == 12 then 102 else if u == 13 then 114 else 0
  }

  /** One unit that is not half of a pair, as section 7 of RFC 8259 allows it. */
  function Written(u: Unit): (text: Text)
    ensures text != []
  {
    if ShortEscape(u) != 0 then [BACKSLASH, ShortEscape(u)]
    else if u < 32 || High(u) || Low(u) then Escape(u)
    else [u]
  }

  function Escaped(x: Text): Text {
    if x == [] then []
    else if StartsWithPair(x) then x[..2] + Escaped(x[2..])
    else Written(x[0]) + Escaped(x[1..])
  }

  function Quote(x: Text): Text {
    [QUOTE] + Escaped(x) + [QUOTE]
  }

  function DigitOf(u: Unit): int {
    if u < 58 then u - 48 else u - 87
  }

  function LongUnit(a: int, b: int, c: int, d: int): int {
    a * 4096 + b * 256 + c * 16 + d
  }

  /** The unit at the front of a quoted text, and what follows it. */
  function ReadUnit(s: Text): (int, Text)
    requires s != []
  {
    if s[0] != BACKSLASH then (s[0], s[1..])
    else if |s| >= 6 && s[1] == LETTER_U then
      (LongUnit(DigitOf(s[2]), DigitOf(s[3]), DigitOf(s[4]), DigitOf(s[5])), s[6..])
    else if |s| >= 2 then (ShortUnit(s[1]), s[2..])
    else (0, [])
  }

  function ShortUnit(letter: Unit): Unit {
    if letter == 98 then 8 else if letter == 116 then 9 else if letter == 110 then 10
    else if letter == 102 then 12 else if letter == 114 then 13 else letter
  }

  lemma HexDigits(u: Unit)
    ensures LongUnit(u / 4096, u / 256 % 16, u / 16 % 16, u % 16) == u
  {
    assert u / 16 == u / 256 * 16 + u / 16 % 16;
    assert u / 256 == u / 4096 * 16 + u / 256 % 16;
  }

  lemma ReadWritten(u: Unit, s: Text)
    ensures ReadUnit(Written(u) + s) == (u as int, s) && (Written(u) + s)[0] != QUOTE
  {
    var all := Written(u) + s;
    if ShortEscape(u) != 0 {
      assert all[2..] == s;
    } else if u < 32 || High(u) || Low(u) {
      HexDigits(u);
      assert all[6..] == s;
    } else {
      assert all[1..] == s;
    }
  }

  /** Read up to the closing quotation mark: the text, and what follows the mark. */
  function Unquoted(s: Text): (seq<int>, Text)
    decreases |s|
  {
    if s == [] then ([], [])
    else if s[0] == QUOTE then ([], s[1..])
    else
      var (u, rest) := ReadUnit(s);
      var (x, after) := Unquoted(rest);
      ([u] + x, after)
  }

  lemma UnquoteUnit(u: Unit, all: Text, rest: Text, x: Text, y: Text, s: Text)
    requires all == Written(u) + rest && Unquoted(rest) == (x, s) && y == [u] + x
    ensures Unquoted(all) == (y, s)
  {
    ReadWritten(u, rest);
  }

  lemma UnquotePair(high: Unit, low: Unit, all: Text, rest: Text, x: Text, y: Text, s: Text)
    requires High(high) && Low(low)
    requires all == [high, low] + rest && Unquoted(rest) == (x, s) && y == [high, low] + x
    ensures Unquoted(all) == (y, s)
  {
    assert all[1..] == [low] + rest && ([low] + rest)[1..] == rest;
    assert Unquoted(all[1..]) == ([low] + x, s);
    assert [high] + ([low] + x) == y;
  }

  /** Reading a quoted text gives the text back, whatever follows it. */
  lemma {:induction false} UnquoteOfEscaped(x: Text, end: Text)
    requires end != [] && end[0] == QUOTE
    ensures Unquoted(Escaped(x) + end) == (x, end[1..])
  {
    if x == [] {
      assert Escaped(x) + end == end;
    } else if StartsWithPair(x) {
      UnquoteOfEscaped(x[2..], end);
      assert Escaped(x) == x[..2] + Escaped(x[2..]);
      assert x[..2] == [x[0], x[1]] && x == x[..2] + x[2..];
      Regroup(x[..2], Escaped(x[2..]), end);
      UnquotePair(x[0], x[1], Escaped(x) + end, Escaped(x[2..]) + end, x[2..], x, end[1..]);
    } else {
      UnquoteOfEscaped(x[1..], end);
      assert Escaped(x) == Written(x[0]) + Escaped(x[1..]);
      Regroup(Written(x[0]), Escaped(x[1..]), end);
      UnquoteUnit(x[0], Escaped(x) + end, Escaped(x[1..]) + end, x[1..], x, end[1..]);
    }
  }

  lemma UnquoteOfQuote(x: Text, s: Text)
    ensures Unquoted((Quote(x) + s)[1..]) == (x, s)
  {
    UnquoteOfEscaped(x, [QUOTE] + s);
    assert (Quote(x) + s)[1..] == Escaped(x) + ([QUOTE] + s);
  }

  lemma QuoteUnique(x: Text, y: Text, s: Text, t: Text)
    requires Quote(x) + s == Quote(y) + t
    ensures x == y && s == t
  {
    UnquoteOfQuote(x, s);
    UnquoteOfQuote(y, t);
  }

  // ---------------------------------------------------------------- the text of a value

  /** The text of a value, its keys in the order they stand in. */
  function Print(v: Value): Text {
    match v
    case Null => NULL_TEXT
    case Infinite(_) => NULL_TEXT
    case Bool(b) => if b then TRUE_TEXT else FALSE_TEXT
    case Number(numeral) => numeral
    case String(x) => Quote(x)
    case Array(es) => [OPEN_BRACKET] + PrintElements(es)
    case Object(fs) => [OPEN_BRACE] + PrintFields(fs)
  }

  function PrintElements(es: Elements): Text
    decreases es, 0
  {
    if es.Element? then Print(es.value) + MoreElements(es.others) else [CLOSE_BRACKET]
  }

  function MoreElements(es: Elements): Text
    decreases es, 1
  {
    if es.Element? then [COMMA] + PrintElements(es) else [CLOSE_BRACKET]
  }

  function PrintFields(fs: Fields): Text
    decreases fs, 0
  {
    if fs.Field? then Quote(fs.key) + ([COLON] + (Print(fs.value) + MoreFields(fs.others))) else [CLOSE_BRACE]
  }

  function MoreFields(fs: Fields): Text
    decreases fs, 1
  {
    if fs.Field? then [COMMA] + PrintFields(fs) else [CLOSE_BRACE]
  }

  // ---------------------------------------------------------------- keys in order

  function Insert(key: Text, value: Value, fs: Fields): Fields {
    if fs.NoFields? || Before(key, fs.key) then Field(key, value, fs)
    else Field(fs.key, fs.value, Insert(key, value, fs.others))
  }

  /** The value with the keys of every object in order. */
  function Sorted(v: Value): Value {
    match v
    case Array(es) => Array(SortedElements(es))
    case Object(fs) => Object(SortedFields(fs))
    case _ => v
  }

  function SortedElements(es: Elements): Elements {
    if es.Element? then Element(Sorted(es.value), SortedElements(es.others)) else NoElements
  }

  function SortedFields(fs: Fields): Fields {
    if fs.Field? then Insert(fs.key, Sorted(fs.value), SortedFields(fs.others)) else NoFields
  }

  function Canonical(v: Value): Text {
    Print(Sorted(v))
  }

  // ---------------------------------------------------------------- what a value says

  /** A value as its reader sees it: an object is a map, and a number is finite. */
  datatype Reading =
    | Nothing
    | Truth(b: bool)
    | Numeric(numeral: Text)
    | Words(text: Text)
    | Sequence(elements: Readings)
    | Record(fields: map<Text, Reading>)

  datatype Readings = End | More(first: Reading, others: Readings)

  function Read(v: Value): Reading {
    match v
    case Null => Nothing
    case Infinite(_) => Nothing
    case Bool(b) => Truth(b)
    case Number(numeral) => Numeric(numeral)
    case String(x) => Words(x)
    case Array(es) => Sequence(ReadElements(es))
    case Object(fs) => Record(ReadFields(fs))
  }

  function ReadElements(es: Elements): Readings {
    if es.Element? then More(Read(es.value), ReadElements(es.others)) else End
  }

  function ReadFields(fs: Fields): (m: map<Text, Reading>)
    ensures forall k :: k in m <==> HasKey(fs, k)
  {
    if fs.Field? then ReadFields(fs.others)[fs.key := Read(fs.value)] else map[]
  }

  // ---------------------------------------------------------------- sorting keeps the reading

  lemma {:induction false} InsertAddsKey(key: Text, value: Value, fs: Fields)
    requires !HasKey(fs, key) && ProperFields(fs) && Proper(value)
    ensures ProperFields(Insert(key, value, fs))
    ensures forall k :: HasKey(Insert(key, value, fs), k) <==> k == key || HasKey(fs, k)
  {
    if fs.Field? && !Before(key, fs.key) {
      InsertAddsKey(key, value, fs.others);
    }
  }

  lemma {:induction false} InsertAddsReading(key: Text, value: Value, fs: Fields)
    requires !HasKey(fs, key)
    ensures ReadFields(Insert(key, value, fs)) == ReadFields(fs)[key := Read(value)]
  {
    if fs.Field? && !Before(key, fs.key) {
      InsertAddsReading(key, value, fs.others);
    }
  }

  lemma {:induction false} SortingKeepsReading(v: Value)
    requires Proper(v)
    ensures Read(Sorted(v)) == Read(v) && Proper(Sorted(v))
  {
    match v {
      case Array(es) => SortingKeepsElements(es);
      case Object(fs) => SortingKeepsFields(fs);
      case _ =>
    }
  }

  lemma {:induction false} SortingKeepsElements(es: Elements)
    requires ProperElements(es)
    ensures ReadElements(SortedElements(es)) == ReadElements(es) && ProperElements(SortedElements(es))
  {
    if es.Element? {
      SortingKeepsReading(es.value);
      SortingKeepsElements(es.others);
    }
  }

  lemma {:induction false} SortingKeepsFields(fs: Fields)
    requires ProperFields(fs)
    ensures ReadFields(SortedFields(fs)) == ReadFields(fs) && ProperFields(SortedFields(fs))
    ensures forall k :: HasKey(SortedFields(fs), k) <==> HasKey(fs, k)
  {
    if fs.Field? {
      SortingKeepsReading(fs.value);
      SortingKeepsFields(fs.others);
      InsertAddsKey(fs.key, Sorted(fs.value), SortedFields(fs.others));
      InsertAddsReading(fs.key, Sorted(fs.value), SortedFields(fs.others));
    }
  }

  // ---------------------------------------------------------------- a sorted value is known by its reading

  /** The keys of every object stand in order, and nothing is infinite. */
  predicate InOrder(v: Value) {
    match v
    case Array(es) => ElementsInOrder(es)
    case Object(fs) => FieldsInOrder(fs)
    case _ => true
  }

  predicate ElementsInOrder(es: Elements) {
    es.Element? ==> InOrder(es.value) && ElementsInOrder(es.others)
  }

  predicate FieldsInOrder(fs: Fields) {
    fs.Field? ==>
      && InOrder(fs.value) && FieldsInOrder(fs.others)
      && (fs.others.Field? ==> Before(fs.key, fs.others.key))
  }

  lemma {:induction false} InsertKeepsOrder(key: Text, value: Value, fs: Fields)
    requires InOrder(value) && FieldsInOrder(fs) && !HasKey(fs, key)
    ensures FieldsInOrder(Insert(key, value, fs))
  {
    if fs.Field? && !Before(key, fs.key) {
      BeforeIsTotal(key, fs.key);
      InsertKeepsOrder(key, value, fs.others);
    }
  }

  lemma {:induction false} SortedIsInOrder(v: Value)
    requires Proper(v)
    ensures InOrder(Sorted(v))
  {
    match v {
      case Array(es) => SortedElementsInOrder(es);
      case Object(fs) => SortedFieldsInOrder(fs);
      case _ =>
    }
  }

  lemma {:induction false} SortedElementsInOrder(es: Elements)
    requires ProperElements(es)
    ensures ElementsInOrder(SortedElements(es))
  {
    if es.Element? {
      SortedIsInOrder(es.value);
      SortedElementsInOrder(es.others);
    }
  }

  lemma {:induction false} SortedFieldsInOrder(fs: Fields)
    requires ProperFields(fs)
    ensures FieldsInOrder(SortedFields(fs))
  {
    if fs.Field? {
      SortedIsInOrder(fs.value);
      SortedFieldsInOrder(fs.others);
      SortingKeepsFields(fs.others);
      InsertKeepsOrder(fs.key, Sorted(fs.value), SortedFields(fs.others));
    }
  }

  lemma {:induction false} FirstKeyIsLeast(fs: Fields, key: Text)
    requires fs.Field? && FieldsInOrder(fs) && HasKey(fs.others, key)
    ensures Before(fs.key, key)
  {
    if fs.others.key != key {
      FirstKeyIsLeast(fs.others, key);
      BeforeIsTransitive(fs.key, fs.others.key, key);
    }
  }

  /** Two values in order that read the same are written the same. */
  lemma {:induction false} SameReadingSameText(v: Value, w: Value)
    requires InOrder(v) && InOrder(w) && Read(v) == Read(w)
    ensures Print(v) == Print(w)
    decreases v
  {
    match v {
      case Array(es) => SameReadingSameElements(es, w.elements);
      case Object(fs) => SameReadingSameFields(fs, w.fields);
      case _ =>
    }
  }

  lemma {:induction false} SameReadingSameElements(es: Elements, fs: Elements)
    requires ElementsInOrder(es) && ElementsInOrder(fs) && ReadElements(es) == ReadElements(fs)
    ensures PrintElements(es) == PrintElements(fs) && MoreElements(es) == MoreElements(fs)
    decreases es
  {
    if es.Element? {
      SameReadingSameText(es.value, fs.value);
      SameReadingSameElements(es.others, fs.others);
    }
  }

  lemma SameKeysSameFirstKey(es: Fields, fs: Fields)
    requires FieldsInOrder(es) && FieldsInOrder(fs) && es.Field? && fs.Field? && HasKey(fs, es.key)
        && HasKey(es, fs.key)
    ensures es.key == fs.key
  {
    if es.key != fs.key {
      FirstKeyIsLeast(es, fs.key);
      FirstKeyIsLeast(fs, es.key);
      BeforeIsStrict(es.key, fs.key);
    }
  }

  lemma OthersAreTheRest(fs: Fields)
    requires fs.Field? && FieldsInOrder(fs)
    ensures ReadFields(fs.others) == ReadFields(fs) - {fs.key} && ReadFields(fs)[fs.key] == Read(fs.value)
  {
    NotAmongOthers(fs);
  }

  lemma SameReadingSameFirstKey(es: Fields, fs: Fields)
    requires FieldsInOrder(es) && FieldsInOrder(fs) && ReadFields(es) == ReadFields(fs) && es.Field?
    ensures fs.Field? && es.key == fs.key && ReadFields(es.others) == ReadFields(fs.others)
        && Read(es.value) == Read(fs.value)
  {
    assert es.key in ReadFields(fs) && HasKey(fs, fs.key);
    assert fs.key in ReadFields(es);
    SameKeysSameFirstKey(es, fs);
    OthersAreTheRest(es);
    OthersAreTheRest(fs);
  }

  lemma NotAmongOthers(fs: Fields)
    requires fs.Field? && FieldsInOrder(fs)
    ensures !HasKey(fs.others, fs.key)
  {
    if HasKey(fs.others, fs.key) {
      FirstKeyIsLeast(fs, fs.key);
      BeforeIsStrict(fs.key, fs.key);
    }
  }

  lemma {:induction false} SameReadingSameFields(es: Fields, fs: Fields)
    requires FieldsInOrder(es) && FieldsInOrder(fs) && ReadFields(es) == ReadFields(fs)
    ensures PrintFields(es) == PrintFields(fs) && MoreFields(es) == MoreFields(fs)
    decreases es
  {
    assert fs.Field? ==> fs.key in ReadFields(es);
    if es.Field? {
      SameReadingSameFirstKey(es, fs);
      SameReadingSameText(es.value, fs.value);
      SameReadingSameFields(es.others, fs.others);
    }
  }

  // ---------------------------------------------------------------- the text tells what was read

  /** The first character of a value, which tells what kind of value it is. */
  function Front(v: Value): Unit
    requires Proper(v)
  {
    match v
    case Null => NULL_TEXT[0]
    case Infinite(_) => NULL_TEXT[0]
    case Bool(b) => if b then TRUE_TEXT[0] else FALSE_TEXT[0]
    case Number(numeral) => numeral[0]
    case String(_) => QUOTE
    case Array(_) => OPEN_BRACKET
    case Object(_) => OPEN_BRACE
  }

  lemma FrontOfPrint(v: Value, s: Text)
    requires Proper(v)
    ensures |Print(v)| > 0 && (Print(v) + s)[0] == Print(v)[0] == Front(v)
  {
  }

  /** A value can be read off the front of a text in one way only. */
  lemma {:induction false} PrintUnique(v: Value, w: Value, s: Text, t: Text)
    requires Proper(v) && Proper(w) && Ends(NumeralUnit, s) && Ends(NumeralUnit, t) && Print(v) + s == Print(w) + t
    ensures Read(v) == Read(w) && s == t
    decreases v, 0
  {
    FrontOfPrint(v, s);
    FrontOfPrint(w, t);
    assert Front(v) == Front(w);
    match v {
      case Number(numeral) =>
        RunUnique(NumeralUnit, numeral, w.numeral, s, t);
      case String(x) =>
        QuoteUnique(x, w.text, s, t);
      case Array(es) =>
        Regroup([OPEN_BRACKET], PrintElements(es), s);
        Regroup([OPEN_BRACKET], PrintElements(w.elements), t);
        SameParts([OPEN_BRACKET], [OPEN_BRACKET], PrintElements(es) + s, PrintElements(w.elements) + t);
        ElementsUnique(es, w.elements, s, t);
      case Object(fs) =>
        Regroup([OPEN_BRACE], PrintFields(fs), s);
        Regroup([OPEN_BRACE], PrintFields(w.fields), t);
        SameParts([OPEN_BRACE], [OPEN_BRACE], PrintFields(fs) + s, PrintFields(w.fields) + t);
        FieldsUnique(fs, w.fields, s, t);
      case _ =>
        SameParts(Print(v), Print(v), s, t);
    }
  }

  lemma FrontOfElements(es: Elements, s: Text)
    requires ProperElements(es)
    ensures |PrintElements(es)| > 0
    ensures (PrintElements(es) + s)[0] == CLOSE_BRACKET <==> es.NoElements?
    ensures es.Element? ==> PrintElements(es) + s == Print(es.value) + (MoreElements(es.others) + s)
    ensures es.NoElements? ==> PrintElements(es) + s == [CLOSE_BRACKET] + s
  {
    if es.Element? {
      FrontOfPrint(es.value, MoreElements(es.others) + s);
      Regroup(Print(es.value), MoreElements(es.others), s);
    }
  }

  lemma {:induction false} ElementsUnique(es: Elements, fs: Elements, s: Text, t: Text)
    requires ProperElements(es) && ProperElements(fs) && PrintElements(es) + s == PrintElements(fs) + t
    ensures ReadElements(es) == ReadElements(fs) && s == t
    decreases es, 0
  {
    FrontOfElements(es, s);
    FrontOfElements(fs, t);
    if es.Element? {
      PrintUnique(es.value, fs.value, MoreElements(es.others) + s, MoreElements(fs.others) + t);
      MoreElementsUnique(es.others, fs.others, s, t);
    } else {
      SameParts([CLOSE_BRACKET], [CLOSE_BRACKET], s, t);
    }
  }

  lemma {:induction false} MoreElementsUnique(es: Elements, fs: Elements, s: Text, t: Text)
    requires ProperElements(es) && ProperElements(fs) && MoreElements(es) + s == MoreElements(fs) + t
    ensures ReadElements(es) == ReadElements(fs) && s == t
    decreases es, 1
  {
    assert (MoreElements(es) + s)[0] == (MoreElements(fs) + t)[0];
    if es.Element? {
      Regroup([COMMA], PrintElements(es), s);
      Regroup([COMMA], PrintElements(fs), t);
      SameParts([COMMA], [COMMA], PrintElements(es) + s, PrintElements(fs) + t);
      ElementsUnique(es, fs, s, t);
    } else {
      SameParts([CLOSE_BRACKET], [CLOSE_BRACKET], s, t);
    }
  }

  lemma FrontOfFields(fs: Fields, s: Text)
    ensures |PrintFields(fs)| > 0
    ensures (PrintFields(fs) + s)[0] == CLOSE_BRACE <==> fs.NoFields?
    ensures fs.Field? ==>
      PrintFields(fs) + s == Quote(fs.key) + ([COLON] + (Print(fs.value) + (MoreFields(fs.others) + s)))
    ensures fs.NoFields? ==> PrintFields(fs) + s == [CLOSE_BRACE] + s
  {
    if fs.Field? {
      var value := Print(fs.value) + MoreFields(fs.others);
      Regroup(Quote(fs.key), [COLON] + value, s);
      Regroup([COLON], value, s);
      Regroup(Print(fs.value), MoreFields(fs.others), s);
    }
  }

  lemma {:induction false} FieldsUnique(es: Fields, fs: Fields, s: Text, t: Text)
    requires ProperFields(es) && ProperFields(fs) && PrintFields(es) + s == PrintFields(fs) + t
    ensures ReadFields(es) == ReadFields(fs) && s == t
    decreases es, 0
  {
    FrontOfFields(es, s);
    FrontOfFields(fs, t);
    if es.Field? {
      var x, y := Print(es.value) + (MoreFields(es.others) + s), Print(fs.value) + (MoreFields(fs.others) + t);
      QuoteUnique(es.key, fs.key, [COLON] + x, [COLON] + y);
      SameParts([COLON], [COLON], x, y);
      PrintUnique(es.value, fs.value, MoreFields(es.others) + s, MoreFields(fs.others) + t);
      MoreFieldsUnique(es.others, fs.others, s, t);
    } else {
      SameParts([CLOSE_BRACE], [CLOSE_BRACE], s, t);
    }
  }

  lemma {:induction false} MoreFieldsUnique(es: Fields, fs: Fields, s: Text, t: Text)
    requires ProperFields(es) && ProperFields(fs) && MoreFields(es) + s == MoreFields(fs) + t
    ensures ReadFields(es) == ReadFields(fs) && s == t
    decreases es, 1
  {
    assert (MoreFields(es) + s)[0] == (MoreFields(fs) + t)[0];
    if es.Field? {
      Regroup([COMMA], PrintFields(es), s);
      Regroup([COMMA], PrintFields(fs), t);
      SameParts([COMMA], [COMMA], PrintFields(es) + s, PrintFields(fs) + t);
      FieldsUnique(es, fs, s, t);
    } else {
      SameParts([CLOSE_BRACE], [CLOSE_BRACE], s, t);
    }
  }

  // ---------------------------------------------------------------- the main results

  /** Two values have the same canonical text exactly if they read the same. */
  lemma CanonicalIffSameReading(v: Value, w: Value)
    requires Proper(v) && Proper(w)
    ensures Canonical(v) == Canonical(w) <==> Read(v) == Read(w)
  {
    SortingKeepsReading(v);
    SortingKeepsReading(w);
    if Read(v) == Read(w) {
      SortedIsInOrder(v);
      SortedIsInOrder(w);
      SameReadingSameText(Sorted(v), Sorted(w));
    }
    if Canonical(v) == Canonical(w) {
      PrintUnique(Sorted(v), Sorted(w), [], []);
    }
  }

  /** The one loss: a number too large to hold and `null` have the same canonical text. */
  lemma InfiniteLooksLikeNull(negative: bool)
    ensures Infinite(negative) != Null && Canonical(Infinite(negative)) == Canonical(Null)
  {
  }

  /** No canonical text contains the character that separates the parts of the digest. */
  lemma {:induction false} CanonicalIsPlain(v: Value)
    requires Proper(v)
    ensures NUL !in Canonical(v) && WellFormed(Canonical(v))
  {
    SortingKeepsReading(v);
    PrintIsPlain(Sorted(v));
  }

  predicate Plain(x: Text) {
    NUL !in x && WellFormed(x)
  }

  lemma PlainConcat(x: Text, y: Text)
    requires Plain(x) && Plain(y)
    ensures Plain(x + y)
  {
    WellFormedConcat(x, y);
  }

  lemma {:induction false} EscapedIsPlain(x: Text)
    ensures Plain(Escaped(x))
  {
    if x == [] {
    } else if StartsWithPair(x) {
      EscapedIsPlain(x[2..]);
      PairIsPlain(x[0], x[1]);
      assert x[..2] == [x[0], x[1]];
      PlainConcat(x[..2], Escaped(x[2..]));
    } else {
      EscapedIsPlain(x[1..]);
      WrittenIsPlain(x[0]);
      PlainConcat(Written(x[0]), Escaped(x[1..]));
    }
  }

  lemma PairIsPlain(high: Unit, low: Unit)
    requires High(high) && Low(low)
    ensures Plain([high, low])
  {
    assert [high, low][2..] == [];
  }

  lemma {:induction false} OrdinaryIsPlain(x: Text)
    requires forall u | u in x :: 0 < u && !High(u) && !Low(u)
    ensures Plain(x)
  {
    if x != [] {
      assert forall u | u in x[1..] :: u in x;
      OrdinaryIsPlain(x[1..]);
      assert x[0] in x && x == [x[0]] + x[1..];
    }
  }

  lemma WrittenIsPlain(u: Unit)
    ensures Plain(Written(u))
  {
    OrdinaryIsPlain(Written(u));
  }

  lemma QuoteIsPlain(x: Text)
    ensures Plain(Quote(x))
  {
    EscapedIsPlain(x);
    OrdinaryIsPlain([QUOTE]);
    PlainConcat([QUOTE], Escaped(x));
    PlainConcat([QUOTE] + Escaped(x), [QUOTE]);
  }

  lemma {:induction false} PrintIsPlain(v: Value)
    requires Proper(v)
    ensures Plain(Print(v))
    decreases v, 1
  {
    match v {
      case String(x) =>
        QuoteIsPlain(x);
      case Array(es) =>
        ElementsArePlain(es);
        OrdinaryIsPlain([OPEN_BRACKET]);
        PlainConcat([OPEN_BRACKET], PrintElements(es));
      case Object(fs) =>
        FieldsArePlain(fs);
        OrdinaryIsPlain([OPEN_BRACE]);
        PlainConcat([OPEN_BRACE], PrintFields(fs));
      case _ =>
        OrdinaryIsPlain(Print(v));
    }
  }

  lemma {:induction false} ElementsArePlain(es: Elements)
    requires ProperElements(es)
    ensures Plain(PrintElements(es)) && Plain(MoreElements(es))
    decreases es, 0
  {
    OrdinaryIsPlain([CLOSE_BRACKET]);
    if es.Element? {
      PrintIsPlain(es.value);
      ElementsArePlain(es.others);
      PlainConcat(Print(es.value), MoreElements(es.others));
      OrdinaryIsPlain([COMMA]);
      PlainConcat([COMMA], PrintElements(es));
    }
  }

  lemma {:induction false} FieldsArePlain(fs: Fields)
    requires ProperFields(fs)
    ensures Plain(PrintFields(fs)) && Plain(MoreFields(fs))
    decreases fs, 0
  {
    OrdinaryIsPlain([CLOSE_BRACE]);
    if fs.Field? {
      PrintIsPlain(fs.value);
      FieldsArePlain(fs.others);
      QuoteIsPlain(fs.key);
      OrdinaryIsPlain([COLON]);
      OrdinaryIsPlain([COMMA]);
      PlainConcat(Print(fs.value), MoreFields(fs.others));
      PlainConcat([COLON], Print(fs.value) + MoreFields(fs.others));
      PlainConcat(Quote(fs.key), [COLON] + (Print(fs.value) + MoreFields(fs.others)));
      PlainConcat([COMMA], PrintFields(fs));
    }
  }
}
