/**
 The tree that a manifest stands for, and its printing: parsing what was printed, with every leaf
 a JSON string, gives the tree back.
 */
module YamlTree {
  import opened Unicode
  import opened Wrappers
  import opened Yaml
  import Json
  import Pieces = Text

  // ---------------------------------------------------------------- values

  datatype Value =
    | Word(text: Text)
    | Truth(b: bool)
    | Nothing
    | Numeral(digits: Text)
    | Parsed(json: Json.Value)

  /** The JSON parser of the runtime. */
  type JsonParser = Text -> Option<Json.Value>

  const TILDE: Unit := 126
  const MINUS: Unit := 45
  const DOT: Unit := 46

  predicate IsDigit(u: Unit) {
    48 <= u <= 57
  }

  function DigitRun(x: Text): (n: nat)
    ensures n <= |x|
  {
    if x != [] && IsDigit(x[0]) then 1 + DigitRun(x[1..]) else 0
  }

  /** An optional sign, digits, and optionally a point and more digits. */
  predicate IsNumeral(x: Text) {
    var y := if x != [] && x[0] == MINUS then x[1..] else x;
    var n := DigitRun(y);
    n > 0 && (n == |y| || (y[n] == DOT && n + 1 < |y| && DigitRun(y[n + 1..]) == |y| - n - 1))
  }

  function Trim(x: Text): Text {
    TrimEnd(x[Leading(x)..])
  }

  predicate Enclosed(x: Text, open: Unit, close: Unit) {
    x != [] && x[0] == open && x[|x| - 1] == close
  }

  /** Single quotes that stand doubled, written once. */
  function Undoubled(x: Text): Text
    decreases |x|
  {
    if x == [] then []
    else if |x| >= 2 && x[0] == APOSTROPHE && x[1] == APOSTROPHE then [APOSTROPHE] + Undoubled(x[2..])
    else [x[0]] + Undoubled(x[1..])
  }

  function OfJson(v: Json.Value): Value {
    if v.String? then Word(v.text) else Parsed(v)
  }

  function Scalar(json: JsonParser, value: Text): Value {
    var raw := Trim(value);
    if raw == [] then Word([])
    else if raw == Json.TRUE_TEXT then Truth(true)
    else if raw == Json.FALSE_TEXT then Truth(false)
    else if raw == Json.NULL_TEXT || raw == [TILDE] then Nothing
    else if IsNumeral(raw) then Numeral(raw)
    else if Enclosed(raw, QUOTE, QUOTE) || Enclosed(raw, APOSTROPHE, APOSTROPHE) then
      if raw[0] == QUOTE && json(raw).Some? then OfJson(json(raw).value)
      else Word(Undoubled(if |raw| == 1 then [] else raw[1..|raw| - 1]))
    else if Enclosed(raw, 91, 93) || Enclosed(raw, 123, 125) then
      if json(raw).Some? then OfJson(json(raw).value) else Word(raw)
    else Word(raw)
  }

  // ---------------------------------------------------------------- trees

  datatype Tree = Leaf(value: Value) | Branch(forest: Forest)

  datatype Forest = Empty | Grove(key: Text, tree: Tree, others: Forest)

  /** The mapping that line `p` opened, from the lines attached to it at `from` and after. */
  function Children(json: JsonParser, nodes: seq<Node>, p: int, from: nat): Forest
    decreases |nodes| - from
  {
    if from >= |nodes| then Empty
    else if nodes[from].parent != p then Children(json, nodes, p, from + 1)
    else
      var n := nodes[from];
      var tree := if Opens(n) then Branch(Children(json, nodes, from, from + 1)) else Leaf(Scalar(json, n.value));
      Grove(n.key, tree, Children(json, nodes, p, from + 1))
  }

  function Load(json: JsonParser, text: Text): Result<Forest, Error> {
    var placed := Place(LinesOf(text));
    if placed.Err? then Err(placed.error) else Ok(Children(json, placed.value, -1, 0))
  }

  // ---------------------------------------------------------------- printing

  predicate IsKey(key: Text) {
    key != [] && forall i | 0 <= i < |key| :: IsKeyUnit(key[i])
  }

  /** A text without the two line separators that JSON leaves as they are. */
  predicate OneLine(x: Text) {
    forall i | 0 <= i < |x| :: x[i] != 0x2028 && x[i] != 0x2029
  }

  predicate Among(f: Forest, key: Text) {
    f.Grove? && (f.key == key || Among(f.others, key))
  }

  /** Keys are keys and do not repeat, and leaves are texts. */
  predicate Printable(f: Forest) {
    f.Grove? ==>
      && IsKey(f.key) && !Among(f.others, f.key) && Printable(f.others)
      && match f.tree
         case Leaf(value) => value.Word?
         case Branch(inner) => Printable(inner)
  }

  /** Every leaf is a text that a line can hold. */
  predicate OneLiners(f: Forest) {
    f.Grove? ==>
      && OneLiners(f.others)
      && match f.tree
         case Leaf(value) => value.Word? ==> OneLine(value.text)
         case Branch(inner) => OneLiners(inner)
  }

  function Spaces(n: nat): (x: Text)
    ensures |x| == n && forall i | 0 <= i < n :: x[i] == SPACE
  {
    seq(n, _ => SPACE)
  }

  function ValueText(tree: Tree): Text
    requires tree.Leaf? ==> tree.value.Word?
  {
    if tree.Leaf? then Json.Quote(tree.value.text) else []
  }

  function Render(indent: nat, key: Text, value: Text): Text {
    Spaces(indent) + (key + ([COLON] + if value == [] then [] else [SPACE] + value))
  }

  function Print(f: Forest, indent: nat): seq<Text>
    requires Printable(f)
    decreases f, 1
  {
    if f.Empty? then []
    else [Render(indent, f.key, ValueText(f.tree))] + PrintInside(f, indent) + Print(f.others, indent)
  }

  function PrintInside(f: Forest, indent: nat): seq<Text>
    requires Printable(f) && f.Grove?
    decreases f, 0
  {
    if f.tree.Branch? then Print(f.tree.forest, indent + 2) else []
  }

  function PrintText(f: Forest): Text
    requires Printable(f)
  {
    Pieces.Join(Print(f, 0), NEWLINE)
  }

  // ---------------------------------------------------------------- a printed line is read back

  lemma {:induction false} ScanConcat(s: Quoting, x: Text, y: Text)
    ensures Scan(s, x + y) == Scan(Scan(s, x), y)
  {
    if y == [] {
      assert x + y == x;
    } else {
      ScanConcat(s, x, y[..|y| - 1]);
      assert (x + y)[..|x + y| - 1] == x + y[..|y| - 1];
    }
  }

  /** Read inside double quotes, the text stays inside them throughout and to its end. */
  ghost predicate StaysQuoted(x: Text) {
    && Scan(Double, x) == Double
    && forall j | 0 <= j <= |x| :: Scan(Double, x[..j]) == Double || Scan(Double, x[..j]) == Quoting.Escaped
  }

  lemma QuotedConcat(x: Text, y: Text)
    requires StaysQuoted(x) && StaysQuoted(y)
    ensures StaysQuoted(x + y)
  {
    ScanConcat(Double, x, y);
    forall j | 0 <= j <= |x + y|
      ensures Scan(Double, (x + y)[..j]) == Double || Scan(Double, (x + y)[..j]) == Quoting.Escaped
    {
      if j <= |x| {
        assert (x + y)[..j] == x[..j];
      } else {
        assert (x + y)[..j] == x + y[..j - |x|];
        ScanConcat(Double, x, y[..j - |x|]);
      }
    }
  }

  lemma OneUnit(s: Quoting, u: Unit)
    ensures Scan(s, [u]) == After(s, u) && Scan(s, []) == s
  {
    assert [u][..0] == [];
  }

  lemma OrdinaryStaysQuoted(u: Unit)
    requires u != QUOTE && u != BACKSLASH
    ensures StaysQuoted([u])
  {
    OneUnit(Double, u);
    forall j | 0 <= j <= 1 ensures Scan(Double, [u][..j]) == Double {
      assert j == 0 ==> [u][..j] == [];
      assert j == 1 ==> [u][..j] == [u];
    }
  }

  lemma EscapeStaysQuoted(u: Unit)
    ensures StaysQuoted([BACKSLASH, u])
  {
    var x := [BACKSLASH, u];
    OneUnit(Double, BACKSLASH);
    OneUnit(Quoting.Escaped, u);
    assert x == [BACKSLASH] + [u];
    ScanConcat(Double, [BACKSLASH], [u]);
    forall j | 0 <= j <= 2 ensures Scan(Double, x[..j]) == Double || Scan(Double, x[..j]) == Quoting.Escaped {
      assert j == 0 ==> x[..j] == [];
      assert j == 1 ==> x[..j] == [BACKSLASH];
      assert j == 2 ==> x[..j] == x;
    }
  }

  /** Characters that neither close the quotes nor escape. */
  predicate Ordinary(x: Text) {
    forall i | 0 <= i < |x| :: x[i] != QUOTE && x[i] != BACKSLASH
  }

  lemma {:induction false} AllOrdinaryStaysQuoted(x: Text)
    requires Ordinary(x)
    ensures StaysQuoted(x)
  {
    if x != [] {
      AllOrdinaryStaysQuoted(x[1..]);
      OrdinaryStaysQuoted(x[0]);
      QuotedConcat([x[0]], x[1..]);
      assert x == [x[0]] + x[1..];
    }
  }

  lemma WrittenStaysQuoted(u: Unit)
    ensures StaysQuoted(Json.Written(u))
  {
    var x := Json.Written(u);
    if x[0] == BACKSLASH {
      EscapeStaysQuoted(x[1]);
      AllOrdinaryStaysQuoted(x[2..]);
      QuotedConcat(x[..2], x[2..]);
      assert x[..2] == [BACKSLASH, x[1]] && x == x[..2] + x[2..];
    } else {
      AllOrdinaryStaysQuoted(x);
    }
  }

  lemma {:induction false} EscapedStaysQuoted(x: Text)
    ensures StaysQuoted(Json.Escaped(x))
  {
    if x == [] {
      AllOrdinaryStaysQuoted([]);
    } else if StartsWithPair(x) {
      EscapedStaysQuoted(x[2..]);
      AllOrdinaryStaysQuoted(x[..2]);
      QuotedConcat(x[..2], Json.Escaped(x[2..]));
    } else {
      EscapedStaysQuoted(x[1..]);
      WrittenStaysQuoted(x[0]);
      QuotedConcat(Json.Written(x[0]), Json.Escaped(x[1..]));
    }
  }

  /** No quotes and no hash. */
  predicate Bland(x: Text) {
    forall i | 0 <= i < |x| :: x[i] != QUOTE && x[i] != APOSTROPHE && x[i] != HASH
  }

  lemma {:induction false} BlandStaysOutside(x: Text)
    requires Bland(x)
    ensures Scan(Outside, x) == Outside
  {
    if x != [] {
      BlandStaysOutside(x[..|x| - 1]);
    }
  }

  /** A quoted text after something bland holds no comment. */
  lemma NoCommentInQuote(front: Text, x: Text, k: nat)
    requires Bland(front)
    ensures !CommentAt(front + Json.Quote(x), k)
  {
    var q := Json.Quote(x);
    var line := front + q;
    if k < |front| {
      assert line[k] == front[k];
    } else if k < |line| && line[k] == HASH {
      var j := k - |front| - 1;
      assert q == [QUOTE] + Json.Escaped(x) + [QUOTE] && q[k - |front|] == HASH;
      assert 0 <= j <= |Json.Escaped(x)|;
      assert line[..k] == front + ([QUOTE] + Json.Escaped(x)[..j]);
      BlandStaysOutside(front);
      ScanConcat(Outside, front, [QUOTE] + Json.Escaped(x)[..j]);
      ScanConcat(Outside, [QUOTE], Json.Escaped(x)[..j]);
      OneUnit(Outside, QUOTE);
      EscapedStaysQuoted(x);
    }
  }

  lemma StripsNothing(line: Text)
    requires forall k: nat :: !CommentAt(line, k)
    ensures Strip(line) == line
  {
  }

  lemma {:induction false} LeadingSpaces(n: nat, x: Text)
    requires x != [] && !IsSpace(x[0])
    ensures Leading(Spaces(n) + x) == n
  {
    if n > 0 {
      LeadingSpaces(n - 1, x);
      assert (Spaces(n) + x)[1..] == Spaces(n - 1) + x;
    } else {
      assert Spaces(0) + x == x;
    }
  }

  lemma {:induction false} KeyLengthOf(key: Text, x: Text)
    requires (forall i | 0 <= i < |key| :: IsKeyUnit(key[i])) && (x == [] || !IsKeyUnit(x[0]))
    ensures KeyLength(key + x) == |key|
  {
    if key != [] {
      KeyLengthOf(key[1..], x);
      assert (key + x)[1..] == key[1..] + x;
    } else {
      assert key + x == x;
    }
  }

  /** Quoting leaves no line feed and no carriage return. */
  predicate NoBreak(x: Text) {
    forall i | 0 <= i < |x| :: x[i] != NEWLINE && x[i] != RETURN
  }

  lemma {:induction false} EscapedHasNoBreak(x: Text)
    ensures NoBreak(Json.Escaped(x))
  {
    if x != [] {
      if StartsWithPair(x) {
        EscapedHasNoBreak(x[2..]);
      } else {
        EscapedHasNoBreak(x[1..]);
        assert NoBreak(Json.Written(x[0]));
      }
    }
  }

  lemma {:induction false} EscapedHasNoTerminator(x: Text)
    requires OneLine(x)
    ensures NoTerminator(Json.Escaped(x))
  {
    if x != [] {
      if StartsWithPair(x) {
        EscapedHasNoTerminator(x[2..]);
      } else {
        EscapedHasNoTerminator(x[1..]);
        assert NoTerminator(Json.Written(x[0]));
      }
    }
  }

  /** Quoting leaves the two line separators as they are. */
  lemma {:induction false} EscapedKeepsSeparator(x: Text)
    requires !OneLine(x)
    ensures !NoTerminator(Json.Escaped(x))
  {
    var i :| 0 <= i < |x| && (x[i] == 0x2028 || x[i] == 0x2029);
    if StartsWithPair(x) {
      assert x[2..][i - 2] == x[i];
      EscapedKeepsSeparator(x[2..]);
      Contains(x[..2], Json.Escaped(x[2..]));
    } else if i == 0 {
      assert Json.Written(x[0])[0] == x[0];
      assert Json.Escaped(x)[0] == x[0];
    } else {
      assert x[1..][i - 1] == x[i];
      EscapedKeepsSeparator(x[1..]);
      Contains(Json.Written(x[0]), Json.Escaped(x[1..]));
    }
  }

  lemma Contains(x: Text, y: Text)
    requires !NoTerminator(y)
    ensures !NoTerminator(x + y)
  {
    var i :| 0 <= i < |y| && IsTerminator(y[i]);
    assert (x + y)[|x| + i] == y[i];
  }

  lemma QuoteIsOneLine(x: Text)
    ensures NoTerminator(Json.Quote(x)) <==> OneLine(x)
    ensures NoBreak(Json.Quote(x))
  {
    EscapedHasNoBreak(x);
    if OneLine(x) {
      EscapedHasNoTerminator(x);
    } else {
      EscapedKeepsSeparator(x);
      Contains([QUOTE], Json.Escaped(x));
      var i :| 0 <= i < |[QUOTE] + Json.Escaped(x)| && IsTerminator(([QUOTE] + Json.Escaped(x))[i]);
      assert Json.Quote(x)[i] == ([QUOTE] + Json.Escaped(x))[i];
    }
  }

  lemma MatchRendered(indent: nat, key: Text, value: Text, body: Text)
    requires IsKey(key) && (value != [] ==> !IsSpace(value[0]))
    requires body == key + ([COLON] + if value == [] then [] else [SPACE] + value)
    ensures MatchLine(indent, body) == if NoTerminator(value) then Entry(indent, key, value) else Unsupported
  {
    var rest := [COLON] + if value == [] then [] else [SPACE] + value;
    KeyLengthOf(key, rest);
    assert body[..|key|] == key && body[|key|..] == rest;
    assert body[|key| + 1..] == rest[1..];
    if value != [] {
      assert rest[1..] == Spaces(1) + value;
      LeadingSpaces(1, value);
      assert (Spaces(1) + value)[1..] == value;
    }
    MatchParts(indent, key, value, body);
  }

  lemma MatchParts(indent: nat, key: Text, value: Text, body: Text)
    requires key != [] && KeyLength(body) == |key| < |body| && body[..|key|] == key
    requires Leading(body[|key|..]) == 0 && body[|key|] == COLON
    requires body[|key| + 1..][Leading(body[|key| + 1..])..] == value
    ensures MatchLine(indent, body) == if NoTerminator(value) then Entry(indent, key, value) else Unsupported
  {
    var rest := body[|key| + 1..];
    assert body[|key|..][0] == COLON && body[..|key|] == key;
    MatchSplit(indent, body, |key|, rest[Leading(rest)..]);
  }

  lemma MatchSplit(indent: nat, body: Text, n: nat, value: Text)
    requires n == KeyLength(body) && 0 < n < |body| && Leading(body[n..]) == 0 && body[n] == COLON
    requires value == body[n + 1..][Leading(body[n + 1..])..]
    ensures MatchLine(indent, body) == if NoTerminator(value) then Entry(indent, body[..n], value) else Unsupported
  {
  }

  lemma ReadRendered(indent: nat, key: Text, value: Text)
    requires IsKey(key) && (value == [] || exists x :: value == Json.Quote(x))
    ensures ReadLine(Render(indent, key, value)) ==
      if NoTerminator(value) then Entry(indent, key, value) else Unsupported
  {
    var line := Render(indent, key, value);
    var body := key + ([COLON] + if value == [] then [] else [SPACE] + value);
    LeadingSpaces(indent, body);
    AfterSpaces(indent, body);
    RenderedHasNoComment(indent, key, value);
    StripsNothing(line);
    MatchRendered(indent, key, value, body);
    ReadStripped(line, indent, body);
  }

  lemma AfterSpaces(n: nat, x: Text)
    requires x != []
    ensures
      var all := Spaces(n) + x;
      all[..n] == Spaces(n) && all[n..] == x && all[n] == x[0] && TAB !in all[..n]
  {
  }

  lemma ReadStripped(line: Text, indent: nat, body: Text)
    requires Strip(line) == line && Leading(line) == indent < |line| && line[indent] != HASH && TAB !in line[..indent]
    requires line[indent..] == body
    ensures ReadLine(line) == MatchLine(indent, body)
  {
  }

  lemma RenderedHasNoComment(indent: nat, key: Text, value: Text)
    requires IsKey(key) && (value == [] || exists x :: value == Json.Quote(x))
    ensures forall k: nat :: !CommentAt(Render(indent, key, value), k)
  {
    if value == [] {
      assert Bland(Render(indent, key, value));
    } else {
      var x :| value == Json.Quote(x);
      var front := Spaces(indent) + key + [COLON, SPACE];
      assert Render(indent, key, value) == front + value;
      assert Bland(front);
      forall k: nat ensures !CommentAt(Render(indent, key, value), k) {
        NoCommentInQuote(front, x, k);
      }
    }
  }

  /** The JSON parser reads a quoted text as that text. */
  ghost predicate ReadsQuotes(json: JsonParser) {
    forall x :: json(Json.Quote(x)) == Some(Json.String(x))
  }

  lemma ScalarOfQuote(json: JsonParser, x: Text)
    requires ReadsQuotes(json)
    ensures Scalar(json, Json.Quote(x)) == Word(x)
  {
    var q := Json.Quote(x);
    assert q[0] == QUOTE && q[|q| - 1] == QUOTE && |q| >= 2;
    assert Leading(q) == 0 && q[0..] == q && Trim(q) == q;
  }

  // ---------------------------------------------------------------- printed lines are attached where they belong

  predicate Starts(x: seq<Node>, y: seq<Node>) {
    |x| <= |y| && forall i | 0 <= i < |x| :: y[i] == x[i]
  }

  /** The lines attached once those of a forest have followed `before`, inside line `p`. */
  function PlacedAfter(before: seq<Node>, f: Forest, indent: nat, p: int): (all: seq<Node>)
    requires Printable(f)
    ensures Starts(before, all)
    decreases f, 1
  {
    if f.Empty? then before else PlacedAfter(PlacedTree(before, f, indent, p), f.others, indent, p)
  }

  /** The same for the first line of a forest and what is inside it. */
  function PlacedTree(before: seq<Node>, f: Forest, indent: nat, p: int): (all: seq<Node>)
    requires Printable(f) && f.Grove?
    ensures Starts(before, all) && |before| < |all| && all[|before|] == Node(p, indent, f.key, ValueText(f.tree))
    decreases f, 0
  {
    var first := before + [Node(p, indent, f.key, ValueText(f.tree))];
    if f.tree.Branch? then PlacedAfter(first, f.tree.forest, indent + 2, |before|) else first
  }

  /** A line of a forest, or a line inside one of its lines, which are numbered from `lo` and below `hi`. */
  predicate Belongs(n: Node, f: Forest, indent: nat, p: int, lo: nat, hi: nat) {
    n.indent >= indent && ((n.parent == p && Among(f, n.key)) || lo <= n.parent < hi)
  }

  ghost predicate AllBelong(all: seq<Node>, f: Forest, indent: nat, p: int, lo: nat) {
    forall i | lo <= i < |all| :: Belongs(all[i], f, indent, p, lo, |all|)
  }

  ghost predicate AllInside(mid: seq<Node>, indent: nat, lo: nat) {
    forall i | lo < i < |mid| :: mid[i].indent >= indent && lo <= mid[i].parent < |mid|
  }

  lemma {:induction false} PlacedBelong(before: seq<Node>, f: Forest, indent: nat, p: int)
    requires Printable(f)
    ensures AllBelong(PlacedAfter(before, f, indent, p), f, indent, p, |before|)
    decreases f, 1
  {
    if f.Grove? {
      var mid := PlacedTree(before, f, indent, p);
      var all := PlacedAfter(mid, f.others, indent, p);
      TreeBelongs(before, f, indent, p);
      PlacedBelong(mid, f.others, indent, p);
      BothBelong(mid, all, f, indent, p, |before|);
    }
  }

  lemma BothBelong(mid: seq<Node>, all: seq<Node>, f: Forest, indent: nat, p: int, lo: nat)
    requires f.Grove? && Starts(mid, all) && lo < |mid| && AllInside(mid, indent, lo)
        && AllBelong(all, f.others, indent, p, |mid|)
    requires mid[lo].parent == p && mid[lo].indent == indent && mid[lo].key == f.key
    ensures AllBelong(all, f, indent, p, lo)
  {
    forall i | lo <= i < |all| ensures Belongs(all[i], f, indent, p, lo, |all|) {
      if i < |mid| {
        assert all[i] == mid[i];
      } else {
        assert Belongs(all[i], f.others, indent, p, |mid|, |all|);
      }
    }
  }

  lemma {:induction false} TreeBelongs(before: seq<Node>, f: Forest, indent: nat, p: int)
    requires Printable(f) && f.Grove?
    ensures AllInside(PlacedTree(before, f, indent, p), indent, |before|)
    decreases f, 0
  {
    if f.tree.Branch? {
      var first := before + [Node(p, indent, f.key, [])];
      var mid := PlacedAfter(first, f.tree.forest, indent + 2, |before|);
      PlacedBelong(first, f.tree.forest, indent + 2, |before|);
      forall i | |before| < i < |mid| ensures mid[i].indent >= indent && |before| <= mid[i].parent < |mid| {
        assert Belongs(mid[i], f.tree.forest, indent + 2, |before|, |first|, |mid|);
      }
    }
  }

  lemma ParentUnique(nodes: seq<Node>, indent: nat, p: int)
    requires -1 <= p < |nodes| && (p >= 0 ==> Inside(nodes, p, indent))
    requires forall j | p < j < |nodes| && j >= 0 :: !Inside(nodes, j, indent)
    ensures ParentOf(nodes, indent) == p
  {
  }

  /** Lines indented at least as much change nothing for the lines after them. */
  lemma ParentStays(before: seq<Node>, more: seq<Node>, indent: nat)
    requires forall i | 0 <= i < |more| :: more[i].indent >= indent
    ensures ParentOf(before + more, indent) == ParentOf(before, indent)
  {
    var all, p := before + more, ParentOf(before, indent);
    forall j | 0 <= j < |all| ensures Inside(all, j, indent) <==> j < |before| && Inside(before, j, indent) {
      if j < |before| && Inside(before, j, indent) {
        assert forall k | j < k < |all| :: all[k] == if k < |before| then before[k] else more[k - |before|];
      }
      if j < |before| && Inside(all, j, indent) {
        assert forall k | j < k < |before| :: all[k] == before[k];
      }
    }
    ParentUnique(all, indent, p);
  }

  lemma ParentIsOpener(before: seq<Node>, n: Node, indent: nat)
    requires Opens(n) && indent > n.indent
    ensures ParentOf(before + [n], indent) == |before|
  {
    ParentUnique(before + [n], indent, |before|);
  }

  /** Take steps one after another until one fails; `number` steps went before them. */
  function Fold<S, T, E>(step: (S, T, nat) -> Result<S, E>, s: S, items: seq<T>, number: nat): Result<S, E>
    decreases |items|
  {
    if items == [] then Ok(s)
    else
      var next := step(s, items[0], number + 1);
      if next.Err? then next else Fold(step, next.value, items[1..], number + 1)
  }

  lemma {:induction false} FoldConcat<S, T, E>(
      step: (S, T, nat) -> Result<S, E>, s: S, x: seq<T>, y: seq<T>, number: nat)
    ensures
      var front := Fold(step, s, x, number);
      Fold(step, s, x + y, number) == if front.Err? then front else Fold(step, front.value, y, number + |x|)
    decreases |x|
  {
    if x == [] {
      assert x + y == y;
    } else {
      assert (x + y)[1..] == x[1..] + y;
      var next := step(s, x[0], number + 1);
      if next.Ok? {
        FoldConcat(step, next.value, x[1..], y, number + 1);
      }
    }
  }

  lemma FoldTwo<S, T, E>(step: (S, T, nat) -> Result<S, E>, s: S, x: seq<T>, y: seq<T>, number: nat, mid: S, end: S)
    requires Fold(step, s, x, number) == Ok(mid) && Fold(step, mid, y, number + |x|) == Ok(end)
    ensures Fold(step, s, x + y, number) == Ok(end)
  {
    FoldConcat(step, s, x, y, number);
  }

  lemma FoldOne<S, T, E>(step: (S, T, nat) -> Result<S, E>, s: S, item: T, number: nat)
    ensures Fold(step, s, [item], number) == step(s, item, number + 1)
  {
    var none: seq<T> := [item][1..];
    assert none == [];
  }

  /** Attach lines that were read, one after another; `number` lines went before them. */
  function PlaceOnto(nodes: seq<Node>, lines: seq<Line>, number: nat): Result<seq<Node>, Error> {
    Fold(Attach, nodes, lines, number)
  }

  function ReadAll(lines: seq<Text>): (read: seq<Line>)
    ensures |read| == |lines|
  {
    if lines == [] then [] else ReadAll(lines[..|lines| - 1]) + [ReadLine(lines[|lines| - 1])]
  }

  lemma {:induction false} ReadAllConcat(x: seq<Text>, y: seq<Text>)
    ensures ReadAll(x + y) == ReadAll(x) + ReadAll(y)
  {
    if y == [] {
      assert x + y == x && ReadAll(x) + ReadAll(y) == ReadAll(x);
    } else {
      ReadAllConcat(x, y[..|y| - 1]);
      assert (x + y)[..|x + y| - 1] == x + y[..|y| - 1];
    }
  }

  lemma {:induction false} PlaceIsPlaceOnto(lines: seq<Text>)
    ensures Place(lines) == PlaceOnto([], ReadAll(lines), 0)
    decreases |lines|
  {
    if lines != [] {
      var init, last := lines[..|lines| - 1], ReadLine(lines[|lines| - 1]);
      PlaceIsPlaceOnto(init);
      PlaceOneMore(ReadAll(init), last);
    }
  }

  lemma PlaceOneMore(x: seq<Line>, last: Line)
    ensures
      var front := PlaceOnto([], x, 0);
      PlaceOnto([], x + [last], 0) == if front.Err? then front else Attach(front.value, last, |x| + 1)
  {
    FoldConcat(Attach, [], x, [last], 0);
    var front := PlaceOnto([], x, 0);
    if front.Ok? {
      FoldOne(Attach, front.value, last, |x|);
    }
  }

  /** What the printed lines of a forest are read as. */
  function Entries(f: Forest, indent: nat): seq<Line>
    requires Printable(f)
    decreases f, 1
  {
    if f.Empty? then [] else TreeEntries(f, indent) + Entries(f.others, indent)
  }

  function TreeEntries(f: Forest, indent: nat): seq<Line>
    requires Printable(f) && f.Grove?
    decreases f, 0
  {
    [Entry(indent, f.key, ValueText(f.tree))] + if f.tree.Branch? then Entries(f.tree.forest, indent + 2) else []
  }

  lemma {:induction false} ReadPrinted(f: Forest, indent: nat)
    requires Printable(f) && OneLiners(f)
    ensures ReadAll(Print(f, indent)) == Entries(f, indent)
    decreases f
  {
    if f.Grove? {
      var line, inside := Render(indent, f.key, ValueText(f.tree)), PrintInside(f, indent);
      if f.tree.Branch? {
        ReadPrinted(f.tree.forest, indent + 2);
      } else {
        QuoteIsOneLine(f.tree.value.text);
      }
      ReadRendered(indent, f.key, ValueText(f.tree));
      ReadPrinted(f.others, indent);
      ReadOne(line);
      ReadAllConcat([line], inside);
      ReadAllConcat([line] + inside, Print(f.others, indent));
    }
  }

  lemma ReadOne(line: Text)
    ensures ReadAll([line]) == [ReadLine(line)]
  {
    var lines: seq<Text> := [line];
    assert lines[..0] == [];
  }

  /** The next lines belong to line `p`, which has none of the keys of the forest yet. */
  ghost predicate ReadyFor(before: seq<Node>, f: Forest, indent: nat, p: int) {
    && ParentOf(before, indent) == p
    && (forall i | 0 <= i < |before| :: before[i].parent < |before|)
    && (forall i | 0 <= i < |before| && before[i].parent == p :: !Among(f, before[i].key))
  }

  lemma {:induction false} PlaceForest(f: Forest, indent: nat, p: int, before: seq<Node>, number: nat)
    requires Printable(f) && ReadyFor(before, f, indent, p)
    ensures PlaceOnto(before, Entries(f, indent), number) == Ok(PlacedAfter(before, f, indent, p))
    decreases f, 1
  {
    if f.Grove? {
      var mid := PlacedTree(before, f, indent, p);
      var first := TreeEntries(f, indent);
      PlaceTree(f, indent, p, before, number);
      ReadyForOthers(f, indent, p, before, mid);
      PlaceForest(f.others, indent, p, mid, number + |first|);
      PlaceTwo(before, first, Entries(f.others, indent), number, mid, PlacedAfter(mid, f.others, indent, p));
    }
  }

  lemma PlaceTwo(before: seq<Node>, x: seq<Line>, y: seq<Line>, number: nat, mid: seq<Node>, all: seq<Node>)
    requires PlaceOnto(before, x, number) == Ok(mid) && PlaceOnto(mid, y, number + |x|) == Ok(all)
    ensures PlaceOnto(before, x + y, number) == Ok(all)
  {
    FoldTwo(Attach, before, x, y, number, mid, all);
  }

  /** The first line of a forest and the lines inside it. */
  lemma {:induction false} PlaceTree(f: Forest, indent: nat, p: int, before: seq<Node>, number: nat)
    requires f.Grove? && Printable(f) && ReadyFor(before, f, indent, p)
    ensures PlaceOnto(before, TreeEntries(f, indent), number) == Ok(PlacedTree(before, f, indent, p))
    decreases f, 0
  {
    var line := Entry(indent, f.key, ValueText(f.tree));
    var n := Node(p, indent, f.key, line.value);
    FoldOne(Attach, before, line, number);
    if f.tree.Branch? {
      ReadyForInner(f, indent, p, before, n);
      PlaceForest(f.tree.forest, indent + 2, |before|, before + [n], number + 1);
      PlaceTwo(before, [line], Entries(f.tree.forest, indent + 2), number, before + [n],
        PlacedTree(before, f, indent, p));
    } else {
      assert TreeEntries(f, indent) == [line];
    }
  }

  lemma ReadyForInner(f: Forest, indent: nat, p: int, before: seq<Node>, n: Node)
    requires f.Grove? && f.tree.Branch? && Printable(f) && ReadyFor(before, f, indent, p)
    requires n == Node(p, indent, f.key, [])
    ensures ReadyFor(before + [n], f.tree.forest, indent + 2, |before|)
  {
    ParentIsOpener(before, n, indent + 2);
  }

  lemma ReadyForOthers(f: Forest, indent: nat, p: int, before: seq<Node>, mid: seq<Node>)
    requires f.Grove? && Printable(f) && ReadyFor(before, f, indent, p) && mid == PlacedTree(before, f, indent, p)
    ensures ReadyFor(mid, f.others, indent, p)
  {
    TreeBelongs(before, f, indent, p);
    var more := mid[|before|..];
    assert mid == before + more;
    forall i | 0 <= i < |more| ensures more[i].indent >= indent {
      assert more[i] == mid[|before| + i];
    }
    ParentStays(before, more, indent);
    forall i | 0 <= i < |mid| ensures mid[i].parent < |mid| && (mid[i].parent == p ==> !Among(f.others, mid[i].key)) {
      assert i < |before| ==> mid[i] == before[i];
    }
  }

  // ---------------------------------------------------------------- the attached lines make the tree

  function Append(f: Forest, g: Forest): Forest {
    if f.Empty? then g else Grove(f.key, f.tree, Append(f.others, g))
  }

  lemma {:induction false} AppendEmpty(f: Forest)
    ensures Append(f, Empty) == f
  {
    if f.Grove? {
      AppendEmpty(f.others);
    }
  }

  lemma {:induction false} NoChildren(json: JsonParser, nodes: seq<Node>, p: int, from: nat)
    requires forall i | from <= i < |nodes| :: nodes[i].parent != p
    ensures Children(json, nodes, p, from) == Empty
    decreases |nodes| - from
  {
    if from < |nodes| {
      NoChildren(json, nodes, p, from + 1);
    }
  }

  lemma {:induction false} SkipNodes(json: JsonParser, nodes: seq<Node>, p: int, from: nat, to: nat)
    requires from <= to <= |nodes| && forall i | from <= i < to :: nodes[i].parent != p
    ensures Children(json, nodes, p, from) == Children(json, nodes, p, to)
    decreases |nodes| - from
  {
    if from < to {
      SkipNodes(json, nodes, p, from + 1, to);
    }
  }

  /** The lines of a forest stand in `nodes` after `before`, and no later line belongs to any of them. */
  ghost predicate StandsIn(nodes: seq<Node>, before: seq<Node>, all: seq<Node>) {
    && Starts(before, all)
    && Starts(all, nodes)
    && forall i | |all| <= i < |nodes| :: !(|before| <= nodes[i].parent < |all|)
  }

  lemma {:induction false} ChildrenOfPlaced(json: JsonParser, nodes: seq<Node>, f: Forest, indent: nat, p: int,
      before: seq<Node>)
    requires Printable(f) && ReadsQuotes(json) && p < |before|
        && StandsIn(nodes, before, PlacedAfter(before, f, indent, p))
    ensures Children(json, nodes, p, |before|)
        == Append(f, Children(json, nodes, p, |PlacedAfter(before, f, indent, p)|))
    decreases f, 1
  {
    if f.Grove? {
      var mid := PlacedTree(before, f, indent, p);
      PartsStand(nodes, f, indent, p, before, mid, PlacedAfter(mid, f.others, indent, p));
      ChildrenOfPlaced(json, nodes, f.others, indent, p, mid);
      SkipNodes(json, nodes, p, |before| + 1, |mid|);
      FirstChild(json, nodes, f, indent, p, before, mid);
    }
  }

  /** The first line of a forest, read back with what is inside it. */
  lemma {:induction false} FirstChild(json: JsonParser, nodes: seq<Node>, f: Forest, indent: nat, p: int,
      before: seq<Node>, mid: seq<Node>)
    requires Printable(f) && f.Grove? && ReadsQuotes(json) && mid == PlacedTree(before, f, indent, p)
    requires Starts(mid, nodes) && |before| < |nodes| && nodes[|before|] == Node(p, indent, f.key, ValueText(f.tree))
    requires forall i | |mid| <= i < |nodes| :: !(|before| <= nodes[i].parent < |mid|)
    ensures Children(json, nodes, p, |before|) == Grove(f.key, f.tree, Children(json, nodes, p, |before| + 1))
    decreases f, 0
  {
    if f.tree.Branch? {
      ChildrenOfPlaced(json, nodes, f.tree.forest, indent + 2, |before|, before + [Node(p, indent, f.key, [])]);
      NoChildren(json, nodes, |before|, |mid|);
      AppendEmpty(f.tree.forest);
    } else {
      ScalarOfQuote(json, f.tree.value.text);
    }
  }

  lemma PartsStand(nodes: seq<Node>, f: Forest, indent: nat, p: int, before: seq<Node>, mid: seq<Node>,
      all: seq<Node>)
    requires Printable(f) && f.Grove? && p < |before| && mid == PlacedTree(before, f, indent, p)
    requires all == PlacedAfter(mid, f.others, indent, p) && StandsIn(nodes, before, all)
    ensures StandsIn(nodes, mid, all)
    ensures Starts(mid, nodes) && nodes[|before|] == Node(p, indent, f.key, ValueText(f.tree))
    ensures forall i | |mid| <= i < |nodes| :: !(|before| <= nodes[i].parent < |mid|)
    ensures forall i | |before| < i < |mid| :: nodes[i].parent != p
  {
    PartsBelong(f, indent, p, before, mid, all);
    BothStand(nodes, f.others, indent, p, |before|, mid, all);
  }

  lemma PartsBelong(f: Forest, indent: nat, p: int, before: seq<Node>, mid: seq<Node>, all: seq<Node>)
    requires Printable(f) && f.Grove? && mid == PlacedTree(before, f, indent, p)
    requires all == PlacedAfter(mid, f.others, indent, p)
    ensures all == PlacedAfter(before, f, indent, p) && Starts(mid, all) && |before| < |mid|
    ensures mid[|before|] == Node(p, indent, f.key, ValueText(f.tree))
    ensures AllInside(mid, indent, |before|) && AllBelong(all, f.others, indent, p, |mid|)
  {
    TreeBelongs(before, f, indent, p);
    PlacedBelong(mid, f.others, indent, p);
  }

  lemma BothStand(nodes: seq<Node>, f: Forest, indent: nat, p: int, lo: nat, mid: seq<Node>, all: seq<Node>)
    requires p < lo < |mid| && Starts(mid, all) && Starts(all, nodes)
    requires AllInside(mid, indent, lo) && AllBelong(all, f, indent, p, |mid|)
    requires forall i | |all| <= i < |nodes| :: !(lo <= nodes[i].parent < |all|)
    ensures StandsIn(nodes, mid, all) && Starts(mid, nodes) && nodes[lo] == mid[lo]
    ensures forall i | |mid| <= i < |nodes| :: !(lo <= nodes[i].parent < |mid|)
    ensures forall i | lo < i < |mid| :: nodes[i].parent != p
  {
    forall i | 0 <= i < |mid| ensures nodes[i] == mid[i] {
      assert all[i] == mid[i];
    }
    forall i | |mid| <= i < |nodes| ensures !(lo <= nodes[i].parent < |mid|) {
      if i < |all| {
        assert nodes[i] == all[i] && Belongs(all[i], f, indent, p, |mid|, |all|);
      }
    }
  }

  // ---------------------------------------------------------------- the text

  /** A line that splitting a text leaves as it is. */
  ghost predicate WholeLine(x: Text) {
    NEWLINE !in x && WithoutReturn(x) == x
  }

  lemma RenderedIsWholeLine(indent: nat, key: Text, value: Text)
    requires IsKey(key) && NoBreak(value)
    ensures WholeLine(Render(indent, key, value))
  {
    assert NoBreak(Render(indent, key, value));
  }

  lemma {:induction false} PrintedLines(f: Forest, indent: nat)
    requires Printable(f)
    ensures forall line | line in Print(f, indent) :: WholeLine(line)
    decreases f
  {
    if f.Grove? {
      if f.tree.Branch? {
        PrintedLines(f.tree.forest, indent + 2);
      } else {
        QuoteIsOneLine(f.tree.value.text);
      }
      RenderedIsWholeLine(indent, f.key, ValueText(f.tree));
      PrintedLines(f.others, indent);
    }
  }

  lemma LinesOfPrinted(f: Forest)
    requires Printable(f) && f.Grove?
    ensures LinesOf(PrintText(f)) == Print(f, 0)
  {
    var lines := Print(f, 0);
    PrintedLines(f, 0);
    assert forall i | 0 <= i < |lines| :: lines[i] in lines && WholeLine(lines[i]);
    Pieces.SplitOfJoin(lines, NEWLINE);
  }

  lemma LoadEmpty(json: JsonParser)
    ensures Load(json, []) == Ok(Empty)
  {
    var lines: seq<Text> := LinesOf([]);
    assert lines == [[]] && lines[..0] == [];
    assert Place(lines) == Ok([]);
  }

  lemma LoadPlaced(json: JsonParser, f: Forest)
    requires Printable(f) && ReadsQuotes(json)
    ensures Children(json, PlacedAfter([], f, 0, -1), -1, 0) == f
  {
    ChildrenOfPlaced(json, PlacedAfter([], f, 0, -1), f, 0, -1, []);
    AppendEmpty(f);
  }

  lemma PlacePrinted(f: Forest)
    requires Printable(f) && OneLiners(f)
    ensures Place(Print(f, 0)) == Ok(PlacedAfter([], f, 0, -1))
  {
    PlaceForest(f, 0, -1, [], 0);
    ReadPrinted(f, 0);
    PlaceIsPlaceOnto(Print(f, 0));
  }

  lemma UnsupportedStops(lines: seq<Text>, i: nat)
    requires i < |lines| && ReadLine(lines[i]).Unsupported?
    ensures Place(lines).Err?
  {
    if Place(lines[..i]).Ok? {
      PlaceNext(lines, i);
      PlaceStops(lines, i + 1);
    } else {
      PlaceStops(lines, i);
    }
  }

  /** A leaf that holds a line separator is printed on a line that cannot be read. */
  lemma {:induction false} SeparatorIsUnsupported(f: Forest, indent: nat) returns (line: Text)
    requires Printable(f) && !OneLiners(f)
    ensures line in Print(f, indent) && ReadLine(line).Unsupported?
    decreases f
  {
    if !OneLiners(f.others) {
      line := SeparatorIsUnsupported(f.others, indent);
    } else if f.tree.Branch? {
      line := SeparatorIsUnsupported(f.tree.forest, indent + 2);
    } else {
      line := Render(indent, f.key, ValueText(f.tree));
      QuoteIsOneLine(f.tree.value.text);
      ReadRendered(indent, f.key, ValueText(f.tree));
    }
  }

  /** Parsing a printed forest gives it back, exactly if no leaf holds a line separator. */
  lemma LoadingUndoesPrinting(json: JsonParser, f: Forest)
    requires Printable(f) && ReadsQuotes(json)
    ensures Load(json, PrintText(f)) == Ok(f) <==> OneLiners(f)
  {
    if f.Empty? {
      LoadEmpty(json);
    } else {
      LinesOfPrinted(f);
      if OneLiners(f) {
        PlacePrinted(f);
        LoadPlaced(json, f);
      } else {
        var line := SeparatorIsUnsupported(f, 0);
        var i :| 0 <= i < |Print(f, 0)| && Print(f, 0)[i] == line;
        UnsupportedStops(Print(f, 0), i);
      }
    }
  }

  /** A mapping of one key to the text U+2028 does not come back. */
  lemma SeparatorIsLost(json: JsonParser)
    requires ReadsQuotes(json)
    ensures
      var f := Grove([97], Leaf(Word([0x2028])), Empty);
      Load(json, PrintText(f)) != Ok(f)
  {
    var f := Grove([97], Leaf(Word([0x2028])), Empty);
    assert [0x2028][0] == 0x2028;
    LoadingUndoesPrinting(json, f);
  }
}
