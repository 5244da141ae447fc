/**
 The YAML subset of runtime manifests: comment stripping, and the loop that nests lines by
 indentation with a stack. The nesting is specified without the stack.
 */
module Yaml {
  import opened Unicode
  import opened Wrappers
  import Json
  import Pieces = Text

  const TAB: Unit := 9
  const NEWLINE: Unit := 10
  const RETURN: Unit := 13
  const SPACE: Unit := 32
  const HASH: Unit := 35
  const APOSTROPHE: Unit := 39

  /** What `\s` matches and `trim` removes. */
  predicate IsSpace(u: Unit) {
    || 9 <= u <= 13 || u == 32 || u == 0xA0 || u == 0x1680 || 0x2000 <= u <= 0x200A
    || u == 0x2028 || u == 0x2029 || u == 0x202F || u == 0x205F || u == 0x3000 || u == 0xFEFF
  }

  /** What `.` does not match. */
  predicate IsTerminator(u: Unit) {
    u == NEWLINE || u == RETURN || u == 0x2028 || u == 0x2029
  }

  /** No character of the text is one that `.` does not match. */
  predicate NoTerminator(x: Text) {
    forall i | 0 <= i < |x| :: !IsTerminator(x[i])
  }

  /** Letters, digits, underscore, dot and hyphen. */
  predicate IsKeyUnit(u: Unit) {
    65 <= u <= 90 || 97 <= u <= 122 || 48 <= u <= 57 || u == 95 || u == 46 || u == 45
  }

  function Leading(x: Text): (n: nat)
    ensures n <= |x| && (n < |x| ==> !IsSpace(x[n])) && forall i | 0 <= i < n :: IsSpace(x[i])
  {
    if x != [] && IsSpace(x[0]) then 1 + Leading(x[1..]) else 0
  }

  function TrimEnd(x: Text): (r: Text)
    ensures |r| <= |x| && r == x[..|r|]
  {
    if x != [] && IsSpace(x[|x| - 1]) then TrimEnd(x[..|x| - 1]) else x
  }

  // ---------------------------------------------------------------- comments

  datatype Quoting = Outside | Single | Double | Escaped

  /** Where one more character leaves a reader of quotes. */
  function After(s: Quoting, u: Unit): Quoting {
    match s
    case Outside => if u == QUOTE then Double else if u == APOSTROPHE then Single else Outside
    case Single => if u == APOSTROPHE then Outside else Single
    case Double => if u == BACKSLASH then Escaped else if u == QUOTE then Outside else Double
    case Escaped => Double
  }

  function Scan(s: Quoting, x: Text): Quoting {
    if x == [] then s else After(Scan(s, x[..|x| - 1]), x[|x| - 1])
  }

  /** A comment starts at `k`: a hash outside quotes, in front or after white space. */
  predicate CommentAt(line: Text, k: nat) {
    k < |line| && line[k] == HASH && Scan(Outside, line[..k]) == Outside && (k == 0 || IsSpace(line[k - 1]))
  }

  function CommentStart(line: Text, from: nat): (k: nat)
    requires from <= |line|
    ensures from <= k <= |line| && (k < |line| ==> CommentAt(line, k))
    ensures forall i | from <= i < k :: !CommentAt(line, i)
    decreases |line| - from
  {
    if from == |line| || CommentAt(line, from) then from else CommentStart(line, from + 1)
  }

  /** The line without its first comment and the white space before it. */
  function Strip(line: Text): Text {
    var k := CommentStart(line, 0);
    if k == |line| then line else TrimEnd(line[..k])
  }

  lemma ScanStep(line: Text, i: nat)
    requires i < |line|
    ensures Scan(Outside, line[..i + 1]) == After(Scan(Outside, line[..i]), line[i])
  {
    assert line[..i + 1][..i] == line[..i];
  }

  method StripYamlComment(sourceLine: Text) returns (r: Text)
    ensures r == Strip(sourceLine)
  {
    var single, double, escaped := false, false, false;
    var index := 0;
    while index < |sourceLine|
      invariant index <= |sourceLine|
      invariant Scan(Outside, sourceLine[..index])
                == if double then if escaped then Escaped else Double else if single then Single else Outside
      invariant (escaped ==> double) && !(single && double)
      invariant forall i | 0 <= i < index :: !CommentAt(sourceLine, i)
      decreases |sourceLine| - index
    {
      var c := sourceLine[index];
      ScanStep(sourceLine, index);
      if double {
        if escaped {
          escaped := false;
        } else if c == BACKSLASH {
          escaped := true;
        } else if c == QUOTE {
          double := false;
        }
      } else if single {
        if c == APOSTROPHE && index + 1 < |sourceLine| && sourceLine[index + 1] == APOSTROPHE {
          index := index + 1;
          ScanStep(sourceLine, index);
        } else if c == APOSTROPHE {
          single := false;
        }
      } else if c == QUOTE {
        double := true;
      } else if c == APOSTROPHE {
        single := true;
      } else if c == HASH && (index == 0 || IsSpace(sourceLine[index - 1])) {
        FirstComment(sourceLine, index);
        return TrimEnd(sourceLine[..index]);
      }
      index := index + 1;
    }
    return sourceLine;
  }

  lemma FirstComment(line: Text, k: nat)
    requires CommentAt(line, k) && forall i | 0 <= i < k :: !CommentAt(line, i)
    ensures CommentStart(line, 0) == k
  {
  }

  /** A comment is cut off outside quotes, and nothing is left for a second cut. */
  lemma StrippingIsFinal(line: Text)
    ensures Strip(Strip(line)) == Strip(line)
    ensures Strip(line) != line ==>
              exists k | 0 <= k < |line| :: CommentAt(line, k) && Strip(line) == TrimEnd(line[..k])
  {
    var r, k := Strip(line), CommentStart(line, 0);
    forall i: nat ensures !CommentAt(r, i) {
      if i < |r| {
        assert r[..i] == line[..i];
        assert !CommentAt(line, i);
      }
    }
    if r != line {
      assert CommentAt(line, k);
    }
  }

  // ---------------------------------------------------------------- one line

  datatype Line =
    | Skipped
    | Tabbed
    | Unsupported
    | Entry(indent: nat, key: Text, value: Text)

  function KeyLength(x: Text): (n: nat)
    ensures n <= |x| && (n < |x| ==> !IsKeyUnit(x[n])) && forall i | 0 <= i < n :: IsKeyUnit(x[i])
  {
    if x != [] && IsKeyUnit(x[0]) then 1 + KeyLength(x[1..]) else 0
  }

  /** A key, a colon and a value, with white space around the colon. */
  function MatchLine(indent: nat, body: Text): Line {
    var n := KeyLength(body);
    var gap := n + Leading(body[n..]);
    if n == 0 || gap == |body| || body[gap] != COLON then Unsupported
    else
      var value := body[gap + 1..][Leading(body[gap + 1..])..];
      if NoTerminator(value) then Entry(indent, body[..n], value) else Unsupported
  }

  function ReadLine(source: Text): Line {
    var lead := Leading(source);
    if lead == |source| || source[lead] == HASH then Skipped
    else if TAB in source[..lead] then Tabbed
    else
      var line := Strip(source);
      MatchLine(Leading(line), line[Leading(line)..])
  }

  // ---------------------------------------------------------------- nesting

  datatype Error = UsesTabs(line: nat) | OutsideSubset(line: nat) | RepeatsKey(line: nat, key: Text)

  /** A line that was attached to a mapping: the number of the line that opened it, or -1 for the root. */
  datatype Node = Node(parent: int, indent: nat, key: Text, value: Text)

  predicate Opens(n: Node) {
    n.value == []
  }

  /** A line at `indent` after `nodes` would be inside what line `j` opened: all lines since are indented more. */
  predicate Inside(nodes: seq<Node>, j: nat, indent: nat)
    requires j < |nodes|
  {
    && Opens(nodes[j]) && indent > nodes[j].indent
    && forall k | j < k < |nodes| :: nodes[k].indent > nodes[j].indent
  }

  /** The latest line that a new line would be inside of, or the root. */
  function ParentBefore(nodes: seq<Node>, indent: nat, upTo: nat): (p: int)
    requires upTo <= |nodes|
    ensures -1 <= p < upTo && (p >= 0 ==> Inside(nodes, p, indent))
    ensures forall j | p < j < upTo && j >= 0 :: !Inside(nodes, j, indent)
  {
    if upTo == 0 then -1
    else if Inside(nodes, upTo - 1, indent) then upTo - 1
    else ParentBefore(nodes, indent, upTo - 1)
  }

  function ParentOf(nodes: seq<Node>, indent: nat): int {
    ParentBefore(nodes, indent, |nodes|)
  }

  /** `hasOwnProperty` of the mapping that line `parent` opened. */
  predicate HasKey(nodes: seq<Node>, parent: int, key: Text) {
    exists i | 0 <= i < |nodes| :: nodes[i].parent == parent && nodes[i].key == key
  }

  /** Attach one line, which is line `number` of the text. */
  function Attach(nodes: seq<Node>, line: Line, number: nat): Result<seq<Node>, Error> {
    match line
    case Skipped => Ok(nodes)
    case Tabbed => Err(UsesTabs(number))
    case Unsupported => Err(OutsideSubset(number))
    case Entry(indent, key, value) =>
      var parent := ParentOf(nodes, indent);
      if HasKey(nodes, parent, key) then Err(RepeatsKey(number, key))
      else Ok(nodes + [Node(parent, indent, key, value)])
  }

  /** Attach all lines, or stop at the first that cannot be. */
  function Place(lines: seq<Text>): Result<seq<Node>, Error> {
    if lines == [] then Ok([])
    else
      var before := Place(lines[..|lines| - 1]);
      if before.Err? then before else Attach(before.value, ReadLine(lines[|lines| - 1]), |lines|)
  }

  /** Line `j` opened a mapping that all later lines are indented into. */
  ghost predicate IsOpen(nodes: seq<Node>, j: int) {
    0 <= j < |nodes| && Opens(nodes[j]) && forall k | j < k < |nodes| :: nodes[k].indent > nodes[j].indent
  }

  /** The stack holds the root, and the open lines in order. */
  ghost predicate StackFits(nodes: seq<Node>, stack: seq<int>) {
    && stack != [] && stack[0] == -1
    && (forall s | 0 < s < |stack| :: IsOpen(nodes, stack[s]))
    && (forall s, t | 0 <= s < t < |stack| :: stack[s] < stack[t])
    && (forall j | IsOpen(nodes, j) :: j in stack)
  }

  function IndentOf(nodes: seq<Node>, j: int): int
    requires -1 <= j < |nodes|
  {
    if j == -1 then -1 else nodes[j].indent
  }

  /** The indents on the stack increase. */
  lemma StackIndentsIncrease(nodes: seq<Node>, stack: seq<int>, s: nat, t: nat)
    requires StackFits(nodes, stack) && s < t < |stack|
    ensures -1 <= stack[s] < |nodes| && -1 <= stack[t] < |nodes|
        && IndentOf(nodes, stack[s]) < IndentOf(nodes, stack[t])
  {
    assert IsOpen(nodes, stack[t]);
    if s > 0 {
      assert IsOpen(nodes, stack[s]);
    }
  }

  /** What popping leaves: the part of the stack that a line at `indent` is inside of. */
  ghost predicate Popped(nodes: seq<Node>, stack: seq<int>, left: seq<int>, indent: nat) {
    && 0 < |left| <= |stack| && left == stack[..|left|]
    && forall s | |left| <= s < |stack| :: indent <= IndentOfOpen(nodes, stack[s])
  }

  ghost function IndentOfOpen(nodes: seq<Node>, j: int): int {
    if 0 <= j < |nodes| then nodes[j].indent else -1
  }

  lemma TopIsParent(nodes: seq<Node>, stack: seq<int>, left: seq<int>, indent: nat)
    requires StackFits(nodes, stack) && Popped(nodes, stack, left, indent)
    requires |left| > 1 ==> indent > IndentOfOpen(nodes, left[|left| - 1])
    ensures left[|left| - 1] == ParentOf(nodes, indent)
  {
    var top, p := left[|left| - 1], ParentOf(nodes, indent);
    if |left| > 1 {
      assert IsOpen(nodes, stack[|left| - 1]);
      assert Inside(nodes, top, indent);
    }
    if p >= 0 {
      assert IsOpen(nodes, p) && p in stack;
      var s :| 0 <= s < |stack| && stack[s] == p;
      assert s < |left|;
    }
  }

  lemma OpenAfter(nodes: seq<Node>, n: Node, j: int)
    requires j < |nodes|
    ensures IsOpen(nodes + [n], j) <==> IsOpen(nodes, j) && n.indent > IndentOfOpen(nodes, j)
  {
    var more := nodes + [n];
    assert more[|nodes|] == n;
    assert forall k | 0 <= k < |nodes| :: more[k] == nodes[k];
  }

  /** After popping, the stack holds the lines that stay open. */
  lemma LeftIsOpen(nodes: seq<Node>, stack: seq<int>, left: seq<int>, n: Node, j: int)
    requires StackFits(nodes, stack) && Popped(nodes, stack, left, n.indent) && j < |nodes|
    requires |left| > 1 ==> n.indent > IndentOfOpen(nodes, left[|left| - 1])
    ensures j == -1 || IsOpen(nodes + [n], j) <==> j in left
  {
    OpenAfter(nodes, n, j);
    if IsOpen(nodes, j) && n.indent > nodes[j].indent {
      var s :| 0 <= s < |stack| && stack[s] == j;
      assert left[s] == j;
    }
    if j in left && j != -1 {
      var s :| 0 <= s < |left| && left[s] == j;
      assert stack[s] == j && IsOpen(nodes, stack[s]);
      if s < |left| - 1 {
        StackIndentsIncrease(nodes, stack, s, |left| - 1);
      }
    }
  }

  /** The stack holds the root, and in order the open lines before `bound`. */
  ghost predicate FitsBelow(nodes: seq<Node>, stack: seq<int>, bound: nat) {
    && stack != [] && stack[0] == -1
    && (forall s | 0 < s < |stack| :: IsOpen(nodes, stack[s]))
    && (forall s | 0 <= s < |stack| :: stack[s] < bound)
    && (forall s, t | 0 <= s < t < |stack| :: stack[s] < stack[t])
    && (forall j | IsOpen(nodes, j) && j < bound :: j in stack)
  }

  lemma LeftFits(nodes: seq<Node>, stack: seq<int>, left: seq<int>, n: Node, more: seq<Node>)
    requires StackFits(nodes, stack) && Popped(nodes, stack, left, n.indent) && more == nodes + [n]
    requires |left| > 1 ==> n.indent > IndentOfOpen(nodes, left[|left| - 1])
    ensures FitsBelow(more, left, |nodes|)
  {
    forall s | 0 <= s < |left| ensures left[s] < |nodes| && (s > 0 ==> IsOpen(nodes + [n], left[s])) {
      assert left[s] == stack[s] && left[s] in left;
      assert s > 0 ==> IsOpen(nodes, stack[s]);
      LeftIsOpen(nodes, stack, left, n, left[s]);
    }
    forall j | IsOpen(nodes + [n], j) && j < |nodes| ensures j in left {
      LeftIsOpen(nodes, stack, left, n, j);
    }
  }

  lemma PushFits(nodes: seq<Node>, left: seq<int>, node: Node, last: nat)
    requires |nodes| == last + 1 && nodes[last] == node && FitsBelow(nodes, left, last)
    ensures StackFits(nodes, if node.value == [] then left + [last] else left)
  {
    assert IsOpen(nodes, last) <==> Opens(nodes[last]);
    var stack := if Opens(nodes[last]) then left + [last] else left;
    forall j | IsOpen(nodes, j) ensures j in stack {
      if j == last {
        assert stack[|left|] == last;
      } else {
        var s :| 0 <= s < |left| && left[s] == j;
        assert stack[s] == j;
      }
    }
  }

  /** The lines of a text, between line feeds with or without a carriage return before them. */
  function LinesOf(text: Text): seq<Text> {
    var pieces := Pieces.Split(text, NEWLINE);
    seq(|pieces|, i requires 0 <= i < |pieces| => if i < |pieces| - 1 then WithoutReturn(pieces[i]) else pieces[i])
  }

  function WithoutReturn(x: Text): Text {
    if x != [] && x[|x| - 1] == RETURN then x[..|x| - 1] else x
  }

  method Pop(nodes: seq<Node>, stack: seq<int>, indent: nat) returns (left: seq<int>)
    requires StackFits(nodes, stack)
    ensures Popped(nodes, stack, left, indent)
    ensures |left| > 1 ==> indent > IndentOfOpen(nodes, left[|left| - 1])
  {
    left := stack;
    assert forall s | 0 < s < |stack| :: 0 <= stack[s] < |nodes| by {
      assert forall s | 0 < s < |stack| :: IsOpen(nodes, stack[s]);
    }
    while |left| > 1 && indent <= nodes[left[|left| - 1]].indent
      invariant Popped(nodes, stack, left, indent)
      decreases |left|
    {
      left := left[..|left| - 1];
    }
  }

  /** The part of the loop that attaches a line: pop, look for the key, and push. */
  method AttachEntry(nodes: seq<Node>, stack: seq<int>, line: Line, number: nat)
    returns (r: Result<(seq<Node>, seq<int>), Error>)
    requires StackFits(nodes, stack) && line.Entry?
    ensures r.Err? ==> Attach(nodes, line, number) == Err(r.error)
    ensures r.Ok? ==> Attach(nodes, line, number) == Ok(r.value.0) && StackFits(r.value.0, r.value.1)
  {
    var left := Pop(nodes, stack, line.indent);
    TopIsParent(nodes, stack, left, line.indent);
    var parent := left[|left| - 1];
    if HasKey(nodes, parent, line.key) {
      return Err(RepeatsKey(number, line.key));
    }
    var node := Node(parent, line.indent, line.key, line.value);
    AttachedFits(nodes, stack, left, node);
    return Ok((nodes + [node], if line.value == [] then left + [|nodes|] else left));
  }

  lemma AttachedFits(nodes: seq<Node>, stack: seq<int>, left: seq<int>, node: Node)
    requires StackFits(nodes, stack) && Popped(nodes, stack, left, node.indent)
    requires |left| > 1 ==> node.indent > IndentOfOpen(nodes, left[|left| - 1])
    ensures StackFits(nodes + [node], if node.value == [] then left + [|nodes|] else left)
  {
    LeftFits(nodes, stack, left, node, nodes + [node]);
    PushFits(nodes + [node], left, node, |nodes|);
  }

  lemma PlaceNext(lines: seq<Text>, index: nat)
    requires index < |lines| && Place(lines[..index]).Ok?
    ensures Place(lines[..index + 1]) == Attach(Place(lines[..index]).value, ReadLine(lines[index]), index + 1)
  {
    assert lines[..index + 1][..index] == lines[..index];
  }

  method ParseSimpleYaml(text: Text) returns (r: Result<seq<Node>, Error>)
    ensures r == Place(LinesOf(text))
  {
    var lines := LinesOf(text);
    var nodes: seq<Node> := [];
    var stack := [-1];
    for index := 0 to |lines|
      invariant Place(lines[..index]) == Ok(nodes) && StackFits(nodes, stack)
    {
      PlaceNext(lines, index);
      var line := ReadLine(lines[index]);
      if line.Skipped? {
        continue;
      }
      if !line.Entry? {
        PlaceStops(lines, index + 1);
        return Err(if line.Tabbed? then UsesTabs(index + 1) else OutsideSubset(index + 1));
      }
      var attached := AttachEntry(nodes, stack, line, index + 1);
      if attached.Err? {
        PlaceStops(lines, index + 1);
        return Err(attached.error);
      }
      nodes, stack := attached.value.0, attached.value.1;
    }
    assert lines[..|lines|] == lines;
    return Ok(nodes);
  }

  /** The first error is the error of the whole text. */
  lemma {:induction false} PlaceStops(lines: seq<Text>, upTo: nat)
    requires upTo <= |lines| && Place(lines[..upTo]).Err?
    ensures Place(lines) == Place(lines[..upTo])
    decreases |lines|
  {
    if upTo < |lines| {
      assert lines[..|lines| - 1][..upTo] == lines[..upTo];
      PlaceStops(lines[..|lines| - 1], upTo);
    } else {
      assert lines[..upTo] == lines;
    }
  }
}
