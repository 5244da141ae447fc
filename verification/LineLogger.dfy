/**
 The logger that cuts the output of a process into lines and limits their rate. Characters stand
 for the 16-bit units of JavaScript text, and each chunk has been decoded already.
 */
module LineLogger {
  import opened Sequences

  const TRUNCATED := " \U{2026}[truncated]"

  // ---------------------------------------------------------------- which lines a text holds

  /** The lines completed so far, as they are shown, and the text of the line that is not complete. */
  datatype Assembly = Assembly(lines: seq<string>, pending: string)

  function Show(line: string, limit: nat): string {
    if |line| <= limit then line else line[..limit] + TRUNCATED
  }

  function Shown(line: string, limit: nat): seq<string> {
    if line == "" then [] else [Show(line, limit)]
  }

  predicate EndsWithReturn(x: string) {
    x != "" && x[|x| - 1] == '\r'
  }

  function StripReturn(x: string): string {
    if EndsWithReturn(x) then x[..|x| - 1] else x
  }

  function IndexOf(x: string, c: char): (i: nat)
    requires c in x
    ensures i < |x| && x[i] == c && c !in x[..i]
  {
    if x[0] == c then 0 else
      var i := IndexOf(x[1..], c) + 1;
      assert x[..i] == [x[0]] + x[1..][..i - 1];
      i
  }

  function Complete(a: Assembly, segment: string, limit: nat): Assembly {
    Assembly(a.lines + Shown(a.pending + segment, limit), "")
  }

  /** What one more chunk adds. */
  function Feed(a: Assembly, text: string, limit: nat): Assembly
    decreases |text|
  {
    if '\n' !in text then
      Assembly(a.lines, a.pending + text)
    else
      var n := IndexOf(text, '\n');
      Feed(Complete(a, StripReturn(text[..n]), limit), text[n + 1..], limit)
  }

  function FeedAll(a: Assembly, chunks: seq<string>, limit: nat): Assembly
    decreases |chunks|
  {
    if chunks == [] then a else FeedAll(Feed(a, chunks[0], limit), chunks[1..], limit)
  }

  function Concat(chunks: seq<string>): string {
    if chunks == [] then "" else chunks[0] + Concat(chunks[1..])
  }

  // ---------------------------------------------------------------- whether chunks matter

  lemma IndexOfUnique(x: string, c: char, i: nat)
    requires i < |x| && x[i] == c && c !in x[..i]
    ensures IndexOf(x, c) == i
  {
    assert !(IndexOf(x, c) < i) && !(i < IndexOf(x, c));
  }

  lemma FeedPart(a: Assembly, text: string, all: Assembly, limit: nat)
    requires '\n' !in text && Feed(a, text, limit) == all
    ensures all == a.(pending := a.pending + text)
  {
  }

  lemma FeedLine(a: Assembly, segment: string, rest: string, limit: nat)
    requires '\n' !in segment
    ensures Feed(a, segment + "\n" + rest, limit) == Feed(Complete(a, StripReturn(segment), limit), rest, limit)
  {
    var text := segment + "\n" + rest;
    var n := |segment|;
    assert text[n] == '\n' && text[..n] == segment && text[n + 1..] == rest;
    IndexOfUnique(text, '\n', n);
  }

  lemma CutLine(text: string) returns (segment: string, rest: string)
    requires '\n' in text
    ensures '\n' !in segment && text == segment + "\n" + rest && |rest| < |text|
  {
    var n := IndexOf(text, '\n');
    segment, rest := text[..n], text[n + 1..];
  }

  /** Lines already complete are never looked at again. */
  lemma {:induction false} FeedAppends(a: Assembly, text: string, limit: nat)
    ensures
      var more := Feed(Assembly([], a.pending), text, limit);
      Feed(a, text, limit) == Assembly(a.lines + more.lines, more.pending)
    decreases |text|
  {
    if '\n' !in text {
      assert a.lines + [] == a.lines;
    } else {
      var segment, rest := CutLine(text);
      var b := Complete(a, StripReturn(segment), limit);
      var c := Complete(Assembly([], a.pending), StripReturn(segment), limit);
      FeedLine(a, segment, rest, limit);
      FeedLine(Assembly([], a.pending), segment, rest, limit);
      FeedAppends(b, rest, limit);
      FeedAppends(c, rest, limit);
      var line := Shown(a.pending + StripReturn(segment), limit);
      EmptyIsUnit(line);
      Regroup(a.lines, line, Feed(Assembly([], ""), rest, limit).lines);
    }
  }

  /** A chunk that ends in a carriage return, before one that starts with a newline. */
  predicate CutsLineEnd(x: string, y: string) {
    EndsWithReturn(x) && y != "" && y[0] == '\n'
  }

  lemma StripReturnOfConcat(x: string, y: string)
    requires y != "" || !EndsWithReturn(x)
    ensures StripReturn(x + y) == x + StripReturn(y)
  {
    if y == "" {
      assert x + y == x && x + StripReturn(y) == x;
    } else if EndsWithReturn(y) {
      assert (x + y)[..|x + y| - 1] == x + y[..|y| - 1];
    }
  }

  lemma ShownLengthens(line: string, limit: nat)
    ensures
      var x, y := Shown(line + "\r", limit), Shown(line, limit);
      if |line| > limit then x == y else Total(x) > Total(y)
  {
    var longer := line + "\r";
    if |line| > limit {
      assert longer[..limit] == line[..limit];
    } else {
      TotalOfShown(longer, limit);
      TotalOfShown(line, limit);
    }
  }

  function Total(lines: seq<string>): nat {
    if lines == [] then 0 else |lines[0]| + Total(lines[1..])
  }

  lemma TotalOfShown(line: string, limit: nat)
    ensures Total(Shown(line, limit)) == if line == "" then 0 else |Show(line, limit)|
  {
    if line != "" {
      assert Shown(line, limit)[1..] == [];
    }
  }

  lemma {:induction false} TotalOfConcat(x: seq<string>, y: seq<string>)
    ensures Total(x + y) == Total(x) + Total(y)
  {
    if x == [] {
      assert x + y == y;
    } else {
      assert (x + y)[1..] == x[1..] + y;
      TotalOfConcat(x[1..], y);
    }
  }

  /** The cut separates a carriage return from its newline, and the line before it is shown in full. */
  predicate HarmfulCut(a: Assembly, x: string, y: string, limit: nat) {
    CutsLineEnd(x, y) && |Feed(a, x, limit).pending| - 1 <= limit
  }

  /** The same text, once cut and once whole: a harmful cut makes the lines longer, no other cut shows. */
  predicate Lengthened(cut: Assembly, whole: Assembly, harmful: bool) {
    if harmful then cut.pending == whole.pending && Total(cut.lines) > Total(whole.lines) else cut == whole
  }

  lemma {:induction false} SplitLengthens(a: Assembly, x: string, y: string, limit: nat)
    ensures Lengthened(Feed(Feed(a, x, limit), y, limit), Feed(a, x + y, limit), HarmfulCut(a, x, y, limit))
    decreases |x|
  {
    if '\n' in x {
      var segment, rest := CutLine(x);
      FeedLine(a, segment, rest, limit);
      FeedLine(a, segment, rest + y, limit);
      Regroup(segment + "\n", rest, y);
      LastOfLine(segment, rest, x);
      SplitLengthens(Complete(a, StripReturn(segment), limit), rest, y, limit);
    } else if '\n' in y {
      var segment, rest := CutLine(y);
      SplitBeforeNewline(a, x, segment, rest, limit);
      FirstOfLine(segment, rest, y);
    } else {
      Regroup(a.pending, x, y);
      NoNewline(x, y);
    }
  }

  /** Two chunks do what their concatenation does, unless the cut changes a line that is shown in full. */
  lemma SplitIffSame(a: Assembly, x: string, y: string, limit: nat)
    ensures Feed(Feed(a, x, limit), y, limit) == Feed(a, x + y, limit)
            <==> !CutsLineEnd(x, y) || |Feed(a, x, limit).pending| - 1 > limit
  {
    SplitLengthens(a, x, y, limit);
  }

  lemma NoNewline(x: string, y: string)
    requires '\n' !in x && '\n' !in y
    ensures '\n' !in x + y && !CutsLineEnd(x, y)
  {
    assert y != "" ==> y[0] in y;
  }

  lemma LastOfLine(segment: string, rest: string, x: string)
    requires x == segment + "\n" + rest
    ensures EndsWithReturn(x) <==> EndsWithReturn(rest)
  {
    assert x[|x| - 1] == if rest == "" then '\n' else rest[|rest| - 1];
  }

  lemma FirstOfLine(segment: string, rest: string, y: string)
    requires '\n' !in segment && y == segment + "\n" + rest
    ensures y != "" && (y[0] == '\n' <==> segment == "")
  {
    assert segment != "" ==> segment[0] in segment;
  }

  lemma FeedJoined(a: Assembly, x: string, segment: string, rest: string, limit: nat)
    requires '\n' !in x && '\n' !in segment
    ensures Feed(a, x + (segment + "\n" + rest), limit)
            == Feed(Complete(a, StripReturn(x + segment), limit), rest, limit)
  {
    FeedLine(a, x + segment, rest, limit);
    JoinLine(x, segment, "\n", rest);
  }

  lemma JoinLine(x: string, segment: string, end: string, rest: string)
    ensures x + (segment + end + rest) == x + segment + end + rest
  {
  }

  lemma SplitBeforeNewline(a: Assembly, x: string, segment: string, rest: string, limit: nat)
    requires '\n' !in x && '\n' !in segment
    ensures
      var y := segment + "\n" + rest;
      Lengthened(Feed(Feed(a, x, limit), y, limit), Feed(a, x + y, limit),
                 EndsWithReturn(x) && segment == "" && |Feed(a, x, limit).pending| - 1 <= limit)
  {
    FeedLine(Assembly(a.lines, a.pending + x), segment, rest, limit);
    FeedJoined(a, x, segment, rest, limit);
    SplitInsideLine(a, x, segment, rest, limit);
  }

  /** The same, for a cut inside the line that ends first. */
  lemma SplitInsideLine(a: Assembly, x: string, segment: string, rest: string, limit: nat)
    ensures Lengthened(Feed(Complete(Assembly(a.lines, a.pending + x), StripReturn(segment), limit), rest, limit),
                       Feed(Complete(a, StripReturn(x + segment), limit), rest, limit),
                       EndsWithReturn(x) && segment == "" && |a.pending + x| - 1 <= limit)
  {
    if segment != "" || !EndsWithReturn(x) {
      StripReturnOfConcat(x, segment);
      assert a.pending + x + StripReturn(segment) == a.pending + (x + StripReturn(segment));
    } else {
      var line := a.pending + x[..|x| - 1];
      assert a.pending + x + "" == line + "\r" && x + segment == x;
      ShownLengthens(line, limit);
      LengthenedStays(a.lines, Shown(line + "\r", limit), Shown(line, limit), rest, limit);
    }
  }

  lemma LengthenedStays(front: seq<string>, x: seq<string>, y: seq<string>, rest: string, limit: nat)
    requires x == y || Total(x) > Total(y)
    ensures Lengthened(Feed(Assembly(front + x, ""), rest, limit), Feed(Assembly(front + y, ""), rest, limit), x != y)
  {
    var back := Feed(Assembly([], ""), rest, limit).lines;
    FeedAppends(Assembly(front + x, ""), rest, limit);
    FeedAppends(Assembly(front + y, ""), rest, limit);
    TotalOfConcat(front, x);
    TotalOfConcat(front, y);
    TotalOfConcat(front + x, back);
    TotalOfConcat(front + y, back);
  }

  /** No chunk ends in a carriage return that the chunks after it, taken together, complete harmfully. */
  predicate NoHarmfulCut(a: Assembly, chunks: seq<string>, limit: nat)
    decreases |chunks|
  {
    chunks != [] ==>
      && !HarmfulCut(a, chunks[0], Concat(chunks[1..]), limit)
      && NoHarmfulCut(Feed(a, chunks[0], limit), chunks[1..], limit)
  }

  lemma {:induction false} ChunksLengthen(a: Assembly, chunks: seq<string>, limit: nat)
    ensures Lengthened(FeedAll(a, chunks, limit), Feed(a, Concat(chunks), limit), !NoHarmfulCut(a, chunks, limit))
    decreases |chunks|
  {
    if chunks == [] {
      assert a.pending + "" == a.pending;
    } else {
      SplitLengthens(a, chunks[0], Concat(chunks[1..]), limit);
      ChunksLengthen(Feed(a, chunks[0], limit), chunks[1..], limit);
    }
  }

  /** Any number of chunks do what their concatenation does exactly if none of the cuts is harmful. */
  lemma ChunksIffSame(a: Assembly, chunks: seq<string>, limit: nat)
    ensures FeedAll(a, chunks, limit) == Feed(a, Concat(chunks), limit) <==> NoHarmfulCut(a, chunks, limit)
  {
    ChunksLengthen(a, chunks, limit);
  }

  /** An empty chunk between the two characters hides the cut from every pair of neighbours, and it still shows. */
  lemma CutAroundAnEmptyChunk(limit: nat)
    requires limit > 0
    ensures
      var chunks := ["a\r", "", "\n"];
      && (forall i | 0 <= i < 2 :: !CutsLineEnd(chunks[i], chunks[i + 1]))
      && FeedAll(Assembly([], ""), chunks, limit) != Feed(Assembly([], ""), Concat(chunks), limit)
  {
    var chunks := ["a\r", "", "\n"];
    assert chunks[1..] == ["", "\n"] && chunks[1..][1..] == ["\n"] && ["\n"][1..] == [];
    assert Concat(["\n"]) == "\n" && Concat(chunks[1..]) == "\n";
    assert HarmfulCut(Assembly([], ""), "a\r", "\n", limit);
    ChunksIffSame(Assembly([], ""), chunks, limit);
  }

  /** Text whose chunks never end in a carriage return gives the same lines however it is cut. */
  lemma ChunksDoNotMatter(a: Assembly, chunks: seq<string>, limit: nat)
    requires forall c | c in chunks :: !EndsWithReturn(c)
    ensures FeedAll(a, chunks, limit) == Feed(a, Concat(chunks), limit)
  {
    NoReturnNoHarm(a, chunks, limit);
    ChunksIffSame(a, chunks, limit);
  }

  lemma {:induction false} NoReturnNoHarm(a: Assembly, chunks: seq<string>, limit: nat)
    requires forall c | c in chunks :: !EndsWithReturn(c)
    ensures NoHarmfulCut(a, chunks, limit)
    decreases |chunks|
  {
    if chunks != [] {
      NoReturnNoHarm(Feed(a, chunks[0], limit), chunks[1..], limit);
    }
  }

  /** The lines of a whole stream, the last of which may lack its newline. */
  function AllLines(chunks: seq<string>, limit: nat): seq<string> {
    var a := FeedAll(Assembly([], ""), chunks, limit);
    a.lines + Shown(a.pending, limit)
  }

  /** A stream shows the lines of its whole text exactly if none of the cuts is harmful. */
  lemma StreamIffSame(chunks: seq<string>, limit: nat)
    ensures AllLines(chunks, limit) == AllLines([Concat(chunks)], limit)
            <==> NoHarmfulCut(Assembly([], ""), chunks, limit)
  {
    var start, text := Assembly([], ""), Concat(chunks);
    assert FeedAll(start, [text], limit) == Feed(start, text, limit);
    ChunksLengthen(start, chunks, limit);
    var cut, whole := FeedAll(start, chunks, limit), Feed(start, text, limit);
    TotalOfConcat(cut.lines, Shown(cut.pending, limit));
    TotalOfConcat(whole.lines, Shown(whole.pending, limit));
  }

  /** The next line of a chunk without its line end, and where the line after it starts. */
  method NextSegment(text: string, cursor: nat, ghost a: Assembly, ghost all: Assembly, ghost limit: nat)
    returns (segment: string, next: nat)
    requires cursor <= |text| && '\n' in text[cursor..] && Feed(a, text[cursor..], limit) == all
    ensures cursor < next <= |text| && Feed(Complete(a, segment, limit), text[next..], limit) == all
  {
    var rest := text[cursor..];
    var n := IndexOf(rest, '\n');
    segment, next := StripReturn(rest[..n]), cursor + n + 1;
    assert text[next..] == rest[n + 1..];
  }

  // ---------------------------------------------------------------- the logger

  /** A line passed on, with the window it was passed on in, or a notice of lines that were not. */
  datatype Output = Line(text: string, window: nat) | Notice(suppressed: nat)

  function Noticed(out: seq<Output>): nat {
    if out == [] then 0
    else Noticed(out[..|out| - 1]) + if out[|out| - 1].Notice? then out[|out| - 1].suppressed else 0
  }

  function Passed(out: seq<Output>): seq<string> {
    if out == [] then []
    else Passed(out[..|out| - 1]) + if out[|out| - 1].Line? then [out[|out| - 1].text] else []
  }

  function PassedIn(out: seq<Output>, window: nat): nat {
    if out == [] then 0
    else PassedIn(out[..|out| - 1], window) + if out[|out| - 1].Line? && out[|out| - 1].window == window then 1 else 0
  }

  /** `kept` is what is left of `all` after taking out `dropped` elements. */
  predicate KeptOf(kept: seq<string>, all: seq<string>, dropped: int)
    decreases |all|
  {
    if all == [] then kept == [] && dropped == 0
    else
      || (dropped > 0 && KeptOf(kept, all[..|all| - 1], dropped - 1))
      || (kept != [] && kept[|kept| - 1] == all[|all| - 1] && KeptOf(kept[..|kept| - 1], all[..|all| - 1], dropped))
  }

  lemma AfterNotice(out: seq<Output>, n: nat)
    ensures
      var more := out + [Notice(n)];
      && Passed(more) == Passed(out) && Noticed(more) == Noticed(out) + n
      && forall w: nat :: PassedIn(more, w) == PassedIn(out, w)
  {
    assert (out + [Notice(n)])[..|out|] == out;
  }

  lemma AfterLine(out: seq<Output>, text: string, window: nat)
    ensures
      var more := out + [Line(text, window)];
      && Passed(more) == Passed(out) + [text] && Noticed(more) == Noticed(out)
      && forall w: nat :: PassedIn(more, w) == PassedIn(out, w) + if w == window then 1 else 0
  {
    assert (out + [Line(text, window)])[..|out|] == out;
  }

  lemma KeepOne(kept: seq<string>, all: seq<string>, dropped: int, line: string)
    requires KeptOf(kept, all, dropped)
    ensures KeptOf(kept + [line], all + [line], dropped)
  {
    assert (kept + [line])[..|kept|] == kept && (all + [line])[..|all|] == all;
  }

  lemma {:induction false} KeptCounts(kept: seq<string>, all: seq<string>, dropped: int)
    requires KeptOf(kept, all, dropped)
    ensures dropped >= 0 && |all| == |kept| + dropped
  {
    if all != [] {
      if dropped > 0 && KeptOf(kept, all[..|all| - 1], dropped - 1) {
        KeptCounts(kept, all[..|all| - 1], dropped - 1);
      } else {
        KeptCounts(kept[..|kept| - 1], all[..|all| - 1], dropped);
      }
    }
  }

  lemma DropOne(kept: seq<string>, all: seq<string>, dropped: int, line: string)
    requires KeptOf(kept, all, dropped)
    ensures KeptOf(kept, all + [line], dropped + 1)
  {
    KeptCounts(kept, all, dropped);
    assert (all + [line])[..|all|] == all;
  }

  /** What has been passed on so far, and what still counts against the window. */
  datatype Ledger = Ledger(out: seq<Output>, suppressed: nat, lines: nat, window: nat)

  /** Every one of `all` was passed on or is counted in a notice, given or to come, and every window kept its limit. */
  ghost predicate Accounts(l: Ledger, all: seq<string>, limit: nat) {
    && KeptOf(Passed(l.out), all, Noticed(l.out) + l.suppressed)
    && l.lines == PassedIn(l.out, l.window) <= limit
    && (forall w: nat :: PassedIn(l.out, w) <= limit)
    && (forall w: nat | w > l.window :: PassedIn(l.out, w) == 0)
  }

  function Flushed(l: Ledger): Ledger {
    if l.suppressed == 0 then l else l.(out := l.out + [Notice(l.suppressed)], suppressed := 0)
  }

  function NewWindow(l: Ledger): Ledger {
    Flushed(l).(lines := 0, window := l.window + 1)
  }

  function Counted(l: Ledger, line: string, limit: nat): Ledger {
    if l.lines >= limit then l.(suppressed := l.suppressed + 1)
    else l.(lines := l.lines + 1, out := l.out + [Line(line, l.window)])
  }

  function Emitted(l: Ledger, line: string, late: bool, limit: nat): Ledger {
    Counted(if late then NewWindow(l) else l, line, limit)
  }

  lemma FlushedAccounts(l: Ledger, all: seq<string>, limit: nat)
    requires Accounts(l, all, limit)
    ensures Accounts(Flushed(l), all, limit)
  {
    AfterNotice(l.out, l.suppressed);
  }

  lemma CountedAccounts(l: Ledger, all: seq<string>, limit: nat, line: string)
    requires Accounts(l, all, limit)
    ensures Accounts(Counted(l, line, limit), all + [line], limit)
  {
    if l.lines >= limit {
      DropOne(Passed(l.out), all, Noticed(l.out) + l.suppressed, line);
    } else {
      PassedAccounts(l, all, limit, line, l.out + [Line(line, l.window)]);
    }
  }

  lemma PassedAccounts(l: Ledger, all: seq<string>, limit: nat, line: string, out: seq<Output>)
    requires Accounts(l, all, limit) && l.lines < limit && out == l.out + [Line(line, l.window)]
    ensures Accounts(l.(lines := l.lines + 1, out := out), all + [line], limit)
  {
    KeepOne(Passed(l.out), all, Noticed(l.out) + l.suppressed, line);
    AfterLine(l.out, line, l.window);
  }

  lemma EmittedAccounts(l: Ledger, all: seq<string>, limit: nat, line: string, late: bool)
    requires Accounts(l, all, limit)
    ensures Accounts(Emitted(l, line, late, limit), all + [line], limit)
  {
    if late {
      FlushedAccounts(l, all, limit);
      CountedAccounts(NewWindow(l), all, limit, line);
    } else {
      CountedAccounts(l, all, limit, line);
    }
  }

  /** The ledger with the start of its window and the number of times the clock was read. */
  datatype Timed = Timed(book: Ledger, started: int, readings: nat)

  function Ticked(t: Timed, line: string, clock: nat -> int, limit: nat): Timed {
    var now := clock(t.readings);
    var late := now - t.started >= 1000;
    Timed(Emitted(t.book, line, late, limit), if late then now else t.started, t.readings + 1)
  }

  /** What emitting some lines comes to, from the creation of the logger on. */
  function Logged(lines: seq<string>, clock: nat -> int, limit: nat): Timed {
    if lines == [] then Timed(Ledger([], 0, 0, 0), clock(0), 1)
    else Ticked(Logged(lines[..|lines| - 1], clock, limit), lines[|lines| - 1], clock, limit)
  }

  lemma LoggedAppend(lines: seq<string>, line: string, clock: nat -> int, limit: nat)
    ensures Logged(lines + [line], clock, limit) == Ticked(Logged(lines, clock, limit), line, clock, limit)
  {
    assert (lines + [line])[..|lines|] == lines;
  }

  lemma {:induction false} LoggedAccounts(lines: seq<string>, clock: nat -> int, limit: nat)
    ensures Accounts(Logged(lines, clock, limit).book, lines, limit)
  {
    if lines != [] {
      var init, last := lines[..|lines| - 1], lines[|lines| - 1];
      var t := Logged(init, clock, limit);
      LoggedAccounts(init, clock, limit);
      EmittedAccounts(t.book, init, limit, last, clock(t.readings) - t.started >= 1000);
      assert lines == init + [last];
    }
  }

  class Logger {
    const maxLinesPerSecond: nat
    const maxLineLength: nat
    /** What the clock shows each time it is read. */
    const clock: nat -> int
    var readings: nat
    var buffer: string
    var truncated: bool
    var windowStarted: int
    var lines: nat
    var suppressed: nat
    /** What was passed to `onLine`, the prefix aside. */
    var out: seq<Output>
    /** How many windows have ended: the record below carries it, the code does not. */
    var window: nat
    ghost var assembly: Assembly

    constructor (maxLinesPerSecond: nat, maxLineLength: nat, clock: nat -> int)
      ensures Valid() && assembly == Assembly([], "") && out == []
      ensures this.maxLinesPerSecond == maxLinesPerSecond && this.maxLineLength == maxLineLength && this.clock == clock
    {
      this.maxLinesPerSecond, this.maxLineLength, this.clock := maxLinesPerSecond, maxLineLength, clock;
      readings, windowStarted := 1, clock(0);
      buffer, truncated, lines, suppressed, out := "", false, 0, 0, [];
      window, assembly := 0, Assembly([], "");
    }

    ghost function Book(): Timed
      reads this
    {
      Timed(Ledger(out, suppressed, lines, window), windowStarted, readings)
    }

    ghost predicate Holds(pending: string)
      reads this
    {
      && truncated == (|pending| > maxLineLength)
      && buffer == if truncated then pending[..maxLineLength] else pending
    }

    ghost predicate Valid()
      reads this
    {
      Book() == Logged(assembly.lines, clock, maxLinesPerSecond) && Holds(assembly.pending)
    }

    method FlushSuppressed()
      modifies this`suppressed, this`out
      ensures Book() == old(Book()).(book := Flushed(old(Book()).book))
    {
      if suppressed == 0 {
        return;
      }
      out := out + [Notice(suppressed)];
      suppressed := 0;
    }

    method Emit(line: string)
      modifies this`readings, this`windowStarted, this`lines, this`suppressed, this`out, this`window
      ensures Book() == Ticked(old(Book()), line, clock, maxLinesPerSecond)
    {
      var now := clock(readings);
      readings := readings + 1;
      if now - windowStarted >= 1000 {
        FlushSuppressed();
        windowStarted := now;
        lines := 0;
        window := window + 1;
      }
      if lines >= maxLinesPerSecond {
        suppressed := suppressed + 1;
        return;
      }
      lines := lines + 1;
      out := out + [Line(line, window)];
    }

    method FinishLine()
      requires Valid()
      modifies this
      ensures Valid() && assembly == Complete(old(assembly), "", maxLineLength)
    {
      ghost var line := assembly.pending;
      assert line + "" == line;
      if buffer != "" || truncated {
        assert buffer + "" == buffer;
        LoggedAppend(assembly.lines, Show(line, maxLineLength), clock, maxLinesPerSecond);
        Emit(buffer + if truncated then TRUNCATED else "");
      } else {
        assert assembly.lines + [] == assembly.lines;
      }
      assembly := Assembly(assembly.lines + Shown(line, maxLineLength), "");
      buffer := "";
      truncated := false;
    }

    method Append(text: string)
      requires Valid()
      modifies this`buffer, this`truncated, this`assembly
      ensures Valid() && assembly == old(assembly).(pending := old(assembly).pending + text)
    {
      assembly := assembly.(pending := assembly.pending + text);
      if text == "" || truncated {
        return;
      }
      var remaining := if maxLineLength >= |buffer| then maxLineLength - |buffer| else 0;
      if |text| > remaining {
        buffer := buffer + text[..remaining];
        truncated := true;
      } else {
        buffer := buffer + text;
      }
    }

    method TakeLine(segment: string)
      requires Valid()
      modifies this
      ensures Valid() && assembly == Complete(old(assembly), segment, maxLineLength)
    {
      Append(segment);
      assert assembly.pending + "" == assembly.pending;
      FinishLine();
    }

    method OnData(text: string)
      requires Valid()
      modifies this
      ensures Valid() && assembly == Feed(old(assembly), text, maxLineLength)
    {
      var cursor := 0;
      ghost var all := Feed(assembly, text, maxLineLength);
      assert text[0..] == text;
      while cursor < |text|
        invariant Valid() && cursor <= |text|
        invariant Feed(assembly, text[cursor..], maxLineLength) == all
        decreases |text| - cursor
      {
        if '\n' !in text[cursor..] {
          FeedPart(assembly, text[cursor..], all, maxLineLength);
          Append(text[cursor..]);
          return;
        }
        var segment, next := NextSegment(text, cursor, assembly, all, maxLineLength);
        TakeLine(segment);
        cursor := next;
      }
      FeedPart(assembly, text[cursor..], all, maxLineLength);
      assert text[cursor..] == "" && assembly.pending + "" == assembly.pending;
    }

    method OnEnd()
      requires Valid()
      modifies this
      ensures assembly == Complete(old(assembly), "", maxLineLength) && Holds("")
      ensures out == Flushed(Logged(assembly.lines, clock, maxLinesPerSecond).book).out && suppressed == 0
    {
      FinishLine();
      FlushSuppressed();
    }
  }

  /**
   A whole stream: every line is passed on, in order, or counted in a notice, within the limit of each
   window; which of the two follows from the lines and the clock alone.
   */
  method LogStream(chunks: seq<string>, maxLinesPerSecond: nat, maxLineLength: nat, clock: nat -> int)
    returns (out: seq<Output>)
    ensures out == Flushed(Logged(AllLines(chunks, maxLineLength), clock, maxLinesPerSecond).book).out
    ensures KeptOf(Passed(out), AllLines(chunks, maxLineLength), Noticed(out))
    ensures forall w: nat :: PassedIn(out, w) <= maxLinesPerSecond
  {
    var logger := new Logger(maxLinesPerSecond, maxLineLength, clock);
    for i := 0 to |chunks|
      invariant fresh(logger) && logger.Valid() && logger.clock == clock
      invariant logger.maxLinesPerSecond == maxLinesPerSecond && logger.maxLineLength == maxLineLength
      invariant FeedAll(logger.assembly, chunks[i..], maxLineLength) == FeedAll(Assembly([], ""), chunks, maxLineLength)
    {
      assert chunks[i..][0] == chunks[i] && chunks[i..][1..] == chunks[i + 1..];
      logger.OnData(chunks[i]);
    }
    assert chunks[|chunks|..] == [];
    ghost var a := logger.assembly;
    assert a.pending + "" == a.pending;
    logger.OnEnd();
    out := logger.out;
    StreamAccounts(AllLines(chunks, maxLineLength), clock, maxLinesPerSecond);
  }

  /** At the end of a stream every line was passed on or is counted in exactly one notice. */
  lemma StreamAccounts(lines: seq<string>, clock: nat -> int, limit: nat)
    ensures
      var out := Flushed(Logged(lines, clock, limit).book).out;
      KeptOf(Passed(out), lines, Noticed(out)) && forall w: nat :: PassedIn(out, w) <= limit
  {
    var book := Logged(lines, clock, limit).book;
    LoggedAccounts(lines, clock, limit);
    FlushedAccounts(book, lines, limit);
    assert Flushed(book).suppressed == 0;
  }
}
