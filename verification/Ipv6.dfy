/** IPv6 addresses as text: the shortest form of section 4.2 of RFC 5952, and its expansion. */
module Ipv6 {
  import opened Text
  import opened Wrappers

  type Group = g: int | 0 <= g < 0x1_0000

  // ---------------------------------------------------------------- one group

  function HexDigit(d: nat): char
    requires d < 16
  {
    if d < 10 then (d + '0' as int) as char else (d - 10 + 'a' as int) as char
  }

  /** A number in base 16, without leading zeros. */
  function Hex(n: nat): (text: string)
    ensures text != ""
  {
    if n < 16 then [HexDigit(n)] else Hex(n / 16) + [HexDigit(n % 16)]
  }

  predicate IsHexDigit(c: char) {
    '0' <= c <= '9' || 'a' <= c <= 'f'
  }

  function ValueOfDigit(c: char): int {
    if c <= '9' then c as int - '0' as int else c as int - 'a' as int + 10
  }

  function ParseHex(text: string): int {
    if text == "" then 0 else ParseHex(text[..|text| - 1]) * 16 + ValueOfDigit(text[|text| - 1])
  }

  /** One to four hexadecimal digits in lower case. */
  predicate IsPart(text: string) {
    1 <= |text| <= 4 && forall i | 0 <= i < |text| :: IsHexDigit(text[i])
  }

  lemma {:induction false} ParseOfHex(n: nat)
    ensures ParseHex(Hex(n)) == n && forall i | 0 <= i < |Hex(n)| :: IsHexDigit(Hex(n)[i])
  {
    if n < 16 {
      assert [HexDigit(n)][..0] == "";
    } else {
      ParseOfHex(n / 16);
      assert Hex(n)[..|Hex(n)| - 1] == Hex(n / 16);
    }
  }

  lemma PartOfGroup(g: Group)
    ensures IsPart(Hex(g)) && ParseHex(Hex(g)) == g
  {
    ParseOfHex(g);
    HexIsShort(g);
  }

  lemma HexIsShort(g: Group)
    ensures |Hex(g)| <= 4
  {
    var a, b, c := g / 16, g / 16 / 16, g / 16 / 16 / 16;
    assert a < 4096 && b < 256 && c < 16;
    assert |Hex(c)| == 1;
    assert |Hex(b)| <= 2;
    assert |Hex(a)| <= 3;
  }

  function Parts(groups: seq<Group>): (parts: seq<string>)
    ensures |parts| == |groups| && forall i | 0 <= i < |parts| :: parts[i] == Hex(groups[i])
  {
    if groups == [] then [] else [Hex(groups[0])] + Parts(groups[1..])
  }

  function Numbers(parts: seq<string>): (numbers: seq<int>)
    ensures |numbers| == |parts| && forall i | 0 <= i < |parts| :: numbers[i] == ParseHex(parts[i])
  {
    if parts == [] then [] else [ParseHex(parts[0])] + Numbers(parts[1..])
  }

  // ---------------------------------------------------------------- formatting

  predicate ZeroRun(values: seq<Group>, start: nat, length: nat) {
    start + length <= |values| && forall k | start <= k < start + length :: values[k] == 0
  }

  /** The leftmost of the longest runs of at least two zero groups, or -1 and 0 if there is none. */
  ghost predicate LeftmostLongest(values: seq<Group>, start: int, length: nat) {
    && (start == -1 ==> length == 0)
    && (start != -1 ==> 0 <= start && length >= 2 && ZeroRun(values, start, length))
    && (forall s: nat, l: nat | l >= 2 && ZeroRun(values, s, l) :: l < length || (l == length && start <= s))
  }

  /** The address with one run of groups left out, or with none when `start` is negative. */
  function Compressed(values: seq<Group>, start: int, length: nat): string
    requires start < 0 || start + length <= |values|
  {
    if start < 0 then Join(Parts(values), ':')
    else Join(Parts(values[..start]), ':') + "::" + Join(Parts(values[start + length..]), ':')
  }

  /** Among the runs that start before `start`, the best is the one found so far. */
  ghost predicate BestBefore(values: seq<Group>, limit: nat, start: int, length: nat) {
    && (start == -1 ==> length == 0)
    && (start != -1 ==> 0 <= start < limit && length >= 2 && ZeroRun(values, start, length))
    && (forall s: nat, l: nat | s < limit && l >= 2 && ZeroRun(values, s, l) ::
          l < length || (l == length && start <= s))
  }

  /** A run that has just been measured, against the best before it. */
  lemma AfterRun(values: seq<Group>, from: nat, end: nat, start: int, length: nat, start': int, length': nat)
    requires BestBefore(values, from, start, length) && from < end && ZeroRun(values, from, end - from)
    requires end == |values| || values[end] != 0
    requires if end - from > length && end - from >= 2 then start' == from && length' == end - from
             else start' == start && length' == length
    ensures BestBefore(values, end, start', length')
  {
    forall s: nat, l: nat | s < end && l >= 2 && ZeroRun(values, s, l)
      ensures l < length' || (l == length' && start' <= s)
    {
      assert s >= from ==> s + l <= end;
    }
  }

  method FormatIpv6(values: seq<Group>) returns (text: string)
    ensures exists start: int, length: nat ::
      LeftmostLongest(values, start, length) && text == Compressed(values, start, length)
  {
    var bestStart, bestLength: nat := -1, 0;
    var from := 0;
    while from < |values|
      invariant from <= |values| && BestBefore(values, from, bestStart, bestLength)
      invariant from == 0 || from == |values| || values[from] != 0 || values[from - 1] != 0
    {
      if values[from] != 0 {
        assert forall l: nat | l >= 2 :: !ZeroRun(values, from, l);
        from := from + 1;
        continue;
      }
      var end := from;
      while end < |values| && values[end] == 0
        invariant from <= end <= |values| && ZeroRun(values, from, end - from)
      {
        end := end + 1;
      }
      ghost var oldStart, oldLength := bestStart, bestLength;
      if end - from > bestLength && end - from >= 2 {
        bestStart, bestLength := from, end - from;
      }
      AfterRun(values, from, end, oldStart, oldLength, bestStart, bestLength);
      from := end;
    }
    assert LeftmostLongest(values, bestStart, bestLength);
    if bestStart < 0 {
      return Join(Parts(values), ':');
    }
    var left := Join(Parts(values[..bestStart]), ':');
    var right := Join(Parts(values[bestStart + bestLength..]), ':');
    text := left + "::" + right;
  }

  // ---------------------------------------------------------------- expanding

  predicate DoubleAt(text: string, i: nat) {
    i + 1 < |text| && text[i] == ':' && text[i + 1] == ':'
  }

  /** Where the first double colon starts, at `from` or after it. */
  function FirstDouble(text: string, from: nat): Option<nat>
    decreases |text| - from
  {
    if from + 1 >= |text| then None
    else if DoubleAt(text, from) then Some(from)
    else FirstDouble(text, from + 1)
  }

  /** The pieces between double colons. */
  function Halves(text: string): (halves: seq<string>)
    ensures halves != []
    decreases |text|
  {
    var i := FirstDouble(text, 0);
    if i.None? || i.value + 2 > |text| then [text] else [text[..i.value]] + Halves(text[i.value + 2..])
  }

  function Side(half: string): seq<string> {
    if half == "" then [] else Split(half, ':')
  }

  function Zeros(count: nat): (zeros: seq<string>)
    ensures |zeros| == count && forall i | 0 <= i < count :: zeros[i] == "0"
  {
    seq(count, _ => "0")
  }

  function ReadParts(parts: seq<string>): Option<seq<int>> {
    if |parts| != 8 || exists i | 0 <= i < |parts| :: !IsPart(parts[i]) then None else Some(Numbers(parts))
  }

  function Filled(left: seq<string>, right: seq<string>): seq<string>
    requires |left| + |right| <= 8
  {
    left + Zeros(8 - |left| - |right|) + right
  }

  /** What stands on the two sides of a double colon, or all that stands there without one. */
  function ExpandSides(left: seq<string>, right: Option<seq<string>>): Option<seq<int>> {
    if right.None? then
      if |left| != 8 then None else ReadParts(left)
    else
      if |left| + |right.value| > 8 then None else ReadParts(Filled(left, right.value))
  }

  /** What an address stands for, once it is known to hold nothing but groups and colons. */
  function ExpandIpv6(address: string): Option<seq<int>> {
    var halves := Halves(address);
    if |halves| > 2 then None
    else ExpandSides(Side(halves[0]), if |halves| == 2 then Some(Side(halves[1])) else None)
  }

  // ---------------------------------------------------------------- expanding undoes formatting

  /** No colon at either end, and no two in a row. */
  ghost predicate Tidy(text: string) {
    && (forall i: nat :: !DoubleAt(text, i))
    && (text != "" ==> text[0] != ':' && text[|text| - 1] != ':')
  }

  ghost predicate Pieces(parts: seq<string>) {
    forall i | 0 <= i < |parts| :: parts[i] != "" && ':' !in parts[i]
  }

  lemma {:induction false} JoinIsTidy(parts: seq<string>)
    requires Pieces(parts)
    ensures Tidy(Join(parts, ':')) && (Join(parts, ':') == "" <==> parts == [])
  {
    if parts != [] {
      var first, text := parts[0], Join(parts, ':');
      assert first[0] in first && first[|first| - 1] in first;
      forall i: nat | i < |first| ensures first[i] != ':' {
        assert first[i] in first;
      }
      if |parts| > 1 {
        var rest := Join(parts[1..], ':');
        JoinIsTidy(parts[1..]);
        assert text == first + [':'] + rest && rest != "";
        forall i: nat ensures !DoubleAt(text, i) {
          if |first| < i && i + 1 < |text| {
            assert !DoubleAt(rest, i - |first| - 1);
          }
        }
      }
    }
  }

  lemma {:induction false} NoDouble(text: string, from: nat)
    requires forall i: nat | i >= from :: !DoubleAt(text, i)
    ensures FirstDouble(text, from).None?
    decreases |text| - from
  {
    if from + 1 < |text| {
      NoDouble(text, from + 1);
    }
  }

  lemma {:induction false} DoubleFoundAt(text: string, from: nat, at: nat)
    requires from <= at && DoubleAt(text, at) && forall i: nat | from <= i < at :: !DoubleAt(text, i)
    ensures FirstDouble(text, from) == Some(at)
    decreases at - from
  {
    if from < at {
      DoubleFoundAt(text, from + 1, at);
    }
  }

  lemma HalvesOfTidy(text: string)
    requires Tidy(text)
    ensures Halves(text) == [text]
  {
    NoDouble(text, 0);
  }

  lemma HalvesOfTwo(left: string, right: string)
    requires Tidy(left) && Tidy(right)
    ensures Halves(left + "::" + right) == [left, right]
  {
    var text := left + "::" + right;
    assert DoubleAt(text, |left|);
    forall i: nat | i < |left| ensures !DoubleAt(text, i) {
      assert !DoubleAt(left, i);
    }
    DoubleFoundAt(text, 0, |left|);
    assert text[..|left|] == left && text[|left| + 2..] == right;
    HalvesOfTidy(right);
  }

  lemma PartsArePieces(groups: seq<Group>)
    ensures Pieces(Parts(groups)) && forall i | 0 <= i < |groups| :: IsPart(Parts(groups)[i])
  {
    forall i | 0 <= i < |groups| ensures IsPart(Parts(groups)[i]) && ':' !in Parts(groups)[i] {
      PartOfGroup(groups[i]);
    }
  }

  lemma SideOfJoin(groups: seq<Group>)
    ensures Tidy(Join(Parts(groups), ':')) && Side(Join(Parts(groups), ':')) == Parts(groups)
  {
    PartsArePieces(groups);
    JoinIsTidy(Parts(groups));
    if groups != [] {
      SplitOfJoin(Parts(groups), ':');
    }
  }

  lemma PartsAreRead(parts: seq<string>)
    requires |parts| == 8 && forall i | 0 <= i < |parts| :: IsPart(parts[i])
    ensures ReadParts(parts) == Some(Numbers(parts))
  {
  }

  lemma ExpandWhole(text: string, parts: seq<string>)
    requires Halves(text) == [text] && Side(text) == parts && |parts| == 8
    ensures ExpandIpv6(text) == ReadParts(parts)
  {
  }

  lemma ExpandTwo(text: string, l: string, r: string)
    requires Halves(text) == [l, r]
    ensures ExpandIpv6(text) == ExpandSides(Side(l), Some(Side(r)))
  {
  }

  /** The text of an address gives its groups back, whichever run of zeros it leaves out. */
  lemma ExpandingUndoesFormatting(values: seq<Group>, start: int, length: nat)
    requires |values| == 8 && (start < 0 || ZeroRun(values, start, length))
    ensures ExpandIpv6(Compressed(values, start, length)) == Some(values)
  {
    if start < 0 {
      var text := Join(Parts(values), ':');
      SideOfJoin(values);
      HalvesOfTidy(text);
      PartsAreNumbers(values, Parts(values));
      PartsAreRead(Parts(values));
      ExpandWhole(text, Parts(values));
    } else {
      var left, right := Parts(values[..start]), Parts(values[start + length..]);
      var l, r := Join(left, ':'), Join(right, ':');
      SideOfJoin(values[..start]);
      SideOfJoin(values[start + length..]);
      HalvesOfTwo(l, r);
      RunPutBack(values, start, length);
      PartsAreRead(Filled(left, right));
      ExpandTwo(l + "::" + r, l, r);
    }
  }

  lemma PartsAreNumbers(values: seq<Group>, parts: seq<string>)
    requires |parts| == |values| && forall i | 0 <= i < |parts| :: parts[i] == Hex(values[i])
    ensures Numbers(parts) == values && forall i | 0 <= i < |parts| :: IsPart(parts[i])
  {
    forall i | 0 <= i < |parts| ensures IsPart(parts[i]) && Numbers(parts)[i] == values[i] {
      PartOfGroup(values[i]);
    }
  }

  lemma RunPutBack(values: seq<Group>, start: nat, length: nat)
    requires |values| == 8 && ZeroRun(values, start, length)
    ensures
      var parts := Filled(Parts(values[..start]), Parts(values[start + length..]));
      |parts| == |values| && Numbers(parts) == values && forall i | 0 <= i < |parts| :: IsPart(parts[i])
  {
    var parts := Filled(Parts(values[..start]), Parts(values[start + length..]));
    assert Hex(0) == "0";
    PartsAreNumbers(values, parts);
  }

  /** Formatting any eight groups gives a text that expands to them. */
  method RoundTrip(values: seq<Group>) returns (expanded: Option<seq<int>>)
    requires |values| == 8
    ensures expanded == Some(values)
  {
    var text := FormatIpv6(values);
    ghost var start: int, length: nat :| LeftmostLongest(values, start, length)
      && text == Compressed(values, start, length);
    ExpandingUndoesFormatting(values, start, length);
    expanded := ExpandIpv6(text);
  }
}
