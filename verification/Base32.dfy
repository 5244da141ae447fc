/**
 Base32 (section 6 of RFC 4648) with an accumulator of 32 bits that is never masked. Both
 directions are specified by the bits that the bytes and the characters stand for.
 */
module Base32 {
  import opened Sequences
  import opened Wrappers

  type Digit = d: int | 0 <= d < 32

  /** A JavaScript integer, by its 32 bits. */
  type Word = w: int | 0 <= w < 0x1_0000_0000

  // ---------------------------------------------------------------- bits

  /** The lowest `width` bits of a number, the highest of them first. */
  function BitsOf(n: int, width: nat): (bits: seq<int>)
    ensures |bits| == width
    decreases width
  {
    if width == 0 then [] else BitsOf(n / 2, width - 1) + [n % 2]
  }

  /** The bits of a sequence of numbers, each `width` bits wide. */
  function Bits(numbers: seq<int>, width: nat): (bits: seq<int>)
    ensures |bits| == |numbers| * width
  {
    if numbers == [] then [] else Bits(numbers[..|numbers| - 1], width) + BitsOf(numbers[|numbers| - 1], width)
  }

  function Zeros(n: nat): seq<int> {
    seq(n, _ => 0)
  }

  function Pow2(k: nat): (p: nat)
    ensures p > 0
  {
    if k == 0 then 1 else 2 * Pow2(k - 1)
  }

  lemma Halve(v: int, p: int, x: int)
    ensures (v * (2 * p) + x) % 2 == x % 2 && (v * (2 * p) + x) / 2 == v * p + x / 2
  {
    assert v * (2 * p) == 2 * (v * p);
  }

  /** Shifting a number left by k and adding k bits appends those bits. */
  lemma {:induction false} BitsOfShift(v: int, width: nat, x: int, k: nat)
    requires 0 <= x < Pow2(k)
    ensures BitsOf(v * Pow2(k) + x, width + k) == BitsOf(v, width) + BitsOf(x, k)
    decreases k
  {
    if k == 0 {
      assert BitsOf(v, width) + [] == BitsOf(v, width);
    } else {
      Halve(v, Pow2(k - 1), x);
      BitsOfShift(v, width, x / 2, k - 1);
      assert BitsOf(v, width) + BitsOf(x / 2, k - 1) + [x % 2] == BitsOf(v, width) + BitsOf(x, k);
    }
  }

  /** A shift to the right by k: k times the half. */
  function ShiftRight(n: int, k: nat): (q: int)
    ensures n >= 0 ==> 0 <= q <= n
    decreases k
  {
    if k == 0 then n else ShiftRight(n / 2, k - 1)
  }

  /** The high bits of a number come first and the low ones after them. */
  lemma {:induction false} BitsOfSplit(n: int, width: nat, k: nat)
    ensures BitsOf(n, width + k) == BitsOf(ShiftRight(n, k), width) + BitsOf(n, k)
    decreases k
  {
    if k == 0 {
      assert BitsOf(n, width) + [] == BitsOf(n, width);
    } else {
      BitsOfSplit(n / 2, width, k - 1);
      var high := BitsOf(ShiftRight(n, k), width);
      assert high + BitsOf(n / 2, k - 1) + [n % 2] == high + BitsOf(n, k);
    }
  }

  /** Bits above the width do not show. */
  lemma {:induction false} HighBitsDoNotShow(v: int, x: int, k: nat, width: nat)
    requires width <= k
    ensures BitsOf(v * Pow2(k) + x, width) == BitsOf(x, width)
    decreases width
  {
    if width > 0 {
      Halve(v, Pow2(k - 1), x);
      HighBitsDoNotShow(v, x / 2, k - 1, width - 1);
    }
  }

  const WORD := 0x1_0000_0000

  lemma WordIsPow2()
    ensures Pow2(32) == WORD
  {
    assert Pow2(4) == 16 && Pow2(8) == 256 && Pow2(12) == 4096 && Pow2(16) == 65536;
    assert Pow2(20) == 0x10_0000 && Pow2(24) == 0x100_0000 && Pow2(28) == 0x1000_0000;
  }

  /** Dropping what does not fit in 32 bits changes none of the low 32. */
  lemma Truncating(n: int, width: nat)
    requires width <= 32
    ensures BitsOf(n % WORD, width) == BitsOf(n, width)
  {
    WordIsPow2();
    HighBitsDoNotShow(n / WORD, n % WORD, 32, width);
  }

  lemma Masking(n: int, q: int, r: int, m: int, k: nat)
    requires m == Pow2(k) && n == q * m + r
    ensures BitsOf(r, k) == BitsOf(n, k)
  {
    HighBitsDoNotShow(q, r, k, k);
  }

  lemma {:induction false} BitsOfInjective(m: int, n: int, width: nat)
    requires BitsOf(m, width) == BitsOf(n, width) && 0 <= m < Pow2(width) && 0 <= n < Pow2(width)
    ensures m == n
    decreases width
  {
    if width > 0 {
      var a, b := BitsOf(m, width), BitsOf(n, width);
      assert a[..width - 1] == BitsOf(m / 2, width - 1) && b[..width - 1] == BitsOf(n / 2, width - 1);
      assert a[width - 1] == m % 2 && b[width - 1] == n % 2;
      BitsOfInjective(m / 2, n / 2, width - 1);
    }
  }

  lemma {:induction false} BitsInjective(x: seq<int>, y: seq<int>, width: nat)
    requires Bits(x, width) == Bits(y, width) && |x| == |y|
    requires forall n | n in x + y :: 0 <= n < Pow2(width)
    ensures x == y
  {
    if x != [] {
      var k := |x| - 1;
      var a, b := Bits(x, width), Bits(y, width);
      assert a[..|a| - width] == Bits(x[..k], width) && b[..|b| - width] == Bits(y[..k], width);
      assert a[|a| - width..] == BitsOf(x[k], width) && b[|b| - width..] == BitsOf(y[k], width);
      assert x[k] in x + y && y[k] in x + y;
      BitsOfInjective(x[k], y[k], width);
      assert forall n | n in x[..k] + y[..k] :: n in x + y;
      BitsInjective(x[..k], y[..k], width);
      assert x == x[..k] + [x[k]] && y == y[..k] + [y[k]];
    }
  }

  // ---------------------------------------------------------------- the alphabet

  const ALPHABET := "ABCDEFGHIJKLMNOPQRSTUVWXYZ234567"

  ghost predicate InAlphabet(text: string) {
    forall c | c in text :: c in ALPHABET
  }

  function CharOf(d: Digit): char {
    ALPHABET[d]
  }

  /** The alphabet is the capital letters in order, followed by the numerals from 2 to 7. */
  lemma CharOfIsInAlphabet(d: Digit)
    ensures CharOf(d) in ALPHABET
    ensures CharOf(d) as int == if d < 26 then 'A' as int + d else '2' as int + d - 26
  {
    assert ALPHABET[..26] == "ABCDEFGHIJKLMNOPQRSTUVWXYZ" && ALPHABET[26..] == "234567";
  }

  /** The digit a character stands for, in either case; other characters stand for none. */
  function DigitOf(c: char): Option<Digit> {
    if 'A' <= c <= 'Z' then Some(c as int - 'A' as int)
    else if 'a' <= c <= 'z' then Some(c as int - 'a' as int)
    else if '2' <= c <= '7' then Some(c as int - '2' as int + 26)
    else None
  }

  /** The digits of a text, whatever else stands between them. */
  function Digits(text: string): seq<Digit> {
    if text == "" then []
    else
      var d := DigitOf(text[|text| - 1]);
      Digits(text[..|text| - 1]) + if d.Some? then [d.value] else []
  }

  lemma CharOfDigit(d: Digit)
    ensures DigitOf(CharOf(d)) == Some(d)
  {
    CharOfIsInAlphabet(d);
  }

  lemma DigitsAppend(text: string, d: Digit)
    ensures Digits(text + [CharOf(d)]) == Digits(text) + [d]
  {
    CharOfDigit(d);
    assert (text + [CharOf(d)])[..|text|] == text;
  }

  lemma BitsAppend(numbers: seq<int>, n: int, width: nat)
    ensures Bits(numbers + [n], width) == Bits(numbers, width) + BitsOf(n, width)
  {
    assert (numbers + [n])[..|numbers|] == numbers;
  }

  // ---------------------------------------------------------------- encoding and decoding

  /** `text` is in the alphabet and has the bits of `bytes`, with fewer than five zeros after them. */
  ghost predicate Encodes(text: string, bytes: seq<Byte>) {
    && InAlphabet(text)
    && |Digits(text)| == |text|
    && 0 <= |text| * 5 - |bytes| * 8 < 5
    && Bits(Digits(text), 5) == Bits(bytes, 8) + Zeros(|text| * 5 - |bytes| * 8)
  }

  lemma SmallPowers()
    ensures Pow2(5) == 32 && Pow2(8) == 256
  {
    assert Pow2(4) == 16;
  }

  /** What a shift pushes out of a word is a multiple of its size. */
  lemma ShiftOverflows(value: int, x: int, kept: int, p: int, next: int)
    requires (kept == 0x100_0000 && p == 256) || (kept == 0x800_0000 && p == 32)
    requires next == value % kept * p + x
    ensures next % WORD == (value * p + x) % WORD
  {
    var q := value / kept;
    assert value == q * kept + value % kept;
    assert value * p + x == next + q * WORD;
    WholeWords(next, q);
  }

  lemma WholeWords(n: int, q: int)
    ensures (n + q * WORD) % WORD == n % WORD
  {
  }

  lemma ShiftInBits(value: int, bits: nat, x: int, k: nat, p: int, next: int)
    requires p == Pow2(k) && bits + k <= 32 && 0 <= x < p && next % WORD == (value * p + x) % WORD
    ensures BitsOf(next, bits + k) == BitsOf(value, bits) + BitsOf(x, k)
  {
    Truncating(next, bits + k);
    Truncating(value * p + x, bits + k);
    BitsOfShift(value, bits, x, k);
  }

  /** `(value << 8) | x`: the highest eight bits fall off, and they were not among the pending ones. */
  method ShiftInByte(value: Word, bits: nat, x: Byte) returns (next: Word)
    requires bits < 5
    ensures BitsOf(next, bits + 8) == BitsOf(value, bits) + BitsOf(x, 8)
  {
    next := value % 0x100_0000 * 256 + x;
    ShiftOverflows(value, x, 0x100_0000, 256, next);
    SmallPowers();
    ShiftInBits(value, bits, x, 8, 256, next);
  }

  /** `(value << 5) | x`, likewise. */
  method ShiftInDigit(value: Word, bits: nat, x: Digit) returns (next: Word)
    requires bits < 8
    ensures BitsOf(next, bits + 5) == BitsOf(value, bits) + BitsOf(x, 5)
  {
    next := value % 0x800_0000 * 32 + x;
    ShiftOverflows(value, x, 0x800_0000, 32, next);
    SmallPowers();
    ShiftInBits(value, bits, x, 5, 32, next);
  }

  lemma TopBits(value: int, bits: nat, k: nat, m: int, q: int, taken: int)
    requires bits >= k && m == Pow2(k) && ShiftRight(value, bits - k) == q * m + taken
    ensures BitsOf(value, bits) == BitsOf(taken, k) + BitsOf(value, bits - k)
  {
    BitsOfSplit(value, k, bits - k);
    Masking(ShiftRight(value, bits - k), q, taken, m, k);
  }

  /** `(value >>> (bits - 5)) & 31`: the highest five of the pending bits, whatever lies above them. */
  method TopDigit(value: Word, bits: nat) returns (digit: Digit)
    requires bits >= 5
    ensures BitsOf(value, bits) == BitsOf(digit, 5) + BitsOf(value, bits - 5)
  {
    var high := ShiftRight(value, bits - 5);
    digit := high % 32;
    SmallPowers();
    TopBits(value, bits, 5, 32, high / 32, digit);
  }

  /** `(value >>> (bits - 8)) & 255`, likewise. */
  method TopByte(value: Word, bits: nat) returns (byte: Byte)
    requires bits >= 8
    ensures BitsOf(value, bits) == BitsOf(byte, 8) + BitsOf(value, bits - 8)
  {
    var high := ShiftRight(value, bits - 8);
    byte := high % 256;
    SmallPowers();
    TopBits(value, bits, 8, 256, high / 256, byte);
  }

  lemma {:induction false} BitsOfZero(k: nat)
    ensures BitsOf(0, k) == Zeros(k)
    decreases k
  {
    if k > 0 {
      BitsOfZero(k - 1);
      assert Zeros(k - 1) + [0] == Zeros(k);
    }
  }

  lemma MaskOfTruncated(n: int)
    ensures n % WORD % 32 == n % 32
  {
  }

  /** `(value << (5 - bits)) & 31`: the pending bits with zeros after them. */
  method LastDigit(value: Word, bits: nat) returns (digit: Digit)
    requires bits < 5
    ensures BitsOf(digit, 5) == BitsOf(value, bits) + Zeros(5 - bits)
  {
    var shifted := value * Pow2(5 - bits);
    digit := shifted % WORD % 32;
    MaskOfTruncated(shifted);
    BitsOfShift(value, bits, 0, 5 - bits);
    BitsOfZero(5 - bits);
    SmallPowers();
    Masking(shifted, shifted / 32, digit, 32, 5);
  }

  lemma AppendByte(buffer: seq<Byte>, i: nat)
    requires i < |buffer|
    ensures Bits(buffer[..i + 1], 8) == Bits(buffer[..i], 8) + BitsOf(buffer[i], 8)
  {
    assert buffer[..i + 1][..i] == buffer[..i];
  }

  lemma AppendDigit(output: string, digit: Digit)
    requires InAlphabet(output)
    ensures
      var more := output + [CharOf(digit)];
      && InAlphabet(more) && |Digits(more)| == |Digits(output)| + 1
      && Bits(Digits(more), 5) == Bits(Digits(output), 5) + BitsOf(digit, 5)
  {
    CharOfIsInAlphabet(digit);
    DigitsAppend(output, digit);
    BitsAppend(Digits(output), digit, 5);
  }

  /** What was seen so far has been written but for the pending bits. */
  ghost predicate Written(output: string, value: Word, bits: nat, seen: seq<int>) {
    && InAlphabet(output) && |Digits(output)| == |output|
    && seen == Bits(Digits(output), 5) + BitsOf(value, bits)
  }

  lemma TakeByte(output: string, value: Word, bits: nat, seen: seq<int>, next: Word, x: Byte)
    requires Written(output, value, bits, seen) && BitsOf(next, bits + 8) == BitsOf(value, bits) + BitsOf(x, 8)
    ensures Written(output, next, bits + 8, seen + BitsOf(x, 8))
  {
    Regroup(Bits(Digits(output), 5), BitsOf(value, bits), BitsOf(x, 8));
  }

  lemma WriteDigit(output: string, value: Word, bits: nat, seen: seq<int>, digit: Digit)
    requires bits >= 5 && Written(output, value, bits, seen)
    requires BitsOf(value, bits) == BitsOf(digit, 5) + BitsOf(value, bits - 5)
    ensures Written(output + [CharOf(digit)], value, bits - 5, seen)
  {
    AppendDigit(output, digit);
    Regroup(Bits(Digits(output), 5), BitsOf(digit, 5), BitsOf(value, bits - 5));
  }

  lemma WriteLastDigit(output: string, value: Word, bits: nat, buffer: seq<Byte>, digit: Digit)
    requires 0 < bits < 5 && Written(output, value, bits, Bits(buffer, 8))
    requires BitsOf(digit, 5) == BitsOf(value, bits) + Zeros(5 - bits)
    ensures Encodes(output + [CharOf(digit)], buffer)
  {
    AppendDigit(output, digit);
    Regroup(Bits(Digits(output), 5), BitsOf(value, bits), Zeros(5 - bits));
    assert |Bits(buffer, 8)| == 8 * |buffer| && |Bits(Digits(output), 5)| == 5 * |output|;
  }

  lemma WrittenInFull(output: string, value: Word, buffer: seq<Byte>)
    requires Written(output, value, 0, Bits(buffer, 8))
    ensures Encodes(output, buffer)
  {
    EmptyIsUnit(Bits(buffer, 8));
    EmptyIsUnit(Bits(Digits(output), 5));
    assert |Bits(buffer, 8)| == 8 * |buffer| && |Bits(Digits(output), 5)| == 5 * |output|;
  }

  method Base32Encode(buffer: seq<Byte>) returns (output: string)
    ensures Encodes(output, buffer)
  {
    var bits, value: Word := 0, 0;
    output := "";
    for i := 0 to |buffer|
      invariant bits < 5 && Written(output, value, bits, Bits(buffer[..i], 8))
    {
      var next := ShiftInByte(value, bits, buffer[i]);
      TakeByte(output, value, bits, Bits(buffer[..i], 8), next, buffer[i]);
      AppendByte(buffer, i);
      value, bits := next, bits + 8;
      while bits >= 5
        invariant bits < 13 && Written(output, value, bits, Bits(buffer[..i + 1], 8))
      {
        var digit := TopDigit(value, bits);
        WriteDigit(output, value, bits, Bits(buffer[..i + 1], 8), digit);
        output := output + [CharOf(digit)];
        bits := bits - 5;
      }
    }
    assert buffer[..|buffer|] == buffer;
    if bits > 0 {
      var digit := LastDigit(value, bits);
      WriteLastDigit(output, value, bits, buffer, digit);
      output := output + [CharOf(digit)];
    } else {
      WrittenInFull(output, value, buffer);
    }
  }

  function BitsOfCharacter(c: char): seq<int> {
    if DigitOf(c).Some? then BitsOf(DigitOf(c).value, 5) else []
  }

  lemma ReadCharacter(input: string, i: nat, seen: seq<int>)
    requires i < |input| && seen == Bits(Digits(input[..i]), 5)
    ensures Bits(Digits(input[..i + 1]), 5) == seen + BitsOfCharacter(input[i])
  {
    assert input[..i + 1][..i] == input[..i];
    var digits := Digits(input[..i]);
    if DigitOf(input[i]).Some? {
      BitsAppend(digits, DigitOf(input[i]).value, 5);
    } else {
      assert digits + [] == digits && seen + [] == seen;
    }
  }

  /** One digit more among the pending bits, and one byte out of them when there are enough. */
  method TakeDigit(bytes: seq<Byte>, value: Word, bits: nat, d: Digit, ghost seen: seq<int>)
    returns (bytes': seq<Byte>, value': Word, bits': nat)
    requires bits < 8 && seen == Bits(bytes, 8) + BitsOf(value, bits)
    ensures bits' < 8 && seen + BitsOf(d, 5) == Bits(bytes', 8) + BitsOf(value', bits')
  {
    value' := ShiftInDigit(value, bits, d);
    Regroup(Bits(bytes, 8), BitsOf(value, bits), BitsOf(d, 5));
    bytes', bits' := bytes, bits + 5;
    if bits' >= 8 {
      var byte := TopByte(value', bits');
      BitsAppend(bytes, byte, 8);
      Regroup(Bits(bytes, 8), BitsOf(byte, 8), BitsOf(value', bits' - 8));
      bytes', bits' := bytes + [byte], bits' - 8;
    }
  }

  method Base32Decode(input: string) returns (bytes: seq<Byte>)
    ensures Decodes(input, bytes)
  {
    var bits, value: Word := 0, 0;
    bytes := [];
    ghost var seen: seq<int> := [];
    for i := 0 to |input|
      invariant bits < 8 && seen == Bits(Digits(input[..i]), 5)
      invariant seen == Bits(bytes, 8) + BitsOf(value, bits)
    {
      ReadCharacter(input, i, seen);
      var index := DigitOf(input[i]);
      if index.Some? {
        bytes, value, bits := TakeDigit(bytes, value, bits, index.value, seen);
      } else {
        assert seen + [] == seen;
      }
      seen := seen + BitsOfCharacter(input[i]);
    }
    assert input[..|input|] == input;
    assert |BitsOf(value, bits)| < 8;
  }

  /** `bytes` has the bits of the digits in `text`, as many of them as fill whole bytes. */
  ghost predicate Decodes(text: string, bytes: seq<Byte>) {
    exists left :: |left| < 8 && Bits(Digits(text), 5) == Bits(bytes, 8) + left
  }

  /** Decoding what was encoded gives it back, and the encoding has the least length that can hold it. */
  lemma DecodingUndoesEncoding(bytes: seq<Byte>, text: string, decoded: seq<Byte>)
    requires Encodes(text, bytes) && Decodes(text, decoded)
    ensures decoded == bytes && |text| == (8 * |bytes| + 4) / 5
  {
    var left :| |left| < 8 && Bits(Digits(text), 5) == Bits(decoded, 8) + left;
    var a, b := Bits(decoded, 8), Bits(bytes, 8);
    assert |decoded| == |bytes|;
    assert a == Bits(Digits(text), 5)[..|a|] && b == Bits(Digits(text), 5)[..|b|];
    SmallPowers();
    BitsInjective(decoded, bytes, 8);
  }

  method RoundTrip(buffer: seq<Byte>) returns (decoded: seq<Byte>)
    ensures decoded == buffer
  {
    var text := Base32Encode(buffer);
    decoded := Base32Decode(text);
    DecodingUndoesEncoding(buffer, text, decoded);
  }
}
