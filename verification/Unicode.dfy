/**
 Text as JavaScript holds it, in 16-bit code units, and its UTF-8 encoding (section 3 of RFC 3629)
 as Node writes it: a surrogate without its partner becomes U+FFFD.
 */
module Unicode {
  import opened Wrappers

  type Unit = u: int | 0 <= u < 0x10000
  type Text = seq<Unit>
  type Point = p: int | 0 <= p < 0x110000

  // Units that the notations of more than one module give a meaning to.
  const QUOTE: Unit := 34
  const COLON: Unit := 58
  const BACKSLASH: Unit := 92

  predicate High(u: Unit) {
    0xD800 <= u < 0xDC00
  }

  predicate Low(u: Unit) {
    0xDC00 <= u < 0xE000
  }

  predicate StartsWithPair(x: Text) {
    |x| >= 2 && High(x[0]) && Low(x[1])
  }

  /** Every surrogate has its partner. */
  predicate WellFormed(x: Text) {
    x == [] || (if StartsWithPair(x) then WellFormed(x[2..]) else !High(x[0]) && !Low(x[0]) && WellFormed(x[1..]))
  }

  lemma {:induction false} WellFormedConcat(x: Text, y: Text)
    requires WellFormed(x) && WellFormed(y)
    ensures WellFormed(x + y)
  {
    if x == [] {
      assert x + y == y;
    } else if StartsWithPair(x) {
      WellFormedConcat(x[2..], y);
      assert (x + y)[2..] == x[2..] + y;
    } else {
      WellFormedConcat(x[1..], y);
      assert (x + y)[1..] == x[1..] + y;
    }
  }

  // ---------------------------------------------------------------- the order of texts

  /** The order of JavaScript's `<` and of `sort`: by code unit, a prefix first. */
  predicate Before(x: Text, y: Text) {
    y != [] && (x == [] || x[0] < y[0] || (x[0] == y[0] && Before(x[1..], y[1..])))
  }

  lemma {:induction false} BeforeIsTotal(x: Text, y: Text)
    ensures x == y || Before(x, y) || Before(y, x)
  {
    if x != [] && y != [] && x[0] == y[0] {
      BeforeIsTotal(x[1..], y[1..]);
      if x[1..] == y[1..] {
        assert x == [x[0]] + x[1..] && y == [y[0]] + y[1..];
      }
    }
  }

  lemma {:induction false} BeforeIsTransitive(x: Text, y: Text, z: Text)
    requires Before(x, y) && Before(y, z)
    ensures Before(x, z)
  {
    if x != [] && x[0] == y[0] && y[0] == z[0] {
      BeforeIsTransitive(x[1..], y[1..], z[1..]);
    }
  }

  lemma {:induction false} BeforeIsStrict(x: Text, y: Text)
    requires Before(x, y)
    ensures !Before(y, x) && x != y
  {
    if x != [] && x[0] == y[0] {
      BeforeIsStrict(x[1..], y[1..]);
    }
  }

  // ---------------------------------------------------------------- code points

  function Joined(high: Unit, low: Unit): (p: Point)
    requires High(high) && Low(low)
    ensures p >= 0x10000
  {
    0x10000 + (high - 0xD800) * 0x400 + (low - 0xDC00)
  }

  function FirstPoint(x: Text): Point
    requires x != []
  {
    if StartsWithPair(x) then Joined(x[0], x[1])
    else if High(x[0]) || Low(x[0]) then 0xFFFD
    else x[0]
  }

  function AfterFirst(x: Text): Text
    requires x != []
  {
    if StartsWithPair(x) then x[2..] else x[1..]
  }

  function PointBytes(p: Point): (bytes: seq<Byte>)
    ensures bytes != []
  {
    if p < 0x80 then [p]
    else if p < 0x800 then [0xC0 + p / 64, 0x80 + p % 64]
    else if p < 0x10000 then [0xE0 + p / 4096, 0x80 + p / 64 % 64, 0x80 + p % 64]
    else [0xF0 + p / 262144, 0x80 + p / 4096 % 64, 0x80 + p / 64 % 64, 0x80 + p % 64]
  }

  function Utf8(x: Text): seq<Byte> {
    if x == [] then [] else PointBytes(FirstPoint(x)) + Utf8(AfterFirst(x))
  }

  function ByteCount(first: Byte): nat {
    if first < 0x80 then 1 else if first < 0xE0 then 2 else if first < 0xF0 then 3 else 4
  }

  /** The point that some bytes stand for, by the places of their bits. */
  function PointOf(bytes: seq<int>): int
    requires bytes != []
  {
    if |bytes| == 1 then bytes[0]
    else if |bytes| == 2 then (bytes[0] - 0xC0) * 64 + (bytes[1] - 0x80)
    else if |bytes| == 3 then (bytes[0] - 0xE0) * 4096 + (bytes[1] - 0x80) * 64 + (bytes[2] - 0x80)
    else if |bytes| == 4 then
      (bytes[0] - 0xF0) * 262144 + (bytes[1] - 0x80) * 4096 + (bytes[2] - 0x80) * 64 + (bytes[3] - 0x80)
    else -1
  }

  lemma SixBits(p: Point)
    ensures p == p / 64 * 64 + p % 64
    ensures p / 64 == p / 4096 * 64 + p / 64 % 64
    ensures p / 4096 == p / 262144 * 64 + p / 4096 % 64
  {
  }

  lemma PointOfBytes(p: Point)
    ensures PointOf(PointBytes(p)) == p && |PointBytes(p)| == ByteCount(PointBytes(p)[0])
  {
    SixBits(p);
  }

  /** The first byte tells how many bytes a point takes, and those bytes tell which point it is. */
  lemma PointBytesUnique(p: Point, q: Point, s: seq<Byte>, t: seq<Byte>)
    requires PointBytes(p) + s == PointBytes(q) + t
    ensures p == q && s == t
  {
    PointOfBytes(p);
    PointOfBytes(q);
    PrefixUnique(PointBytes(p), PointBytes(q), s, t);
  }

  lemma PrefixUnique(a: seq<Byte>, b: seq<Byte>, s: seq<Byte>, t: seq<Byte>)
    requires a != [] && b != [] && a + s == b + t
    requires |a| == ByteCount(a[0]) && |b| == ByteCount(b[0])
    ensures a == b && s == t
  {
    assert a[0] == (a + s)[0] == (b + t)[0] == b[0];
    assert a == (a + s)[..|a|] && b == (b + t)[..|a|];
    assert s == (a + s)[|a|..] && t == (b + t)[|a|..];
  }

  lemma FirstPointUnique(x: Text, y: Text)
    requires x != [] && y != [] && WellFormed(x) && WellFormed(y) && FirstPoint(x) == FirstPoint(y)
    requires AfterFirst(x) == AfterFirst(y)
    ensures x == y
  {
    if StartsWithPair(x) {
      assert x == [x[0], x[1]] + x[2..] && y == [y[0], y[1]] + y[2..];
    } else {
      assert x == [x[0]] + x[1..] && y == [y[0]] + y[1..];
    }
  }

  lemma {:induction false} Utf8Injective(x: Text, y: Text)
    requires WellFormed(x) && WellFormed(y) && Utf8(x) == Utf8(y)
    ensures x == y
  {
    if x != [] && y != [] {
      PointBytesUnique(FirstPoint(x), FirstPoint(y), Utf8(AfterFirst(x)), Utf8(AfterFirst(y)));
      Utf8Injective(AfterFirst(x), AfterFirst(y));
      FirstPointUnique(x, y);
    }
  }

  lemma {:induction false} Utf8HasNoNul(x: Text)
    requires 0 !in x
    ensures 0 !in Utf8(x)
  {
    if x != [] {
      Utf8HasNoNul(AfterFirst(x));
      assert 0 !in PointBytes(FirstPoint(x));
    }
  }
}
