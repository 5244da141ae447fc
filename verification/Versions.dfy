/**
 The comparison of release versions. The specification is item 11 of Semantic Versioning 2.0.0,
 which the code meets unless a numeric identifier has a leading zero.
 */
module Versions {
  import opened Unicode

  /** A version whose text matched the pattern; build metadata is not kept. */
  datatype Version = Version(core: seq<nat>, prerelease: seq<Text>)

  predicate Proper(v: Version) {
    |v.core| == 3 && forall x | x in v.prerelease :: x != []
  }

  predicate Numeric(x: Text) {
    x != [] && forall i | 0 <= i < |x| :: 48 <= x[i] <= 57
  }

  /** The value of a numeral. */
  function Decimal(x: Text): int {
    if x == [] then 0 else Decimal(x[..|x| - 1]) * 10 + (x[|x| - 1] as int - 48)
  }

  // ---------------------------------------------------------------- the comparison, as a function

  function CompareIdentifiers(x: Text, y: Text): int {
    if x == y then 0
    else if Numeric(x) && Numeric(y) then if Decimal(x) < Decimal(y) then -1 else 1
    else if Numeric(x) != Numeric(y) then if Numeric(x) then -1 else 1
    else if Before(x, y) then -1 else 1
  }

  function ComparePrereleases(x: seq<Text>, y: seq<Text>): int {
    if x == [] && y == [] then 0
    else if x == [] then -1
    else if y == [] then 1
    else if x[0] == y[0] then ComparePrereleases(x[1..], y[1..])
    else CompareIdentifiers(x[0], y[0])
  }

  function CompareCores(x: seq<nat>, y: seq<nat>): int
    requires |x| == |y|
  {
    if x == [] then 0
    else if x[0] != y[0] then if x[0] < y[0] then -1 else 1
    else CompareCores(x[1..], y[1..])
  }

  function Compare(a: Version, b: Version): int
    requires Proper(a) && Proper(b)
  {
    if a.core != b.core then CompareCores(a.core, b.core)
    else if a.prerelease == [] || b.prerelease == [] then
      (if b.prerelease != [] then 1 else 0) - (if a.prerelease != [] then 1 else 0)
    else ComparePrereleases(a.prerelease, b.prerelease)
  }

  lemma {:induction false} CoresDiffer(x: seq<nat>, y: seq<nat>, i: nat)
    requires |x| == |y| && i < |x| && x[..i] == y[..i] && x[i] != y[i]
    ensures CompareCores(x, y) == if x[i] < y[i] then -1 else 1
  {
    if i > 0 {
      assert x[0] == x[..i][0] == y[..i][0] == y[0];
      assert x[1..][..i - 1] == x[..i][1..] == y[..i][1..] == y[1..][..i - 1];
      CoresDiffer(x[1..], y[1..], i - 1);
    }
  }

  lemma {:induction false} PrereleasesFrom(x: seq<Text>, y: seq<Text>, i: nat)
    requires i <= |x| && i <= |y| && x[..i] == y[..i]
    ensures ComparePrereleases(x, y) == ComparePrereleases(x[i..], y[i..])
  {
    if i > 0 {
      assert x[0] == x[..i][0] == y[..i][0] == y[0];
      assert x[1..][..i - 1] == x[..i][1..] == y[..i][1..] == y[1..][..i - 1];
      PrereleasesFrom(x[1..], y[1..], i - 1);
      assert x[1..][i - 1..] == x[i..] && y[1..][i - 1..] == y[i..];
    } else {
      assert x[0..] == x && y[0..] == y;
    }
  }

  method CompareVersions(a: Version, b: Version) returns (r: int)
    requires Proper(a) && Proper(b)
    ensures r == Compare(a, b)
  {
    for index := 0 to 3
      invariant a.core[..index] == b.core[..index]
    {
      if a.core[index] != b.core[index] {
        CoresDiffer(a.core, b.core, index);
        return if a.core[index] < b.core[index] then -1 else 1;
      }
    }
    assert a.core == a.core[..3] == b.core[..3] == b.core;
    var x, y := a.prerelease, b.prerelease;
    if |x| == 0 || |y| == 0 {
      return (if |y| != 0 then 1 else 0) - (if |x| != 0 then 1 else 0);
    }
    var most := if |x| > |y| then |x| else |y|;
    for index := 0 to most
      invariant index <= |x| && index <= |y| && x[..index] == y[..index]
    {
      PrereleasesFrom(x, y, index);
      if index == |x| {
        return -1;
      }
      if index == |y| {
        return 1;
      }
      if x[index] != y[index] {
        return CompareIdentifiers(x[index], y[index]);
      }
    }
    PrereleasesFrom(x, y, most);
    return 0;
  }

  // ---------------------------------------------------------------- where the order is not antisymmetric

  /** The identifiers at the first difference are the same number, written with different leading zeros. */
  predicate PrereleasesClash(x: seq<Text>, y: seq<Text>) {
    && x != [] && y != []
    && if x[0] == y[0] then PrereleasesClash(x[1..], y[1..])
       else Numeric(x[0]) && Numeric(y[0]) && Decimal(x[0]) == Decimal(y[0])
  }

  predicate Clash(a: Version, b: Version) {
    a.core == b.core && PrereleasesClash(a.prerelease, b.prerelease)
  }

  lemma {:induction false} CoresAntisymmetric(x: seq<nat>, y: seq<nat>)
    requires |x| == |y|
    ensures CompareCores(x, y) == -CompareCores(y, x)
    ensures CompareCores(x, y) == 0 <==> x == y
  {
    if x != [] {
      CoresAntisymmetric(x[1..], y[1..]);
      assert x == [x[0]] + x[1..] && y == [y[0]] + y[1..];
    }
  }

  lemma IdentifiersAntisymmetric(x: Text, y: Text)
    ensures CompareIdentifiers(x, y) == -CompareIdentifiers(y, x)
            <==> !(x != y && Numeric(x) && Numeric(y) && Decimal(x) == Decimal(y))
  {
    BeforeIsTotal(x, y);
    if Before(x, y) {
      BeforeIsStrict(x, y);
    }
  }

  lemma {:induction false} PrereleasesAntisymmetric(x: seq<Text>, y: seq<Text>)
    ensures ComparePrereleases(x, y) == -ComparePrereleases(y, x) <==> !PrereleasesClash(x, y)
  {
    if x != [] && y != [] {
      if x[0] == y[0] {
        PrereleasesAntisymmetric(x[1..], y[1..]);
      } else {
        IdentifiersAntisymmetric(x[0], y[0]);
      }
    }
  }

  /** Swapping the versions swaps the answer, exactly when they do not clash. */
  lemma AntisymmetricIffNoClash(a: Version, b: Version)
    requires Proper(a) && Proper(b)
    ensures Compare(a, b) == -Compare(b, a) <==> !Clash(a, b)
  {
    CoresAntisymmetric(a.core, b.core);
    PrereleasesAntisymmetric(a.prerelease, b.prerelease);
  }

  /** 1.0.0-01 and 1.0.0-1 each come after the other. */
  lemma LeadingZeroClashes()
    ensures
      var a, b := Version([1, 0, 0], [[48, 49]]), Version([1, 0, 0], [[49]]);
      Compare(a, b) == 1 && Compare(b, a) == 1
  {
    var zeroOne, one: Text := [48, 49], [49];
    assert zeroOne[..1] == [48] && [48][..0] == [] && one[..0] == [];
    assert Decimal([48]) == 0 && Decimal(zeroOne) == 1 && Decimal(one) == 1;
  }

  // ---------------------------------------------------------------- versions without leading zeros

  predicate NoLeadingZero(x: Text) {
    Numeric(x) ==> |x| == 1 || x[0] != 48
  }

  /** Item 9 of Semantic Versioning. */
  predicate Canonical(v: Version) {
    Proper(v) && forall x | x in v.prerelease :: NoLeadingZero(x)
  }

  lemma DigitIsSmall(x: Text)
    requires Numeric(x) && |x| == 1
    ensures Decimal(x) == x[0] as int - 48
  {
    assert x[..0] == [];
  }

  lemma {:induction false} LongIsLarge(x: Text)
    requires Numeric(x) && NoLeadingZero(x) && |x| > 1
    ensures Decimal(x) >= 10
  {
    var prefix := x[..|x| - 1];
    if |prefix| == 1 {
      DigitIsSmall(prefix);
    } else {
      LongIsLarge(prefix);
    }
  }

  /** A number has one numeral without leading zeros. */
  lemma {:induction false} DecimalUnique(x: Text, y: Text)
    requires Numeric(x) && Numeric(y) && NoLeadingZero(x) && NoLeadingZero(y) && Decimal(x) == Decimal(y)
    ensures x == y
  {
    if |x| == 1 {
      DigitIsSmall(x);
    } else {
      LongIsLarge(x);
    }
    if |y| == 1 {
      DigitIsSmall(y);
    } else {
      LongIsLarge(y);
    }
    if |x| > 1 {
      DecimalUnique(x[..|x| - 1], y[..|y| - 1]);
      assert x == x[..|x| - 1] + [x[|x| - 1]] && y == y[..|y| - 1] + [y[|y| - 1]];
    }
  }

  lemma {:induction false} CanonicalPrereleasesDoNotClash(x: seq<Text>, y: seq<Text>)
    requires (forall z | z in x :: NoLeadingZero(z)) && (forall z | z in y :: NoLeadingZero(z))
    ensures !PrereleasesClash(x, y)
  {
    if x != [] && y != [] {
      assert x[0] in x && y[0] in y;
      if x[0] == y[0] {
        CanonicalPrereleasesDoNotClash(x[1..], y[1..]);
      } else if Numeric(x[0]) && Numeric(y[0]) && Decimal(x[0]) == Decimal(y[0]) {
        DecimalUnique(x[0], y[0]);
      }
    }
  }

  lemma CanonicalIsAntisymmetric(a: Version, b: Version)
    requires Canonical(a) && Canonical(b)
    ensures Compare(a, b) == -Compare(b, a)
  {
    CanonicalPrereleasesDoNotClash(a.prerelease, b.prerelease);
    AntisymmetricIffNoClash(a, b);
  }

  // ---------------------------------------------------------------- item 11 of Semantic Versioning

  /** Numbers by value, other identifiers in ASCII order, numbers before the others. */
  predicate IdentifierPrecedes(x: Text, y: Text) {
    if Numeric(x) && Numeric(y) then Decimal(x) < Decimal(y)
    else if Numeric(x) || Numeric(y) then Numeric(x)
    else Before(x, y)
  }

  /** The first difference decides; when there is none, the longer list comes after. */
  ghost predicate PrereleasePrecedes(x: seq<Text>, y: seq<Text>) {
    exists i | 0 <= i <= |x| && i < |y| :: x[..i] == y[..i] && (i == |x| || IdentifierPrecedes(x[i], y[i]))
  }

  ghost predicate CorePrecedes(x: seq<nat>, y: seq<nat>)
    requires |x| == |y|
  {
    exists i | 0 <= i < |x| :: x[..i] == y[..i] && x[i] < y[i]
  }

  ghost predicate Precedes(a: Version, b: Version)
    requires Proper(a) && Proper(b)
  {
    || CorePrecedes(a.core, b.core)
    || (a.core == b.core && a.prerelease != []
        && (b.prerelease == [] || PrereleasePrecedes(a.prerelease, b.prerelease)))
  }

  lemma {:induction false} CoreComparisonIsPrecedence(x: seq<nat>, y: seq<nat>)
    requires |x| == |y|
    ensures CompareCores(x, y) < 0 <==> CorePrecedes(x, y)
  {
    if CorePrecedes(x, y) {
      var i :| 0 <= i < |x| && x[..i] == y[..i] && x[i] < y[i];
      CoresDiffer(x, y, i);
    }
    if CompareCores(x, y) < 0 {
      if x[0] == y[0] {
        CoreComparisonIsPrecedence(x[1..], y[1..]);
        var i :| 0 <= i < |x[1..]| && x[1..][..i] == y[1..][..i] && x[1..][i] < y[1..][i];
        assert x[..i + 1] == [x[0]] + x[1..][..i] && y[..i + 1] == [y[0]] + y[1..][..i];
      } else {
        assert x[..0] == y[..0];
      }
    }
  }

  lemma IdentifierComparisonIsPrecedence(x: Text, y: Text)
    ensures CompareIdentifiers(x, y) < 0 <==> x != y && IdentifierPrecedes(x, y)
    ensures IdentifierPrecedes(x, y) ==> x != y
  {
    if Before(x, y) {
      BeforeIsStrict(x, y);
    }
  }

  lemma {:induction false} PrereleaseComparisonIsPrecedence(x: seq<Text>, y: seq<Text>)
    ensures ComparePrereleases(x, y) < 0 <==> PrereleasePrecedes(x, y)
  {
    if PrereleasePrecedes(x, y) {
      var i :| 0 <= i <= |x| && i < |y| && x[..i] == y[..i] && (i == |x| || IdentifierPrecedes(x[i], y[i]));
      PrereleasesFrom(x, y, i);
      if i < |x| {
        IdentifierComparisonIsPrecedence(x[i], y[i]);
      }
    }
    if ComparePrereleases(x, y) < 0 {
      if x == [] || y == [] || x[0] != y[0] {
        assert x[..0] == y[..0];
        if x != [] {
          IdentifierComparisonIsPrecedence(x[0], y[0]);
        }
      } else {
        PrereleaseComparisonIsPrecedence(x[1..], y[1..]);
        var i :| 0 <= i <= |x[1..]| && i < |y[1..]| && x[1..][..i] == y[1..][..i]
                 && (i == |x[1..]| || IdentifierPrecedes(x[1..][i], y[1..][i]));
        assert x[..i + 1] == [x[0]] + x[1..][..i] && y[..i + 1] == [y[0]] + y[1..][..i];
      }
    }
  }

  /**
   The comparison is the precedence of Semantic Versioning on every version, except that two versions
   that clash each come after the other.
   */
  lemma ComparisonIsPrecedence(a: Version, b: Version)
    requires Proper(a) && Proper(b)
    ensures Compare(a, b) < 0 <==> Precedes(a, b)
    ensures Compare(a, b) == 0 <==> a == b
    ensures Compare(a, b) > 0 <==> Precedes(b, a) || Clash(a, b)
  {
    ComparisonIsPrecedenceOneWay(a, b);
    ComparisonIsPrecedenceOneWay(b, a);
    AntisymmetricIffNoClash(a, b);
    CoresAntisymmetric(a.core, b.core);
    EqualPrereleases(a.prerelease, b.prerelease);
    ClashIsBothAfter(a, b);
  }

  lemma ComparisonIsPrecedenceOneWay(a: Version, b: Version)
    requires Proper(a) && Proper(b)
    ensures Compare(a, b) < 0 <==> Precedes(a, b)
  {
    CoreComparisonIsPrecedence(a.core, b.core);
    CoresAntisymmetric(a.core, b.core);
    PrereleaseComparisonIsPrecedence(a.prerelease, b.prerelease);
  }

  /** Each of two versions compares as the greater exactly if they clash. */
  lemma ClashIsBothAfter(a: Version, b: Version)
    requires Proper(a) && Proper(b)
    ensures Compare(a, b) > 0 && Compare(b, a) > 0 <==> Clash(a, b)
  {
    ClashingPrereleases(a.prerelease, b.prerelease);
    ClashingPrereleases(b.prerelease, a.prerelease);
    ClashIsSymmetric(a.prerelease, b.prerelease);
    AntisymmetricIffNoClash(a, b);
  }

  lemma {:induction false} ClashIsSymmetric(x: seq<Text>, y: seq<Text>)
    ensures PrereleasesClash(x, y) <==> PrereleasesClash(y, x)
  {
    if x != [] && y != [] && x[0] == y[0] {
      ClashIsSymmetric(x[1..], y[1..]);
    }
  }

  lemma {:induction false} ClashingPrereleases(x: seq<Text>, y: seq<Text>)
    ensures PrereleasesClash(x, y) ==> x != [] && y != [] && ComparePrereleases(x, y) == 1
  {
    if x != [] && y != [] && x[0] == y[0] {
      ClashingPrereleases(x[1..], y[1..]);
    }
  }

  lemma {:induction false} EqualPrereleases(x: seq<Text>, y: seq<Text>)
    ensures ComparePrereleases(x, y) == 0 <==> x == y
  {
    if x != [] && y != [] {
      if x[0] == y[0] {
        EqualPrereleases(x[1..], y[1..]);
      }
      assert x == [x[0]] + x[1..] && y == [y[0]] + y[1..];
    }
  }

  // ---------------------------------------------------------------- transitivity

  lemma IdentifierPrecedenceTransitive(x: Text, y: Text, z: Text)
    requires IdentifierPrecedes(x, y) && IdentifierPrecedes(y, z)
    ensures IdentifierPrecedes(x, z)
  {
    if !Numeric(x) && !Numeric(y) && !Numeric(z) {
      BeforeIsTransitive(x, y, z);
    }
  }

  lemma PrereleasePrecedenceTransitive(x: seq<Text>, y: seq<Text>, z: seq<Text>)
    requires PrereleasePrecedes(x, y) && PrereleasePrecedes(y, z)
    ensures PrereleasePrecedes(x, z)
  {
    var i :| 0 <= i <= |x| && i < |y| && x[..i] == y[..i] && (i == |x| || IdentifierPrecedes(x[i], y[i]));
    var j :| 0 <= j <= |y| && j < |z| && y[..j] == z[..j] && (j == |y| || IdentifierPrecedes(y[j], z[j]));
    var k := if i < j then i else j;
    assert x[..k] == x[..i][..k] == y[..i][..k] == y[..k] == y[..j][..k] == z[..k] by {
      assert y[..i][..k] == y[..k] == y[..j][..k];
    }
    if i < j {
      assert y[i] == y[..j][i] == z[..j][i] == z[i];
    } else if j < i {
      assert x[j] == x[..i][j] == y[..i][j] == y[j];
    } else if i < |x| {
      IdentifierPrecedenceTransitive(x[i], y[i], z[i]);
    }
  }

  lemma CorePrecedenceTransitive(x: seq<nat>, y: seq<nat>, z: seq<nat>)
    requires |x| == |y| == |z| && CorePrecedes(x, y) && CorePrecedes(y, z)
    ensures CorePrecedes(x, z)
  {
    var i :| 0 <= i < |x| && x[..i] == y[..i] && x[i] < y[i];
    var j :| 0 <= j < |y| && y[..j] == z[..j] && y[j] < z[j];
    var k := if i < j then i else j;
    assert x[..k] == x[..i][..k] == y[..i][..k] == y[..k] == y[..j][..k] == z[..k] by {
      assert y[..i][..k] == y[..k] == y[..j][..k];
    }
    if i < j {
      assert y[i] == y[..j][i] == z[..j][i] == z[i];
    } else if j < i {
      assert x[j] == x[..i][j] == y[..i][j] == y[j];
    }
  }

  /** The order is transitive on every version that the pattern accepts, leading zeros included. */
  lemma ComparisonIsTransitive(a: Version, b: Version, c: Version)
    requires Proper(a) && Proper(b) && Proper(c) && Compare(a, b) <= 0 && Compare(b, c) <= 0
    ensures Compare(a, c) <= 0 && (Compare(a, c) == 0 ==> a == b == c)
  {
    ComparisonIsPrecedence(a, b);
    ComparisonIsPrecedence(b, c);
    ComparisonIsPrecedence(a, c);
    if a != b && b != c {
      if CorePrecedes(a.core, b.core) && CorePrecedes(b.core, c.core) {
        CorePrecedenceTransitive(a.core, b.core, c.core);
      } else if a.core == b.core == c.core && b.prerelease != [] && c.prerelease != [] {
        PrereleasePrecedenceTransitive(a.prerelease, b.prerelease, c.prerelease);
      }
      assert Precedes(a, c);
    }
  }
}
