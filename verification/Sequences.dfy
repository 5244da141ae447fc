/** Facts about sequences and sets that proofs have to ask for. */
module Sequences {

  lemma Regroup<T>(a: seq<T>, b: seq<T>, c: seq<T>)
    ensures a + b + c == a + (b + c)
  {
  }

  lemma EmptyIsUnit<T>(a: seq<T>)
    ensures [] + a == a && a + [] == a
  {
  }

  lemma CutAtSeam<T>(a: seq<T>, b: seq<T>)
    ensures (a + b)[..|a|] == a && (a + b)[|a|..] == b
  {
  }

  lemma SameParts<T>(a: seq<T>, b: seq<T>, s: seq<T>, t: seq<T>)
    requires |a| == |b| && a + s == b + t
    ensures a == b && s == t
  {
    CutAtSeam(a, s);
    CutAtSeam(b, t);
  }

  /** Nothing follows, or something that does not belong to the run before it. */
  predicate Ends<T>(within: T -> bool, s: seq<T>) {
    s == [] || !within(s[0])
  }

  /** Two runs at the front of the same sequence, each as long as it can be, are the same run. */
  lemma {:induction false} RunUnique<T>(within: T -> bool, a: seq<T>, b: seq<T>, s: seq<T>, t: seq<T>)
    requires (forall i | 0 <= i < |a| :: within(a[i])) && (forall i | 0 <= i < |b| :: within(b[i]))
    requires Ends(within, s) && Ends(within, t) && a + s == b + t
    ensures a == b && s == t
  {
    var all := a + s;
    assert all == b + t;
    assert a != [] ==> all[0] == a[0];
    assert b != [] ==> all[0] == b[0];
    assert a == [] ==> all == s;
    assert b == [] ==> all == t;
    if a != [] {
      assert all[1..] == a[1..] + s == b[1..] + t;
      RunUnique(within, a[1..], b[1..], s, t);
      assert a == [a[0]] + a[1..] && b == [b[0]] + b[1..];
    }
  }

  lemma {:induction false} SubsetIsNoLarger<T>(a: set<T>, b: set<T>)
    requires a <= b
    ensures |a| <= |b|
  {
    if a != {} {
      var x :| x in a;
      SubsetIsNoLarger(a - {x}, b - {x});
    }
  }
}
