/** Nullable columns, and a few facts about finite sets, lists and quotients. */
module Basics {

  /** A nullable value: `None` stands for SQL NULL and for a nil pointer. */
  datatype Option<+T> = None | Some(value: T)

  lemma EmptyOrNot<T>(s: set<T>)
    ensures s == {} || exists x :: x in s
  {
    if forall x :: x !in s {
      assert s == {};
    }
  }

  lemma SomeMember<T>(s: set<T>) returns (x: T)
    requires s != {}
    ensures x in s
  {
    EmptyOrNot(s);
    x :| x in s;
  }

  function SetOf<T>(xs: seq<T>): set<T> {
    set x | x in xs
  }

  predicate NoRepeats<T(==)>(xs: seq<T>) {
    forall i, j | 0 <= i < j < |xs| :: xs[i] != xs[j]
  }

  lemma {:induction false} SubsetSize<T>(a: set<T>, b: set<T>)
    requires a <= b
    ensures |a| <= |b|
    ensures |a| == |b| ==> a == b
  {
    if a != {} {
      var some := SomeMember(a);
      SubsetSize(a - {some}, b - {some});
    } else if b != {} {
      var x := SomeMember(b);
      assert |b| == |b - {x}| + 1;
    }
  }

  lemma {:induction false} SetOfSize<T>(xs: seq<T>)
    ensures |SetOf(xs)| <= |xs|
    ensures |SetOf(xs)| == |xs| <==> NoRepeats(xs)
  {
    if xs != [] {
      var rest := xs[1..];
      SetOfSize(rest);
      if xs[0] in rest {
        assert SetOf(xs) == SetOf(rest);
        var k :| 0 <= k < |rest| && rest[k] == xs[0];
        assert xs[k + 1] == xs[0];
      } else {
        assert SetOf(xs) == {xs[0]} + SetOf(rest);
        assert NoRepeats(rest) ==> NoRepeats(xs);
        assert NoRepeats(xs) ==> NoRepeats(rest);
      }
    }
  }

  lemma QuotientBounds(a: int, d: int)
    requires 0 <= a && 0 < d
    ensures 0 <= a / d && a / d * d <= a < a / d * d + d == (a / d + 1) * d
  {
  }
}
