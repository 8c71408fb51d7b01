/** Facts about finite sets and the lists that enumerate them. */
module Sets {
  lemma Member<T>(s: set<T>) returns (x: T)
    requires s != {}
    ensures x in s
  {
    x :| x in s;
  }

  lemma {:induction false} SubsetSize<T>(a: set<T>, b: set<T>)
    requires a <= b
    ensures |a| <= |b|
  {
    if a != {} {
      var x :| x in a;
      SubsetSize(a - {x}, b - {x});
    }
  }

  ghost predicate Distinct<T>(s: seq<T>) {
    forall i, j :: 0 <= i < j < |s| ==> s[i] != s[j]
  }

  /** A duplicate-free enumeration has as many entries as the set has members. */
  lemma {:induction false} EnumerationSize<T>(s: seq<T>, all: set<T>)
    requires Distinct(s)
    requires forall i :: 0 <= i < |s| ==> s[i] in all
    requires forall x :: x in all ==> x in s
    ensures |s| == |all|
  {
    if s == [] {
      assert all == {};
    } else {
      var rest := s[1..];
      assert forall i :: 0 <= i < |rest| ==> rest[i] == s[i + 1];
      forall x | x in all - {s[0]} ensures x in rest {
        assert s == [s[0]] + rest;
      }
      EnumerationSize(rest, all - {s[0]});
    }
  }
}
