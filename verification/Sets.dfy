/** Finite sets of numbers: their greatest element, and how inclusion bounds size. */
module Sets {

  lemma Member<T>(s: set<T>) returns (x: T)
    requires s != {}
    ensures x in s
  {
    x :| x in s;
  }

  lemma {:induction false} GreatestOf(s: set<int>) returns (m: int)
    requires s != {}
    ensures m in s && forall x :: x in s ==> x <= m
  {
    m := Member(s);
    if s != {m} {
      var k := GreatestOf(s - {m});
      assert forall x :: x in s ==> x == m || x in s - {m};
      m := if k < m then m else k;
    }
  }

  // The numbers 0, ..., n - 1.
  function Below(n: nat): (s: set<int>)
    ensures |s| == n
    ensures forall i :: i in s <==> 0 <= i < n
  {
    if n == 0 then {} else Below(n - 1) + {n - 1}
  }

  lemma {:induction false} SubsetSize<T>(a: set<T>, b: set<T>)
    requires a <= b
    ensures |a| <= |b|
  {
    if a != {} {
      var x: T := Member(a);
      SubsetSize(a - {x}, b - {x});
    }
  }
}
