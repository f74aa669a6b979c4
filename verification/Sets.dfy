/** How many elements a set has. */
module Sets {
  function Elements<T>(s: seq<T>): set<T> { set x | x in s }

  lemma {:induction false} ElementsSize<T>(s: seq<T>)
    ensures |Elements(s)| <= |s|
  {
    if s == [] {
      assert Elements(s) == {};
    } else {
      var r := s[..|s| - 1];
      ElementsSize(r);
      assert Elements(s) == Elements(r) + {s[|s| - 1]};
    }
  }

  lemma {:induction false} SubsetSize<T>(a: set<T>, b: set<T>)
    requires a <= b
    ensures |a| <= |b|
  {
    if a != {} {
      var x :| x in a;
      SubsetSize(a - {x}, b - {x});
    }
  }

  ghost predicate NoRepeat<T>(s: seq<T>) { forall i: nat, j: nat :: i < j < |s| ==> s[i] != s[j] }

  lemma {:induction false} NoRepeatSize<T>(s: seq<T>)
    requires NoRepeat(s)
    ensures |Elements(s)| == |s|
  {
    if s == [] {
      assert Elements(s) == {};
    } else {
      var r := s[..|s| - 1];
      NoRepeatSize(r);
      assert Elements(s) == Elements(r) + {s[|s| - 1]};
    }
  }
}
