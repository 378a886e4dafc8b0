/// Finite sets of identifiers in increasing order.
module OrderedSets {
  /// The least element of a non-empty set.
  function Least(s: set<nat>): (m: nat)
    requires s != {}
    ensures IsLeast(m, s)
  {
    LeastExists(s);
    var m :| m in s && forall x :: x in s ==> m <= x;
    m
  }

  predicate IsLeast(m: nat, s: set<nat>) {
    m in s && forall x :: x in s ==> m <= x
  }

  lemma LeastExists(s: set<nat>)
    requires s != {}
    ensures exists m :: IsLeast(m, s)
  {
    var x :| x in s;
    if s == {x} {
      assert IsLeast(x, s);
    } else {
      LeastExists(s - {x});
      var m :| IsLeast(m, s - {x});
      assert forall y :: y in s ==> y == x || y in s - {x};
      assert IsLeast(if m <= x then m else x, s);
    }
  }

  predicate Ascending(s: seq<nat>) {
    forall i, j :: 0 <= i < j < |s| ==> s[i] < s[j]
  }

  /// The elements in increasing order: the order in which the program iterates over a std::map.
  function InOrder(ids: set<nat>): (s: seq<nat>)
    ensures forall x :: x in s <==> x in ids
    decreases |ids|
  {
    if ids == {} then []
    else
      var m := Least(ids);
      [m] + InOrder(ids - {m})
  }

  lemma FirstAscends(m: nat, rest: seq<nat>)
    requires Ascending(rest) && forall x :: x in rest ==> m < x
    ensures Ascending([m] + rest)
  {
    forall i, j | 0 <= i < j < |rest| + 1 ensures ([m] + rest)[i] < ([m] + rest)[j] {
      assert rest[j - 1] in rest;
    }
  }

  lemma {:induction false} InOrderAscends(ids: set<nat>)
    ensures Ascending(InOrder(ids))
    decreases |ids|
  {
    if ids != {} {
      var m := Least(ids);
      InOrderAscends(ids - {m});
      FirstAscends(m, InOrder(ids - {m}));
    }
  }

  // -- Counting ------------------------------------------------------------------------------

  predicate NoRepeats(s: seq<nat>) {
    forall i, j :: 0 <= i < j < |s| ==> s[i] != s[j]
  }

  function Elements(s: seq<nat>): set<nat> {
    set v | v in s
  }

  function UpTo(n: nat): set<nat> {
    if n == 0 then {} else UpTo(n - 1) + {n - 1}
  }

  lemma {:induction false} Numbers(n: nat)
    ensures |UpTo(n)| == n && forall v :: v in UpTo(n) <==> 0 <= v < n
  {
    if n > 0 { Numbers(n - 1); }
  }

  lemma {:induction false} Distinct(s: seq<nat>)
    requires NoRepeats(s)
    ensures |Elements(s)| == |s|
  {
    if s == [] {
      assert Elements(s) == {};
    } else {
      var rest := s[..|s| - 1];
      Distinct(rest);
      assert forall i :: 0 <= i < |rest| ==> rest[i] == s[i] != s[|s| - 1];
      assert s == rest + [s[|s| - 1]];
      assert Elements(s) == Elements(rest) + {s[|s| - 1]};
    }
  }

  lemma {:induction false} SubsetIsSmaller(a: set<nat>, b: set<nat>)
    requires a <= b
    ensures |a| <= |b|
  {
    if a != {} {
      var x :| x in a;
      SubsetIsSmaller(a - {x}, b - {x});
    }
  }

  /// Distinct numbers below n are at most n many.
  lemma DistinctBelow(s: seq<nat>, n: nat)
    requires NoRepeats(s) && forall v :: v in s ==> v < n
    ensures |s| <= n
  {
    Distinct(s);
    Numbers(n);
    SubsetIsSmaller(Elements(s), UpTo(n));
  }
}
