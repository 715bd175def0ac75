/**
 * Iteration order of the source's `std::map` containers.  A range-for over a
 * `std::map<std::string, _>` visits keys in ascending `std::string` order and
 * one over a `std::map<UINT, _>` in ascending numeric order; the model turns a
 * key set into the sequence that such a loop visits.
 */
module Ordering {

  /** `std::string`'s `operator<`: lexicographic by character code. */
  predicate StrLess(a: string, b: string)
    decreases |a|
  {
    |b| > 0 && (|a| == 0 || a[0] < b[0] || (a[0] == b[0] && StrLess(a[1..], b[1..])))
  }

  lemma {:induction false} StrLessIrreflexive(a: string)
    ensures !StrLess(a, a)
    decreases |a|
  {
    if |a| > 0 {
      StrLessIrreflexive(a[1..]);
    }
  }

  lemma {:induction false} StrLessTransitive(a: string, b: string, c: string)
    requires StrLess(a, b) && StrLess(b, c)
    ensures StrLess(a, c)
    decreases |a|
  {
    if |a| > 0 && a[0] == b[0] && b[0] == c[0] {
      StrLessTransitive(a[1..], b[1..], c[1..]);
    }
  }

  lemma {:induction false} StrLessTotal(a: string, b: string)
    requires a != b
    ensures StrLess(a, b) || StrLess(b, a)
    decreases |a|
  {
    if |a| > 0 && |b| > 0 && a[0] == b[0] {
      assert a == [a[0]] + a[1..] && b == [b[0]] + b[1..];
      StrLessTotal(a[1..], b[1..]);
    }
  }

  lemma StrLessAsymmetric(a: string, b: string)
    requires StrLess(a, b)
    ensures !StrLess(b, a)
  {
    if StrLess(b, a) {
      StrLessTransitive(a, b, a);
      StrLessIrreflexive(a);
    }
  }

  // ---------------------------------------------------------------- names

  /** `m` is the least element of `s` under StrLess. */
  predicate IsLeastName(m: string, s: set<string>)
  {
    m in s && forall y | y in s :: y == m || StrLess(m, y)
  }

  lemma {:induction false} LeastNameExists(s: set<string>)
    requires s != {}
    ensures exists m :: IsLeastName(m, s)
    decreases |s|
  {
    var x :| x in s;
    if s != {x} {
      var rest := s - {x};
      LeastNameExists(rest);
      var m :| IsLeastName(m, rest);
      if StrLess(x, m) {
        forall y | y in s && y != x ensures StrLess(x, y) {
          if y != m { StrLessTransitive(x, m, y); }
        }
        assert IsLeastName(x, s);
      } else {
        StrLessTotal(x, m);
        assert IsLeastName(m, s);
      }
    } else {
      assert IsLeastName(x, s);
    }
  }

  lemma LeastNameUnique(s: set<string>, m1: string, m2: string)
    requires IsLeastName(m1, s) && IsLeastName(m2, s)
    ensures m1 == m2
  {
    if m1 != m2 {
      StrLessAsymmetric(m1, m2);
    }
  }

  function LeastName(s: set<string>): (m: string)
    requires s != {}
    ensures IsLeastName(m, s)
  {
    LeastNameExists(s);
    forall m1, m2 | IsLeastName(m1, s) && IsLeastName(m2, s) ensures m1 == m2 {
      LeastNameUnique(s, m1, m2);
    }
    var m :| IsLeastName(m, s);
    m
  }

  /** The keys of a `std::map<std::string, _>` in the order its iteration visits them. */
  function SortedNames(s: set<string>): (r: seq<string>)
    ensures |r| == |s|
    ensures forall x :: x in r <==> x in s
    ensures forall i, j | 0 <= i < j < |r| :: StrLess(r[i], r[j])
    ensures forall i, j | 0 <= i < j < |r| :: r[i] != r[j]
    decreases |s|
  {
    if s == {} then []
    else
      var m := LeastName(s);
      var r := [m] + SortedNames(s - {m});
      forall i, j | 0 <= i < j < |r| ensures r[i] != r[j] {
        StrLessIrreflexive(r[i]);
      }
      r
  }

  // ---------------------------------------------------------------- ids

  predicate IsLeastId(m: nat, s: set<nat>)
  {
    m in s && forall y | y in s :: m <= y
  }

  lemma {:induction false} LeastIdExists(s: set<nat>)
    requires s != {}
    ensures exists m :: IsLeastId(m, s)
    decreases |s|
  {
    var x :| x in s;
    if s != {x} {
      LeastIdExists(s - {x});
      var m :| IsLeastId(m, s - {x});
      var least := if x < m then x else m;
      forall y | y in s ensures least <= y {
        if y != x { assert y in s - {x}; }
      }
      assert IsLeastId(least, s);
    } else {
      assert IsLeastId(x, s);
    }
  }

  function LeastId(s: set<nat>): (m: nat)
    requires s != {}
    ensures IsLeastId(m, s)
  {
    LeastIdExists(s);
    var m :| IsLeastId(m, s);
    m
  }

  /** The keys of a `std::map<UINT, _>` in the order its iteration visits them. */
  function SortedIds(s: set<nat>): (r: seq<nat>)
    ensures |r| == |s|
    ensures forall x :: x in r <==> x in s
    ensures forall i, j | 0 <= i < j < |r| :: r[i] < r[j]
    decreases |s|
  {
    if s == {} then []
    else
      var m := LeastId(s);
      [m] + SortedIds(s - {m})
  }
}
