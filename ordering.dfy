/**
 * Orders used by the overlay: Python's string comparison (code point by code
 * point, a proper prefix first), the lexicographic comparison of sort-key
 * tuples, and sorting a finite set into a strictly increasing sequence.
 */
module Ordering {

  /** Python's `a < b` on `str`: lexicographic by code point. */
  predicate StrLt(a: string, b: string)
    decreases |a|
  {
    if |a| == 0 then |b| > 0
    else if |b| == 0 then false
    else if a[0] != b[0] then a[0] < b[0]
    else StrLt(a[1..], b[1..])
  }

  /** Python's `a <= b` on `str`. */
  predicate StrLe(a: string, b: string) {
    a == b || StrLt(a, b)
  }

  lemma {:induction false} StrLtIrreflexive(a: string)
    ensures !StrLt(a, a)
    decreases |a|
  {
    if |a| > 0 { StrLtIrreflexive(a[1..]); }
  }

  lemma {:induction false} StrLtTransitive(a: string, b: string, c: string)
    requires StrLt(a, b) && StrLt(b, c)
    ensures StrLt(a, c)
    decreases |a|
  {
    if |a| > 0 && |b| > 0 && |c| > 0 && a[0] == b[0] && b[0] == c[0] {
      StrLtTransitive(a[1..], b[1..], c[1..]);
    }
  }

  lemma {:induction false} StrLtTrichotomy(a: string, b: string)
    ensures a == b || StrLt(a, b) || StrLt(b, a)
    decreases |a|
  {
    if |a| > 0 && |b| > 0 && a[0] == b[0] {
      StrLtTrichotomy(a[1..], b[1..]);
      if a[1..] == b[1..] {
        assert a == [a[0]] + a[1..] && b == [b[0]] + b[1..];
      }
    }
  }

  lemma {:induction false} StrLtAsymmetric(a: string, b: string)
    requires StrLt(a, b)
    ensures !StrLt(b, a)
  {
    if StrLt(b, a) {
      StrLtTransitive(a, b, a);
      StrLtIrreflexive(a);
    }
  }

  /** One component of a sort-key tuple: a string or an integer. */
  datatype Atom = AInt(i: int) | AStr(s: string)

  /** Components of the same kind compare naturally; integers sort before strings. */
  predicate AtomLt(x: Atom, y: Atom) {
    match (x, y)
    case (AInt(i), AInt(j)) => i < j
    case (AStr(s), AStr(t)) => StrLt(s, t)
    case (AInt(_), AStr(_)) => true
    case (AStr(_), AInt(_)) => false
  }

  /** Python's tuple comparison `x < y`, component by component. */
  predicate AtomsLt(x: seq<Atom>, y: seq<Atom>)
    decreases |x|
  {
    if |x| == 0 then |y| > 0
    else if |y| == 0 then false
    else if x[0] != y[0] then AtomLt(x[0], y[0])
    else AtomsLt(x[1..], y[1..])
  }

  lemma AtomLtTransitive(x: Atom, y: Atom, z: Atom)
    requires AtomLt(x, y) && AtomLt(y, z)
    ensures AtomLt(x, z)
  {
    if x.AStr? && y.AStr? && z.AStr? { StrLtTransitive(x.s, y.s, z.s); }
  }

  lemma AtomLtTrichotomy(x: Atom, y: Atom)
    ensures x == y || AtomLt(x, y) || AtomLt(y, x)
  {
    if x.AStr? && y.AStr? { StrLtTrichotomy(x.s, y.s); }
  }

  lemma AtomLtIrreflexive(x: Atom)
    ensures !AtomLt(x, x)
  {
    if x.AStr? { StrLtIrreflexive(x.s); }
  }

  lemma {:induction false} AtomsLtIrreflexive(x: seq<Atom>)
    ensures !AtomsLt(x, x)
    decreases |x|
  {
    if |x| > 0 { AtomsLtIrreflexive(x[1..]); }
  }

  lemma {:induction false} AtomsLtTransitive(x: seq<Atom>, y: seq<Atom>, z: seq<Atom>)
    requires AtomsLt(x, y) && AtomsLt(y, z)
    ensures AtomsLt(x, z)
    decreases |x|
  {
    if |x| > 0 && |y| > 0 && |z| > 0 {
      if x[0] == y[0] && y[0] == z[0] {
        AtomsLtTransitive(x[1..], y[1..], z[1..]);
      } else if x[0] != y[0] && y[0] != z[0] {
        AtomLtTransitive(x[0], y[0], z[0]);
        AtomLtIrreflexive(x[0]);
      }
    }
  }

  lemma {:induction false} AtomsLtTrichotomy(x: seq<Atom>, y: seq<Atom>)
    ensures x == y || AtomsLt(x, y) || AtomsLt(y, x)
    decreases |x|
  {
    if |x| > 0 && |y| > 0 {
      if x[0] == y[0] {
        AtomsLtTrichotomy(x[1..], y[1..]);
        if x[1..] == y[1..] {
          assert x == [x[0]] + x[1..] && y == [y[0]] + y[1..];
        }
      } else {
        AtomLtTrichotomy(x[0], y[0]);
      }
    }
  }

  /** `r` is strictly increasing under the order that `key` induces. */
  ghost predicate StrictlyIncreasing<T>(r: seq<T>, key: T -> seq<Atom>) {
    forall i, j :: 0 <= i < j < |r| ==> AtomsLt(key(r[i]), key(r[j]))
  }

  /** `key` tells the elements of `s` apart. */
  ghost predicate InjectiveOn<T(!new)>(s: set<T>, key: T -> seq<Atom>) {
    forall a, b :: a in s && b in s && key(a) == key(b) ==> a == b
  }

  lemma {:induction false} LeastExists<T>(s: set<T>, key: T -> seq<Atom>)
    requires s != {}
    ensures exists m :: m in s && forall y :: y in s ==> !AtomsLt(key(y), key(m))
    decreases |s|
  {
    var x :| x in s;
    if s - {x} == {} {
      assert s == {x};
      AtomsLtIrreflexive(key(x));
    } else {
      LeastExists(s - {x}, key);
      var m :| m in s - {x} && forall y :: y in s - {x} ==> !AtomsLt(key(y), key(m));
      if AtomsLt(key(x), key(m)) {
        forall y | y in s
          ensures !AtomsLt(key(y), key(x))
        {
          if y == x {
            AtomsLtIrreflexive(key(x));
          } else if AtomsLt(key(y), key(x)) {
            AtomsLtTransitive(key(y), key(x), key(m));
          }
        }
      } else {
        forall y | y in s
          ensures !AtomsLt(key(y), key(m))
        {
        }
      }
    }
  }

  /** The least element of a non-empty set (unique, because `key` tells the elements apart). */
  function Least<T(!new)>(s: set<T>, key: T -> seq<Atom>): (m: T)
    requires s != {} && InjectiveOn(s, key)
    ensures m in s
    ensures forall y :: y in s && y != m ==> AtomsLt(key(m), key(y))
  {
    LeastExists(s, key);
    LeastUnique(s, key);
    var m :| m in s && forall y :: y in s ==> !AtomsLt(key(y), key(m));
    LeastBelowOthers(s, key, m);
    m
  }

  lemma LeastBelowOthers<T(!new)>(s: set<T>, key: T -> seq<Atom>, m: T)
    requires m in s && forall y :: y in s ==> !AtomsLt(key(y), key(m))
    requires InjectiveOn(s, key)
    ensures forall y :: y in s && y != m ==> AtomsLt(key(m), key(y))
  {
    forall y | y in s && y != m
      ensures AtomsLt(key(m), key(y))
    {
      AtomsLtTrichotomy(key(m), key(y));
    }
  }

  /** The least element of a set is unique; this lets a compiled function choose it. */
  lemma LeastUnique<T(!new)>(s: set<T>, key: T -> seq<Atom>)
    requires InjectiveOn(s, key)
    ensures forall m, m' ::
              m in s && (forall y :: y in s ==> !AtomsLt(key(y), key(m))) &&
              m' in s && (forall y :: y in s ==> !AtomsLt(key(y), key(m')))
              ==> m == m'
  {
    forall m, m' |
      m in s && (forall y :: y in s ==> !AtomsLt(key(y), key(m))) &&
      m' in s && (forall y :: y in s ==> !AtomsLt(key(y), key(m')))
      ensures m == m'
    {
      AtomsLtTrichotomy(key(m), key(m'));
    }
  }

  lemma ConsIncreasing<T>(m: T, rest: seq<T>, key: T -> seq<Atom>)
    requires StrictlyIncreasing(rest, key)
    requires forall y :: y in rest ==> AtomsLt(key(m), key(y))
    ensures StrictlyIncreasing([m] + rest, key)
  {
    var r := [m] + rest;
    forall i, j | 0 <= i < j < |r|
      ensures AtomsLt(key(r[i]), key(r[j]))
    {
      if i == 0 {
        assert r[j] == rest[j - 1];
      } else {
        assert r[i] == rest[i - 1] && r[j] == rest[j - 1];
      }
    }
  }

  /** Python's `sorted(s)` for a set whose elements `key` tells apart. */
  function SortedBy<T(!new)>(s: set<T>, key: T -> seq<Atom>): (r: seq<T>)
    requires InjectiveOn(s, key)
    ensures forall x :: x in r <==> x in s
    ensures |r| == |s|
    ensures StrictlyIncreasing(r, key)
    decreases |s|
  {
    if s == {} then []
    else
      var m := Least(s, key);
      var rest := SortedBy(s - {m}, key);
      ConsIncreasing(m, rest, key);
      [m] + rest
  }
}
