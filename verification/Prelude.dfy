/** Option, Result, and counting over finite maps. */
module Prelude {

  datatype Option<+T> = None | Some(value: T)

  datatype Result<+T, +E> = Success(value: T) | Failure(error: E)

  /** The keys of the rows of `m` that satisfy `p`: a SELECT ... WHERE. */
  function Where<K(==), V>(m: map<K, V>, p: V -> bool): set<K> {
    set k | k in m && p(m[k])
  }

  /** SELECT COUNT(*) ... WHERE. */
  function Count<K(==), V>(m: map<K, V>, p: V -> bool): nat {
    |Where(m, p)|
  }

  function Indicator(b: bool): nat {
    if b then 1 else 0
  }

  lemma SizeWithout<T>(s: set<T>, x: T)
    ensures |s| == |s - {x}| + Indicator(x in s)
  {
    if x in s {
      assert s == (s - {x}) + {x};
    } else {
      assert s == s - {x};
    }
  }

  lemma WherePut<K, V>(m: map<K, V>, k: K, v: V, p: V -> bool)
    ensures Where(m[k := v], p) - {k} == Where(m, p) - {k}
    ensures k in Where(m[k := v], p) <==> p(v)
  {
  }

  /** Writing one row changes a count by what that row contributed before and after. */
  lemma CountPut<K, V>(m: map<K, V>, k: K, v: V, p: V -> bool)
    ensures Count(m[k := v], p) == Count(m, p) - Indicator(k in m && p(m[k])) + Indicator(p(v))
  {
    WherePut(m, k, v, p);
    SizeWithout(Where(m, p), k);
    SizeWithout(Where(m[k := v], p), k);
  }

  /** A subset is no larger, and is smaller when it misses an element. */
  lemma SubsetSize<T>(a: set<T>, b: set<T>)
    requires a <= b
    ensures |a| <= |b|
    ensures |a| == |b| ==> a == b
  {
    assert b == a + (b - a);
    assert |b| == |a| + |b - a|;
    if |a| == |b| {
      assert b - a == {};
    }
  }

  lemma PartitionSize<T>(all: set<T>, a: set<T>, b: set<T>, c: set<T>, d: set<T>)
    requires forall x :: x in all <==> x in a || x in b || x in c || x in d
    requires a !! b !! c !! d
    ensures |all| == |a| + |b| + |c| + |d|
  {
    assert all == a + b + c + d;
    assert |a + b| == |a| + |b|;
    assert |a + b + c| == |a + b| + |c|;
    assert |a + b + c + d| == |a + b + c| + |d|;
  }

  lemma SingletonUnique<T>(s: set<T>)
    requires |s| == 1
    ensures forall x, y :: x in s && y in s ==> x == y
  {
    forall x, y | x in s && y in s ensures x == y {
      SubsetSize({x}, s);
    }
  }

  /** scalar_one_or_none, when there is one row. */
  function TheOnly<T(==)>(s: set<T>): (x: T)
    requires |s| == 1
    ensures s == {x}
  {
    SingletonUnique(s);
    var x :| x in s;
    x
  }

  /** A non-empty finite set of rows has one with the least key value. */
  lemma {:induction false} HasLeast<T>(s: set<T>, key: T -> int)
    requires s != {}
    ensures exists x :: x in s && forall y :: y in s ==> key(x) <= key(y)
    decreases |s|
  {
    var z :| z in s;
    var rest := s - {z};
    if rest == {} {
      assert s == {z};
    } else {
      HasLeast(rest, key);
      var x :| x in rest && forall y :: y in rest ==> key(x) <= key(y);
      var least := if key(x) <= key(z) then x else z;
      assert least in s && forall y :: y in s ==> key(least) <= key(y) by {
        forall y | y in s ensures key(least) <= key(y) {
          assert y == z || y in rest;
        }
      }
    }
  }

  function Elements<T(==)>(s: seq<T>): set<T> {
    set x | x in s
  }

  lemma {:induction false} DistinctCount<T>(s: seq<T>)
    requires forall j, k :: 0 <= j < k < |s| ==> s[j] != s[k]
    ensures |Elements(s)| == |s|
  {
    if s != [] {
      var n := |s| - 1;
      DistinctCount(s[..n]);
      assert s == s[..n] + [s[n]];
      assert Elements(s) == Elements(s[..n]) + {s[n]};
    }
  }

  /** The elements of a set in some order, each once. */
  lemma {:induction false} Enumerate<T>(s: set<T>) returns (order: seq<T>)
    ensures Elements(order) == s
    ensures forall i, j :: 0 <= i < j < |order| ==> order[i] != order[j]
    decreases |s|
  {
    if s == {} { return []; }
    var x :| x in s;
    var rest := Enumerate(s - {x});
    assert x !in Elements(rest);
    order := rest + [x];
    assert Elements(order) == Elements(rest) + {x};
  }
}
