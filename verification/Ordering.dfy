/** Sorting a finite set by a strict total order, and the rank of an element in it. */
module Ordering {

  ghost predicate StrictTotal<T(!new)>(lt: (T, T) -> bool, s: set<T>) {
    && (forall a :: a in s ==> !lt(a, a))
    && (forall a, b :: a in s && b in s && a != b ==> lt(a, b) || lt(b, a))
    && (forall a, b, c :: a in s && b in s && c in s && lt(a, b) && lt(b, c) ==> lt(a, c))
  }

  ghost predicate Sorted<T>(lt: (T, T) -> bool, q: seq<T>) {
    forall i, j :: 0 <= i < j < |q| ==> lt(q[i], q[j])
  }

  ghost predicate Lists<T(!new)>(q: seq<T>, s: set<T>) {
    forall x :: x in q <==> x in s
  }

  method InsertSorted<T(!new)>(lt: (T, T) -> bool, q: seq<T>, x: T, ghost s: set<T>) returns (r: seq<T>)
    requires StrictTotal(lt, s + {x}) && x !in s && Lists(q, s) && Sorted(lt, q)
    ensures Lists(r, s + {x}) && Sorted(lt, r) && |r| == |q| + 1
  {
    var k := 0;
    while k < |q| && lt(q[k], x)
      invariant 0 <= k <= |q|
      invariant forall i :: 0 <= i < k ==> lt(q[i], x)
    {
      k := k + 1;
    }
    r := q[..k] + [x] + q[k..];
    InsertedIsSorted(lt, q, x, s, k);
    InsertedLists(q, x, s, k);
  }

  lemma InsertedIsSorted<T(!new)>(lt: (T, T) -> bool, q: seq<T>, x: T, s: set<T>, k: nat)
    requires StrictTotal(lt, s + {x}) && x !in s && Lists(q, s) && Sorted(lt, q) && k <= |q|
    requires forall i :: 0 <= i < k ==> lt(q[i], x)
    requires k < |q| ==> !lt(q[k], x)
    ensures Sorted(lt, q[..k] + [x] + q[k..])
  {
    forall i | k <= i < |q| ensures lt(x, q[i]) {
      assert q[k] in q && q[k] in s + {x} && x in s + {x} && lt(x, q[k]);
      if i > k {
        assert q[i] in q && q[i] in s + {x} && lt(q[k], q[i]);
      }
    }
  }

  lemma InsertedLists<T(!new)>(q: seq<T>, x: T, s: set<T>, k: nat)
    requires Lists(q, s) && k <= |q|
    ensures Lists(q[..k] + [x] + q[k..], s + {x})
  {
    var r := q[..k] + [x] + q[k..];
    assert q == q[..k] + q[k..];
    forall y ensures y in r <==> y in s + {x} {
      assert y in q <==> y in q[..k] || y in q[k..];
    }
  }

  method Sort<T(==,!new)>(lt: (T, T) -> bool, s: set<T>) returns (q: seq<T>)
    requires StrictTotal(lt, s)
    ensures Lists(q, s) && Sorted(lt, q) && |q| == |s|
  {
    q := [];
    var rest := s;
    while rest != {}
      invariant rest <= s && Lists(q, s - rest) && Sorted(lt, q) && |q| == |s| - |rest|
      decreases |rest|
    {
      var x :| x in rest;
      assert (s - rest) + {x} == s - (rest - {x});
      q := InsertSorted(lt, q, x, s - rest);
      rest := rest - {x};
    }
    assert s - {} == s;
  }

  function Elements<T>(q: seq<T>): set<T> {
    set x | x in q
  }

  lemma {:induction false} DistinctElements<T>(q: seq<T>)
    requires forall i, j :: 0 <= i < j < |q| ==> q[i] != q[j]
    ensures |Elements(q)| == |q|
  {
    if |q| > 0 {
      var n := |q| - 1;
      DistinctElements(q[..n]);
      assert Elements(q) == Elements(q[..n]) + {q[n]};
      assert q[n] !in q[..n];
    }
  }

  lemma SortedIsDistinct<T(!new)>(lt: (T, T) -> bool, s: set<T>, q: seq<T>)
    requires StrictTotal(lt, s) && Lists(q, s) && Sorted(lt, q)
    ensures forall i, j :: 0 <= i < j < |q| ==> q[i] != q[j]
  {
    forall i, j | 0 <= i < j < |q| ensures q[i] != q[j] {
      assert q[i] in q && q[j] in q;
    }
  }

  ghost function Predecessors<T(!new)>(lt: (T, T) -> bool, s: set<T>, x: T): set<T> {
    set y | y in s && lt(y, x)
  }

  /** In a sorted list of a set, the number of predecessors of an element is its index. */
  lemma RankIsIndex<T(!new)>(lt: (T, T) -> bool, s: set<T>, q: seq<T>, i: nat)
    requires StrictTotal(lt, s) && Lists(q, s) && Sorted(lt, q) && i < |q|
    ensures |Predecessors(lt, s, q[i])| == i
  {
    var before := Predecessors(lt, s, q[i]);
    assert q[i] in q && q[i] in s;
    SortedIsDistinct(lt, s, q);
    forall j | i < j < |q| ensures !lt(q[j], q[i]) {
      assert lt(q[i], q[j]) && q[j] in q;
    }
    forall x ensures x in before <==> x in q[..i] {
      if x in before {
        assert x in q;
        var j :| 0 <= j < |q| && q[j] == x;
        if j < i {
          assert q[..i][j] == x;
        }
      }
      if x in q[..i] {
        var j :| 0 <= j < i && q[..i][j] == x;
        assert q[j] in q;
      }
    }
    assert before == Elements(q[..i]);
    DistinctElements(q[..i]);
  }
}
