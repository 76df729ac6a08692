/** Failure-carrying values and facts about finite sets shared by the other modules. */
module Common {

  datatype Option<+T> = None | Some(value: T)

  datatype Result<+T, +E> = Ok(value: T) | Err(error: E)

  const U64_LIMIT: nat := 0x1_0000_0000_0000_0000

  predicate Distinct<T(==)>(xs: seq<T>) {
    forall i, j :: 0 <= i < j < |xs| ==> xs[i] != xs[j]
  }

  function Tabulate<T>(f: nat -> T, n: nat): (s: seq<T>)
    ensures |s| == n && forall i :: 0 <= i < n ==> s[i] == f(i)
  {
    seq(n, i requires 0 <= i < n => f(i))
  }

  lemma TabulateSnoc<T>(f: nat -> T, n: nat)
    ensures Tabulate(f, n + 1) == Tabulate(f, n) + [f(n)]
  {
  }

  /** A subset is no larger, and one of equal size is the whole set. */
  lemma SubsetCardinality<T>(small: set<T>, large: set<T>)
    requires small <= large
    ensures |small| <= |large|
    ensures |small| == |large| ==> small == large
  {
    var rest := large - small;
    assert large == small + rest;
    if |small| == |large| {
      assert |rest| == 0;
    }
  }

  lemma RemoveThenAdd<T>(s: set<T>, gone: set<T>, x: T)
    requires x !in s
    ensures |(s - gone) + {x}| == |s| - |s * gone| + 1
  {
    assert s == (s - gone) + (s * gone);
  }

  /** The values of a map are no more numerous than its keys. */
  lemma {:induction false} ValuesCardinality<K, V>(m: map<K, V>)
    ensures |m.Values| <= |m|
    decreases |m|
  {
    if m == map[] {
      assert m.Values == {};
    } else {
      var k :| k in m;
      var rest := m - {k};
      assert rest.Keys == m.Keys - {k};
      ValuesCardinality(rest);
      assert m.Values <= rest.Values + {m[k]} by {
        forall v | v in m.Values ensures v in rest.Values + {m[k]} {
          var j :| j in m && m[j] == v;
          if j != k { assert j in rest && rest[j] == v; }
        }
      }
      SubsetCardinality(m.Values, rest.Values + {m[k]});
    }
  }

  /** A map with as many values as keys is injective. */
  lemma ValuesCardinalityInjective<K, V>(m: map<K, V>, j: K, k: K)
    requires |m.Values| == |m|
    requires j in m && k in m && m[j] == m[k]
    ensures j == k
  {
    if j != k {
      var rest := m - {k};
      assert rest.Keys == m.Keys - {k};
      assert m.Values <= rest.Values by {
        forall v | v in m.Values ensures v in rest.Values {
          var i :| i in m && m[i] == v;
          var i' := if i == k then j else i;
          assert i' in rest && rest[i'] == v;
        }
      }
      SubsetCardinality(m.Values, rest.Values);
      ValuesCardinality(rest);
    }
  }

  /** The head of a sequence occurs in any permutation of it, which without it permutes the tail. */
  lemma PickFromPermutation<T>(xs: seq<T>, ys: seq<T>) returns (i: nat)
    requires xs != [] && multiset(xs) == multiset(ys)
    ensures i < |ys| && ys[i] == xs[0] && multiset(xs[1..]) == multiset(ys[..i] + ys[i + 1..])
  {
    assert xs == [xs[0]] + xs[1..];
    assert xs[0] in multiset(ys);
    i :| 0 <= i < |ys| && ys[i] == xs[0];
    assert ys == ys[..i] + [xs[0]] + ys[i + 1..];
    calc {
      multiset(xs[1..]);
      multiset(xs) - multiset{xs[0]};
      multiset(ys) - multiset{xs[0]};
      multiset(ys[..i]) + multiset{xs[0]} + multiset(ys[i + 1..]) - multiset{xs[0]};
      multiset(ys[..i]) + multiset(ys[i + 1..]);
      multiset(ys[..i] + ys[i + 1..]);
    }
  }
}
