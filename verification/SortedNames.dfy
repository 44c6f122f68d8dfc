/** Sets of names and their sorted listing. */
module SortedNames {

  /** The order of Go strings. */
  predicate AtMost(a: string, b: string) {
    a == "" || (b != "" && (a[0] < b[0] || (a[0] == b[0] && AtMost(a[1..], b[1..]))))
  }

  lemma {:induction false} Total(a: string, b: string)
    ensures AtMost(a, b) || AtMost(b, a)
  {
    if a != "" && b != "" {
      Total(a[1..], b[1..]);
    }
  }

  lemma {:induction false} Antisymmetric(a: string, b: string)
    requires AtMost(a, b) && AtMost(b, a)
    ensures a == b
  {
    if a != "" && b != "" {
      Antisymmetric(a[1..], b[1..]);
      assert a == [a[0]] + a[1..] && b == [b[0]] + b[1..];
    }
  }

  lemma {:induction false} Transitive(a: string, b: string, c: string)
    requires AtMost(a, b) && AtMost(b, c)
    ensures AtMost(a, c)
  {
    if a != "" && b[0] == a[0] && c[0] == b[0] {
      Transitive(a[1..], b[1..], c[1..]);
    }
  }

  predicate Least(names: set<string>, n: string) {
    n in names && forall m <- names :: AtMost(n, m)
  }

  lemma {:induction false} HasLeast(names: set<string>)
    requires names != {}
    ensures exists n :: Least(names, n)
  {
    var m :| m in names;
    var rest := names - {m};
    Total(m, m);
    if rest == {} {
      assert names == {m};
      assert Least(names, m);
    } else {
      HasLeast(rest);
      var n :| Least(rest, n);
      Total(m, n);
      if AtMost(n, m) {
        assert Least(names, n);
      } else {
        forall k | k in names
          ensures AtMost(m, k)
        {
          if k != m {
            Transitive(m, n, k);
          }
        }
        assert Least(names, m);
      }
    }
  }

  lemma {:induction false} LeastIsUnique(names: set<string>)
    ensures forall m, n | Least(names, m) && Least(names, n) :: m == n
  {
    forall m, n | Least(names, m) && Least(names, n)
      ensures m == n
    {
      Antisymmetric(m, n);
    }
  }

  /** The names in order. */
  function List(names: set<string>): (r: seq<string>)
    ensures |r| == |names| && forall n :: n in r <==> n in names
  {
    if names == {} then []
    else
      HasLeast(names);
      LeastIsUnique(names);
      var n :| n in names && Least(names, n);
      [n] + List(names - {n})
  }

  lemma {:induction false} ListIsSorted(names: set<string>)
    ensures forall i, j | 0 <= i < j < |List(names)| :: AtMost(List(names)[i], List(names)[j]) && List(names)[i] != List(names)[j]
  {
    if names != {} {
      var r := List(names);
      assert r[1..] == List(names - {r[0]});
      ListIsSorted(names - {r[0]});
      forall i, j | 0 <= i < j < |r|
        ensures AtMost(r[i], r[j]) && r[i] != r[j]
      {
        assert r[j] == r[1..][j - 1];
        if i > 0 {
          assert r[i] == r[1..][i - 1];
        }
      }
    }
  }
}
