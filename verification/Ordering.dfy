/** Python's `sorted` on sets of strings. */
module Ordering {

  /** Strings compare code point by code point; a prefix comes first. */
  predicate Leq(a: string, b: string) {
    a == "" || (b != "" && (a[0] < b[0] || (a[0] == b[0] && Leq(a[1..], b[1..]))))
  }

  lemma {:induction false} LeqTotal(a: string, b: string)
    ensures Leq(a, b) || Leq(b, a)
  {
    if a != "" && b != "" && a[0] == b[0] {
      LeqTotal(a[1..], b[1..]);
    }
  }

  lemma {:induction false} LeqAntisymmetric(a: string, b: string)
    requires Leq(a, b) && Leq(b, a)
    ensures a == b
  {
    if a != "" && b != "" {
      LeqAntisymmetric(a[1..], b[1..]);
      assert a == [a[0]] + a[1..] && b == [b[0]] + b[1..];
    }
  }

  lemma {:induction false} LeqTransitive(a: string, b: string, c: string)
    requires Leq(a, b) && Leq(b, c)
    ensures Leq(a, c)
  {
    if a != "" && a[0] == b[0] && b[0] == c[0] {
      LeqTransitive(a[1..], b[1..], c[1..]);
    }
  }

  predicate IsLeast(m: string, s: set<string>) {
    m in s && forall x :: x in s ==> Leq(m, x)
  }

  lemma {:induction false} LeastExists(s: set<string>)
    requires s != {}
    ensures exists m :: IsLeast(m, s)
    decreases |s|
  {
    var x :| x in s;
    var rest := s - {x};
    LeqTotal(x, x);
    assert s == rest + {x};
    if rest == {} {
      assert IsLeast(x, s);
    } else {
      LeastExists(rest);
      var m :| IsLeast(m, rest);
      LeqTotal(x, m);
      if Leq(x, m) {
        forall y | y in s ensures Leq(x, y) {
          if y != x {
            LeqTransitive(x, m, y);
          }
        }
        assert IsLeast(x, s);
      } else {
        assert IsLeast(m, s);
      }
    }
  }

  lemma LeastUnique(s: set<string>)
    ensures forall a, b :: IsLeast(a, s) && IsLeast(b, s) ==> a == b
  {
    forall a, b | IsLeast(a, s) && IsLeast(b, s) ensures a == b {
      LeqAntisymmetric(a, b);
    }
  }

  /** The elements of `s` in ascending order. */
  function Sorted(s: set<string>): seq<string>
    decreases |s|
  {
    if s == {} then []
    else
      LeastExists(s);
      LeastUnique(s);
      var m :| IsLeast(m, s);
      [m] + Sorted(s - {m})
  }

  lemma {:induction false} SortedMembers(s: set<string>)
    ensures forall x :: x in Sorted(s) <==> x in s
    ensures |Sorted(s)| == |s|
    decreases |s|
  {
    if s != {} {
      LeastExists(s);
      LeastUnique(s);
      var m :| IsLeast(m, s);
      SortedMembers(s - {m});
      assert Sorted(s) == [m] + Sorted(s - {m});
    }
  }

  /** Every element exactly once, each before the larger ones. */
  lemma {:induction false} SortedIsAscending(s: set<string>)
    ensures forall x :: x in Sorted(s) <==> x in s
    ensures |Sorted(s)| == |s|
    ensures forall i, j :: 0 <= i < j < |Sorted(s)| ==> Sorted(s)[i] != Sorted(s)[j] && Leq(Sorted(s)[i], Sorted(s)[j])
    decreases |s|
  {
    SortedMembers(s);
    if s != {} {
      LeastExists(s);
      LeastUnique(s);
      var m :| IsLeast(m, s);
      SortedIsAscending(s - {m});
      Prepend(m, Sorted(s - {m}));
      assert Sorted(s) == [m] + Sorted(s - {m});
    }
  }

  lemma Prepend(m: string, rest: seq<string>)
    requires forall x :: x in rest ==> x != m && Leq(m, x)
    requires forall i, j :: 0 <= i < j < |rest| ==> rest[i] != rest[j] && Leq(rest[i], rest[j])
    ensures var r := [m] + rest; forall i, j :: 0 <= i < j < |r| ==> r[i] != r[j] && Leq(r[i], r[j])
  {
    assert forall i :: 0 <= i < |rest| ==> rest[i] in rest;
  }

  /** The texts agree up to `i`, where the first has the smaller character. */
  ghost predicate SmallerAt(a: string, b: string, i: int) {
    0 <= i < |a| && i < |b| && a[..i] == b[..i] && a[i] < b[i]
  }

  /** One text comes before another exactly when it begins that one or is smaller at the first difference. */
  lemma {:induction false} LeqIff(a: string, b: string)
    ensures Leq(a, b) <==> (|a| <= |b| && b[..|a|] == a) || exists i :: SmallerAt(a, b, i)
  {
    if a != "" && b != "" {
      var x, y := a[1..], b[1..];
      LeqIff(x, y);
      assert a == [a[0]] + x && b == [b[0]] + y;
      if Leq(a, b) {
        if a[0] < b[0] {
          assert SmallerAt(a, b, 0);
        } else if |x| <= |y| && y[..|x|] == x {
          assert b[..|a|] == [b[0]] + y[..|x|];
        } else {
          var i :| SmallerAt(x, y, i);
          assert a[..i + 1] == [a[0]] + x[..i] && b[..i + 1] == [b[0]] + y[..i];
          assert SmallerAt(a, b, i + 1);
        }
      }
      if |a| <= |b| && b[..|a|] == a {
        assert b[0] == a[0] && y[..|x|] == b[..|a|][1..] == x;
      }
      if i :| SmallerAt(a, b, i) {
        if i > 0 {
          assert a[..i][0] == b[..i][0];
          assert x[..i - 1] == a[..i][1..] == b[..i][1..] == y[..i - 1];
          assert SmallerAt(x, y, i - 1);
        }
      }
    }
  }
}
