/** Text in code-point order, and `sorted` of a set of texts. */
module Ordering {
  predicate Below(a: string, b: string) {
    if b == "" then false
    else if a == "" then true
    else a[0] < b[0] || (a[0] == b[0] && Below(a[1..], b[1..]))
  }

  lemma {:induction false} BelowIrreflexive(a: string)
    ensures !Below(a, a)
  {
    if a != "" { BelowIrreflexive(a[1..]); }
  }

  lemma {:induction false} BelowTransitive(a: string, b: string, c: string)
    requires Below(a, b) && Below(b, c)
    ensures Below(a, c)
  {
    if a != "" && a[0] == b[0] && b[0] == c[0] { BelowTransitive(a[1..], b[1..], c[1..]); }
  }

  lemma {:induction false} BelowTotal(a: string, b: string)
    ensures a == b || Below(a, b) || Below(b, a)
  {
    if a != "" && b != "" && a[0] == b[0] {
      BelowTotal(a[1..], b[1..]);
      if a[1..] == b[1..] { assert a == [a[0]] + a[1..] && b == [b[0]] + b[1..]; }
    }
  }

  predicate Least(names: set<string>, n: string) {
    n in names && forall m :: m in names && m != n ==> Below(n, m)
  }

  lemma {:induction false} LeastExists(names: set<string>)
    requires names != {}
    ensures exists n :: Least(names, n)
  {
    var x :| x in names;
    var rest := names - {x};
    if rest == {} {
      assert forall m :: m in names && m != x ==> m in rest;
      assert Least(names, x);
    } else {
      LeastExists(rest);
      var y :| Least(rest, y);
      BelowTotal(x, y);
      if Below(x, y) {
        forall m | m in names && m != x ensures Below(x, m) {
          assert m in rest;
          if m != y { BelowTransitive(x, y, m); }
        }
        assert Least(names, x);
      } else {
        forall m | m in names && m != y ensures Below(y, m) {
          assert m == x || m in rest;
        }
        assert Least(names, y);
      }
    }
  }

  lemma LeastUnique(names: set<string>, a: string, b: string)
    requires Least(names, a) && Least(names, b)
    ensures a == b
  {
    if a != b {
      BelowTransitive(a, b, a);
      BelowIrreflexive(a);
    }
  }

  /** `sorted(names)` */
  function Sorted(names: set<string>): seq<string> {
    if names == {} then []
    else
      LeastExists(names);
      assert forall a, b :: Least(names, a) && Least(names, b) ==> a == b by {
        forall a, b | Least(names, a) && Least(names, b) ensures a == b { LeastUnique(names, a, b); }
      }
      var n :| Least(names, n);
      [n] + Sorted(names - {n})
  }

  ghost predicate StrictlySorted(names: seq<string>) {
    forall j, k :: 0 <= j < k < |names| ==> Below(names[j], names[k])
  }

  lemma {:induction false} SortedSpec(names: set<string>)
    ensures StrictlySorted(Sorted(names))
    ensures forall n :: n in Sorted(names) <==> n in names
    ensures |Sorted(names)| == |names|
  {
    if names != {} {
      var n := Sorted(names)[0];
      assert Least(names, n);
      SortedSpec(names - {n});
      var rest := Sorted(names - {n});
      assert Sorted(names) == [n] + rest;
      forall k | 0 <= k < |rest| ensures Below(n, rest[k]) {
        assert rest[k] in rest;
      }
    }
  }
}
