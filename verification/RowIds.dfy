/** Row ids of an INTEGER PRIMARY KEY table, and a few facts about finite sets and sequences. */
module RowIds {

  lemma Regroup<T>(a: seq<T>, m: T, b: seq<T>)
    ensures a + ([m] + b) == (a + [m]) + b
  {}

  lemma Append<T>(a: seq<T>, b: seq<T>, m: T)
    ensures a + (b + [m]) == (a + b) + [m]
  {}

  lemma {:induction false} SubsetSize<T>(a: set<T>, b: set<T>)
    requires a <= b
    ensures |a| <= |b|
    ensures |a| == |b| ==> a == b
    decreases b
  {
    if a != {} {
      var x :| x in a;
      SubsetSize(a - {x}, b - {x});
      assert a == a - {x} + {x} && b == b - {x} + {x};
    }
  }

  /** A function with no collisions on `a` that lands in `b` makes `a` no larger than `b`. */
  lemma {:induction false} InjectionSize<S, T>(a: set<S>, b: set<T>, f: S --> T)
    requires forall x | x in a :: f.requires(x) && f(x) in b
    requires forall x, y | x in a && y in a && x != y :: f(x) != f(y)
    ensures |a| <= |b|
    decreases a
  {
    if a != {} {
      var x :| x in a;
      InjectionSize(a - {x}, b - {f(x)}, f);
    }
  }

  lemma {:induction false} MaxExists(s: set<nat>)
    ensures s == {} || exists m :: m in s && forall x | x in s :: x <= m
  {
    if s != {} {
      var a :| a in s;
      var rest := s - {a};
      MaxExists(rest);
      if m :| m in rest && forall x | x in rest :: x <= m {
        var top := if a > m then a else m;
        assert forall x | x in s :: x == a || x in rest;
        assert top in s && forall x | x in s :: x <= top;
      } else {
        assert forall x | x in s :: x == a || x in rest;
      }
    }
  }

  /** The id of the next row of an INTEGER PRIMARY KEY table: one more than the largest in use. */
  ghost function NextRowId(ids: set<nat>): (r: nat)
    ensures forall x | x in ids :: x < r
  {
    if ids == {} then 1 else
      MaxExists(ids);
      var m :| m in ids && forall x | x in ids :: x <= m;
      m + 1
  }
}
