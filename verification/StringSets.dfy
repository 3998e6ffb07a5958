/** Sorting a set of strings by code units, as `sorted(set)` and `Object.keys(o).sort()` do. */
module StringSets {

  /** Strictly before in lexicographic order. */
  predicate Less(a: string, b: string) {
    b != [] && (a == [] || a[0] < b[0] || (a[0] == b[0] && Less(a[1..], b[1..])))
  }

  lemma {:induction false} LessIsTotal(a: string, b: string)
    ensures Less(a, b) || a == b || Less(b, a)
  {
    if a != [] && b != [] && a[0] == b[0] {
      LessIsTotal(a[1..], b[1..]);
      assert a == [a[0]] + a[1..] && b == [b[0]] + b[1..];
    }
  }

  lemma {:induction false} LessIsTransitive(a: string, b: string, c: string)
    requires Less(a, b) && Less(b, c)
    ensures Less(a, c)
  {
    if a != [] && a[0] == b[0] == c[0] {
      LessIsTransitive(a[1..], b[1..], c[1..]);
    }
  }

  lemma {:induction false} LessIsIrreflexive(a: string)
    ensures !Less(a, a)
  {
    if a != [] {
      LessIsIrreflexive(a[1..]);
    }
  }

  predicate IsLeast(m: string, s: set<string>) {
    m in s && forall x :: x in s && x != m ==> Less(m, x)
  }

  lemma {:induction false} LeastExists(s: set<string>)
    requires s != {}
    ensures exists m :: IsLeast(m, s)
    decreases |s|
  {
    var x :| x in s;
    var rest := s - {x};
    if rest == {} {
      assert s == rest + {x};
      assert IsLeast(x, s);
    } else {
      LeastExists(rest);
      var m :| IsLeast(m, rest);
      LessIsTotal(m, x);
      if Less(m, x) {
        assert IsLeast(m, s);
      } else {
        forall y | y in s && y != x ensures Less(x, y) {
          if y != m {
            LessIsTransitive(x, m, y);
          }
        }
        assert IsLeast(x, s);
      }
    }
  }

  lemma LeastIsUnique(s: set<string>)
    ensures forall m, n :: IsLeast(m, s) && IsLeast(n, s) ==> m == n
  {
    forall m, n | IsLeast(m, s) && IsLeast(n, s) ensures m == n {
      if m != n {
        LessIsTransitive(m, n, m);
        LessIsIrreflexive(m);
      }
    }
  }

  /** The sequence lists the strings of the set in increasing order. */
  ghost predicate IsSorted(r: seq<string>, s: set<string>) {
    |r| == |s| && (forall x :: x in r <==> x in s) && (forall i, j :: 0 <= i < j < |r| ==> Less(r[i], r[j]))
  }

  lemma LeastFirst(m: string, s: set<string>, rest: seq<string>)
    requires IsLeast(m, s) && IsSorted(rest, s - {m})
    ensures IsSorted([m] + rest, s)
  {
    var r := [m] + rest;
    assert s == s - {m} + {m};
    forall j | 0 < j < |r| ensures Less(m, r[j]) {
      assert r[j] in rest;
    }
  }

  /** The strings of a set in increasing order. */
  function Sorted(s: set<string>): (r: seq<string>)
    ensures IsSorted(r, s)
    decreases |s|
  {
    if s == {} then []
    else
      (LeastExists(s);
       LeastIsUnique(s);
       var m :| m in s && IsLeast(m, s);
       LeastFirst(m, s, Sorted(s - {m}));
       [m] + Sorted(s - {m}))
  }
}
