/**
 A directory of plain files, listed by name: the only state that outlives the
 handles of a hinted-handoff queue.
 */
module Directory {
  import opened Bytes
  import opened SegmentNames

  ghost predicate Sorted(names: seq<string>) {
    forall i, j :: 0 <= i < j < |names| ==> Less(names[i], names[j])
  }

  ghost predicate Lists(names: seq<string>, s: set<string>) {
    Sorted(names) && forall x :: x in names <==> x in s
  }

  /** There is only one sorted listing of a set of names. */
  lemma {:induction false} ListingUnique(a: seq<string>, b: seq<string>, s: set<string>)
    requires Lists(a, s) && Lists(b, s)
    ensures a == b
  {
    assert |b| > 0 ==> b[0] in a;
    if a != [] {
      assert a[0] in s;
      FirstIsLeast(a, b[0]);
      FirstIsLeast(b, a[0]);
      if a[0] != b[0] {
        LessTransitive(a[0], b[0], a[0]);
        LessIrreflexive(a[0]);
      }
      RestLists(a, s);
      RestLists(b, s);
      ListingUnique(a[1..], b[1..], s - {a[0]});
      assert a == [a[0]] + a[1..] && b == [b[0]] + b[1..];
    }
  }

  lemma FirstIsLeast(a: seq<string>, x: string)
    requires a != [] && Sorted(a) && x in a
    ensures x == a[0] || Less(a[0], x)
  {
  }

  lemma RestLists(a: seq<string>, s: set<string>)
    requires a != [] && Lists(a, s)
    ensures Lists(a[1..], s - {a[0]})
  {
    LessIrreflexive(a[0]);
    forall x ensures x in a[1..] <==> x in s - {a[0]} {
      assert x in a <==> x == a[0] || x in a[1..];
      if x in a[1..] {
        var k :| 1 <= k < |a| && a[k] == x;
        assert Less(a[0], a[k]);
      }
    }
  }

  lemma {:induction false} LeastName(s: set<string>) returns (m: string)
    requires s != {}
    ensures m in s && forall x :: x in s && x != m ==> Less(m, x)
    decreases s
  {
    var x :| x in s;
    if s == {x} {
      m := x;
    } else {
      var y := LeastName(s - {x});
      LessTotal(x, y);
      if Less(x, y) {
        forall z | z in s && z != x ensures Less(x, z) {
          if z != y {
            LessTransitive(x, y, z);
          }
        }
        m := x;
      } else {
        m := y;
      }
    }
  }

  /** Every finite set of names has a sorted listing. */
  lemma {:induction false} ListingExists(s: set<string>) returns (names: seq<string>)
    ensures Lists(names, s)
    decreases s
  {
    if s == {} {
      names := [];
    } else {
      var m := LeastName(s);
      var rest := ListingExists(s - {m});
      names := [m] + rest;
      forall j | 0 <= j < |rest| ensures Less(m, rest[j]) {
        assert rest[j] in rest;
      }
    }
  }

  class Dir {
    var files: map<string, Bytes>

    constructor ()
      ensures files == map[]
    {
      files := map[];
    }

    /** `ioutil.ReadDir`: every name, in string order. */
    method ReadDir() returns (names: seq<string>)
      ensures Lists(names, files.Keys)
    {
      names := [];
      var left := files.Keys;
      while left != {}
        invariant left <= files.Keys
        invariant Lists(names, files.Keys - left)
        invariant forall i, x :: 0 <= i < |names| && x in left ==> Less(names[i], x)
        decreases left
      {
        var m := Least(left);
        names := names + [m];
        left := left - {m};
      }
    }

    static method Least(s: set<string>) returns (m: string)
      requires s != {}
      ensures m in s && forall x :: x in s && x != m ==> Less(m, x)
    {
      m :| m in s;
      var seen := {m};
      while seen != s
        invariant m in seen && seen <= s
        invariant forall x :: x in seen && x != m ==> Less(m, x)
        decreases s - seen
      {
        assert exists x :: x in s && x !in seen;
        var x :| x in s && x !in seen;
        LessTotal(m, x);
        if Less(x, m) {
          forall y | y in seen && y != m ensures Less(x, y) {
            LessTransitive(x, m, y);
          }
          m := x;
        }
        seen := seen + {x};
      }
    }
  }
}
