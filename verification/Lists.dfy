/** Sorting by a comparison and summing over a list, as the metadata operations use them. */
module Lists {

  /** Puts `x` behind everything that is not greater. */
  function Insert<T>(s: seq<T>, x: T, less: (T, T) -> bool): (r: seq<T>)
    ensures |r| == |s| + 1
  {
    if s == [] || !less(x, s[|s| - 1]) then s + [x]
    else Insert(s[..|s| - 1], x, less) + [s[|s| - 1]]
  }

  /** `sort.Sort`, as an insertion sort. */
  function Sort<T>(s: seq<T>, less: (T, T) -> bool): (r: seq<T>)
    ensures |r| == |s|
  {
    if s == [] then [] else Insert(Sort(s[..|s| - 1], less), s[|s| - 1], less)
  }

  lemma SortNone<T>(less: (T, T) -> bool)
    ensures Sort([], less) == []
  {
  }

  /** An element that does not belong in front of the last one stays at the end. */
  lemma SortKeepsLast<T>(s: seq<T>, x: T, less: (T, T) -> bool)
    requires Sort(s, less) == s && (s == [] || !less(x, s[|s| - 1]))
    ensures Sort(s + [x], less) == s + [x]
  {
    assert (s + [x])[..|s|] == s;
  }

  function Sum<T>(s: seq<T>, f: T -> nat): (n: nat) {
    if s == [] then 0 else Sum(s[..|s| - 1], f) + f(s[|s| - 1])
  }

  lemma {:induction false} InsertMember<T>(s: seq<T>, x: T, less: (T, T) -> bool, y: T)
    ensures y in Insert(s, x, less) <==> y == x || y in s
  {
    if s != [] && less(x, s[|s| - 1]) {
      InsertMember(s[..|s| - 1], x, less, y);
      assert s == s[..|s| - 1] + [s[|s| - 1]];
    }
  }

  lemma {:induction false} SortMember<T>(s: seq<T>, less: (T, T) -> bool, y: T)
    ensures y in Sort(s, less) <==> y in s
  {
    if s != [] {
      SortMember(s[..|s| - 1], less, y);
      InsertMember(Sort(s[..|s| - 1], less), s[|s| - 1], less, y);
      assert s == s[..|s| - 1] + [s[|s| - 1]];
    }
  }

  lemma {:induction false} InsertCount<T>(s: seq<T>, x: T, less: (T, T) -> bool, y: T)
    ensures multiset(Insert(s, x, less))[y] == multiset(s)[y] + if x == y then 1 else 0
  {
    if !(s == [] || !less(x, s[|s| - 1])) {
      InsertCount(s[..|s| - 1], x, less, y);
      assert s == s[..|s| - 1] + [s[|s| - 1]];
    }
  }

  lemma {:induction false} SortCount<T>(s: seq<T>, less: (T, T) -> bool, y: T)
    ensures multiset(Sort(s, less))[y] == multiset(s)[y]
  {
    if s != [] {
      SortCount(s[..|s| - 1], less, y);
      InsertCount(Sort(s[..|s| - 1], less), s[|s| - 1], less, y);
      assert s == s[..|s| - 1] + [s[|s| - 1]];
    }
  }

  lemma {:induction false} InsertSum<T>(s: seq<T>, x: T, less: (T, T) -> bool, f: T -> nat)
    ensures Sum(Insert(s, x, less), f) == Sum(s, f) + f(x)
  {
    if s == [] || !less(x, s[|s| - 1]) {
      assert (s + [x])[..|s|] == s;
    } else {
      var r := Insert(s[..|s| - 1], x, less);
      InsertSum(s[..|s| - 1], x, less, f);
      assert (r + [s[|s| - 1]])[..|r|] == r;
    }
  }

  lemma {:induction false} SortSum<T>(s: seq<T>, less: (T, T) -> bool, f: T -> nat)
    ensures Sum(Sort(s, less), f) == Sum(s, f)
  {
    if s != [] {
      SortSum(s[..|s| - 1], less, f);
      InsertSum(Sort(s[..|s| - 1], less), s[|s| - 1], less, f);
    }
  }

  lemma SumSnoc<T>(s: seq<T>, x: T, f: T -> nat)
    ensures Sum(s + [x], f) == Sum(s, f) + f(x)
  {
    assert (s + [x])[..|s|] == s;
  }

  lemma {:induction false} SumUpdate<T>(s: seq<T>, i: nat, x: T, f: T -> nat)
    requires i < |s|
    ensures Sum(s[i := x], f) + f(s[i]) == Sum(s, f) + f(x)
  {
    var n := |s| - 1;
    if i == n {
      assert s[i := x][..n] == s[..n];
    } else {
      assert s[i := x][..n] == s[..n][i := x];
      SumUpdate(s[..n], i, x, f);
    }
  }

  lemma {:induction false} SumSame<T>(s: seq<T>, t: seq<T>, f: T -> nat)
    requires |s| == |t| && forall i :: 0 <= i < |s| ==> f(s[i]) == f(t[i])
    ensures Sum(s, f) == Sum(t, f)
  {
    if s != [] {
      SumSame(s[..|s| - 1], t[..|t| - 1], f);
    }
  }

  lemma {:induction false} SumAt<T>(s: seq<T>, i: nat, f: T -> nat)
    requires i < |s|
    ensures f(s[i]) <= Sum(s, f)
  {
    if i < |s| - 1 {
      SumAt(s[..|s| - 1], i, f);
    }
  }

  lemma {:induction false} SumTwo<T>(s: seq<T>, i: nat, j: nat, f: T -> nat)
    requires i < j < |s|
    ensures f(s[i]) + f(s[j]) <= Sum(s, f)
  {
    if j < |s| - 1 {
      SumTwo(s[..|s| - 1], i, j, f);
    } else {
      SumAt(s[..|s| - 1], i, f);
    }
  }

  lemma {:induction false} SumZero<T>(s: seq<T>, f: T -> nat)
    requires forall i :: 0 <= i < |s| ==> f(s[i]) == 0
    ensures Sum(s, f) == 0
  {
    if s != [] {
      SumZero(s[..|s| - 1], f);
    }
  }

  ghost predicate Sorted<T>(s: seq<T>, less: (T, T) -> bool) {
    forall i, j :: 0 <= i < j < |s| ==> !less(s[j], s[i])
  }

  /** Sorting what is in order already changes nothing. */
  lemma {:induction false} SortSorted<T>(s: seq<T>, less: (T, T) -> bool)
    requires Sorted(s, less)
    ensures Sort(s, less) == s
  {
    if s != [] {
      var n := |s| - 1;
      SortSorted(s[..n], less);
      if n > 0 {
        assert !less(s[n], s[n - 1]);
      }
      assert s == s[..n] + [s[n]];
    }
  }

  /** "Not greater" is transitive and two values never both come first. */
  ghost predicate Ordering<T(!new)>(less: (T, T) -> bool) {
    && (forall a, b, c :: !less(b, a) && !less(c, b) ==> !less(c, a))
    && (forall a, b :: less(a, b) ==> !less(b, a))
  }

  lemma {:induction false} InsertSorts<T(!new)>(s: seq<T>, x: T, less: (T, T) -> bool)
    requires Ordering(less) && Sorted(s, less)
    ensures Sorted(Insert(s, x, less), less)
  {
    if s != [] {
      var n := |s| - 1;
      if less(x, s[n]) {
        InsertSorts(s[..n], x, less);
        var r := Insert(s[..n], x, less);
        forall i | 0 <= i < |r| ensures !less(s[n], r[i]) {
          assert r[i] in r;
          InsertMember(s[..n], x, less, r[i]);
        }
      } else {
        forall i | 0 <= i < |s| ensures !less(x, s[i]) {
          assert i == n || !less(s[n], s[i]);
        }
      }
    }
  }

  lemma {:induction false} SortSorts<T(!new)>(s: seq<T>, less: (T, T) -> bool)
    requires Ordering(less)
    ensures Sorted(Sort(s, less), less)
  {
    if s != [] {
      SortSorts(s[..|s| - 1], less);
      InsertSorts(Sort(s[..|s| - 1], less), s[|s| - 1], less);
    }
  }
}
