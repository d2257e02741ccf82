/** Stable sorting by a total preorder, as Python's sorted() does it. */
module Sorting {

  ghost predicate TotalPreorder<T(!new)>(le: (T, T) -> bool) {
    && (forall x, y :: le(x, y) || le(y, x))
    && (forall x, y, z :: le(x, y) && le(y, z) ==> le(x, z))
  }

  ghost predicate Sorted<T>(s: seq<T>, le: (T, T) -> bool) {
    forall i, j :: 0 <= i < j < |s| ==> le(s[i], s[j])
  }

  /** Puts `x` behind every element that is not greater, so equal elements keep their order. */
  function Insert<T>(s: seq<T>, x: T, le: (T, T) -> bool): (r: seq<T>)
    ensures |r| == |s| + 1
  {
    if s == [] || le(s[|s| - 1], x) then s + [x]
    else Insert(s[..|s| - 1], x, le) + [s[|s| - 1]]
  }

  function Sort<T>(s: seq<T>, le: (T, T) -> bool): (r: seq<T>)
    ensures |r| == |s|
  {
    if s == [] then [] else Insert(Sort(s[..|s| - 1], le), s[|s| - 1], le)
  }

  lemma {:induction false} InsertPermutes<T>(s: seq<T>, x: T, le: (T, T) -> bool)
    ensures multiset(Insert(s, x, le)) == multiset(s) + multiset{x}
  {
    if s == [] || le(s[|s| - 1], x) {
    } else {
      InsertPermutes(s[..|s| - 1], x, le);
      assert s == s[..|s| - 1] + [s[|s| - 1]];
    }
  }

  lemma {:induction false} InsertSorts<T(!new)>(s: seq<T>, x: T, le: (T, T) -> bool)
    requires TotalPreorder(le) && Sorted(s, le)
    ensures Sorted(Insert(s, x, le), le)
  {
    if s == [] {
    } else if le(s[|s| - 1], x) {
      forall i | 0 <= i < |s| ensures le(s[i], x) {
        assert i < |s| - 1 ==> le(s[i], s[|s| - 1]);
        assert le(s[i], s[|s| - 1]) || i == |s| - 1;
      }
    } else {
      var most, last := s[..|s| - 1], s[|s| - 1];
      InsertSorts(most, x, le);
      InsertPermutes(most, x, le);
      var r := Insert(most, x, le);
      forall i | 0 <= i < |r| ensures le(r[i], last) {
        assert r[i] in multiset(r);
        if r[i] != x {
          assert r[i] in most;
        }
      }
    }
  }

  lemma {:induction false} SortPermutes<T>(s: seq<T>, le: (T, T) -> bool)
    ensures multiset(Sort(s, le)) == multiset(s)
    ensures forall x :: x in Sort(s, le) <==> x in s
  {
    if s == [] {
    } else {
      SortPermutes(s[..|s| - 1], le);
      InsertPermutes(Sort(s[..|s| - 1], le), s[|s| - 1], le);
      assert s == s[..|s| - 1] + [s[|s| - 1]];
    }
    assert forall x :: x in Sort(s, le) <==> x in multiset(Sort(s, le));
    assert forall x :: x in s <==> x in multiset(s);
  }

  lemma {:induction false} SortSorts<T(!new)>(s: seq<T>, le: (T, T) -> bool)
    requires TotalPreorder(le)
    ensures Sorted(Sort(s, le), le)
  {
    if s == [] {
    } else {
      SortSorts(s[..|s| - 1], le);
      InsertSorts(Sort(s[..|s| - 1], le), s[|s| - 1], le);
    }
  }

  /** An element below the head of a list is strictly below every element of it. */
  lemma BelowTheHead<T(!new)>(s: seq<T>, head: T, x: T, le: (T, T) -> bool)
    requires TotalPreorder(le) && !le(head, x) && forall i :: 0 <= i < |s| ==> le(head, s[i])
    ensures forall i :: 0 <= i < |s| ==> le(x, s[i]) && !le(s[i], x)
  {
    forall i | 0 <= i < |s| ensures le(x, s[i]) && !le(s[i], x) {
      assert le(x, head);
      assert le(s[i], x) ==> le(head, x);
    }
  }

  /** Nothing in the list is below position `k`, and everything before it is strictly above. */
  ghost predicate FirstMinimum<T>(s: seq<T>, k: nat, le: (T, T) -> bool) {
    && k < |s|
    && (forall i :: 0 <= i < |s| ==> le(s[k], s[i]))
    && (forall i :: 0 <= i < k ==> !le(s[i], s[k]))
  }

  lemma MinimumStays<T>(most: seq<T>, k: nat, last: T, le: (T, T) -> bool)
    requires FirstMinimum(most, k, le) && le(most[k], last)
    ensures FirstMinimum(most + [last], k, le)
  {
  }

  lemma MinimumMoves<T>(most: seq<T>, last: T, le: (T, T) -> bool)
    requires le(last, last) && forall i :: 0 <= i < |most| ==> le(last, most[i]) && !le(most[i], last)
    ensures FirstMinimum(most + [last], |most|, le)
  {
  }

  lemma HeadOfSort<T(!new)>(most: seq<T>, last: T, le: (T, T) -> bool)
    requires TotalPreorder(le) && most != []
    ensures var head := Sort(most, le)[0]; Sort(most + [last], le)[0] == if le(head, last) then head else last
  {
    var s := most + [last];
    assert s[..|s| - 1] == most;
    SortSorts(most, le);
    InsertHead(Sort(most, le), last, le);
  }

  /** Among equals, the first element of the sorted list is the one that came first. */
  lemma {:induction false} SortHeadIsFirstMinimum<T(!new)>(s: seq<T>, le: (T, T) -> bool) returns (k: nat)
    requires TotalPreorder(le) && s != []
    ensures FirstMinimum(s, k, le) && Sort(s, le)[0] == s[k]
  {
    var most, last := s[..|s| - 1], s[|s| - 1];
    assert s == most + [last];
    if most == [] {
      k := 0;
      MinimumMoves(most, last, le);
    } else {
      k := SortHeadIsFirstMinimum(most, le);
      HeadOfSort(most, last, le);
      if le(most[k], last) {
        MinimumStays(most, k, last, le);
      } else {
        BelowTheHead(most, most[k], last, le);
        MinimumMoves(most, last, le);
        k := |most|;
      }
    }
  }

  lemma {:induction false} InsertHead<T(!new)>(s: seq<T>, x: T, le: (T, T) -> bool)
    requires TotalPreorder(le) && s != [] && Sorted(s, le)
    ensures Insert(s, x, le)[0] == if le(s[0], x) then s[0] else x
  {
    if le(s[|s| - 1], x) {
      assert |s| == 1 || le(s[0], s[|s| - 1]);
    } else if |s| > 1 {
      InsertHead(s[..|s| - 1], x, le);
    } else {
      assert Insert(s[..0], x, le) == [x];
    }
  }

  /** When no two listed elements tie, every order of the input sorts to the same list. */
  lemma {:induction false} SortedListsAreEqual<T(!new)>(a: seq<T>, b: seq<T>, le: (T, T) -> bool)
    requires TotalPreorder(le) && Sorted(a, le) && Sorted(b, le)
    requires multiset(a) == multiset(b)
    requires forall x, y :: x in a && y in a && le(x, y) && le(y, x) ==> x == y
    ensures a == b
  {
    SameLength(a, b);
    if a == [] {
    } else {
      var most, rest := a[..|a| - 1], b[..|b| - 1];
      LastsAgree(a, b, le);
      WithoutLast(a);
      WithoutLast(b);
      SortedListsAreEqual(most, rest, le);
    }
  }

  /** So sorting does not look at the order of the input. */
  lemma SortIgnoresOrder<T(!new)>(a: seq<T>, b: seq<T>, le: (T, T) -> bool)
    requires TotalPreorder(le) && multiset(a) == multiset(b)
    requires forall x, y :: x in a && y in a && le(x, y) && le(y, x) ==> x == y
    ensures Sort(a, le) == Sort(b, le)
  {
    SortSorts(a, le);
    SortSorts(b, le);
    SortPermutes(a, le);
    SortPermutes(b, le);
    SortedListsAreEqual(Sort(a, le), Sort(b, le), le);
  }

  lemma WithoutLast<T>(s: seq<T>)
    requires s != []
    ensures multiset(s[..|s| - 1]) == multiset(s) - multiset{s[|s| - 1]}
    ensures s == s[..|s| - 1] + [s[|s| - 1]]
  {
    assert s == s[..|s| - 1] + [s[|s| - 1]];
  }

  lemma SameLength<T>(a: seq<T>, b: seq<T>)
    requires multiset(a) == multiset(b)
    ensures |a| == |b|
    ensures forall x :: x in a <==> x in b
  {
    assert |a| == |multiset(a)| == |multiset(b)| == |b|;
    assert forall x :: x in a <==> x in multiset(a);
    assert forall x :: x in b <==> x in multiset(b);
  }

  lemma LastsAgree<T(!new)>(a: seq<T>, b: seq<T>, le: (T, T) -> bool)
    requires TotalPreorder(le) && Sorted(a, le) && Sorted(b, le)
    requires multiset(a) == multiset(b) && a != [] && b != []
    requires forall x, y :: x in a && y in a && le(x, y) && le(y, x) ==> x == y
    ensures a[|a| - 1] == b[|b| - 1]
  {
    var x, y := a[|a| - 1], b[|b| - 1];
    SameLength(a, b);
    assert x in a && y in b;
    LastIsGreatest(a, y, le);
    LastIsGreatest(b, x, le);
  }

  lemma LastIsGreatest<T(!new)>(s: seq<T>, x: T, le: (T, T) -> bool)
    requires TotalPreorder(le) && Sorted(s, le) && x in s
    ensures le(x, s[|s| - 1])
  {
    var i :| 0 <= i < |s| && s[i] == x;
    assert le(x, x);
  }
}
