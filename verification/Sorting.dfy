/** Stable sorting by an ordering, and what is needed about it elsewhere. */
module Sorting {

  ghost predicate TotalPreorder<T(!new)>(le: (T, T) -> bool) {
    && (forall a, b :: le(a, b) || le(b, a))
    && (forall a, b, c :: le(a, b) && le(b, c) ==> le(a, c))
  }

  /** Among these elements there are no ties. */
  ghost predicate NoTies<T>(s: seq<T>, le: (T, T) -> bool) {
    forall a, b :: a in s && b in s && le(a, b) && le(b, a) ==> a == b
  }

  /** An outcome that any correct sort may produce. */
  ghost predicate Arranged<T>(result: seq<T>, input: seq<T>, le: (T, T) -> bool) {
    multiset(result) == multiset(input) && Sorted(result, le)
  }

  ghost predicate Sorted<T>(s: seq<T>, le: (T, T) -> bool) {
    forall i, j :: 0 <= i < j < |s| ==> le(s[i], s[j])
  }

  /** Puts `x` before the first element it may precede. */
  function Insert<T>(x: T, s: seq<T>, le: (T, T) -> bool): seq<T> {
    if s == [] || le(x, s[0]) then [x] + s else [s[0]] + Insert(x, s[1..], le)
  }

  /** Insertion sort from the back: elements that order equally keep their input order. */
  function Sort<T>(s: seq<T>, le: (T, T) -> bool): seq<T> {
    if s == [] then [] else Insert(s[0], Sort(s[1..], le), le)
  }

  lemma {:induction false} InsertPermutes<T>(x: T, s: seq<T>, le: (T, T) -> bool)
    ensures multiset(Insert(x, s, le)) == multiset{x} + multiset(s)
    ensures |Insert(x, s, le)| == |s| + 1
  {
    if s != [] && !le(x, s[0]) {
      InsertPermutes(x, s[1..], le);
      assert s == [s[0]] + s[1..];
    }
  }

  lemma {:induction false} InsertKeepsSorted<T(!new)>(x: T, s: seq<T>, le: (T, T) -> bool)
    requires TotalPreorder(le) && Sorted(s, le)
    ensures Sorted(Insert(x, s, le), le)
  {
    if s != [] && !le(x, s[0]) {
      var t := Insert(x, s[1..], le);
      InsertKeepsSorted(x, s[1..], le);
      InsertPermutes(x, s[1..], le);
      forall y | y in t
        ensures le(s[0], y)
      {
        assert y in multiset(t);
        if y != x {
          assert y in s[1..];
        }
      }
    } else if s != [] {
      assert forall j :: 0 < j < |s| ==> le(x, s[0]) && le(s[0], s[j]);
    }
  }

  lemma {:induction false} SortPermutes<T>(s: seq<T>, le: (T, T) -> bool)
    ensures multiset(Sort(s, le)) == multiset(s)
    ensures |Sort(s, le)| == |s|
  {
    if s != [] {
      SortPermutes(s[1..], le);
      InsertPermutes(s[0], Sort(s[1..], le), le);
      assert s == [s[0]] + s[1..];
    }
  }

  lemma {:induction false} SortSorts<T(!new)>(s: seq<T>, le: (T, T) -> bool)
    requires TotalPreorder(le)
    ensures Sorted(Sort(s, le), le)
  {
    if s != [] {
      SortSorts(s[1..], le);
      InsertKeepsSorted(s[0], Sort(s[1..], le), le);
    }
  }

  lemma HeadIsLeast<T(!new)>(s: seq<T>, x: T, le: (T, T) -> bool)
    requires TotalPreorder(le) && Sorted(s, le) && x in s
    ensures le(s[0], x)
  {
  }

  lemma DropHead<T>(s: seq<T>)
    requires s != []
    ensures multiset(s[1..]) == multiset(s) - multiset{s[0]}
  {
    assert s == [s[0]] + s[1..];
  }

  /** Without ties there is only one sorted arrangement. */
  lemma {:induction false} SortedUnique<T(!new)>(s: seq<T>, t: seq<T>, le: (T, T) -> bool)
    requires TotalPreorder(le) && NoTies(s, le)
    requires Sorted(s, le) && Sorted(t, le) && multiset(s) == multiset(t)
    ensures s == t
  {
    hide TotalPreorder;
    assert |s| == |multiset(s)| == |multiset(t)| == |t|;
    if s != [] {
      SameHead(s, t, le);
      assert multiset(s[1..]) == multiset(t[1..]) by {
        hide Sorted, NoTies;
        DropHead(s);
        DropHead(t);
      }
      assert Sorted(s[1..], le) && Sorted(t[1..], le) && NoTies(s[1..], le);
      hide Sorted, NoTies;
      SortedUnique(s[1..], t[1..], le);
      assert s == [s[0]] + s[1..] && t == [t[0]] + t[1..];
    }
  }

  lemma SameHead<T(!new)>(s: seq<T>, t: seq<T>, le: (T, T) -> bool)
    requires TotalPreorder(le) && NoTies(s, le) && s != [] && t != []
    requires Sorted(s, le) && Sorted(t, le) && multiset(s) == multiset(t)
    ensures s[0] == t[0]
  {
    hide TotalPreorder, Sorted;
    assert s[0] in multiset(t) && t[0] in multiset(s);
    HeadIsLeast(s, t[0], le);
    HeadIsLeast(t, s[0], le);
  }

  lemma SortSameElements<T(!new)>(s: seq<T>, le: (T, T) -> bool, x: T)
    ensures x in Sort(s, le) <==> x in s
  {
    SortPermutes(s, le);
    assert x in multiset(Sort(s, le)) <==> x in multiset(s);
  }

  ghost predicate DistinctBy<T, K>(s: seq<T>, key: T -> K) {
    forall i, j :: 0 <= i < j < |s| ==> key(s[i]) != key(s[j])
  }

  lemma DistinctParts<T, K>(a: seq<T>, b: seq<T>, key: T -> K)
    ensures DistinctBy(a + b, key) <==>
            DistinctBy(a, key) && DistinctBy(b, key) && forall x, y :: x in a && y in b ==> key(x) != key(y)
  {
    var s := a + b;
    assert forall i :: 0 <= i < |a| ==> s[i] == a[i];
    assert forall j :: 0 <= j < |b| ==> s[|a| + j] == b[j];
  }

  lemma {:induction false} OnceAtMost<T, K>(s: seq<T>, key: T -> K, x: T)
    requires DistinctBy(s, key)
    ensures multiset(s)[x] <= 1
  {
    if s != [] {
      var n := |s| - 1;
      assert s == s[..n] + [s[n]];
      OnceAtMost(s[..n], key, x);
      if s[n] == x {
        assert x !in s[..n];
      }
    }
  }

  lemma TwiceInMultiset<T>(s: seq<T>, i: nat, j: nat)
    requires i < j < |s| && s[i] == s[j]
    ensures multiset(s)[s[i]] >= 2
  {
    assert s == s[..j] + s[j..];
    assert s[i] in s[..j] && s[j] in s[j..];
  }

  /** Rearranging does not bring two equal keys together. */
  lemma RearrangedDistinct<T, K>(s: seq<T>, t: seq<T>, key: T -> K)
    requires DistinctBy(s, key) && multiset(s) == multiset(t)
    ensures DistinctBy(t, key)
  {
    forall i, j | 0 <= i < j < |t|
      ensures key(t[i]) != key(t[j])
    {
      assert t[i] in multiset(s) && t[j] in multiset(s);
      var p :| 0 <= p < |s| && s[p] == t[i];
      var q :| 0 <= q < |s| && s[q] == t[j];
      if p == q {
        OnceAtMost(s, key, t[i]);
        TwiceInMultiset(t, i, j);
      }
    }
  }

  function Map<T, U>(s: seq<T>, f: T -> U): seq<U> {
    seq(|s|, i requires 0 <= i < |s| => f(s[i]))
  }

  lemma RemoveAt<T>(s: seq<T>, i: nat)
    requires i < |s|
    ensures multiset(s[..i] + s[i + 1..]) == multiset(s) - multiset{s[i]}
  {
    assert s == s[..i] + [s[i]] + s[i + 1..];
  }

  /** Mapping the same elements in another order gives the same results in another order. */
  lemma {:induction false} MapPermutes<T, U>(s: seq<T>, t: seq<T>, f: T -> U)
    requires multiset(s) == multiset(t)
    ensures multiset(Map(s, f)) == multiset(Map(t, f))
  {
    assert |s| == |multiset(s)| == |multiset(t)| == |t|;
    if s != [] {
      assert s[0] in multiset(t);
      var i :| 0 <= i < |t| && t[i] == s[0];
      var rest := t[..i] + t[i + 1..];
      DropHead(s);
      RemoveAt(t, i);
      MapPermutes(s[1..], rest, f);
      assert Map(s, f) == [f(s[0])] + Map(s[1..], f);
      assert Map(rest, f) == Map(t, f)[..i] + Map(t, f)[i + 1..];
      RemoveAt(Map(t, f), i);
      assert multiset(Map(s, f)) == multiset{f(s[0])} + multiset(Map(rest, f));
    }
  }

  lemma ArrangedMembers<T>(result: seq<T>, input: seq<T>, le: (T, T) -> bool)
    requires Arranged(result, input, le)
    ensures |result| == |input| && forall x :: x in result <==> x in input
  {
    assert |result| == |multiset(result)| == |multiset(input)| == |input|;
    assert forall x :: x in result <==> x in multiset(result);
  }

  /** Elements that order equally keep the order the input gave them. */
  lemma {:induction false} SortIsStable<T(!new)>(s: seq<T>, le: (T, T) -> bool, rank: T -> int)
    requires TotalPreorder(le)
    requires forall i, j :: 0 <= i < j < |s| ==> rank(s[i]) <= rank(s[j])
    ensures forall i, j :: 0 <= i < j < |s| && |Sort(s, le)| == |s| && le(Sort(s, le)[j], Sort(s, le)[i]) ==>
              rank(Sort(s, le)[i]) <= rank(Sort(s, le)[j])
  {
    if s != [] {
      var rest := Sort(s[1..], le);
      SortIsStable(s[1..], le, rank);
      SortSorts(s[1..], le);
      SortPermutes(s[1..], le);
      forall y | y in rest
        ensures rank(s[0]) <= rank(y)
      {
        SortSameElements(s[1..], le, y);
      }
      InsertIsStable(s[0], rest, le, rank);
      InsertPermutes(s[0], rest, le);
    }
  }

  lemma {:induction false} InsertIsStable<T(!new)>(x: T, s: seq<T>, le: (T, T) -> bool, rank: T -> int)
    requires TotalPreorder(le) && Sorted(s, le)
    requires forall y :: y in s ==> rank(x) <= rank(y)
    requires forall i, j :: 0 <= i < j < |s| && le(s[j], s[i]) ==> rank(s[i]) <= rank(s[j])
    ensures var t := Insert(x, s, le);
            forall i, j :: 0 <= i < j < |t| && le(t[j], t[i]) ==> rank(t[i]) <= rank(t[j])
  {
    if s != [] && !le(x, s[0]) {
      var t := Insert(x, s[1..], le);
      InsertIsStable(x, s[1..], le, rank);
      InsertPermutes(x, s[1..], le);
      forall y | y in t && le(y, s[0])
        ensures rank(s[0]) <= rank(y)
      {
        assert y in multiset(t);
        if y != x {
          assert y in s[1..];
          var j :| 0 < j < |s| && s[j] == y;
        }
      }
    }
  }
}
