/**
 * The annotator's list of annotations: sorting by lower bound, removal, the
 * effect of removing elements from a list while iterating over it, and the
 * selected/active queries.
 */
module AnnotationLists {
  import opened Wrappers
  import opened Annotations

  predicate Distinct<T(==)>(s: seq<T>)
  {
    forall i, j :: 0 <= i < j < |s| ==> s[i] != s[j]
  }

  predicate SortedByXMin(s: seq<AnnotationRecord>)
  {
    forall i, j :: 0 <= i < j < |s| ==> s[i].xMin <= s[j].xMin
  }

  predicate AllAttached(s: seq<AnnotationRecord>)
  {
    forall i :: 0 <= i < |s| ==> s[i].hasHandle
  }

  /** No two positions of the list hold an active annotation. */
  predicate AtMostOneActive(s: seq<AnnotationRecord>)
  {
    forall i, j :: 0 <= i < |s| && 0 <= j < |s| && s[i].flags.active && s[j].flags.active ==> i == j
  }

  /** The active annotations of the list, as a set of values. */
  function ActiveSet(s: seq<AnnotationRecord>): (r: set<AnnotationRecord>)
    ensures forall k :: 0 <= k < |s| ==> (s[k] in r <==> s[k].flags.active)
  {
    set a | a in s && a.flags.active
  }

  // ------------------------------------------------------------------
  // Sorting by lower bound (a stable insertion sort)
  // ------------------------------------------------------------------

  /** `a` placed before the first element whose lower bound is not smaller. */
  function InsertByXMin(a: AnnotationRecord, s: seq<AnnotationRecord>): (r: seq<AnnotationRecord>)
    ensures multiset(r) == multiset(s) + multiset{a}
  {
    if s == [] || a.xMin <= s[0].xMin then [a] + s
    else
      assert s == [s[0]] + s[1..];
      [s[0]] + InsertByXMin(a, s[1..])
  }

  /** A sorted list stays sorted with an element in front that is at most every lower bound in it. */
  lemma ConsSorted(x: AnnotationRecord, t: seq<AnnotationRecord>)
    requires SortedByXMin(t)
    requires forall k :: 0 <= k < |t| ==> x.xMin <= t[k].xMin
    ensures SortedByXMin([x] + t)
  {
    var r := [x] + t;
    forall i, j | 0 <= i < j < |r| ensures r[i].xMin <= r[j].xMin {
      assert r[j] == t[j - 1];
      if i > 0 {
        assert r[i] == t[i - 1];
      }
    }
  }

  /** An element of a list is one of its values. */
  lemma MemberIsElement(s: seq<AnnotationRecord>, x: AnnotationRecord) returns (j: nat)
    requires x in multiset(s)
    ensures j < |s| && s[j] == x
  {
    assert x in s;
    j :| 0 <= j < |s| && s[j] == x;
  }

  /** Inserting into a sorted list keeps it sorted. */
  lemma {:induction false} InsertKeepsSorted(a: AnnotationRecord, s: seq<AnnotationRecord>)
    requires SortedByXMin(s)
    ensures SortedByXMin(InsertByXMin(a, s))
  {
    if s == [] || a.xMin <= s[0].xMin {
      ConsSorted(a, s);
    } else {
      assert SortedByXMin(s[1..]);
      InsertKeepsSorted(a, s[1..]);
      var rest := InsertByXMin(a, s[1..]);
      forall k | 0 <= k < |rest| ensures s[0].xMin <= rest[k].xMin {
        assert rest[k] in multiset(rest);
        if rest[k] != a {
          var j := MemberIsElement(s[1..], rest[k]);
          assert s[j + 1] == rest[k];
        }
      }
      ConsSorted(s[0], rest);
    }
  }

  /** The list ordered by lower bound; elements with equal bounds keep their order. */
  function SortByXMin(s: seq<AnnotationRecord>): (r: seq<AnnotationRecord>)
    ensures multiset(r) == multiset(s)
    ensures SortedByXMin(r)
  {
    if s == [] then []
    else
      assert s == [s[0]] + s[1..];
      var t := SortByXMin(s[1..]);
      InsertKeepsSorted(s[0], t);
      InsertByXMin(s[0], t)
  }

  /** Sorting keeps exactly the values of the list. */
  lemma SortMembers(s: seq<AnnotationRecord>)
    ensures forall x :: x in SortByXMin(s) <==> x in s
  {
    forall x ensures x in SortByXMin(s) <==> x in s {
      assert x in SortByXMin(s) <==> x in multiset(SortByXMin(s));
      assert x in s <==> x in multiset(s);
    }
  }

  /** Sorting a list that is already in order returns it unchanged. */
  lemma {:induction false} SortOfSortedIsIdentity(s: seq<AnnotationRecord>)
    requires SortedByXMin(s)
    ensures SortByXMin(s) == s
  {
    if s != [] {
      assert SortedByXMin(s[1..]);
      SortOfSortedIsIdentity(s[1..]);
    }
  }

  /** Sorting twice is sorting once. */
  lemma SortIdempotent(s: seq<AnnotationRecord>)
    ensures SortByXMin(SortByXMin(s)) == SortByXMin(s)
  {
    SortOfSortedIsIdentity(SortByXMin(s));
  }

  /** The annotations of the list whose lower bound is `v`, in list order. */
  function WithXMin(s: seq<AnnotationRecord>, v: real): seq<AnnotationRecord>
  {
    if s == [] then []
    else (if s[0].xMin == v then [s[0]] else []) + WithXMin(s[1..], v)
  }

  /** Insertion puts the new element in front of every element with the same lower bound. */
  lemma {:induction false} InsertWithXMin(a: AnnotationRecord, s: seq<AnnotationRecord>, v: real)
    ensures WithXMin(InsertByXMin(a, s), v) == (if a.xMin == v then [a] else []) + WithXMin(s, v)
  {
    if s == [] || a.xMin <= s[0].xMin {
      assert ([a] + s)[1..] == s;
    } else {
      var rest := InsertByXMin(a, s[1..]);
      assert ([s[0]] + rest)[1..] == rest;
      InsertWithXMin(a, s[1..], v);
    }
  }

  /** The sort is stable: annotations with equal lower bounds keep their relative order. */
  lemma {:induction false} SortStable(s: seq<AnnotationRecord>, v: real)
    ensures WithXMin(SortByXMin(s), v) == WithXMin(s, v)
  {
    if s != [] {
      SortStable(s[1..], v);
      InsertWithXMin(s[0], SortByXMin(s[1..]), v);
    }
  }

  /** The number of active annotations in the list. */
  function ActiveCount(s: seq<AnnotationRecord>): (n: nat)
    ensures n <= |s|
    ensures n == 0 <==> forall k :: 0 <= k < |s| ==> !s[k].flags.active
  {
    if s == [] then 0
    else
      assert forall k :: 1 <= k < |s| ==> s[k] == s[1..][k - 1];
      (if s[0].flags.active then 1 else 0) + ActiveCount(s[1..])
  }

  /** Inserting an annotation adds one to the count exactly when it is active. */
  lemma {:induction false} InsertActiveCount(a: AnnotationRecord, s: seq<AnnotationRecord>)
    ensures ActiveCount(InsertByXMin(a, s)) == ActiveCount(s) + (if a.flags.active then 1 else 0)
  {
    if s == [] || a.xMin <= s[0].xMin {
      assert ([a] + s)[1..] == s;
    } else {
      InsertActiveCount(a, s[1..]);
      var rest := InsertByXMin(a, s[1..]);
      assert ([s[0]] + rest)[1..] == rest;
    }
  }

  /** Sorting keeps the number of active annotations. */
  lemma {:induction false} SortActiveCount(s: seq<AnnotationRecord>)
    ensures ActiveCount(SortByXMin(s)) == ActiveCount(s)
  {
    if s != [] {
      SortActiveCount(s[1..]);
      InsertActiveCount(s[0], SortByXMin(s[1..]));
    }
  }

  /** At most one position holds an active annotation exactly when at most one annotation is counted. */
  lemma {:induction false} AtMostOneActiveCount(s: seq<AnnotationRecord>)
    ensures AtMostOneActive(s) <==> ActiveCount(s) <= 1
  {
    if s != [] {
      var t := s[1..];
      AtMostOneActiveCount(t);
      assert forall k :: 1 <= k < |s| ==> s[k] == t[k - 1];
      if AtMostOneActive(s) {
        assert AtMostOneActive(t) by {
          forall i, j | 0 <= i < |t| && 0 <= j < |t| && t[i].flags.active && t[j].flags.active ensures i == j {
            assert s[i + 1] == t[i] && s[j + 1] == t[j];
          }
        }
        if s[0].flags.active {
          forall k | 0 <= k < |t| ensures !t[k].flags.active {
            assert s[k + 1] == t[k];
          }
        }
      }
      if ActiveCount(s) <= 1 {
        forall i, j | 0 <= i < |s| && 0 <= j < |s| && s[i].flags.active && s[j].flags.active ensures i == j {
          if i > 0 && j > 0 {
            assert t[i - 1].flags.active && t[j - 1].flags.active;
          }
        }
      }
    }
  }

  /** Sorting keeps at most one annotation active. */
  lemma SortKeepsAtMostOneActive(s: seq<AnnotationRecord>)
    requires AtMostOneActive(s)
    ensures AtMostOneActive(SortByXMin(s))
  {
    AtMostOneActiveCount(s);
    SortActiveCount(s);
    AtMostOneActiveCount(SortByXMin(s));
  }

  // ------------------------------------------------------------------
  // Distinctness and multisets
  // ------------------------------------------------------------------

  lemma {:induction false} DistinctMultiplicity<T>(s: seq<T>, x: T)
    requires Distinct(s)
    ensures multiset(s)[x] <= 1
  {
    if s != [] {
      assert s == [s[0]] + s[1..];
      assert Distinct(s[1..]);
      DistinctMultiplicity(s[1..], x);
      if x == s[0] {
        assert x !in s[1..];
      }
    }
  }

  lemma {:induction false} MultiplicityDistinct<T>(s: seq<T>)
    requires forall x :: multiset(s)[x] <= 1
    ensures Distinct(s)
  {
    if s != [] {
      assert s == [s[0]] + s[1..];
      assert forall x :: multiset(s[1..])[x] <= multiset(s)[x];
      MultiplicityDistinct(s[1..]);
      assert s[0] !in multiset(s[1..]) by {
        assert multiset(s)[s[0]] == multiset(s[1..])[s[0]] + 1;
      }
      forall i, j | 0 <= i < j < |s| ensures s[i] != s[j] {
        if i == 0 {
          assert s[j] in s[1..];
        }
      }
    }
  }

  /** Reordering a list without repeats gives a list without repeats. */
  lemma DistinctPermutation<T>(s: seq<T>, r: seq<T>)
    requires Distinct(s) && multiset(r) <= multiset(s)
    ensures Distinct(r)
  {
    forall x ensures multiset(r)[x] <= 1 {
      DistinctMultiplicity(s, x);
    }
    MultiplicityDistinct(r);
  }

  // ------------------------------------------------------------------
  // Removal
  // ------------------------------------------------------------------

  /** The list without the elements of `drop`, in its original order. */
  function Without<T>(s: seq<T>, drop: set<T>): (r: seq<T>)
    ensures |r| <= |s|
  {
    if s == [] then []
    else (if s[0] in drop then [] else [s[0]]) + Without(s[1..], drop)
  }

  /** Exactly the elements of `s` outside `drop` remain. */
  lemma {:induction false} WithoutMembers<T>(s: seq<T>, drop: set<T>)
    ensures var r := Without(s, drop);
      (forall i :: 0 <= i < |r| ==> r[i] in s && r[i] !in drop) &&
      (forall i :: 0 <= i < |s| && s[i] !in drop ==> s[i] in r)
  {
    if s != [] {
      WithoutMembers(s[1..], drop);
      assert s == [s[0]] + s[1..];
      var r := Without(s, drop);
      assert r == (if s[0] in drop then [] else [s[0]]) + Without(s[1..], drop);
      forall i | 0 <= i < |s| && s[i] !in drop ensures s[i] in r {
        if i > 0 {
          assert s[i] == s[1..][i - 1];
        }
      }
    }
  }

  /** Removing values that do not occur changes nothing. */
  lemma {:induction false} WithoutAbsent<T>(s: seq<T>, drop: set<T>)
    requires forall i :: 0 <= i < |s| ==> s[i] !in drop
    ensures Without(s, drop) == s
  {
    if s != [] {
      WithoutAbsent(s[1..], drop);
      assert s == [s[0]] + s[1..];
    }
  }

  lemma {:induction false} WithoutKeepsSorted(s: seq<AnnotationRecord>, drop: set<AnnotationRecord>)
    requires SortedByXMin(s)
    ensures SortedByXMin(Without(s, drop))
  {
    if s != [] {
      var rest := Without(s[1..], drop);
      WithoutKeepsSorted(s[1..], drop);
      WithoutMembers(s[1..], drop);
      HeadBelowTail(s);
      ConsSorted(s[0], rest);
      assert s == [s[0]] + s[1..];
      WithoutCons(s[0], s[1..], drop);
    }
  }

  /** In a sorted list, the head's lower bound is at most that of every later value. */
  lemma HeadBelowTail(s: seq<AnnotationRecord>)
    requires SortedByXMin(s) && s != []
    ensures forall x :: x in s[1..] ==> s[0].xMin <= x.xMin
  {
    forall x | x in s[1..] ensures s[0].xMin <= x.xMin {
      var j :| 0 <= j < |s[1..]| && s[1..][j] == x;
      assert s[j + 1] == x;
    }
  }

  /** One step of `Without`, for a list written as head and tail. */
  lemma WithoutCons<T>(x: T, t: seq<T>, drop: set<T>)
    ensures Without([x] + t, drop) == (if x in drop then [] else [x]) + Without(t, drop)
  {
    assert ([x] + t)[1..] == t;
  }

  lemma {:induction false} WithoutOfUnion<T>(s: seq<T>, a: set<T>, b: set<T>)
    ensures Without(Without(s, a), b) == Without(s, a + b)
  {
    if s != [] {
      WithoutOfUnion(s[1..], a, b);
      if s[0] in a {
        assert Without(s, a) == Without(s[1..], a);
      } else {
        assert Without(s, a) == [s[0]] + Without(s[1..], a);
        WithoutCons(s[0], Without(s[1..], a), b);
      }
    }
  }

  /** In a list without repeats, cutting out the element at `i` is removing that value. */
  lemma {:induction false} CutIsWithout<T>(s: seq<T>, i: nat)
    requires Distinct(s) && i < |s|
    ensures s[..i] + s[i + 1..] == Without(s, {s[i]})
  {
    if i == 0 {
      assert s[1..] == Without(s[1..], {s[0]}) by {
        WithoutAbsent(s[1..], {s[0]});
      }
    } else {
      assert Distinct(s[1..]);
      CutIsWithout(s[1..], i - 1);
      assert s[1..][..i - 1] == s[1..i];
      assert s[1..][i..] == s[i + 1..];
      assert s[..i] + s[i + 1..] == [s[0]] + (s[1..i] + s[i + 1..]);
    }
  }

  /** The first position of `x` in `s`, where Python's `list.remove` looks for it. */
  function IndexOf<T(==)>(s: seq<T>, x: T): (i: nat)
    requires x in s
    ensures i < |s| && s[i] == x
    ensures forall j :: 0 <= j < i ==> s[j] != x
  {
    if s[0] == x then 0 else 1 + IndexOf(s[1..], x)
  }

  /** Python's `list.remove`: the list without the first occurrence of `x`. */
  function ListRemove<T(==)>(s: seq<T>, x: T): (r: seq<T>)
    requires x in s
    ensures |r| == |s| - 1
    ensures multiset(r) + multiset{x} == multiset(s)
  {
    var i := IndexOf(s, x);
    assert s == s[..i] + [x] + s[i + 1..];
    s[..i] + s[i + 1..]
  }

  /** In a list without repeats, `list.remove` takes out the element at its one position and nothing else. */
  lemma ListRemoveIsWithout<T>(s: seq<T>, i: nat)
    requires Distinct(s) && i < |s|
    ensures ListRemove(s, s[i]) == s[..i] + s[i + 1..] == Without(s, {s[i]})
  {
    IndexOfDistinct(s, i);
    assert ListRemove(s, s[i]) == s[..i] + s[i + 1..];
    CutIsWithout(s, i);
  }

  /** In a list without repeats, the first position of the value at `i` is `i`. */
  lemma IndexOfDistinct<T>(s: seq<T>, i: nat)
    requires Distinct(s) && i < |s|
    ensures IndexOf(s, s[i]) == i
  {
    var j := IndexOf(s, s[i]);
    assert s[j] == s[i];
  }

  /**
   * What a Python `for` loop over a list does when its body removes the current
   * element whenever it belongs to `drop`: the iterator keeps counting
   * positions, so the element that slides into the freed position is never
   * visited. `i` is the iterator's position.
   */
  function RemovingLoop<T>(s: seq<T>, i: nat, drop: set<T>): (r: seq<T>)
    ensures |r| <= |s|
    ensures i <= |s| ==> i <= |r| && r[..i] == s[..i]
    ensures drop == {} ==> r == s
    decreases |s| - i
  {
    if i >= |s| then s
    else if s[i] in drop then
      assert (s[..i] + s[i + 1..])[..i] == s[..i];
      RemovingLoop(s[..i] + s[i + 1..], i + 1, drop)
    else RemovingLoop(s, i + 1, drop)
  }

  /** No element of `drop` is directly followed by another element of `drop`. */
  ghost predicate NoAdjacentDrops<T>(s: seq<T>, drop: set<T>)
  {
    forall j :: 0 <= j < |s| - 1 ==> !(s[j] in drop && s[j + 1] in drop)
  }

  lemma NoAdjacentDropsSuffix<T>(s: seq<T>, k: nat, drop: set<T>)
    requires k <= |s| && NoAdjacentDrops(s, drop)
    ensures NoAdjacentDrops(s[k..], drop)
  {
    forall j | 0 <= j < |s[k..]| - 1 ensures !(s[k..][j] in drop && s[k..][j + 1] in drop) {
      assert s[k..][j] == s[k + j] && s[k..][j + 1] == s[k + j + 1];
    }
  }

  /** Visiting a kept element: the prefix grows by it. */
  lemma KeepStep<T>(s: seq<T>, i: nat, drop: set<T>)
    requires i < |s| && s[i] !in drop
    ensures s[..i + 1] + Without(s[i + 1..], drop) == s[..i] + Without(s[i..], drop)
  {
    assert s[i..] == [s[i]] + s[i + 1..];
    WithoutCons(s[i], s[i + 1..], drop);
    assert s[..i + 1] == s[..i] + [s[i]];
  }

  /** Removing the visited element, whose successor is kept, and moving past that successor. */
  lemma DropStep<T>(p: seq<T>, x: T, y: T, w: seq<T>, drop: set<T>)
    requires x in drop && y !in drop
    ensures (p + [y]) + Without(w, drop) == p + Without([x] + ([y] + w), drop)
  {
    WithoutCons(x, [y] + w, drop);
    WithoutCons(y, w, drop);
  }

  /** Removing the last element. */
  lemma DropLastStep<T>(s: seq<T>, i: nat, drop: set<T>)
    requires i + 1 == |s| && s[i] in drop
    ensures s[..i] + s[i + 1..] == s[..i] + Without(s[i..], drop)
  {
    assert s[i..] == [s[i]] + [];
    WithoutCons(s[i], [], drop);
  }

  lemma {:induction false} RemovingLoopFrom<T>(s: seq<T>, i: nat, drop: set<T>)
    requires i <= |s|
    requires NoAdjacentDrops(s[i..], drop)
    ensures RemovingLoop(s, i, drop) == s[..i] + Without(s[i..], drop)
    decreases |s| - i
  {
    if i == |s| {
      assert s[i..] == [];
      assert s[..i] == s;
    } else if s[i] !in drop {
      NoAdjacentDropsSuffix(s[i..], 1, drop);
      assert s[i..][1..] == s[i + 1..];
      RemovingLoopFrom(s, i + 1, drop);
      KeepStep(s, i, drop);
    } else if i + 1 == |s| {
      DropLastStep(s, i, drop);
    } else {
      var t := s[..i] + s[i + 1..];
      assert s[i..][0] == s[i] && s[i..][1] == s[i + 1];
      NoAdjacentDropsSuffix(s[i..], 2, drop);
      assert s[i..][2..] == s[i + 2..] == t[i + 1..];
      RemovingLoopFrom(t, i + 1, drop);
      assert t[..i + 1] == s[..i] + [s[i + 1]];
      assert s[i..] == [s[i]] + ([s[i + 1]] + s[i + 2..]);
      DropStep(s[..i], s[i], s[i + 1], s[i + 2..], drop);
    }
  }

  /**
   * When no two elements to remove are neighbours (in particular when there is
   * at most one), the loop removes exactly the elements of `drop`.
   */
  lemma RemovingLoopIsWithout<T>(s: seq<T>, drop: set<T>)
    requires NoAdjacentDrops(s, drop)
    ensures RemovingLoop(s, 0, drop) == Without(s, drop)
  {
    assert s[0..] == s;
    RemovingLoopFrom(s, 0, drop);
  }

  /** Two neighbouring elements to remove: the second one is skipped and survives. */
  lemma RemovingLoopSkipsNeighbour<T>(a: T, b: T)
    requires a != b
    ensures RemovingLoop([a, b], 0, {a, b}) == [b]
  {
    assert [a, b][..0] + [a, b][1..] == [b];
  }

  /** Cutting out position `i` only removes, and keeps the element at every other position. */
  lemma CutShrinks<T>(s: seq<T>, i: nat)
    requires i < |s|
    ensures multiset(s[..i] + s[i + 1..]) <= multiset(s)
    ensures forall k :: 0 <= k < |s| && k != i ==> s[k] in s[..i] + s[i + 1..]
  {
    var t := s[..i] + s[i + 1..];
    assert s == s[..i] + [s[i]] + s[i + 1..];
    forall k | 0 <= k < |s| && k != i ensures s[k] in t {
      if k < i {
        assert t[k] == s[k];
      } else {
        assert t[k - 1] == s[k];
      }
    }
  }

  /** The loop only removes, and it never removes an element outside `drop`. */
  lemma RemovingLoopShrinks<T>(s: seq<T>, i: nat, drop: set<T>)
    ensures var r := RemovingLoop(s, i, drop);
      && multiset(r) <= multiset(s)
      && (forall k :: 0 <= k < |r| ==> r[k] in s)
      && (forall k :: 0 <= k < |s| && s[k] !in drop ==> s[k] in r)
  {
    RemovingLoopSubMultiset(s, i, drop);
    RemovingLoopKeepsOthers(s, i, drop);
    var r := RemovingLoop(s, i, drop);
    forall k | 0 <= k < |r| ensures r[k] in s {
      assert r[k] in multiset(r);
    }
  }

  /** The loop's result is contained in its input, counted as a multiset. */
  lemma {:induction false} RemovingLoopSubMultiset<T>(s: seq<T>, i: nat, drop: set<T>)
    ensures multiset(RemovingLoop(s, i, drop)) <= multiset(s)
    decreases |s| - i
  {
    if i < |s| && s[i] in drop {
      CutShrinks(s, i);
      RemovingLoopSubMultiset(s[..i] + s[i + 1..], i + 1, drop);
    } else if i < |s| {
      RemovingLoopSubMultiset(s, i + 1, drop);
    }
  }

  /** Every element outside `drop` survives the loop. */
  lemma {:induction false} RemovingLoopKeepsOthers<T>(s: seq<T>, i: nat, drop: set<T>)
    ensures forall k :: 0 <= k < |s| && s[k] !in drop ==> s[k] in RemovingLoop(s, i, drop)
    decreases |s| - i
  {
    if i < |s| && s[i] in drop {
      CutShrinks(s, i);
      RemovingLoopKeepsOthers(s[..i] + s[i + 1..], i + 1, drop);
    } else if i < |s| {
      RemovingLoopKeepsOthers(s, i + 1, drop);
    }
  }

  lemma {:induction false} RemovingLoopKeepsSorted(s: seq<AnnotationRecord>, i: nat, drop: set<AnnotationRecord>)
    requires SortedByXMin(s)
    ensures SortedByXMin(RemovingLoop(s, i, drop))
    decreases |s| - i
  {
    if i < |s| {
      if s[i] in drop {
        var t := s[..i] + s[i + 1..];
        assert SortedByXMin(t) by {
          forall p, q | 0 <= p < q < |t| ensures t[p].xMin <= t[q].xMin {
            var p' := if p < i then p else p + 1;
            var q' := if q < i then q else q + 1;
            assert t[p] == s[p'] && t[q] == s[q'];
          }
        }
        RemovingLoopKeepsSorted(t, i + 1, drop);
      } else {
        RemovingLoopKeepsSorted(s, i + 1, drop);
      }
    }
  }

  // ------------------------------------------------------------------
  // Queries
  // ------------------------------------------------------------------

  /** The selected annotations, in list order. */
  function SelectedOf(s: seq<AnnotationRecord>): seq<AnnotationRecord>
  {
    if s == [] then []
    else (if s[0].flags.selected then [s[0]] else []) + SelectedOf(s[1..])
  }

  /**
   * The selection holds only selected annotations of the list and every
   * selected one; it is never longer than the list, and as long exactly when
   * every annotation is selected.
   */
  lemma {:induction false} SelectedOfMembers(s: seq<AnnotationRecord>)
    ensures var r := SelectedOf(s);
      && (forall i :: 0 <= i < |r| ==> r[i] in s && r[i].flags.selected)
      && (forall i :: 0 <= i < |s| && s[i].flags.selected ==> s[i] in r)
      && |r| <= |s|
      && (|r| == |s| <==> forall i :: 0 <= i < |s| ==> s[i].flags.selected)
  {
    if s != [] {
      SelectedOfMembers(s[1..]);
      assert s == [s[0]] + s[1..];
      assert forall i :: 1 <= i < |s| ==> s[i] == s[1..][i - 1];
    }
  }

  /** Each annotation occurs in the selection as often as in the list when it is selected, and not at all otherwise. */
  lemma {:induction false} SelectedOfCounts(s: seq<AnnotationRecord>)
    ensures forall x :: multiset(SelectedOf(s))[x] == if x.flags.selected then multiset(s)[x] else 0
  {
    if s != [] {
      SelectedOfCounts(s[1..]);
      assert s == [s[0]] + s[1..];
    }
  }

  /** The selection of two lists joined is the two selections joined, so it keeps the list order. */
  lemma {:induction false} SelectedOfConcat(s: seq<AnnotationRecord>, t: seq<AnnotationRecord>)
    ensures SelectedOf(s + t) == SelectedOf(s) + SelectedOf(t)
  {
    if s == [] {
      assert s + t == t;
    } else {
      var head := if s[0].flags.selected then [s[0]] else [];
      assert (s + t)[0] == s[0] && (s + t)[1..] == s[1..] + t;
      assert SelectedOf(s + t) == head + SelectedOf(s[1..] + t);
      SelectedOfConcat(s[1..], t);
      assert head + (SelectedOf(s[1..]) + SelectedOf(t)) == (head + SelectedOf(s[1..])) + SelectedOf(t);
    }
  }

  /** The first active annotation in list order, if any. */
  function FirstActive(s: seq<AnnotationRecord>): (r: Option<AnnotationRecord>)
    ensures r.None? <==> forall i :: 0 <= i < |s| ==> !s[i].flags.active
    ensures r.Some? ==> exists i :: 0 <= i < |s| && s[i] == r.value && s[i].flags.active
                                   && (forall j :: 0 <= j < i ==> !s[j].flags.active)
  {
    if s == [] then None
    else if s[0].flags.active then Some(s[0])
    else
      var r := FirstActive(s[1..]);
      assert forall i :: 0 < i < |s| ==> s[i] == s[1..][i - 1];
      r
  }

  /** With at most one active annotation, the first active one is the only active one. */
  lemma FirstActiveIsTheActiveOne(s: seq<AnnotationRecord>)
    requires AtMostOneActive(s)
    ensures FirstActive(s).Some? ==> ActiveSet(s) == {FirstActive(s).value}
  {
  }
}
