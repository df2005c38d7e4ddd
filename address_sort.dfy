/** What `Collections.sort` and `Stream.sorted` return for the two kinds of address
    comparators the PAC helpers hand them. Both library sorts are stable; for the
    family-only comparators that fixes the result as "preferred family first, each
    family in input order", and for the total ordering every sorted permutation is
    the same list. Both facts are proved here, so the functions below are the
    results of those library calls. */
module AddressSort {
  import opened IpAddressUtils
  import opened Sequences

  // ---------------------------------------------------------------------------
  // Sorting by family (addressComparator)
  // ---------------------------------------------------------------------------

  /** The addresses of `s` of one family (`v4` chooses which), in input order. */
  function OfFamily(s: seq<IpAddress>, v4: bool): (r: seq<IpAddress>)
    ensures |r| <= |s|
  {
    if |s| == 0 then []
    else (if s[0].V4? == v4 then [s[0]] else []) + OfFamily(s[1..], v4)
  }

  /** Every address of `OfFamily(s, v4)` is of that family. */
  lemma {:induction false} OfFamilyOnly(s: seq<IpAddress>, v4: bool)
    ensures forall k :: 0 <= k < |OfFamily(s, v4)| ==> OfFamily(s, v4)[k].V4? == v4
  {
    if |s| > 0 {
      OfFamilyOnly(s[1..], v4);
      var head := if s[0].V4? == v4 then [s[0]] else [];
      var r := OfFamily(s, v4);
      assert r == head + OfFamily(s[1..], v4);
      forall k | 0 <= k < |r|
        ensures r[k].V4? == v4
      {
        if k >= |head| {
          assert r[k] == OfFamily(s[1..], v4)[k - |head|];
        }
      }
    }
  }

  lemma {:induction false} OfFamilyAppend(s: seq<IpAddress>, t: seq<IpAddress>, v4: bool)
    ensures OfFamily(s + t, v4) == OfFamily(s, v4) + OfFamily(t, v4)
  {
    if |s| == 0 {
      assert s + t == t;
    } else {
      var head := if s[0].V4? == v4 then [s[0]] else [];
      assert (s + t)[0] == s[0] && (s + t)[1..] == s[1..] + t;
      assert OfFamily(s + t, v4) == head + OfFamily(s[1..] + t, v4);
      OfFamilyAppend(s[1..], t, v4);
      AppendAssociative(head, OfFamily(s[1..], v4), OfFamily(t, v4));
    }
  }

  /** A list of one family keeps all of it for that family and nothing for the other. */
  lemma {:induction false} OfFamilyUniform(s: seq<IpAddress>, v4: bool)
    requires forall k :: 0 <= k < |s| ==> s[k].V4? == v4
    ensures OfFamily(s, v4) == s
    ensures OfFamily(s, !v4) == []
  {
    if |s| > 0 {
      OfFamilyUniform(s[1..], v4);
      assert s == [s[0]] + s[1..];
    }
  }

  /** Every address is in exactly one of the two family lists. */
  lemma {:induction false} OfFamilyPartition(s: seq<IpAddress>)
    ensures multiset(OfFamily(s, true)) + multiset(OfFamily(s, false)) == multiset(s)
  {
    if |s| > 0 {
      var rest := s[1..];
      OfFamilyPartition(rest);
      assert s == [s[0]] + rest;
      assert multiset(s) == multiset{s[0]} + multiset(rest);
      if s[0].V4? {
        assert OfFamily(s, true) == [s[0]] + OfFamily(rest, true);
        assert OfFamily(s, false) == OfFamily(rest, false);
      } else {
        assert OfFamily(s, true) == OfFamily(rest, true);
        assert OfFamily(s, false) == [s[0]] + OfFamily(rest, false);
      }
    }
  }

  /** The result of a stable sort with `addressComparator(preferIPv6)`: the preferred
      family first, then the other, each in the order of `s`. */
  function FamilySort(s: seq<IpAddress>, preferIPv6: bool): (r: seq<IpAddress>)
    ensures |r| == |s|
    ensures forall i, j :: 0 <= i < j < |r| && r[j].V4? != preferIPv6 ==> r[i].V4? != preferIPv6
  {
    OfFamilyOnly(s, !preferIPv6);
    OfFamilyOnly(s, preferIPv6);
    OfFamilyPartition(s);
    assert |multiset(OfFamily(s, true)) + multiset(OfFamily(s, false))| == |multiset(s)|;
    OfFamily(s, !preferIPv6) + OfFamily(s, preferIPv6)
  }

  /** `s` is in order for a comparator: no later element sorts before an earlier one. */
  ghost predicate SortedBy(s: seq<IpAddress>, cmp: Comparator)
  {
    forall i, j :: 0 <= i < j < |s| ==> cmp(s[i], s[j]) <= 0
  }

  /** The family sort is a permutation of its input ... */
  lemma FamilySortPermutation(s: seq<IpAddress>, preferIPv6: bool)
    ensures multiset(FamilySort(s, preferIPv6)) == multiset(s)
  {
    OfFamilyPartition(s);
  }

  /** ... in order for the comparator ... */
  lemma FamilySortSorted(s: seq<IpAddress>, preferIPv6: bool)
    ensures SortedBy(FamilySort(s, preferIPv6), AddressComparator(preferIPv6))
  {
    var first, second := OfFamily(s, !preferIPv6), OfFamily(s, preferIPv6);
    OfFamilyOnly(s, !preferIPv6);
    OfFamilyOnly(s, preferIPv6);
    var r := first + second;
    forall i, j | 0 <= i < j < |r|
      ensures AddressComparator(preferIPv6)(r[i], r[j]) <= 0
    {
      if j < |first| {
        assert r[i] == first[i] && r[j] == first[j];
      } else if i >= |first| {
        assert r[i] == second[i - |first|] && r[j] == second[j - |first|];
      } else {
        assert r[i] == first[i] && r[j] == second[j - |first|];
      }
    }
  }

  /** ... and stable: each family keeps the order it had in the input. */
  lemma FamilySortStable(s: seq<IpAddress>, preferIPv6: bool, v4: bool)
    ensures OfFamily(FamilySort(s, preferIPv6), v4) == OfFamily(s, v4)
  {
    var first, second := OfFamily(s, !preferIPv6), OfFamily(s, preferIPv6);
    OfFamilyOnly(s, !preferIPv6);
    OfFamilyOnly(s, preferIPv6);
    OfFamilyAppend(first, second, v4);
    OfFamilyUniform(first, !preferIPv6);
    OfFamilyUniform(second, preferIPv6);
    if v4 == preferIPv6 {
      assert OfFamily(first, v4) + OfFamily(second, v4) == [] + second;
    } else {
      assert OfFamily(first, v4) + OfFamily(second, v4) == first + [];
    }
  }

  /** The rest of a list in order is in order. */
  lemma SortedByTail(r: seq<IpAddress>, cmp: Comparator)
    requires |r| > 0 && SortedBy(r, cmp)
    ensures SortedBy(r[1..], cmp)
  {
    var rest := r[1..];
    forall i, j | 0 <= i < j < |rest|
      ensures cmp(rest[i], rest[j]) <= 0
    {
      assert rest[i] == r[i + 1] && rest[j] == r[j + 1];
    }
  }

  /** A list in order for a family comparator that starts with the family sorted last
      holds nothing else. */
  lemma SortedAfterLastFamily(r: seq<IpAddress>, preferIPv6: bool)
    requires |r| > 0 && SortedBy(r, AddressComparator(preferIPv6))
    requires r[0].V4? == preferIPv6
    ensures forall k :: 0 <= k < |r| ==> r[k].V4? == preferIPv6
  {
    forall k | 0 < k < |r|
      ensures r[k].V4? == preferIPv6
    {
      assert AddressComparator(preferIPv6)(r[0], r[k]) <= 0;
    }
  }

  /** A list in order for a family comparator is its first family followed by the other. */
  lemma {:induction false} SortedSplitsByFamily(r: seq<IpAddress>, preferIPv6: bool)
    requires SortedBy(r, AddressComparator(preferIPv6))
    ensures r == OfFamily(r, !preferIPv6) + OfFamily(r, preferIPv6)
  {
    if |r| > 0 {
      if r[0].V4? == !preferIPv6 {
        SortedByTail(r, AddressComparator(preferIPv6));
        SortedSplitsByFamily(r[1..], preferIPv6);
        assert r == [r[0]] + r[1..];
      } else {
        SortedAfterLastFamily(r, preferIPv6);
        OfFamilyUniform(r, preferIPv6);
      }
    }
  }

  /** Sorted and stable determine the result: any such list is `FamilySort`. So a
      model of `Collections.sort` by `FamilySort` is exact. */
  lemma FamilySortUnique(s: seq<IpAddress>, r: seq<IpAddress>, preferIPv6: bool)
    requires SortedBy(r, AddressComparator(preferIPv6))
    requires OfFamily(r, true) == OfFamily(s, true) && OfFamily(r, false) == OfFamily(s, false)
    ensures r == FamilySort(s, preferIPv6)
  {
    SortedSplitsByFamily(r, preferIPv6);
  }

  /** The position of the first address of a family, or -1. */
  function FirstOfFamily(s: seq<IpAddress>, v4: bool): (i: int)
    ensures -1 <= i < |s|
    ensures i == -1 <==> forall k :: 0 <= k < |s| ==> s[k].V4? != v4
    ensures 0 <= i ==> s[i].V4? == v4 && forall k :: 0 <= k < i ==> s[k].V4? != v4
  {
    if |s| == 0 then -1
    else if s[0].V4? == v4 then 0
    else
      var j := FirstOfFamily(s[1..], v4);
      if j == -1 then -1 else j + 1
  }

  lemma {:induction false} OfFamilyHead(s: seq<IpAddress>, v4: bool)
    ensures |OfFamily(s, v4)| > 0 <==> FirstOfFamily(s, v4) >= 0
    ensures |OfFamily(s, v4)| > 0 ==> OfFamily(s, v4)[0] == s[FirstOfFamily(s, v4)]
  {
    if |s| > 0 {
      OfFamilyHead(s[1..], v4);
    }
  }

  /** The head of the family sort is the first address of the preferred family in
      input order, or, when there is none, the first address. */
  lemma FamilySortHead(s: seq<IpAddress>, preferIPv6: bool)
    requires |s| > 0
    ensures |FamilySort(s, preferIPv6)| == |s|
    ensures FamilySort(s, preferIPv6)[0] ==
      if FirstOfFamily(s, !preferIPv6) >= 0 then s[FirstOfFamily(s, !preferIPv6)] else s[0]
  {
    FamilySortPermutation(s, preferIPv6);
    assert |multiset(FamilySort(s, preferIPv6))| == |multiset(s)|;
    OfFamilyHead(s, !preferIPv6);
    if FirstOfFamily(s, !preferIPv6) < 0 {
      OfFamilyUniform(s, preferIPv6);
    }
  }

  // ---------------------------------------------------------------------------
  // Sorting by the total ordering (IPv6_FIRST_TOTAL_ORDERING_COMPARATOR)
  // ---------------------------------------------------------------------------

  ghost predicate SortedByTotalOrder(s: seq<IpAddress>)
  {
    forall i, j :: 0 <= i < j < |s| ==> TotalOrderCompare(s[i], s[j]) <= 0
  }

  /** The rest of a list in total order is in total order. */
  lemma SortedByTotalOrderTail(s: seq<IpAddress>)
    requires |s| > 0 && SortedByTotalOrder(s)
    ensures SortedByTotalOrder(s[1..])
  {
    var rest := s[1..];
    forall i, j | 0 <= i < j < |rest|
      ensures TotalOrderCompare(rest[i], rest[j]) <= 0
    {
      assert rest[i] == s[i + 1] && rest[j] == s[j + 1];
    }
  }

  /** The head of a list in total order sorts before every element of the list. */
  lemma SortedByTotalOrderHead(s: seq<IpAddress>, y: IpAddress)
    requires |s| > 0 && SortedByTotalOrder(s) && y in s
    ensures TotalOrderCompare(s[0], y) <= 0
  {
    var j :| 0 <= j < |s| && s[j] == y;
    if j == 0 {
      TotalOrderZeroIffEqual(y, y);
    }
  }

  /** An element that sorts before every element of a list in total order can lead it. */
  lemma ConsSortedByTotalOrder(x: IpAddress, t: seq<IpAddress>)
    requires SortedByTotalOrder(t)
    requires forall y :: y in t ==> TotalOrderCompare(x, y) <= 0
    ensures SortedByTotalOrder([x] + t)
  {
    var r := [x] + t;
    forall i, j | 0 <= i < j < |r|
      ensures TotalOrderCompare(r[i], r[j]) <= 0
    {
      assert r[j] == t[j - 1] && r[j] in t;
      if i > 0 {
        assert r[i] == t[i - 1];
      }
    }
  }

  /** An element not after the head of a list in total order is not after any of it. */
  lemma BeforeHeadBeforeAll(x: IpAddress, s: seq<IpAddress>)
    requires |s| > 0 && SortedByTotalOrder(s) && TotalOrderCompare(x, s[0]) <= 0
    ensures forall y :: y in s ==> TotalOrderCompare(x, y) <= 0
  {
    forall y | y in s
      ensures TotalOrderCompare(x, y) <= 0
    {
      SortedByTotalOrderHead(s, y);
      TotalOrderTransitive(x, s[0], y);
    }
  }

  /** When `a` sorts after the head of `s`, the head sorts before `a` inserted into
      the rest. */
  lemma HeadBeforeInsertion(a: IpAddress, s: seq<IpAddress>, tail: seq<IpAddress>)
    requires |s| > 0 && SortedByTotalOrder(s) && TotalOrderCompare(a, s[0]) > 0
    requires multiset(tail) == multiset(s[1..]) + multiset{a}
    ensures forall y :: y in tail ==> TotalOrderCompare(s[0], y) <= 0
  {
    forall y | y in tail
      ensures TotalOrderCompare(s[0], y) <= 0
    {
      assert y in multiset(tail);
      if y == a {
        TotalOrderAntisymmetric(a, s[0]);
      } else {
        assert y in multiset(s[1..]);
        assert y in s;
        SortedByTotalOrderHead(s, y);
      }
    }
  }

  function InsertByTotalOrder(a: IpAddress, s: seq<IpAddress>): (r: seq<IpAddress>)
    requires SortedByTotalOrder(s)
    ensures SortedByTotalOrder(r)
    ensures multiset(r) == multiset(s) + multiset{a}
    ensures |r| == |s| + 1
  {
    if |s| == 0 then [a]
    else if TotalOrderCompare(a, s[0]) <= 0 then
      BeforeHeadBeforeAll(a, s);
      ConsSortedByTotalOrder(a, s);
      [a] + s
    else
      SortedByTotalOrderTail(s);
      assert s == [s[0]] + s[1..];
      var tail := InsertByTotalOrder(a, s[1..]);
      HeadBeforeInsertion(a, s, tail);
      ConsSortedByTotalOrder(s[0], tail);
      [s[0]] + tail
  }

  /** The total-order sort (insertion sort): in order and a permutation of its input. */
  function SortByTotalOrder(s: seq<IpAddress>): (r: seq<IpAddress>)
    ensures SortedByTotalOrder(r)
    ensures multiset(r) == multiset(s)
    ensures |r| == |s|
  {
    if |s| == 0 then []
    else
      assert s == [s[0]] + s[1..];
      InsertByTotalOrder(s[0], SortByTotalOrder(s[1..]))
  }

  /** Two lists in total order with the same elements start with the same address. */
  lemma SortedByTotalOrderSameHead(a: seq<IpAddress>, b: seq<IpAddress>)
    requires |a| > 0 && SortedByTotalOrder(a) && SortedByTotalOrder(b)
    requires multiset(a) == multiset(b)
    ensures |b| > 0 && a[0] == b[0]
  {
    assert |multiset(b)| == |multiset(a)|;
    assert a[0] in multiset(b) && b[0] in multiset(a);
    assert a[0] in b && b[0] in a;
    SortedByTotalOrderHead(a, b[0]);
    SortedByTotalOrderHead(b, a[0]);
    TotalOrderAntisymmetric(a[0], b[0]);
    TotalOrderZeroIffEqual(a[0], b[0]);
  }

  /** Two lists in total order with the same elements are the same list: whatever
      algorithm sorts with the total ordering, the result is `SortByTotalOrder`. */
  lemma {:induction false} SortedByTotalOrderUnique(a: seq<IpAddress>, b: seq<IpAddress>)
    requires SortedByTotalOrder(a) && SortedByTotalOrder(b)
    requires multiset(a) == multiset(b)
    ensures a == b
  {
    if |a| == 0 {
      assert |multiset(b)| == 0;
    } else {
      SortedByTotalOrderSameHead(a, b);
      assert a == [a[0]] + a[1..] && b == [b[0]] + b[1..];
      assert multiset(a[1..]) == multiset(a) - multiset{a[0]};
      assert multiset(b[1..]) == multiset(b) - multiset{b[0]};
      SortedByTotalOrderTail(a);
      SortedByTotalOrderTail(b);
      SortedByTotalOrderUnique(a[1..], b[1..]);
    }
  }
}
