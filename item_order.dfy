/**
 * The order in which items are serialised: `serviceDataItemCompareFn` of
 * lib/BTHome/BTHome.cpp, and what it means for a list of items to be in
 * that order.
 */
module ItemOrder {
  import opened BTHomeTypes

  /** `serviceDataItemCompareFn`: `x1` sorts strictly before `x2` when its object id is smaller. */
  predicate ComesBefore(x1: ServiceDataItem, x2: ServiceDataItem): (b: bool)
    ensures b ==> x1.dataType != x2.dataType
  {
    ObjectId(x1.dataType) < ObjectId(x2.dataType)
  }

  /**
   * The comparator is a strict weak ordering, as `std::sort` demands of it,
   * and two items are equivalent under it exactly when they have the same kind.
   */
  lemma ComesBeforeIsStrictWeakOrder(x: ServiceDataItem, y: ServiceDataItem, z: ServiceDataItem)
    ensures !ComesBefore(x, x)
    ensures ComesBefore(x, y) && ComesBefore(y, z) ==> ComesBefore(x, z)
    ensures (!ComesBefore(x, y) && !ComesBefore(y, x)) <==> x.dataType == y.dataType
  {
  }

  /** No item is preceded by one that the comparator puts after it. */
  ghost predicate SortedByObjectId(s: seq<ServiceDataItem>)
  {
    forall i, j :: 0 <= i < j < |s| ==> ObjectId(s[i].dataType) <= ObjectId(s[j].dataType)
  }

  /** Every kind occurs at most once. */
  ghost predicate DistinctKinds(s: seq<ServiceDataItem>)
  {
    forall i, j :: 0 <= i < j < |s| ==> s[i].dataType != s[j].dataType
  }

  /**
   * When no kind repeats, there is only one sorted arrangement of a given
   * collection of items: whatever order they were added in, and although
   * `std::sort` is not stable, the sorted storage is determined.
   */
  lemma {:induction false} SortedArrangementUnique(s: seq<ServiceDataItem>, t: seq<ServiceDataItem>)
    requires multiset(s) == multiset(t)
    requires SortedByObjectId(s) && SortedByObjectId(t)
    requires DistinctKinds(s)
    ensures s == t
  {
    assert |s| == |multiset(s)| == |multiset(t)| == |t|;
    if s != [] {
      SameFirst(s, t);
      SameRest(s, t);
      SortedArrangementUnique(s[1..], t[1..]);
      assert s == [s[0]] + s[1..] && t == [t[0]] + t[1..];
    }
  }

  /** Two sorted arrangements of the same distinct-kind items start with the same item. */
  lemma SameFirst(s: seq<ServiceDataItem>, t: seq<ServiceDataItem>)
    requires s != [] && t != []
    requires multiset(s) == multiset(t)
    requires SortedByObjectId(s) && SortedByObjectId(t)
    requires DistinctKinds(s)
    ensures s[0] == t[0]
  {
    var k := FirstIsSmallest(t, s[0]);
    var m := FirstIsSmallest(s, t[0]);
    ObjectIdInjective(s[0].dataType, s[m].dataType);
  }

  /** Removing equal first items from equal collections leaves equal collections. */
  lemma SameRest(s: seq<ServiceDataItem>, t: seq<ServiceDataItem>)
    requires s != [] && t != [] && s[0] == t[0]
    requires multiset(s) == multiset(t)
    ensures multiset(s[1..]) == multiset(t[1..])
  {
    assert s == [s[0]] + s[1..] && t == [t[0]] + t[1..];
    assert multiset(s[1..]) == multiset(s) - multiset{s[0]};
    assert multiset(t[1..]) == multiset(t) - multiset{t[0]};
  }

  /** An item of a sorted list has an object id no smaller than the list's first. */
  lemma FirstIsSmallest(s: seq<ServiceDataItem>, x: ServiceDataItem) returns (k: nat)
    requires SortedByObjectId(s)
    requires x in multiset(s)
    ensures k < |s| && s[k] == x
    ensures ObjectId(s[0].dataType) <= ObjectId(x.dataType)
  {
    assert x in s;
    k :| 0 <= k < |s| && s[k] == x;
    assert k == 0 || ObjectId(s[0].dataType) <= ObjectId(s[k].dataType);
  }
}
