/**
  Hero configurations (backend/app/controller/experienceController.js, lines 440-527 and 588-690,
  with backend/app/utils/zoneVisibility.js and the cache-aside `getOrSet` of
  backend/app/services/cacheService.js, lines 227-249). Each page has several variants, scoped to
  zones; an empty or absent zone list means all zones.
*/
module HeroVariants {
  import opened Common

  type Id = int

  datatype Page = Home | Header(header: Id)

  /** `zones` is absent in records older than the field. */
  datatype Variant = Variant(id: nat, page: Page, zones: Option<seq<Id>>, updatedAt: int, content: int)

  function Zones(v: Variant): seq<Id> {
    if v.zones.Some? then v.zones.value else []
  }

  // ---------------------------------------------------------------- picking a variant

  /** The comparator handed to `sort`. */
  function Compare(a: Variant, b: Variant): int {
    var n, m := |Zones(a)|, |Zones(b)|;
    if n == 0 && m == 0 then b.updatedAt - a.updatedAt
    else if n == 0 then 1
    else if m == 0 then -1
    else if n != m then n - m
    else b.updatedAt - a.updatedAt
  }

  predicate IsVisible(v: Variant, customer: set<Id>) {
    Zones(v) == [] || exists k :: 0 <= k < |Zones(v)| && Zones(v)[k] in customer
  }

  /** Without a location everything is shown. */
  function Visible(vs: seq<Variant>, customer: Option<set<Id>>): seq<Variant> {
    if vs == [] then []
    else (if customer.None? || IsVisible(vs[0], customer.value) then [vs[0]] else []) + Visible(vs[1..], customer)
  }

  function Insert(v: Variant, vs: seq<Variant>): seq<Variant> {
    if vs == [] || Compare(v, vs[0]) <= 0 then [v] + vs else [vs[0]] + Insert(v, vs[1..])
  }

  /** A stable sort by the comparator. */
  function Sorted(vs: seq<Variant>): seq<Variant> {
    if vs == [] then [] else Insert(vs[0], Sorted(vs[1..]))
  }

  /** `pickBestHeroVariant`. */
  function PickBest(vs: seq<Variant>, customer: Option<set<Id>>): Option<Variant> {
    var sorted := Sorted(Visible(vs, customer));
    if sorted == [] then None else Some(sorted[0])
  }

  /** Never inconsistent with itself: swapping the arguments flips the sign. */
  lemma CompareFlips(a: Variant, b: Variant)
    ensures Compare(a, b) < 0 <==> Compare(b, a) > 0
    ensures Compare(a, b) == 0 <==> Compare(b, a) == 0
    ensures Compare(a, a) == 0
  {
  }

  lemma CompareTransitive(a: Variant, b: Variant, c: Variant)
    requires Compare(a, b) <= 0 && Compare(b, c) <= 0
    ensures Compare(a, c) <= 0
    ensures Compare(a, c) == 0 ==> Compare(a, b) == 0 && Compare(b, c) == 0
  {
  }

  predicate IsSorted(vs: seq<Variant>) {
    forall i :: 0 <= i < |vs| - 1 ==> Compare(vs[i], vs[i + 1]) <= 0
  }

  /** The first of a sorted list is minimal. */
  lemma {:induction false} HeadIsMinimal(vs: seq<Variant>, j: nat)
    requires IsSorted(vs) && j < |vs|
    ensures Compare(vs[0], vs[j]) <= 0
    decreases j
  {
    if j == 0 {
      CompareFlips(vs[0], vs[0]);
    } else {
      HeadIsMinimal(vs, j - 1);
      assert vs[j - 1 + 1] == vs[j];
      CompareTransitive(vs[0], vs[j - 1], vs[j]);
    }
  }

  lemma SortedCons(v: Variant, vs: seq<Variant>)
    requires IsSorted(vs) && (vs == [] || Compare(v, vs[0]) <= 0)
    ensures IsSorted([v] + vs)
  {
    var r := [v] + vs;
    forall i | 0 <= i < |r| - 1 ensures Compare(r[i], r[i + 1]) <= 0 {
      assert r[i + 1] == vs[i];
      assert i > 0 ==> r[i] == vs[i - 1];
    }
  }

  lemma {:induction false} InsertSorts(v: Variant, vs: seq<Variant>)
    requires IsSorted(vs)
    ensures var r := Insert(v, vs);
            && IsSorted(r) && multiset(r) == multiset(vs) + multiset{v}
            && |r| == |vs| + 1 && (r[0] == v || (vs != [] && r[0] == vs[0]))
    decreases |vs|
  {
    if vs != [] && Compare(v, vs[0]) > 0 {
      assert vs == [vs[0]] + vs[1..];
      CompareFlips(v, vs[0]);
      InsertSorts(v, vs[1..]);
      SortedCons(vs[0], Insert(v, vs[1..]));
    } else {
      SortedCons(v, vs);
    }
  }

  lemma {:induction false} SortedSorts(vs: seq<Variant>)
    ensures IsSorted(Sorted(vs)) && multiset(Sorted(vs)) == multiset(vs) && |Sorted(vs)| == |vs|
    decreases |vs|
  {
    if vs != [] {
      SortedSorts(vs[1..]);
      InsertSorts(vs[0], Sorted(vs[1..]));
      assert vs == [vs[0]] + vs[1..];
    }
  }

  lemma {:induction false} VisibleMembers(vs: seq<Variant>, customer: Option<set<Id>>, v: Variant)
    ensures v in Visible(vs, customer) <==> v in vs && (customer.None? || IsVisible(v, customer.value))
    decreases |vs|
  {
    if vs != [] {
      VisibleMembers(vs[1..], customer, v);
      assert v in vs <==> v == vs[0] || v in vs[1..];
    }
  }

  predicate Shown(vs: seq<Variant>, customer: Option<set<Id>>, v: Variant) {
    v in vs && (customer.None? || IsVisible(v, customer.value))
  }

  /**
    The variant picked is one the customer may see, scoped to the fewest zones a scoped visible
    variant has, the newest of those; only when no scoped one is visible it is the newest one for
    all zones. Nothing is picked exactly when nothing is visible.
  */
  lemma PickBestMeaning(vs: seq<Variant>, customer: Option<set<Id>>)
    ensures PickBest(vs, customer).None? <==> forall v :: v in vs ==> !Shown(vs, customer, v)
    ensures PickBest(vs, customer).Some? ==>
              var best := PickBest(vs, customer).value;
              && Shown(vs, customer, best)
              && forall v :: Shown(vs, customer, v) ==>
                   if Zones(best) == [] then Zones(v) == [] && v.updatedAt <= best.updatedAt
                   else Zones(v) == [] || |Zones(best)| < |Zones(v)|
                        || (|Zones(best)| == |Zones(v)| && v.updatedAt <= best.updatedAt)
  {
    var visible := Visible(vs, customer);
    var sorted := Sorted(visible);
    SortedSorts(visible);
    forall v ensures v in sorted <==> Shown(vs, customer, v) {
      VisibleMembers(vs, customer, v);
      assert v in sorted <==> v in multiset(sorted);
      assert v in visible <==> v in multiset(visible);
    }
    if sorted == [] {
      forall v | v in vs ensures !Shown(vs, customer, v) {
        assert v !in sorted;
      }
    } else {
      assert sorted[0] in sorted;
      forall v | Shown(vs, customer, v) ensures Compare(sorted[0], v) <= 0 {
        var j :| 0 <= j < |sorted| && sorted[j] == v;
        HeadIsMinimal(sorted, j);
      }
    }
  }

  /** Whatever sorting algorithm is used, its first element ties with the one picked. */
  lemma AnySortAgrees(vs: seq<Variant>, customer: Option<set<Id>>, other: seq<Variant>)
    requires IsSorted(other) && multiset(other) == multiset(Visible(vs, customer))
    ensures PickBest(vs, customer).None? <==> other == []
    ensures PickBest(vs, customer).Some? ==> Compare(PickBest(vs, customer).value, other[0]) == 0
  {
    var sorted := Sorted(Visible(vs, customer));
    SortedSorts(Visible(vs, customer));
    assert |multiset(other)| == |other| && |multiset(sorted)| == |sorted|;
    if sorted != [] {
      assert sorted[0] in multiset(other) && other[0] in multiset(sorted);
      var i :| 0 <= i < |other| && other[i] == sorted[0];
      var j :| 0 <= j < |sorted| && sorted[j] == other[0];
      HeadIsMinimal(other, i);
      HeadIsMinimal(sorted, j);
      CompareFlips(sorted[0], other[0]);
    }
  }

  // ---------------------------------------------------------------- the exact zone-set filter

  predicate NoDup(ids: seq<Id>) {
    forall j, k :: 0 <= j < k < |ids| ==> ids[j] != ids[k]
  }

  function ToSet(ids: seq<Id>): set<Id> {
    set k | 0 <= k < |ids| :: ids[k]
  }

  /** What Mongo matches for `exactZoneSetFilter`: `$size` of an absent field matches nothing. */
  predicate Matches(zones: Option<seq<Id>>, ids: seq<Id>) {
    if ids == [] then zones == Some([])
    else zones.Some? && |zones.value| == |ids| && forall k :: 0 <= k < |ids| ==> ids[k] in zones.value
  }

  lemma {:induction false} SetSize(ids: seq<Id>)
    ensures |ToSet(ids)| <= |ids|
    ensures |ToSet(ids)| == |ids| <==> NoDup(ids)
    decreases |ids|
  {
    if ids == [] {
      assert ToSet(ids) == {};
    } else {
      var n := |ids| - 1;
      var rest := ids[..n];
      SetSize(rest);
      assert ToSet(ids) == ToSet(rest) + {ids[n]};
      if ids[n] in ToSet(rest) {
        assert ToSet(ids) == ToSet(rest);
        assert !NoDup(ids) by {
          var k :| 0 <= k < n && rest[k] == ids[n];
          assert ids[k] == ids[n];
        }
      } else {
        assert |ToSet(ids)| == |ToSet(rest)| + 1;
        assert NoDup(rest) ==> NoDup(ids) by {
          forall k | 0 <= k < n ensures ids[k] != ids[n] {
            assert rest[k] in ToSet(rest);
          }
        }
        assert NoDup(ids) ==> NoDup(rest);
      }
    }
  }

  lemma SubsetOfSameSize(a: set<Id>, b: set<Id>)
    requires a <= b && |a| == |b|
    ensures a == b
  {
    assert |b - a| == |b| - |a|;
  }

  /** On requests without repeated ids the filter matches exactly the variants of that zone set. */
  lemma FilterIsExact(zones: seq<Id>, ids: seq<Id>)
    requires NoDup(zones) && NoDup(ids)
    ensures Matches(Some(zones), ids) <==> ToSet(zones) == ToSet(ids)
  {
    SetSize(zones);
    SetSize(ids);
    if Matches(Some(zones), ids) {
      assert ToSet(ids) <= ToSet(zones);
      SubsetOfSameSize(ToSet(ids), ToSet(zones));
    } else if ToSet(zones) == ToSet(ids) {
      forall k | 0 <= k < |ids| ensures ids[k] in zones {
        assert ids[k] in ToSet(zones);
      }
    }
  }

  function Deduped(ids: seq<Id>): seq<Id> {
    if ids == [] then []
    else if ids[0] in ids[1..] then Deduped(ids[1..])
    else [ids[0]] + Deduped(ids[1..])
  }

  lemma ToSetCons(x: Id, ids: seq<Id>)
    ensures ToSet([x] + ids) == {x} + ToSet(ids)
  {
    var all := [x] + ids;
    forall y | y in ToSet(ids) ensures y in ToSet(all) {
      var k :| 0 <= k < |ids| && ids[k] == y;
      assert all[k + 1] == y;
    }
    assert all[0] == x;
  }

  lemma {:induction false} DedupedIsSame(ids: seq<Id>)
    ensures NoDup(Deduped(ids)) && ToSet(Deduped(ids)) == ToSet(ids)
    decreases |ids|
  {
    if ids != [] {
      var rest := Deduped(ids[1..]);
      DedupedIsSame(ids[1..]);
      ToSetCons(ids[0], ids[1..]);
      assert ids == [ids[0]] + ids[1..];
      if ids[0] in ids[1..] {
        assert ids[0] in ToSet(ids[1..]);
      } else {
        assert ids[0] !in ToSet(ids[1..]);
        assert forall k :: 0 <= k < |rest| ==> rest[k] in ToSet(rest);
        ToSetCons(ids[0], rest);
      }
    }
  }

  /** The filter is exact for a request if and only if the request repeats no id; normalisation
      removes blanks but no repetitions. */
  lemma FilterExactIff(ids: seq<Id>)
    ensures (forall zones: seq<Id> :: NoDup(zones) ==> (Matches(Some(zones), ids) <==> ToSet(zones) == ToSet(ids)))
       <==> NoDup(ids)
  {
    if NoDup(ids) {
      forall zones: seq<Id> | NoDup(zones) ensures Matches(Some(zones), ids) <==> ToSet(zones) == ToSet(ids) {
        FilterIsExact(zones, ids);
      }
    } else {
      var zones := Deduped(ids);
      DedupedIsSame(ids);
      SetSize(ids);
      SetSize(zones);
      assert NoDup(zones) && ToSet(zones) == ToSet(ids) && !Matches(Some(zones), ids);
    }
  }
}
