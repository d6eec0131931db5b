/**
 * The basic Docker placement strategy: a strategy is a predicate over candidate
 * Docker hosts and a comparator ordering them best first. `FilterLocations`
 * copies the candidate list, sorts the copy with the comparator (a stable sort),
 * then keeps, in sorted order, the hosts the predicate accepts.
 */
module Placement {
  import opened Wrappers
  import opened Sequences

  /** A container already running on a Docker host: its application and its parent entity. */
  datatype Container = Container(appId: string, parentId: string)

  /** The entity being placed: its application and its parent entity. */
  datatype Entity = Entity(appId: string, parentId: string)

  /**
   * A candidate Docker host: its name, the application id of its owner (the
   * Docker host entity), and the containers it runs, in list order.
   */
  datatype Host = Host(name: string, ownerAppId: string, containers: seq<Container>)

  // ---------------------------------------------------------------------------
  // Sorting (java.util.Collections.sort: stable, in place)
  // ---------------------------------------------------------------------------

  /**
   * The part of the Comparator contract the sort relies on: if `x` sorts after
   * `y`, then `y` sorts before `x`.
   */
  ghost predicate SignConsistent<T(!new)>(compare: (T, T) -> int)
  {
    forall x, y :: compare(x, y) > 0 ==> compare(y, x) < 0
  }

  /** `x` sorts no later than `y`. */
  predicate Precedes<T>(compare: (T, T) -> int, x: T, y: T)
  {
    compare(x, y) <= 0
  }

  /** The comparator's `<=` is transitive (the rest of the Comparator contract). */
  ghost predicate Transitive<T(!new)>(compare: (T, T) -> int)
  {
    forall x, y, z :: Precedes(compare, x, y) && Precedes(compare, y, z) ==> Precedes(compare, x, z)
  }

  /** Every element is ordered no later than its successor. */
  ghost predicate Sorted<T>(s: seq<T>, compare: (T, T) -> int)
  {
    forall k :: 0 < k < |s| ==> compare(s[k - 1], s[k]) <= 0
  }

  /** Under a transitive comparator, neighbour-wise order is order between every pair. */
  lemma {:induction false} SortedPairwise<T(!new)>(s: seq<T>, compare: (T, T) -> int, i: int, j: int)
    requires Transitive(compare) && Sorted(s, compare)
    requires 0 <= i < j < |s|
    ensures compare(s[i], s[j]) <= 0
    decreases j - i
  {
    if i + 1 < j {
      SortedPairwise(s, compare, i + 1, j);
      assert Precedes(compare, s[i], s[i + 1]) && Precedes(compare, s[i + 1], s[j]);
    }
  }

  /** Dropping the last element of a sorted list leaves it sorted. */
  lemma SortedPrefix<T>(s: seq<T>, compare: (T, T) -> int)
    requires s != [] && Sorted(s, compare)
    ensures Sorted(s[..|s| - 1], compare)
  {
    var init := s[..|s| - 1];
    forall k | 0 < k < |init|
      ensures compare(init[k - 1], init[k]) <= 0
    {
      assert init[k - 1] == s[k - 1] && init[k] == s[k];
    }
  }

  /** Appending an element no better than the last one keeps a list sorted. */
  lemma SortedAppend<T>(s: seq<T>, x: T, compare: (T, T) -> int)
    requires s != [] && Sorted(s, compare) && compare(s[|s| - 1], x) <= 0
    ensures Sorted(s + [x], compare)
  {
    var t := s + [x];
    forall k | 0 < k < |t|
      ensures compare(t[k - 1], t[k]) <= 0
    {
      if k < |s| {
        assert t[k - 1] == s[k - 1] && t[k] == s[k];
      }
    }
  }

  /** Filtering a list sorted under a transitive comparator leaves it sorted. */
  lemma {:induction false} FilterKeepsOrder<T(!new)>(s: seq<T>, p: T -> bool, compare: (T, T) -> int)
    requires Transitive(compare) && Sorted(s, compare)
    ensures Sorted(Filter(s, p), compare)
  {
    if s != [] {
      var init, last := s[..|s| - 1], s[|s| - 1];
      SortedPrefix(s, compare);
      FilterKeepsOrder(init, p, compare);
      var kept := Filter(init, p);
      if p(last) && kept != [] {
        var x := kept[|kept| - 1];
        FilterMembership(init, p, x);
        var i :| 0 <= i < |init| && init[i] == x;
        SortedPairwise(s, compare, i, |s| - 1);
        SortedAppend(kept, last, compare);
      }
    }
  }

  /** Exchanges two neighbouring elements, leaving the rest of the array alone. */
  method SwapDown<T>(a: array<T>, j: int)
    requires 0 < j < a.Length
    modifies a
    ensures a[..] == Swapped(old(a[..]), j)
  {
    a[j - 1], a[j] := a[j], a[j - 1];
  }

  /** Neighbours are in order everywhere in `s[..i + 1]`, except possibly at the pair ending at `j`. */
  ghost predicate SortedUpToExcept<T>(s: seq<T>, i: int, j: int, compare: (T, T) -> int)
    requires i < |s|
  {
    forall k :: 0 < k <= i && k != j ==> compare(s[k - 1], s[k]) <= 0
  }

  /** Swapping the out-of-order pair at `j` moves the one possible gap in the order down to `j - 1`. */
  lemma SwapStep<T(!new)>(before: seq<T>, after: seq<T>, i: int, j: int, compare: (T, T) -> int)
    requires SignConsistent(compare)
    requires 0 < j <= i < |before| == |after|
    requires SortedUpToExcept(before, i, j, compare)
    requires j < i ==> compare(before[j - 1], before[j + 1]) <= 0
    requires compare(before[j - 1], before[j]) > 0
    requires after[j - 1] == before[j] && after[j] == before[j - 1]
    requires forall k :: 0 <= k < |before| && k != j - 1 && k != j ==> after[k] == before[k]
    ensures SortedUpToExcept(after, i, j - 1, compare)
    ensures 0 < j - 1 < i ==> compare(after[j - 2], after[j]) <= 0
  {
    forall k | 0 < k <= i && k != j - 1
      ensures compare(after[k - 1], after[k]) <= 0
    {
      if k == j + 1 {
        assert after[k - 1] == before[j - 1] && after[k] == before[j + 1];
      } else if k != j {
        assert after[k - 1] == before[k - 1] && after[k] == before[k];
      }
    }
    if 0 < j - 1 {
      assert compare(before[j - 2], before[j - 1]) <= 0;
    }
  }

  /** Once the pair at `j` is in order too, all of `s[..i + 1]` is sorted. */
  lemma SortedUpToClosed<T>(s: seq<T>, i: int, j: int, compare: (T, T) -> int)
    requires 0 <= j <= i < |s|
    requires SortedUpToExcept(s, i, j, compare)
    requires 0 < j ==> compare(s[j - 1], s[j]) <= 0
    ensures forall k :: 0 < k <= i ==> compare(s[k - 1], s[k]) <= 0
  {
  }

  /** The elements tied with `y`: neither sorts after the other. */
  function Tied<T>(compare: (T, T) -> int, y: T): T -> bool
  {
    x => compare(x, y) <= 0 && compare(y, x) <= 0
  }

  /**
   * `t` lists every group of tied elements in the order `s` does: what
   * `Collections.sort` means by stable ("equal elements will not be reordered").
   */
  ghost predicate StableFor<T(!new)>(s: seq<T>, t: seq<T>, compare: (T, T) -> int)
  {
    forall y :: Filter(s, Tied(compare, y)) == Filter(t, Tied(compare, y))
  }

  /** Exchanging two neighbours that are not both accepted leaves the filtered list as it is. */
  lemma FilterPairSwap<T>(x: T, y: T, p: T -> bool)
    requires !(p(x) && p(y))
    ensures Filter([x, y], p) == Filter([y, x], p)
  {
    assert [x, y][..1] == [x] && [y, x][..1] == [y];
    assert [x][..0] == [] && [y][..0] == [];
  }

  /**
   * Under a transitive comparator the two neighbours `SwapDown` exchanges, which
   * are out of order, are never tied with the same element, so the swap keeps
   * every group of tied elements in order.
   */
  lemma SwapKeepsTies<T(!new)>(before: seq<T>, after: seq<T>, j: int, compare: (T, T) -> int)
    requires Transitive(compare)
    requires 0 < j < |before| == |after|
    requires compare(before[j - 1], before[j]) > 0
    requires after[j - 1] == before[j] && after[j] == before[j - 1]
    requires forall k :: 0 <= k < |before| && k != j - 1 && k != j ==> after[k] == before[k]
    ensures StableFor(before, after, compare)
  {
    var head, x, y, tail := before[..j - 1], before[j - 1], before[j], before[j + 1..];
    assert before == head + [x, y] + tail;
    assert after == head + [y, x] + tail;
    forall z
      ensures Filter(before, Tied(compare, z)) == Filter(after, Tied(compare, z))
    {
      var p := Tied(compare, z);
      assert Precedes(compare, x, z) && Precedes(compare, z, y) ==> Precedes(compare, x, y);
      assert !(p(x) && p(y));
      FilterPairSwap(x, y, p);
      FilterAppend(head + [x, y], tail, p);
      FilterAppend(head, [x, y], p);
      FilterAppend(head + [y, x], tail, p);
      FilterAppend(head, [y, x], p);
    }
  }

  /** `s` with the neighbours at `j - 1` and `j` exchanged. */
  function Swapped<T>(s: seq<T>, j: int): (r: seq<T>)
    requires 0 < j < |s|
    ensures |r| == |s| && r[j - 1] == s[j] && r[j] == s[j - 1]
    ensures forall k :: 0 <= k < |s| && k != j - 1 && k != j ==> r[k] == s[k]
  {
    s[j - 1 := s[j]][j := s[j - 1]]
  }

  /** `s[j]` moved down past every neighbour that sorts strictly after it: what `InsertDown` computes. */
  function Sink<T>(s: seq<T>, j: int, compare: (T, T) -> int): (r: seq<T>)
    requires 0 <= j < |s|
    ensures |r| == |s|
    decreases j
  {
    if j > 0 && compare(s[j - 1], s[j]) > 0 then Sink(Swapped(s, j), j - 1, compare) else s
  }

  /** Sinking an element keeps every group of tied elements in order. */
  lemma {:induction false} SinkKeepsTies<T(!new)>(s: seq<T>, j: int, compare: (T, T) -> int)
    requires Transitive(compare)
    requires 0 <= j < |s|
    ensures StableFor(s, Sink(s, j, compare), compare)
    decreases j
  {
    if j > 0 && compare(s[j - 1], s[j]) > 0 {
      SwapKeepsTies(s, Swapped(s, j), j, compare);
      SinkKeepsTies(Swapped(s, j), j - 1, compare);
    }
  }

  /** Sinking `s[j]` into a prefix sorted but for the pair at `j` sorts the whole prefix `s[..i + 1]`. */
  lemma {:induction false} SinkSorts<T(!new)>(s: seq<T>, i: int, j: int, compare: (T, T) -> int)
    requires SignConsistent(compare)
    requires 0 <= j <= i < |s|
    requires SortedUpToExcept(s, i, j, compare)
    requires 0 < j < i ==> compare(s[j - 1], s[j + 1]) <= 0
    ensures forall k :: 0 < k <= i ==> compare(Sink(s, j, compare)[k - 1], Sink(s, j, compare)[k]) <= 0
    decreases j
  {
    if j > 0 && compare(s[j - 1], s[j]) > 0 {
      SwapStep(s, Swapped(s, j), i, j, compare);
      SinkSorts(Swapped(s, j), i, j - 1, compare);
    } else {
      SortedUpToClosed(s, i, j, compare);
    }
  }

  /** Exchanging two neighbours is a permutation. */
  lemma SwappedPermutes<T>(s: seq<T>, j: int)
    requires 0 < j < |s|
    ensures multiset(Swapped(s, j)) == multiset(s)
  {
    var head, x, y, tail := s[..j - 1], s[j - 1], s[j], s[j + 1..];
    assert s == head + [x, y] + tail;
    assert Swapped(s, j) == head + [y, x] + tail;
    assert multiset([x, y]) == multiset([y, x]);
  }

  /** Sinking `s[j]` rearranges `s[..j + 1]` only: it is a permutation and leaves the rest alone. */
  lemma {:induction false} SinkPermutes<T>(s: seq<T>, j: int, compare: (T, T) -> int)
    requires 0 <= j < |s|
    ensures multiset(Sink(s, j, compare)) == multiset(s)
    ensures forall k :: j < k < |s| ==> Sink(s, j, compare)[k] == s[k]
    decreases j
  {
    if j > 0 && compare(s[j - 1], s[j]) > 0 {
      SinkPermutes(Swapped(s, j), j - 1, compare);
      SwappedPermutes(s, j);
    }
  }

  /** Swaps `a[j]` down while its left neighbour sorts strictly after it: computes `Sink` in place. */
  method SinkDown<T>(a: array<T>, i: int, compare: (T, T) -> int)
    requires 0 <= i < a.Length
    modifies a
    ensures a[..] == Sink(old(a[..]), i, compare)
  {
    var j := i;
    while j > 0 && compare(a[j - 1], a[j]) > 0
      invariant 0 <= j <= i
      invariant Sink(a[..], j, compare) == Sink(old(a[..]), i, compare)
      decreases j
    {
      SwapDown(a, j);
      j := j - 1;
    }
  }

  /**
   * Moves `a[i]` down past every element of the sorted prefix `a[..i]` that
   * sorts strictly after it, so that `a[..i + 1]` is sorted; equal elements are
   * never passed, which keeps the sort stable.
   */
  method InsertDown<T(!new)>(a: array<T>, i: int, compare: (T, T) -> int)
    requires SignConsistent(compare)
    requires 0 < i < a.Length
    requires forall k :: 0 < k < i ==> compare(a[k - 1], a[k]) <= 0
    modifies a
    ensures forall k :: 0 < k <= i ==> compare(a[k - 1], a[k]) <= 0
    ensures forall k :: i < k < a.Length ==> a[k] == old(a[k])
    ensures multiset(a[..]) == multiset(old(a[..]))
    ensures compare(old(a[i - 1]), old(a[i])) <= 0 ==> a[..] == old(a[..])
    ensures a[..] == Sink(old(a[..]), i, compare)
    ensures Transitive(compare) ==> StableFor(old(a[..]), a[..], compare)
  {
    ghost var orig := a[..];
    SinkDown(a, i, compare);
    SinkSorts(orig, i, i, compare);
    SinkPermutes(orig, i, compare);
    if Transitive(compare) {
      SinkKeepsTies(orig, i, compare);
    }
  }

  /**
   * Stable in-place sort: the array ends up sorted and a permutation of what it
   * held, and an array that is already sorted (in particular any array under a
   * comparator that calls everything equal) is left exactly as it was.
   */
  method SortInPlace<T(!new)>(a: array<T>, compare: (T, T) -> int)
    requires SignConsistent(compare)
    modifies a
    ensures Sorted(a[..], compare)
    ensures multiset(a[..]) == multiset(old(a[..]))
    ensures Sorted(old(a[..]), compare) ==> a[..] == old(a[..])
    ensures Transitive(compare) ==> StableFor(old(a[..]), a[..], compare)
  {
    if a.Length == 0 {
      return;
    }
    var i := 1;
    while i < a.Length
      invariant 1 <= i <= a.Length
      invariant forall k :: 0 < k < i ==> compare(a[k - 1], a[k]) <= 0
      invariant multiset(a[..]) == multiset(old(a[..]))
      invariant Sorted(old(a[..]), compare) ==> a[..] == old(a[..])
      invariant Transitive(compare) ==> StableFor(old(a[..]), a[..], compare)
    {
      ghost var before := a[..];
      assert Sorted(old(a[..]), compare) ==> compare(before[i - 1], before[i]) <= 0;
      InsertDown(a, i, compare);
      i := i + 1;
    }
    assert Sorted(a[..], compare);
  }

  /** A fresh array holding `locations` sorted by `compare` (the copy `filterLocations` sorts). */
  method SortedCopy<T(!new)>(locations: seq<T>, compare: (T, T) -> int) returns (available: array<T>)
    requires SignConsistent(compare)
    ensures fresh(available)
    ensures multiset(available[..]) == multiset(locations) && Sorted(available[..], compare)
    ensures Sorted(locations, compare) ==> available[..] == locations
    ensures Transitive(compare) ==> StableFor(locations, available[..], compare)
  {
    available := new T[|locations|](i requires 0 <= i < |locations| => locations[i]);
    assert available[..] == locations;
    SortInPlace(available, compare);
  }

  /** The elements of `a` that `p` accepts, in array order (`Iterables.filter` over the sorted copy). */
  method FilterArray<T>(a: array<T>, p: T -> bool) returns (r: seq<T>)
    ensures r == Filter(a[..], p)
  {
    r := [];
    var i := 0;
    while i < a.Length
      invariant 0 <= i <= a.Length
      invariant r == Filter(a[..i], p)
    {
      FilterStep(a[..], p, i);
      assert a[..i + 1] == a[..][..i + 1] && a[..i] == a[..][..i];
      if p(a[i]) {
        r := r + [a[i]];
      }
      i := i + 1;
    }
    assert a[..i] == a[..];
  }

  // ---------------------------------------------------------------------------
  // The strategy
  // ---------------------------------------------------------------------------

  /** The strategy's predicate with the context entity fixed. */
  function AcceptedBy(apply: (Option<Entity>, Host) -> bool, context: Option<Entity>): Host -> bool
  {
    h => apply(context, h)
  }

  /**
   * A placement strategy. `apply` and `compare` are the predicate and the
   * comparator a concrete strategy supplies; the defaults accept every host and
   * call all hosts equal. `entity` is the entity currently being placed, which
   * `apply` may consult.
   */
  class BasicDockerPlacementStrategy {
    var entity: Option<Entity>
    const apply: (Option<Entity>, Host) -> bool
    const compare: (Host, Host) -> int

    /** `compare` keeps the Comparator contract: sign-consistent and transitive. */
    ghost predicate Valid()
    {
      SignConsistent(compare) && Transitive(compare)
    }

    /** A strategy with the given predicate and comparator. */
    constructor (apply: (Option<Entity>, Host) -> bool, compare: (Host, Host) -> int)
      requires SignConsistent(compare) && Transitive(compare)
      ensures Valid() && entity == None
      ensures this.apply == apply && this.compare == compare
    {
      this.entity := None;
      this.apply := apply;
      this.compare := compare;
    }

    /** The default strategy: every host is acceptable and no host is preferred. */
    constructor Default()
      ensures Valid() && entity == None
      ensures forall e, h :: apply(e, h)
      ensures forall x, y :: compare(x, y) == 0
    {
      this.entity := None;
      this.apply := (e, h) => true;
      this.compare := (x, y) => 0;
    }

    /**
     * The candidate hosts, ordered by `compare` and filtered by `apply`. An
     * empty candidate list yields an empty result without touching `entity`;
     * otherwise `entity` is set to the context before any host is tested.
     * `sorted` is the sorted copy the filter runs over; the caller's list is
     * a value and is not changed.
     */
    method FilterLocations(locations: seq<Host>, context: Option<Entity>) returns (r: seq<Host>, ghost sorted: seq<Host>)
      requires Valid()
      modifies this`entity
      ensures |locations| == 0 ==> r == [] && entity == old(entity)
      ensures |locations| > 0 ==> entity == context
      ensures multiset(sorted) == multiset(locations) && Sorted(sorted, compare)
      ensures Sorted(locations, compare) ==> sorted == locations
      ensures StableFor(locations, sorted, compare)
      ensures r == Filter(sorted, AcceptedBy(apply, context))
      ensures Sorted(r, compare)
      ensures (forall h :: h in locations ==> apply(context, h)) && Sorted(locations, compare) ==> r == locations
    {
      if |locations| == 0 {
        return [], [];
      }
      entity := context;
      var available := SortedCopy(locations, compare);
      sorted := available[..];
      r := FilterArray(available, AcceptedBy(apply, entity));
      FilterKeepsOrder(sorted, AcceptedBy(apply, context), compare);
      if (forall h :: h in locations ==> apply(context, h)) && Sorted(locations, compare) {
        FilterAcceptingAll(sorted, AcceptedBy(apply, context));
      }
    }
  }
}
