/** The sort stage of `applyFilters` (src/App.js:67-73): three comparators
    and a stable sort. `Array.prototype.sort` is required to be stable, so the
    model sorts by insertion, which is stable, and shows that every stable
    sort by the same comparator gives the same result. */
module Sorting {
  import opened Wrappers
  import opened Photographers

  /** The three orders the "Sort By" select offers. */
  datatype SortKey = PriceLowHigh | RatingHighLow | Recent

  /** The sort option string to the order it selects; any other string,
      the empty default included, selects none. */
  function KeyOf(option: string): (r: Option<SortKey>)
    ensures r == Some(PriceLowHigh) <==> option == "priceLowHigh"
    ensures r == Some(RatingHighLow) <==> option == "ratingHighLow"
    ensures r == Some(Recent) <==> option == "recent"
  {
    if option == "priceLowHigh" then Some(PriceLowHigh)
    else if option == "ratingHighLow" then Some(RatingHighLow)
    else if option == "recent" then Some(Recent)
    else None
  }

  /** The comparator passed to `sort`: negative when `a` goes first,
      positive when `b` does, zero for a tie. */
  function Compare(a: Photographer, b: Photographer, k: SortKey): (r: int)
    ensures r == Key(a, k) - Key(b, k)
  {
    match k
    case PriceLowHigh => a.price - b.price
    case RatingHighLow => b.rating - a.rating
    case Recent => b.id - a.id
  }

  /** The number each comparator orders by, smallest first: the price, the
      rating negated, the id negated. */
  function Key(p: Photographer, k: SortKey): int {
    match k
    case PriceLowHigh => p.price
    case RatingHighLow => -p.rating
    case Recent => -p.id
  }

  /** No element compares greater than one after it. */
  predicate SortedBy(s: seq<Photographer>, k: SortKey) {
    forall i, j :: 0 <= i < j < |s| ==> Compare(s[i], s[j], k) <= 0
  }

  /** The elements whose key is `v`, in their order in `s`: one group of ties. */
  function WithKey(s: seq<Photographer>, k: SortKey, v: int): seq<Photographer> {
    if s == [] then []
    else (if Key(s[0], k) == v then [s[0]] else []) + WithKey(s[1..], k, v)
  }

  /** A group of ties holds exactly the elements with that key. */
  lemma {:induction false} WithKeyMembers(s: seq<Photographer>, k: SortKey, v: int, p: Photographer)
    ensures p in WithKey(s, k, v) <==> p in s && Key(p, k) == v
  {
    if s != [] {
      assert s == [s[0]] + s[1..];
      WithKeyMembers(s[1..], k, v, p);
    }
  }

  /** Ties are grouped per concatenated part. */
  lemma {:induction false} WithKeyConcat(a: seq<Photographer>, b: seq<Photographer>, k: SortKey, v: int)
    ensures WithKey(a + b, k, v) == WithKey(a, k, v) + WithKey(b, k, v)
  {
    if a == [] {
      assert a + b == b;
    } else {
      assert (a + b)[0] == a[0] && (a + b)[1..] == a[1..] + b;
      WithKeyConcat(a[1..], b, k, v);
    }
  }

  /** Inserts `x` into `s` after every element that does not compare greater
      than it: the step of a stable insertion sort. */
  function Insert(s: seq<Photographer>, x: Photographer, k: SortKey): (r: seq<Photographer>)
    ensures |r| == |s| + 1
  {
    if s == [] || Compare(s[|s| - 1], x, k) <= 0 then s + [x]
    else Insert(s[..|s| - 1], x, k) + [s[|s| - 1]]
  }

  /** `Insert` adds `x` and nothing else. */
  lemma {:induction false} InsertPermutes(s: seq<Photographer>, x: Photographer, k: SortKey)
    ensures multiset(Insert(s, x, k)) == multiset(s) + multiset{x}
  {
    if s != [] && Compare(s[|s| - 1], x, k) > 0 {
      assert s == s[..|s| - 1] + [s[|s| - 1]];
      InsertPermutes(s[..|s| - 1], x, k);
    }
  }

  /** `Insert` places `x` right after the last element that does not compare
      greater than it, when all elements from there on do. */
  lemma {:induction false} InsertAfter(t: seq<Photographer>, j: nat, x: Photographer, k: SortKey)
    requires j <= |t| && (j == 0 || Compare(t[j - 1], x, k) <= 0)
    requires forall m :: j <= m < |t| ==> Compare(t[m], x, k) > 0
    ensures Insert(t, x, k) == t[..j] + [x] + t[j..]
  {
    if j < |t| {
      var init := t[..|t| - 1];
      InsertAfter(init, j, x, k);
      assert init[..j] == t[..j] && init[j..] + [t[|t| - 1]] == t[j..];
    }
  }

  /** Appending an element that no element compares greater than keeps a
      sequence sorted. */
  lemma AppendSorted(r: seq<Photographer>, y: Photographer, k: SortKey)
    requires SortedBy(r, k)
    requires forall z :: z in r ==> Compare(z, y, k) <= 0
    ensures SortedBy(r + [y], k)
  {
    forall i, j | 0 <= i < j < |r + [y]|
      ensures Compare((r + [y])[i], (r + [y])[j], k) <= 0
    {
      if j == |r| {
        assert (r + [y])[i] in r;
      }
    }
  }

  /** In a sorted sequence no element compares greater than the last. */
  lemma SortedLastBound(init: seq<Photographer>, last: Photographer, k: SortKey)
    requires SortedBy(init + [last], k)
    ensures forall z :: z in init ==> Compare(z, last, k) <= 0
  {
    forall z | z in init ensures Compare(z, last, k) <= 0 {
      var i :| 0 <= i < |init| && init[i] == z;
      assert (init + [last])[i] == z && (init + [last])[|init|] == last;
    }
  }

  /** The elements of `Insert(s, x)` are those of `s` and `x`. */
  lemma InsertMembers(s: seq<Photographer>, x: Photographer, k: SortKey)
    ensures forall z :: z in Insert(s, x, k) <==> z in s || z == x
  {
    InsertPermutes(s, x, k);
    forall z ensures z in Insert(s, x, k) <==> z in s || z == x {
      assert z in Insert(s, x, k) <==> z in multiset(Insert(s, x, k));
      assert z in s <==> z in multiset(s);
    }
  }

  /** Inserting into a sorted sequence keeps it sorted. */
  lemma {:induction false} InsertSorted(s: seq<Photographer>, x: Photographer, k: SortKey)
    requires SortedBy(s, k)
    ensures SortedBy(Insert(s, x, k), k)
  {
    if s != [] {
      var init, last := s[..|s| - 1], s[|s| - 1];
      assert s == init + [last];
      SortedLastBound(init, last, k);
      if Compare(last, x, k) <= 0 {
        AppendSorted(s, x, k);
      } else {
        InsertSorted(init, x, k);
        InsertMembers(init, x, k);
        AppendSorted(Insert(init, x, k), last, k);
      }
    }
  }

  /** Inserting `x` appends it to its own group of ties and leaves every other
      group as it was. */
  lemma {:induction false} InsertWithKey(s: seq<Photographer>, x: Photographer, k: SortKey, v: int)
    ensures WithKey(Insert(s, x, k), k, v) ==
      WithKey(s, k, v) + (if Key(x, k) == v then [x] else [])
  {
    var gx := if Key(x, k) == v then [x] else [];
    assert WithKey([x], k, v) == gx;
    if s == [] || Compare(s[|s| - 1], x, k) <= 0 {
      WithKeyConcat(s, [x], k, v);
    } else {
      var init, last := s[..|s| - 1], s[|s| - 1];
      assert s == init + [last];
      var r := Insert(init, x, k);
      assert Insert(s, x, k) == r + [last];
      InsertWithKey(init, x, k, v);
      WithKeyConcat(r, [last], k, v);
      WithKeyConcat(init, [last], k, v);
      var gl := WithKey([last], k, v);
      assert gl == if Key(last, k) == v then [last] else [];
      assert gx == [] || gl == [];
      assert WithKey(init, k, v) + gx + gl == WithKey(init, k, v) + gl + gx;
    }
  }

  /** Stable insertion sort: inserts the elements one by one, from the first. */
  function StableSort(s: seq<Photographer>, k: SortKey): (r: seq<Photographer>)
    ensures |r| == |s|
  {
    if s == [] then [] else Insert(StableSort(s[..|s| - 1], k), s[|s| - 1], k)
  }

  /** `StableSort` returns a permutation of its input. */
  lemma {:induction false} StableSortPermutes(s: seq<Photographer>, k: SortKey)
    ensures multiset(StableSort(s, k)) == multiset(s)
  {
    if s != [] {
      var init, last := s[..|s| - 1], s[|s| - 1];
      assert s == init + [last];
      StableSortPermutes(init, k);
      InsertPermutes(StableSort(init, k), last, k);
    }
  }

  /** `StableSort` returns a sorted sequence. */
  lemma {:induction false} StableSortSorted(s: seq<Photographer>, k: SortKey)
    ensures SortedBy(StableSort(s, k), k)
  {
    if s != [] {
      StableSortSorted(s[..|s| - 1], k);
      InsertSorted(StableSort(s[..|s| - 1], k), s[|s| - 1], k);
    }
  }

  /** `StableSort` keeps every group of ties in its input order. */
  lemma {:induction false} StableSortStable(s: seq<Photographer>, k: SortKey, v: int)
    ensures WithKey(StableSort(s, k), k, v) == WithKey(s, k, v)
  {
    if s != [] {
      var init, last := s[..|s| - 1], s[|s| - 1];
      assert s == init + [last];
      StableSortStable(init, k, v);
      InsertWithKey(StableSort(init, k), last, k, v);
      WithKeyConcat(init, [last], k, v);
      assert WithKey([last], k, v) == if Key(last, k) == v then [last] else [];
    }
  }

  /** In a sorted sequence that shares its groups of ties with `b`, the first
      key is at most the key of `b`'s first element. */
  lemma FirstKeyAtMost(a: seq<Photographer>, b: seq<Photographer>, k: SortKey)
    requires SortedBy(a, k) && a != [] && b != []
    requires WithKey(a, k, Key(b[0], k)) == WithKey(b, k, Key(b[0], k))
    ensures Key(a[0], k) <= Key(b[0], k)
  {
    WithKeyMembers(b, k, Key(b[0], k), b[0]);
    WithKeyMembers(a, k, Key(b[0], k), b[0]);
    var i :| 0 <= i < |a| && a[i] == b[0];
    assert i == 0 || Compare(a[0], a[i], k) <= 0;
  }

  /** The first elements of two sorted arrangements with the same groups of
      ties are equal. */
  lemma SortedTiesSameHead(a: seq<Photographer>, b: seq<Photographer>, k: SortKey)
    requires SortedBy(a, k) && SortedBy(b, k) && a != [] && b != []
    requires forall v :: WithKey(a, k, v) == WithKey(b, k, v)
    ensures a[0] == b[0]
  {
    FirstKeyAtMost(a, b, k);
    FirstKeyAtMost(b, a, k);
    var v := Key(a[0], k);
    assert WithKey(a, k, v) == WithKey(b, k, v);
    assert WithKey(a, k, v)[0] == a[0];
    assert WithKey(b, k, v)[0] == b[0];
  }

  /** Removing one equal first element from both leaves the same groups of ties. */
  lemma SameTiesTail(a: seq<Photographer>, b: seq<Photographer>, k: SortKey, v: int)
    requires a != [] && b != [] && a[0] == b[0]
    requires WithKey(a, k, v) == WithKey(b, k, v)
    ensures WithKey(a[1..], k, v) == WithKey(b[1..], k, v)
  {
    if Key(a[0], k) == v {
      assert WithKey(a[1..], k, v) == WithKey(a, k, v)[1..];
      assert WithKey(b[1..], k, v) == WithKey(b, k, v)[1..];
    } else {
      assert WithKey(a[1..], k, v) == WithKey(a, k, v);
      assert WithKey(b[1..], k, v) == WithKey(b, k, v);
    }
  }

  /** Two sorted arrangements with the same groups of ties, each in the same
      order, are equal. */
  lemma {:induction false} SortedTiesDetermine(a: seq<Photographer>, b: seq<Photographer>, k: SortKey)
    requires SortedBy(a, k) && SortedBy(b, k)
    requires forall v :: WithKey(a, k, v) == WithKey(b, k, v)
    ensures a == b
  {
    if a != [] {
      WithKeyMembers(a, k, Key(a[0], k), a[0]);
      WithKeyMembers(b, k, Key(a[0], k), a[0]);
    }
    if b != [] {
      WithKeyMembers(b, k, Key(b[0], k), b[0]);
      WithKeyMembers(a, k, Key(b[0], k), b[0]);
    }
    if a != [] && b != [] {
      SortedTiesSameHead(a, b, k);
      forall v ensures WithKey(a[1..], k, v) == WithKey(b[1..], k, v) {
        SameTiesTail(a, b, k, v);
      }
      SortedTiesDetermine(a[1..], b[1..], k);
      assert a == [a[0]] + a[1..] && b == [b[0]] + b[1..];
    }
  }

  /** Any stable sort agrees with `StableSort`: a sorted arrangement of `s`
      that keeps each group of ties in its order in `s` is `StableSort(s)`. */
  lemma StableSortIsUnique(s: seq<Photographer>, r: seq<Photographer>, k: SortKey)
    requires SortedBy(r, k)
    requires forall v :: WithKey(r, k, v) == WithKey(s, k, v)
    ensures r == StableSort(s, k)
  {
    StableSortSorted(s, k);
    forall v ensures WithKey(r, k, v) == WithKey(StableSort(s, k), k, v) {
      StableSortStable(s, k, v);
    }
    SortedTiesDetermine(r, StableSort(s, k), k);
  }

  /** One pass of insertion sort: `a[i]` moves left past every element of the
      sorted prefix `a[..i]` that compares greater than it. */
  method InsertAt(a: array<Photographer>, i: nat, k: SortKey)
    requires i < a.Length
    modifies a
    ensures a[..i + 1] == Insert(old(a[..i]), old(a[i]), k)
    ensures a[i + 1..] == old(a[i + 1..])
  {
    var x := a[i];
    ghost var t := a[..i];
    var j := i;
    while j > 0 && Compare(a[j - 1], x, k) > 0
      invariant 0 <= j <= i
      invariant forall m :: 0 <= m < j ==> a[m] == t[m]
      invariant forall m :: j < m <= i ==> a[m] == t[m - 1]
      invariant forall m :: i < m < a.Length ==> a[m] == old(a[m])
      invariant forall m :: j <= m < i ==> Compare(t[m], x, k) > 0
    {
      a[j] := a[j - 1];
      j := j - 1;
    }
    a[j] := x;
    InsertAfter(t, j, x, k);
    Shifted(a[..i + 1], t, j, x);
  }

  /** Sorting one more element of `s` inserts it into the sorted prefix. */
  lemma StableSortPrefix(s: seq<Photographer>, i: nat, k: SortKey)
    requires i < |s|
    ensures StableSort(s[..i + 1], k) == Insert(StableSort(s[..i], k), s[i], k)
  {
    assert s[..i + 1][..i] == s[..i];
  }

  /** A sequence that agrees with `t` before `j`, holds `x` at `j` and agrees
      with `t` shifted one place after `j` is `t` with `x` put in at `j`. */
  lemma Shifted(r: seq<Photographer>, t: seq<Photographer>, j: nat, x: Photographer)
    requires |r| == |t| + 1 && j <= |t| && r[j] == x
    requires forall m :: 0 <= m < j ==> r[m] == t[m]
    requires forall m :: j < m < |r| ==> r[m] == t[m - 1]
    ensures r == t[..j] + [x] + t[j..]
  {
  }

  /** `result.sort(comparator)`: sorts the array in place by insertion. */
  method SortInPlace(a: array<Photographer>, k: SortKey)
    modifies a
    ensures a[..] == StableSort(old(a[..]), k)
  {
    ghost var s := a[..];
    var i := 0;
    while i < a.Length
      invariant 0 <= i <= a.Length
      invariant a[..i] == StableSort(s[..i], k)
      invariant forall m :: i <= m < a.Length ==> a[m] == s[m]
    {
      InsertAt(a, i, k);
      StableSortPrefix(s, i, k);
      i := i + 1;
    }
    assert s[..a.Length] == s;
  }
}
