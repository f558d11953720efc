/** The `App` component's pipeline (src/App.js:4-85, 146, 171, 198-210):
    the filter chain and sort of `applyFilters`, the style toggle, the city
    list, and the "Load More" window over the result. */
module Directory {
  import opened Wrappers
  import opened Sequences
  import opened Photographers
  import opened Sorting
  import opened Styles

  /** How many results are shown after every change of the criteria. */
  const InitialVisible := 3

  /** The sort stage as a value: the filtered list sorted by the selected
      order, or left as it is when no order is selected. */
  function Arranged(s: seq<Photographer>, option: string): (r: seq<Photographer>)
    ensures multiset(r) == multiset(s)
    ensures KeyOf(option).None? ==> r == s
    ensures KeyOf(option).Some? ==> SortedBy(r, KeyOf(option).value)
    ensures KeyOf(option).Some? ==>
      forall v :: WithKey(r, KeyOf(option).value, v) == WithKey(s, KeyOf(option).value, v)
  {
    match KeyOf(option)
    case None => s
    case Some(k) =>
      StableSortPermutes(s, k);
      StableSortSorted(s, k);
      forall v ensures WithKey(StableSort(s, k), k, v) == WithKey(s, k, v) {
        StableSortStable(s, k, v);
      }
      StableSort(s, k)
  }

  /** What `applyFilters` stores in `filtered`: the selected photographers,
      rearranged only by the selected order. */
  function View(ps: seq<Photographer>, c: Criteria): (r: seq<Photographer>)
    ensures multiset(r) == multiset(Selected(ps, c))
    ensures KeyOf(c.sortOption).None? ==> r == Selected(ps, c)
    ensures KeyOf(c.sortOption).Some? ==> SortedBy(r, KeyOf(c.sortOption).value)
  {
    Arranged(Selected(ps, c), c.sortOption)
  }

  /** The filter chain of `applyFilters` (src/App.js:42-65): starts from a
      copy of the list and narrows it with one `filter` per active criterion. */
  method FilterChain(ps: seq<Photographer>, c: Criteria) returns (result: seq<Photographer>)
    ensures result == Selected(ps, c)
  {
    result := ps;
    result := Filter(result, SearchStage(c.searchTerm));
    ghost var kept := SearchStage(c.searchTerm);
    if c.minRating.Some? {
      FilterFuse(ps, kept, RatingStage(c.minRating.value));
      result := Filter(result, RatingStage(c.minRating.value));
      kept := Both(kept, RatingStage(c.minRating.value));
    }
    if |c.styles| > 0 {
      FilterFuse(ps, kept, StylesStage(c.styles));
      result := Filter(result, StylesStage(c.styles));
      kept := Both(kept, StylesStage(c.styles));
    }
    if c.city != "" {
      FilterFuse(ps, kept, CityStage(c.city));
      result := Filter(result, CityStage(c.city));
      kept := Both(kept, CityStage(c.city));
    }
    FilterFuse(ps, kept, PriceStage(c.priceMin, c.priceMax));
    result := Filter(result, PriceStage(c.priceMin, c.priceMax));
    kept := Both(kept, PriceStage(c.priceMin, c.priceMax));
    FilterExt(ps, kept, Keep(c));
  }

  /** The sort of `applyFilters` (src/App.js:67-73): the filtered list is a
      fresh array, sorted in place when an order is selected. */
  method Arrange(s: seq<Photographer>, option: string) returns (r: seq<Photographer>)
    ensures r == Arranged(s, option)
  {
    r := s;
    var key := KeyOf(option);
    if key.Some? {
      var a := new Photographer[|s|](i requires 0 <= i < |s| => s[i]);
      assert a[..] == s;
      SortInPlace(a, key.value);
      r := a[..];
    }
  }

  /** A photographer appears in the view exactly when it is in the list and
      passes every active filter, as often as in the list. */
  lemma ViewCounts(ps: seq<Photographer>, c: Criteria, p: Photographer)
    ensures multiset(View(ps, c))[p] == if Passes(p, c) then multiset(ps)[p] else 0
    ensures p in View(ps, c) <==> p in ps && Passes(p, c)
  {
    var sel := Selected(ps, c);
    assert multiset(View(ps, c)) == multiset(sel);
    assert p in View(ps, c) <==> multiset(View(ps, c))[p] > 0;
  }

  /** Toggling a style twice leaves the view as it was. */
  lemma ToggleTwiceSameView(ps: seq<Photographer>, c: Criteria, style: string)
    ensures View(ps, c.(styles := ToggleStyle(ToggleStyle(c.styles, style), style))) == View(ps, c)
  {
    var c' := c.(styles := ToggleStyle(ToggleStyle(c.styles, style), style));
    ToggleTwiceSameSet(c.styles, style);
    forall p ensures Keep(c')(p) == Keep(c)(p) {
      assert |c'.styles| == 0 <==> |c.styles| == 0 by {
        if |c.styles| > 0 { assert c.styles[0] in c'.styles; }
        if |c'.styles| > 0 { assert c'.styles[0] in c.styles; }
      }
      assert HasStyles(p, c'.styles) == HasStyles(p, c.styles);
    }
    FilterExt(ps, Keep(c'), Keep(c));
  }

  /** The locations of the photographers, in list order. */
  function Locations(ps: seq<Photographer>): (r: seq<string>)
    ensures |r| == |ps| && forall i :: 0 <= i < |ps| ==> r[i] == ps[i].location
  {
    if ps == [] then [] else [ps[0].location] + Locations(ps[1..])
  }

  /** The options of the city select (src/App.js:146): every location once,
      in the order of its first appearance in the unfiltered list. */
  function Cities(ps: seq<Photographer>): (r: seq<string>)
    ensures NoDuplicates(r)
    ensures forall city :: city in r <==> city in Locations(ps)
    ensures forall p :: p in ps ==> p.location in r
    ensures forall city :: city in r ==> exists p :: p in ps && p.location == city
    ensures forall i, j :: 0 <= i < j < |r| ==>
      FirstIndex(Locations(ps), r[i]) < FirstIndex(Locations(ps), r[j])
  {
    var locs := Locations(ps);
    DistinctFirstOccurrenceOrder(locs);
    forall p | p in ps ensures p.location in locs {
      var i :| 0 <= i < |ps| && ps[i] == p;
      assert locs[i] == p.location;
    }
    forall city | city in Distinct(locs) ensures exists p :: p in ps && p.location == city {
      var i :| 0 <= i < |locs| && locs[i] == city;
      assert ps[i] in ps;
    }
    Distinct(locs)
  }

  /** The list as the mount effect stores it is not the view its criteria
      describe: on load the default price range [0, 20000] is not applied, so
      a photographer priced above it is listed. */
  lemma RawLoadIgnoresPriceRange()
    ensures var p := Photographer(1, "Asha Rao", "Pune", 25000, 48, [], []);
      [p] != View([p], InitialCriteria()) && View([p], InitialCriteria()) == []
  {
    var p := Photographer(1, "Asha Rao", "Pune", 25000, 48, [], []);
    assert !Passes(p, InitialCriteria());
    assert Filter([p], Keep(InitialCriteria())) == [];
  }

  /** The component's state: the loaded list, the criteria, the filtered
      and sorted result, and the "Load More" window over it. */
  class Page {
    var photographers: seq<Photographer>
    var criteria: Criteria
    var filtered: seq<Photographer>
    var visibleCount: nat
    var loadMoreLoading: bool

    /** The state on mount (src/App.js:5-16), before the list arrives. */
    constructor ()
      ensures photographers == [] && filtered == [] && criteria == InitialCriteria()
      ensures visibleCount == InitialVisible && !loadMoreLoading
    {
      photographers := [];
      criteria := InitialCriteria();
      filtered := [];
      visibleCount := InitialVisible;
      loadMoreLoading := false;
    }

    /** The list shown: `filtered.slice(0, visibleCount)`. */
    function Visible(): (r: seq<Photographer>)
      reads this
      ensures r <= filtered
      ensures |r| == if visibleCount < |filtered| then visibleCount else |filtered|
    {
      Prefix(filtered, visibleCount)
    }

    /** Whether the "Load More" area is rendered (src/App.js:198): exactly
        when some entries of the result are not shown. */
    predicate LoadMoreOffered()
      reads this
      ensures LoadMoreOffered() <==> |Visible()| < |filtered|
    {
      visibleCount < |filtered|
    }

    /** `applyFilters` (src/App.js:41-77): recomputes the result from the
        list and the criteria and shows its first three entries again. */
    method ApplyFilters()
      modifies this`filtered, this`visibleCount
      ensures filtered == View(photographers, criteria)
      ensures visibleCount == InitialVisible
      ensures Visible() == Prefix(filtered, InitialVisible)
    {
      var result := FilterChain(photographers, criteria);
      result := Arrange(result, criteria.sortOption);
      filtered := result;
      visibleCount := InitialVisible;
    }

    /** The list arriving, as the mount effect stores it (src/App.js:27-28):
        the raw list becomes the result, unfiltered and unsorted. */
    method LoadAsWritten(data: seq<Photographer>)
      modifies this`photographers, this`filtered
      ensures photographers == data && filtered == data
    {
      photographers := data;
      filtered := data;
    }

    /** The list arriving, with the result recomputed under the current
        criteria. */
    method Load(data: seq<Photographer>)
      modifies this`photographers, this`filtered, this`visibleCount
      ensures photographers == data
      ensures filtered == View(data, criteria) && visibleCount == InitialVisible
    {
      photographers := data;
      ApplyFilters();
    }

    /** `handleStyleChange` (src/App.js:79-85) followed by the re-run of
        `applyFilters` that the change triggers (src/App.js:37-39). */
    method ToggleStyleBox(style: string)
      modifies this`criteria, this`filtered, this`visibleCount
      ensures criteria == old(criteria).(styles := ToggleStyle(old(criteria.styles), style))
      ensures filtered == View(photographers, criteria) && visibleCount == InitialVisible
    {
      criteria := criteria.(styles := ToggleStyle(criteria.styles, style));
      ApplyFilters();
    }

    /** Typing in the search box (src/App.js:95), then `applyFilters`. */
    method SetSearchTerm(term: string)
      modifies this`criteria, this`filtered, this`visibleCount
      ensures criteria == old(criteria).(searchTerm := term)
      ensures filtered == View(photographers, criteria) && visibleCount == InitialVisible
    {
      criteria := criteria.(searchTerm := term);
      ApplyFilters();
    }

    /** Picking the "`floor`+" rating radio button (src/App.js:114-121), then
        `applyFilters`. */
    method SetRatingFloor(floor: nat)
      modifies this`criteria, this`filtered, this`visibleCount
      ensures criteria == old(criteria).(minRating := Some(floor))
      ensures filtered == View(photographers, criteria) && visibleCount == InitialVisible
    {
      criteria := criteria.(minRating := Some(floor));
      ApplyFilters();
    }

    /** Choosing a city, or "" for "All" (src/App.js:144-148), then `applyFilters`. */
    method SetCity(city: string)
      modifies this`criteria, this`filtered, this`visibleCount
      ensures criteria == old(criteria).(city := city)
      ensures filtered == View(photographers, criteria) && visibleCount == InitialVisible
    {
      criteria := criteria.(city := city);
      ApplyFilters();
    }

    /** Choosing a sort option (src/App.js:154-159), then `applyFilters`. */
    method SetSortOption(option: string)
      modifies this`criteria, this`filtered, this`visibleCount
      ensures criteria == old(criteria).(sortOption := option)
      ensures filtered == View(photographers, criteria) && visibleCount == InitialVisible
    {
      criteria := criteria.(sortOption := option);
      ApplyFilters();
    }

    /** Moving the price slider (src/App.js:102-109): the range becomes
        `[0, ceiling]`; then `applyFilters`. */
    method SetPriceCeiling(ceiling: int)
      modifies this`criteria, this`filtered, this`visibleCount
      ensures criteria == old(criteria).(priceMin := 0, priceMax := ceiling)
      ensures filtered == View(photographers, criteria) && visibleCount == InitialVisible
    {
      criteria := criteria.(priceMin := 0, priceMax := ceiling);
      ApplyFilters();
    }

    /** Pressing "Load More" (src/App.js:205-206): only possible while the
        button is rendered; marks the expansion as pending. */
    method StartLoadMore()
      requires LoadMoreOffered() && !loadMoreLoading
      modifies this`loadMoreLoading
      ensures loadMoreLoading
    {
      loadMoreLoading := true;
    }

    /** The timer of "Load More" firing (src/App.js:207-210): the whole
        result is shown and the button goes away. */
    method FinishLoadMore()
      requires loadMoreLoading
      modifies this`visibleCount, this`loadMoreLoading
      ensures visibleCount == |filtered| && !loadMoreLoading
      ensures Visible() == filtered && !LoadMoreOffered()
    {
      visibleCount := |filtered|;
      loadMoreLoading := false;
    }
  }
}
