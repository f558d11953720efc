/** Worked cases of the pipeline on small lists. */
module Scenarios {
  import opened Sequences
  import opened Text
  import opened Photographers
  import opened Sorting
  import opened Directory

  function Sample(id: int, rating: int): Photographer {
    Photographer(id, "P", "Pune", 1000, rating, [], [])
  }

  /** The style filter is conjunctive: one style of two is not enough. */
  lemma StylesAreConjunctive()
    ensures var p := Photographer(1, "A", "Pune", 0, 40, [], ["Candid"]);
      !HasStyles(p, ["Candid", "Studio"]) && HasStyles(p, ["Candid"]) && HasStyles(p, [])
  {
    var p := Photographer(1, "A", "Pune", 0, 40, [], ["Candid"]);
    assert "Studio" in ["Candid", "Studio"];
  }

  /** The price range includes its upper end. */
  lemma PriceCeilingIncluded()
    ensures InPriceRange(Photographer(1, "A", "Pune", 20000, 40, [], []), 0, PriceCeiling)
  {
  }

  /** The search finds the name, the location and a tag, whatever their case. */
  lemma SearchAcrossFields()
    ensures var p := Photographer(1, "Asha Rao", "Pune", 0, 40, ["Wedding"], []);
      MatchesSearch(p, "asha") && MatchesSearch(p, "PUNE") && MatchesSearch(p, "wedding")
  {
    var p := Photographer(1, "Asha Rao", "Pune", 0, 40, ["Wedding"], []);
    assert LowerStr("Asha Rao")[..4] == "asha" == LowerStr("asha");
    assert LowerStr("Pune") == "pune" == LowerStr("PUNE");
    assert LowerStr("Wedding") == "wedding" == LowerStr("wedding");
    SearchFindsField(p, p.name, "asha");
    SearchFindsField(p, p.location, "PUNE");
    SearchFindsField(p, "Wedding", "wedding");
  }

  /** Sorting ratings 3.5, 4.8, 4.8, 2.0 (ids 1 to 4) from high to low gives
      ids 2, 3, 1, 4: the two 4.8s keep their order. */
  lemma RatingSortIsStable()
    ensures StableSort([Sample(1, 35), Sample(2, 48), Sample(3, 48), Sample(4, 20)], RatingHighLow)
      == [Sample(2, 48), Sample(3, 48), Sample(1, 35), Sample(4, 20)]
  {
    var k := RatingHighLow;
    var a, b, c, d := Sample(1, 35), Sample(2, 48), Sample(3, 48), Sample(4, 20);
    assert [a, b, c, d][..3] == [a, b, c] && [a, b, c][..2] == [a, b] && [a, b][..1] == [a];
    assert StableSort([a], k) == [a];
    assert Insert([a], b, k) == [b, a];
    assert StableSort([a, b], k) == [b, a];
    assert [b, a][..1] == [b];
    assert Insert([b, a], c, k) == [b, c, a];
    assert StableSort([a, b, c], k) == [b, c, a];
    assert Insert([b, c, a], d, k) == [b, c, a, d];
  }

  /** The city list of Pune, Pune, Mumbai is Pune, Mumbai. */
  lemma CitiesOnce()
    ensures Cities([Sample(1, 40), Sample(2, 40), Photographer(3, "Q", "Mumbai", 0, 40, [], [])])
      == ["Pune", "Mumbai"]
  {
    var ps := [Sample(1, 40), Sample(2, 40), Photographer(3, "Q", "Mumbai", 0, 40, [], [])];
    assert Locations(ps) == ["Pune", "Pune", "Mumbai"];
    assert ["Pune", "Pune", "Mumbai"][..2] == ["Pune", "Pune"];
    assert ["Pune", "Pune"][..1] == ["Pune"];
    assert Distinct(["Pune", "Pune"]) == ["Pune"];
  }

  /** Under the initial criteria every photographer priced within the slider's
      range is listed, in list order. */
  lemma InitialViewKeepsAll(ps: seq<Photographer>)
    requires forall p :: p in ps ==> 0 <= p.price <= PriceCeiling
    ensures View(ps, InitialCriteria()) == ps
  {
    NoActiveFilterKeepsAll(ps, InitialCriteria());
    assert KeyOf(InitialCriteria().sortOption).None?;
  }

  /** Seven results: three shown, "Load More" pending, then all seven shown
      and the button gone. */
  method LoadMoreShowsAll() {
    var page := new Page();
    var ps := seq(7, i => Sample(i, 40));
    InitialViewKeepsAll(ps);
    page.Load(ps);
    assert page.filtered == ps;
    assert |page.Visible()| == 3 && page.LoadMoreOffered();
    page.StartLoadMore();
    page.FinishLoadMore();
    assert page.visibleCount == 7 && page.Visible() == ps && !page.LoadMoreOffered();
  }
}
