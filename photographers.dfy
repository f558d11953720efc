/** The stock optional value. */
module Wrappers {
  datatype Option<T> = None | Some(value: T)
}

/** Photographer records and the five filters of `applyFilters`
    (src/App.js:44-65), each as a predicate on one record. */
module Photographers {
  import opened Wrappers
  import opened Sequences
  import opened Text

  /** A photographer record as far as the pipeline reads it. `rating` is in
      tenths of a star (4.8 is 48), so no floating point is involved. */
  datatype Photographer = Photographer(
    id: int,
    name: string,
    location: string,
    price: int,
    rating: int,
    tags: seq<string>,
    styles: seq<string>)

  /** The filter and sort state of the directory (src/App.js:8-13).
      `minRating` is the selected radio button in whole stars, `None` when
      none is selected; an empty `city` or `sortOption` means "not set". */
  datatype Criteria = Criteria(
    searchTerm: string,
    minRating: Option<nat>,
    styles: seq<string>,
    city: string,
    priceMin: int,
    priceMax: int,
    sortOption: string)

  /** Highest value the price slider offers. */
  const PriceCeiling := 20000

  /** The criteria the directory starts with. */
  function InitialCriteria(): (c: Criteria)
    ensures c.searchTerm == "" && c.minRating.None? && c.styles == [] && c.city == ""
    ensures c.priceMin == 0 && c.priceMax == PriceCeiling && c.sortOption == ""
  {
    Criteria("", None, [], "", 0, PriceCeiling, "")
  }

  /** The lowercased text the search looks in: name, location and the tags
      joined by spaces, all separated by single spaces. It holds no capital
      letter and is two characters longer than its three parts. */
  function Haystack(p: Photographer): (r: string)
    ensures |r| == |p.name| + |p.location| + |Join(p.tags, " ")| + 2
    ensures forall i :: 0 <= i < |r| ==> !('A' <= r[i] <= 'Z')
  {
    LowerStr(p.name + " " + p.location + " " + Join(p.tags, " "))
  }

  /** The search filter: the lowercased term is a substring of the haystack. */
  predicate MatchesSearch(p: Photographer, term: string)
    ensures MatchesSearch(p, term) <==> exists i :: OccursAt(Haystack(p), LowerStr(term), i)
    ensures MatchesSearch(p, term) ==> |term| <= |Haystack(p)|
  {
    Includes(Haystack(p), LowerStr(term))
  }

  /** The rating filter for a floor of `floor` whole stars. */
  predicate MeetsRating(p: Photographer, floor: nat) {
    p.rating >= 10 * floor
  }

  /** The style filter: every selected style is among the photographer's. */
  predicate HasStyles(p: Photographer, styles: seq<string>) {
    forall s :: s in styles ==> s in p.styles
  }

  /** The price filter, inclusive at both ends. */
  predicate InPriceRange(p: Photographer, lo: int, hi: int) {
    lo <= p.price <= hi
  }

  /** A photographer is kept when every filter that is switched on passes:
      the search always, the rating when a floor is selected, the styles when
      some are selected, the city when one is selected, the price always. */
  predicate Passes(p: Photographer, c: Criteria)
    ensures Passes(p, c) ==> c.priceMin <= p.price <= c.priceMax
    ensures Passes(p, c) && c.minRating.Some? ==> p.rating >= 10 * c.minRating.value
    ensures Passes(p, c) && c.city != "" ==> p.location == c.city
    ensures Passes(p, c) ==> forall s :: s in c.styles ==> s in p.styles
    ensures c.searchTerm == "" && c.minRating.None? && c.styles == [] && c.city == "" ==>
      (Passes(p, c) <==> c.priceMin <= p.price <= c.priceMax)
  {
    EmptySearchMatchesAll(p);
    && MatchesSearch(p, c.searchTerm)
    && (c.minRating.None? || MeetsRating(p, c.minRating.value))
    && (|c.styles| == 0 || HasStyles(p, c.styles))
    && (c.city == "" || p.location == c.city)
    && InPriceRange(p, c.priceMin, c.priceMax)
  }

  /** A photographer passes exactly when it matches the search and meets
      every criterion that is set; an empty style selection asks for nothing,
      so the length guard on the style filter changes no outcome. */
  lemma PassesExactly(p: Photographer, c: Criteria)
    ensures Passes(p, c) <==>
      && MatchesSearch(p, c.searchTerm)
      && (c.minRating.Some? ==> p.rating >= 10 * c.minRating.value)
      && (forall s :: s in c.styles ==> s in p.styles)
      && (c.city != "" ==> p.location == c.city)
      && c.priceMin <= p.price <= c.priceMax
  {
  }

  /** The callbacks `applyFilters` hands to `filter`, one per filter. */
  function SearchStage(term: string): Photographer -> bool {
    p => MatchesSearch(p, term)
  }

  function RatingStage(floor: nat): Photographer -> bool {
    p => MeetsRating(p, floor)
  }

  function StylesStage(styles: seq<string>): Photographer -> bool {
    p => HasStyles(p, styles)
  }

  function CityStage(city: string): Photographer -> bool {
    (p: Photographer) => p.location == city
  }

  function PriceStage(lo: int, hi: int): Photographer -> bool {
    p => InPriceRange(p, lo, hi)
  }

  /** `Passes` as a callback. */
  function Keep(c: Criteria): Photographer -> bool {
    p => Passes(p, c)
  }

  /** The filter stage: the photographers that pass, in their original order. */
  function Selected(ps: seq<Photographer>, c: Criteria): (r: seq<Photographer>)
    ensures IsSubsequence(r, ps)
    ensures forall p :: multiset(r)[p] == if Passes(p, c) then multiset(ps)[p] else 0
    ensures forall p :: p in r <==> p in ps && Passes(p, c)
  {
    Filter(ps, Keep(c))
  }

  /** An empty search term keeps everyone. */
  lemma EmptySearchMatchesAll(p: Photographer)
    ensures MatchesSearch(p, "")
  {
    assert OccursAt(Haystack(p), LowerStr(""), 0);
  }

  /** The search ignores the case of the term. */
  lemma SearchIgnoresCase(p: Photographer, term: string)
    ensures MatchesSearch(p, term) == MatchesSearch(p, LowerStr(term))
  {
    LowerIdempotent(term);
  }

  /** The haystack is the lowercased fields with single spaces between them. */
  lemma HaystackParts(p: Photographer)
    ensures Haystack(p) ==
      LowerStr(p.name) + " " + LowerStr(p.location) + " " + LowerStr(Join(p.tags, " "))
  {
    var tags := Join(p.tags, " ");
    LowerConcat(p.name + " " + p.location + " ", tags);
    LowerConcat(p.name + " " + p.location, " ");
    LowerConcat(p.name + " ", p.location);
    LowerConcat(p.name, " ");
    assert LowerStr(" ") == " ";
  }

  /** A term found (ignoring case) in the name, the location or any one tag
      is found by the search. */
  lemma SearchFindsField(p: Photographer, field: string, term: string)
    requires field == p.name || field == p.location || field in p.tags
    requires Includes(LowerStr(field), LowerStr(term))
    ensures MatchesSearch(p, term)
  {
    var needle := LowerStr(term);
    var i :| OccursAt(LowerStr(field), needle, i);
    if field == p.name {
      OccursInHaystack(p, 0, needle, i);
    } else if field == p.location {
      OccursInHaystack(p, 1, needle, i);
    } else {
      var m := OccursInTags(p.tags, field, needle, i);
      OccursInHaystack(p, 2, needle, m);
    }
  }

  /** An occurrence in one lowercased tag is an occurrence in the lowercased
      joined tags. */
  lemma OccursInTags(tags: seq<string>, tag: string, needle: string, i: int) returns (m: int)
    requires tag in tags && OccursAt(LowerStr(tag), needle, i)
    ensures OccursAt(LowerStr(Join(tags, " ")), needle, m)
  {
    var k :| 0 <= k < |tags| && tags[k] == tag;
    JoinContainsPart(tags, " ", k);
    var j :| OccursAt(Join(tags, " "), tag, j);
    OccursLower(Join(tags, " "), tag, j);
    OccursTransitive(LowerStr(Join(tags, " ")), LowerStr(tag), needle, j, i);
    m := j + i;
  }

  /** An occurrence in one lowercased part (0 the name, 1 the location,
      2 the joined tags) is an occurrence in the haystack. */
  lemma OccursInHaystack(p: Photographer, part: nat, needle: string, i: int)
    requires part <= 2
    requires OccursAt(LowerStr([p.name, p.location, Join(p.tags, " ")][part]), needle, i)
    ensures Includes(Haystack(p), needle)
  {
    var ln, ll, lt := LowerStr(p.name), LowerStr(p.location), LowerStr(Join(p.tags, " "));
    HaystackParts(p);
    assert [ln, ll, lt][part] == LowerStr([p.name, p.location, Join(p.tags, " ")][part]);
    OccursInSpaced(ln, ll, lt, part, needle, i);
  }

  /** Because the haystack is one string, a term can match across the boundary
      between two fields though it occurs in neither. */
  lemma SearchSpansFields()
    ensures var p := Photographer(1, "asha", "pune", 0, 0, [], []);
      MatchesSearch(p, "a pu") && !Includes(LowerStr(p.name), "a pu") &&
      !Includes(LowerStr(p.location), "a pu")
  {
    var p := Photographer(1, "asha", "pune", 0, 0, [], []);
    assert LowerStr("asha") == "asha" && LowerStr("pune") == "pune" && LowerStr("a pu") == "a pu";
    HaystackParts(p);
    assert Haystack(p) == "asha pune ";
    assert OccursAt(Haystack(p), "a pu", 3);
    assert "asha"[..4][1] != "a pu"[1] && "asha"[1..] == "sha" && !Includes("sha", "a pu");
    assert "pune"[..4][0] != "a pu"[0] && "pune"[1..] == "une" && !Includes("une", "a pu");
  }

  /** Selecting more styles can only remove photographers from the result,
      never add one or reorder. */
  lemma MoreStylesShrink(ps: seq<Photographer>, c: Criteria, more: seq<string>)
    requires forall s :: s in c.styles ==> s in more
    ensures IsSubsequence(Selected(ps, c.(styles := more)), Selected(ps, c))
  {
    FilterMonotone(ps, Keep(c), Keep(c.(styles := more)));
  }

  /** With every filter switched off and a price range covering every
      photographer, nothing is removed. */
  lemma NoActiveFilterKeepsAll(ps: seq<Photographer>, c: Criteria)
    requires c.searchTerm == "" && c.minRating.None? && c.styles == [] && c.city == ""
    requires forall p :: p in ps ==> InPriceRange(p, c.priceMin, c.priceMax)
    ensures Selected(ps, c) == ps
  {
    forall p ensures MatchesSearch(p, "") { EmptySearchMatchesAll(p); }
    FilterAll(ps, Keep(c));
  }
}
