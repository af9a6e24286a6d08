/** The location menu's search: which municipalities it lists for a query, and when the
    mountain-zone section is shown. */
module LocationMenu {
  import opened Wrappers
  import opened JsStrings
  import opened Seqs
  import opened Types

  /** At most this many municipalities are listed. */
  const Limit: nat := 50

  /** The search test for a lower-cased, trimmed query. */
  function NameMatches(query: string): LocationItem -> bool
  {
    (m: LocationItem) => Contains(Lower(m.name), query)
  }

  /** `filteredMunicipios`: nothing while the list is missing, the first 50 for a blank
      query, otherwise the first 50 whose lower-cased name contains the lower-cased,
      trimmed query. */
  function FilteredMunicipios(municipios: Option<seq<LocationItem>>, searchQuery: string)
    : (r: seq<LocationItem>)
    ensures |r| <= Limit
    ensures municipios.None? ==> r == []
  {
    match municipios
    case None => []
    case Some(list) =>
      if Trim(searchQuery) == "" then Take(list, Limit)
      else Take(Filter(list, NameMatches(Trim(Lower(searchQuery)))), Limit)
  }

  /** A blank query lists the first min(50, n) municipalities, in list order. */
  lemma BlankQueryListsHead(list: seq<LocationItem>, searchQuery: string)
    requires Trim(searchQuery) == ""
    ensures var r := FilteredMunicipios(Some(list), searchQuery);
      && |r| == (if |list| < Limit then |list| else Limit)
      && r == list[..|r|]
  {
  }

  /** For a non-blank query every listed municipality matches, and when fewer than 51
      match, every match is listed. */
  lemma {:induction false} SearchSoundAndComplete(list: seq<LocationItem>, searchQuery: string)
    requires Trim(searchQuery) != ""
    ensures var q := Trim(Lower(searchQuery));
      var r := FilteredMunicipios(Some(list), searchQuery);
      && (forall k :: 0 <= k < |r| ==> r[k] in list && Contains(Lower(r[k].name), q))
      && (|Filter(list, NameMatches(q))| <= Limit ==>
            forall m :: m in list && Contains(Lower(m.name), q) ==> m in r)
  {
    var q := Trim(Lower(searchQuery));
    var hits := Filter(list, NameMatches(q));
    var r := FilteredMunicipios(Some(list), searchQuery);
    assert r == Take(hits, Limit);
    forall k | 0 <= k < |r| ensures r[k] in list && Contains(Lower(r[k].name), q) {
      assert r[k] == hits[k];
      assert NameMatches(q)(hits[k]);
    }
    if |hits| <= Limit {
      assert r == hits;
      forall m | m in list && Contains(Lower(m.name), q) ensures m in r {
        assert NameMatches(q)(m);
      }
    }
  }

  /** For a non-blank query the list holds min(50, number of matches) municipalities, and
      they are the first matches in list order: a match with fewer than 50 matches before
      it is listed, at the position given by the number of those earlier matches. */
  lemma SearchFirstMatches(list: seq<LocationItem>, searchQuery: string, j: nat)
    requires Trim(searchQuery) != ""
    ensures var q := Trim(Lower(searchQuery));
      var r := FilteredMunicipios(Some(list), searchQuery);
      var hits := Filter(list, NameMatches(q));
      && |r| == (if |hits| < Limit then |hits| else Limit)
      && (j < |list| && Contains(Lower(list[j].name), q)
          && |Filter(list[..j], NameMatches(q))| < Limit ==>
            |Filter(list[..j], NameMatches(q))| < |r|
            && r[|Filter(list[..j], NameMatches(q))|] == list[j])
  {
    var q := Trim(Lower(searchQuery));
    if j < |list| && Contains(Lower(list[j].name), q) {
      assert NameMatches(q)(list[j]);
      FilterPosition(list, NameMatches(q), j);
    }
  }

  /** Whatever the query, the list is an order-preserving selection of the municipalities,
      no longer than 50. */
  lemma FilteredIsSubsequence(list: seq<LocationItem>, searchQuery: string)
    ensures IsSubsequence(FilteredMunicipios(Some(list), searchQuery), list)
  {
    var r := FilteredMunicipios(Some(list), searchQuery);
    if Trim(searchQuery) == "" {
      PrefixIsSubsequence(list, |r|);
    } else {
      var hits := Filter(list, NameMatches(Trim(Lower(searchQuery))));
      FilterIsSubsequence(list, NameMatches(Trim(Lower(searchQuery))));
      PrefixOfSubsequence(hits, list, |r|);
    }
  }

  /** `!searchQuery`: the zone section is shown only for the empty query, not for one made
      of spaces. */
  predicate ShowZones(searchQuery: string)
  {
    searchQuery == ""
  }

  /** While the zones are shown, the municipality list is the default head of the list;
      a query of spaces hides the zones but still lists the default head. */
  lemma ZonesWithDefaultList(list: seq<LocationItem>, searchQuery: string)
    ensures ShowZones(searchQuery) ==> FilteredMunicipios(Some(list), searchQuery) == Take(list, Limit)
    ensures !ShowZones(" ") && FilteredMunicipios(Some(list), " ") == Take(list, Limit)
  {
    TrimBlank("");
    TrimBlank(" ");
  }
}
