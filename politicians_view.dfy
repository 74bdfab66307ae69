/**
 * The politicians grid: the party and name filters over the list, and the
 * alphabetical list of parties offered by the party selector.
 */
module PoliticiansView {
  import opened Wrappers
  import opened Text
  import opened Seqs
  import opened CivicTypes
  import Sorting

  /** The name test of the search box: the lower-cased name contains the lower-cased, untrimmed query. */
  predicate NameMatches(p: Politician, query: string) {
    Contains(Lower(p.name), Lower(query))
  }

  /**
   * `filteredPoliticians`: the members of the selected party (all politicians
   * when none is selected), then, unless the query is blank, those whose name
   * matches it.
   */
  function FilteredPoliticians(ps: seq<Politician>, selectedParty: Option<Party>, query: string): (r: seq<Politician>)
    ensures |r| <= |ps|
  {
    var byParty := if selectedParty.Some? then Filter(ps, (p: Politician) => p.party == selectedParty.value) else ps;
    if Trim(query) != [] then Filter(byParty, p => NameMatches(p, query)) else byParty
  }

  /** The single test a politician must pass to be shown. */
  predicate Shown(p: Politician, selectedParty: Option<Party>, query: string) {
    (selectedParty.None? || p.party == selectedParty.value) && (AllSpace(query) || NameMatches(p, query))
  }

  /**
   * The two chained filters are one filter by `Shown`: the result keeps the
   * list order and holds exactly the politicians that pass both tests; a
   * blank query (one that trims to nothing) filters nothing.
   */
  lemma {:induction false} FilteredIsOneFilter(ps: seq<Politician>, selectedParty: Option<Party>, query: string)
    ensures FilteredPoliticians(ps, selectedParty, query) == Filter(ps, p => Shown(p, selectedParty, query))
  {
    TrimEmptyIffBlank(query);
    var shown := (p: Politician) => Shown(p, selectedParty, query);
    var byName := (p: Politician) => NameMatches(p, query);
    if selectedParty.Some? {
      var inParty := (p: Politician) => p.party == selectedParty.value;
      if AllSpace(query) {
        FilterCongruent(ps, inParty, shown);
      } else {
        FilterFilter(ps, inParty, byName, shown);
      }
    } else {
      if AllSpace(query) {
        FilterAll(ps, shown);
      } else {
        FilterCongruent(ps, byName, shown);
      }
    }
  }

  /** With no party selected and a blank query, every politician is shown, in order. */
  lemma NoFilterShowsAll(ps: seq<Politician>, query: string)
    requires AllSpace(query)
    ensures FilteredPoliticians(ps, None, query) == ps
  {
    TrimEmptyIffBlank(query);
  }

  /** A politician is shown exactly when it is in the list and passes both tests. */
  lemma FilteredMembers(ps: seq<Politician>, selectedParty: Option<Party>, query: string)
    ensures forall p :: p in FilteredPoliticians(ps, selectedParty, query) <==>
      p in ps && Shown(p, selectedParty, query)
  {
    FilteredIsOneFilter(ps, selectedParty, query);
  }

  /** The party of every politician, in list order (`politicians.map(p => p.party)`). */
  function PartiesOf(ps: seq<Politician>): (r: seq<Party>)
    ensures |r| == |ps| && forall i :: 0 <= i < |ps| ==> r[i] == ps[i].party
  {
    seq(|ps|, i requires 0 <= i < |ps| => ps[i].party)
  }

  /** The default `sort()` order on the parties' string values. */
  predicate PartyBefore(a: Party, b: Party) {
    Compare(PartyName(a), PartyName(b)) <= 0
  }

  /** `allParties`: the distinct parties, sorted by their string values. */
  function AllParties(ps: seq<Politician>): (r: seq<Party>)
    ensures multiset(r) == multiset(Distinct(PartiesOf(ps)))
  {
    Sorting.Sort(Distinct(PartiesOf(ps)), PartyBefore)
  }

  /**
   * `allParties` lists each party that has a politician exactly once, and no
   * other, in strictly increasing order of the string values.
   */
  lemma AllPartiesSpec(ps: seq<Politician>)
    ensures var r := AllParties(ps);
      && NoDup(r)
      && (forall x :: x in r <==> exists k :: 0 <= k < |ps| && ps[k].party == x)
      && forall i :: 0 <= i < |r| - 1 ==> Compare(PartyName(r[i]), PartyName(r[i + 1])) < 0
  {
    var d := Distinct(PartiesOf(ps));
    var r := AllParties(ps);
    NoDupPermutation(d, r);
    forall x ensures x in r <==> exists k :: 0 <= k < |ps| && ps[k].party == x {
      calc {
        x in r;
        x in multiset(r);
        x in multiset(d);
        x in PartiesOf(ps);
      }
    }
    assert Sorting.Total(PartyBefore) by {
      forall a: Party, b: Party ensures PartyBefore(a, b) || PartyBefore(b, a) {
        CompareAntisymmetric(PartyName(a), PartyName(b));
      }
    }
    Sorting.SortSorted(d, PartyBefore);
    forall i | 0 <= i < |r| - 1 ensures Compare(PartyName(r[i]), PartyName(r[i + 1])) < 0 {
      assert PartyBefore(r[i], r[i + 1]);
      assert r[i] != r[i + 1];
      PartyNameInjective(r[i], r[i + 1]);
    }
  }

  /** The view's state: the selected party and the search query. */
  class Filters {
    var selectedParty: Option<Party>
    var searchQuery: string

    constructor ()
      ensures selectedParty.None? && searchQuery == []
    {
      selectedParty := None;
      searchQuery := [];
    }

    /** `handleSelectParty(party)`; `None` is "all parties". */
    method SelectParty(party: Option<Party>)
      modifies this
      ensures selectedParty == party && searchQuery == old(searchQuery)
    {
      selectedParty := party;
    }

    /** The search box's `onChange`. */
    method SetQuery(query: string)
      modifies this
      ensures searchQuery == query && selectedParty == old(selectedParty)
    {
      searchQuery := query;
    }

    function Visible(ps: seq<Politician>): (r: seq<Politician>)
      reads this
      ensures forall p :: p in r ==> p in ps
    {
      FilteredMembers(ps, selectedParty, searchQuery);
      FilteredPoliticians(ps, selectedParty, searchQuery)
    }
  }
}
