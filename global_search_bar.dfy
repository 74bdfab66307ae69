/**
 * The search box in the header: up to five politicians whose name matches
 * the query, shown in a dropdown while the box has focus.
 */
module GlobalSearchBar {
  import opened Text
  import opened Seqs
  import opened CivicTypes
  import PoliticiansView

  /** The most results the dropdown lists. */
  const MaxResults: nat := 5

  /** The politicians whose name matches the query, in list order. */
  function Matches(query: string, ps: seq<Politician>): (r: seq<Politician>)
    ensures forall p :: p in r <==> p in ps && PoliticiansView.NameMatches(p, query)
  {
    Filter(ps, (p: Politician) => PoliticiansView.NameMatches(p, query))
  }

  /**
   * The results effect: when the trimmed query is longer than one character,
   * the first five matching politicians; otherwise none.
   */
  function SearchResults(query: string, ps: seq<Politician>): (r: seq<Politician>)
    ensures |r| <= MaxResults
    ensures |Trim(query)| <= 1 ==> r == []
    ensures forall p :: p in r ==> p in ps && PoliticiansView.NameMatches(p, query)
  {
    if |Trim(query)| > 1 then Take(Matches(query, ps), MaxResults) else []
  }

  /**
   * For a query that is long enough, the results are the leading matches:
   * all of them when there are at most five, otherwise the first five.
   */
  lemma SearchResultsLeading(query: string, ps: seq<Politician>)
    requires |Trim(query)| > 1
    ensures var m := Matches(query, ps); var r := SearchResults(query, ps);
      r == m[..|r|] && (if |m| <= MaxResults then r == m else |r| == MaxResults)
  {
  }

  /** A query of white space alone, however long, gives no results. */
  lemma BlankQueryNoResults(query: string, ps: seq<Politician>)
    requires AllSpace(query)
    ensures SearchResults(query, ps) == []
  {
    TrimEmptyIffBlank(query);
  }

  /** The state of the search box. */
  class SearchBar {
    var politicians: seq<Politician>
    var query: string
    var results: seq<Politician>
    var isFocused: bool

    /** The results always reflect the current query and list. */
    predicate Valid()
      reads this
    {
      results == SearchResults(query, politicians)
    }

    constructor (ps: seq<Politician>)
      ensures Valid() && politicians == ps && query == [] && results == [] && !isFocused
    {
      politicians := ps;
      query := [];
      results := [];
      isFocused := false;
    }

    /** The input's `onChange`, followed by the results effect. */
    method SetQuery(q: string)
      modifies this
      ensures Valid()
      ensures query == q && results == SearchResults(q, politicians)
      ensures politicians == old(politicians) && isFocused == old(isFocused)
    {
      query := q;
      results := SearchResults(q, politicians);
    }

    /** A new list of politicians, followed by the results effect. */
    method SetPoliticians(ps: seq<Politician>)
      modifies this
      ensures Valid()
      ensures politicians == ps && results == SearchResults(query, ps)
      ensures query == old(query) && isFocused == old(isFocused)
    {
      politicians := ps;
      results := SearchResults(query, ps);
    }

    /** The input's `onFocus`. */
    method Focus()
      modifies this
      ensures isFocused
      ensures politicians == old(politicians) && query == old(query) && results == old(results)
    {
      isFocused := true;
    }

    /** The document's `mousedown` listener: a press outside the box drops the focus. */
    method MouseDown(inside: bool)
      modifies this
      ensures isFocused == (old(isFocused) && inside)
      ensures politicians == old(politicians) && query == old(query) && results == old(results)
    {
      if !inside {
        isFocused := false;
      }
    }

    /**
     * `handleSelect(id)`: the id is passed on to the application's selection
     * handler (returned here), and the box is cleared and closed.
     */
    method HandleSelect(id: int) returns (selected: int)
      modifies this
      ensures selected == id
      ensures Valid()
      ensures query == [] && results == [] && !isFocused
      ensures politicians == old(politicians)
    {
      selected := id;
      query := [];
      results := [];
      isFocused := false;
    }

    /** The dropdown is rendered exactly when the box has focus and there are results. */
    predicate DropdownVisible()
      reads this
    {
      isFocused && |results| > 0
    }
  }

  /** A short query never opens the dropdown, whatever the focus. */
  lemma ShortQueryHidesDropdown(bar: SearchBar)
    requires bar.Valid() && |Trim(bar.query)| <= 1
    ensures !bar.DropdownVisible()
  {
  }
}
