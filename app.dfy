/**
 * The application shell: the rank-then-name order of the politicians list
 * and the selected politician behind the detail modal.
 */
module App {
  import opened Wrappers
  import opened Text
  import opened CivicTypes
  import Sorting
  import Seqs

  /**
   * `getSortWeight`: 1 for a prime minister, 2 for a leader, 3 for a deputy
   * prime minister, 4 for everyone else, tested in that order on the
   * lower-cased position.
   */
  function SortWeight(p: Politician): (w: int)
    ensures 1 <= w <= 4
  {
    var position := Lower(p.position);
    if Contains(position, "prime minister") then 1
    else if Contains(position, "leader") then 2
    else if Contains(position, "deputy prime minister") then 3
    else 4
  }

  /** Weight 3 is never given: a deputy prime minister's position already contains "prime minister". */
  lemma WeightThreeUnreachable(p: Politician)
    ensures SortWeight(p) != 3
    ensures SortWeight(p) == 1 <==> Contains(Lower(p.position), "prime minister")
  {
    var position := Lower(p.position);
    if Contains(position, "deputy prime minister") {
      DeputyImpliesPrime(position);
    }
  }

  /** The comparator of `sortedPoliticians`: weight first, then name (`localeCompare`, modelled as code-unit order). */
  function ComparePoliticians(a: Politician, b: Politician): (r: int)
    ensures r < 0 <==> SortWeight(a) < SortWeight(b) || (SortWeight(a) == SortWeight(b) && Compare(a.name, b.name) < 0)
    ensures r == 0 <==> SortWeight(a) == SortWeight(b) && a.name == b.name
  {
    if SortWeight(a) != SortWeight(b) then SortWeight(a) - SortWeight(b)
    else Compare(a.name, b.name)
  }

  /** `a` may precede `b` in the sorted list. */
  predicate RankedBefore(a: Politician, b: Politician) {
    ComparePoliticians(a, b) <= 0
  }

  /** The comparator orders every pair one way or the other. */
  lemma RankedBeforeTotal()
    ensures Sorting.Total(RankedBefore)
  {
    forall a: Politician, b: Politician ensures RankedBefore(a, b) || RankedBefore(b, a) {
      CompareAntisymmetric(a.name, b.name);
    }
  }

  /** The comparator is transitive, so together with totality it is a total preorder. */
  lemma RankedBeforeTransitive(a: Politician, b: Politician, c: Politician)
    requires RankedBefore(a, b) && RankedBefore(b, c)
    ensures RankedBefore(a, c)
  {
    if SortWeight(a) == SortWeight(b) == SortWeight(c) {
      CompareTransitive(a.name, b.name, c.name);
    }
  }

  /** `sortedPoliticians`: a sorted copy; the input list itself is a value and is not reordered. */
  function SortedPoliticians(ps: seq<Politician>): (r: seq<Politician>)
    ensures multiset(r) == multiset(ps) && |r| == |ps|
  {
    var r := Sorting.Sort(ps, RankedBefore);
    assert |r| == |multiset(r)| == |multiset(ps)| == |ps|;
    r
  }

  /**
   * The sorted list is a permutation of the input in which the weight never
   * decreases and entries of equal weight are in name order.
   */
  lemma SortedPoliticiansOrdered(ps: seq<Politician>)
    ensures var r := SortedPoliticians(ps);
      multiset(r) == multiset(ps) &&
      forall i :: 0 <= i < |r| - 1 ==>
        SortWeight(r[i]) < SortWeight(r[i + 1]) ||
        (SortWeight(r[i]) == SortWeight(r[i + 1]) && Compare(r[i].name, r[i + 1].name) <= 0)
  {
    RankedBeforeTotal();
    Sorting.SortSorted(ps, RankedBefore);
    var r := SortedPoliticians(ps);
    forall i | 0 <= i < |r| - 1
      ensures SortWeight(r[i]) < SortWeight(r[i + 1]) ||
              (SortWeight(r[i]) == SortWeight(r[i + 1]) && Compare(r[i].name, r[i + 1].name) <= 0)
    {
      assert RankedBefore(r[i], r[i + 1]);
    }
  }

  /**
   * The sort is stable: politicians of the same weight and the same name
   * (the comparator returns 0 between them) keep their order in the input.
   */
  lemma SortedPoliticiansStable(ps: seq<Politician>, q: Politician)
    ensures var tied := (x: Politician) => SortWeight(x) == SortWeight(q) && x.name == q.name;
      Seqs.Filter(SortedPoliticians(ps), tied) == Seqs.Filter(ps, tied)
  {
    var tied := (x: Politician) => SortWeight(x) == SortWeight(q) && x.name == q.name;
    forall a, b | tied(a) && tied(b) ensures RankedBefore(a, b) {
      assert ComparePoliticians(a, b) == 0;
    }
    Sorting.SortStable(ps, RankedBefore, tied);
  }

  /** `politicians.find(p => p.id === id)`: the first politician with that id. */
  function FindById(ps: seq<Politician>, id: int): (r: Option<Politician>)
    ensures r.Some? ==> exists k :: 0 <= k < |ps| && ps[k] == r.value && r.value.id == id &&
                                    forall j :: 0 <= j < k ==> ps[j].id != id
    ensures r.None? <==> forall p :: p in ps ==> p.id != id
    decreases |ps|
  {
    if ps == [] then None
    else if ps[0].id == id then Some(ps[0])
    else
      var r := FindById(ps[1..], id);
      assert forall p :: p in ps ==> p == ps[0] || p in ps[1..];
      if r.Some? then
        var k :| 0 <= k < |ps[1..]| && ps[1..][k] == r.value && r.value.id == id &&
                 forall j :: 0 <= j < k ==> ps[1..][j].id != id;
        assert forall j :: 0 <= j < k + 1 ==> ps[j].id != id by {
          forall j | 0 <= j < k + 1 ensures ps[j].id != id {
            if j > 0 { assert ps[j] == ps[1..][j - 1]; }
          }
        }
        r
      else r
  }

  /**
   * `selectedPolitician`: nothing when the selected id is null or 0 (both
   * falsy), otherwise the first politician with that id, if any.
   */
  function SelectedPolitician(selectedId: Option<int>, ps: seq<Politician>): (r: Option<Politician>)
    ensures selectedId.None? || selectedId == Some(0) ==> r.None?
    ensures selectedId.Some? && selectedId.value != 0 ==> r == FindById(ps, selectedId.value)
    ensures r.Some? ==> r.value in ps && r.value.id == selectedId.value
  {
    if selectedId.None? || selectedId.value == 0 then None
    else FindById(ps, selectedId.value)
  }

  /** The selection state of the application: the `selectedPoliticianId` state variable. */
  class Selection {
    var selectedId: Option<int>

    constructor ()
      ensures selectedId.None?
    {
      selectedId := None;
    }

    /** `handleSelectPolitician(id)`. */
    method Select(id: int)
      modifies this
      ensures selectedId == Some(id)
    {
      selectedId := Some(id);
    }

    /** `handleCloseModal()`. */
    method Close()
      modifies this
      ensures selectedId.None?
    {
      selectedId := None;
    }

    /** The politician shown in the modal. */
    function Shown(ps: seq<Politician>): (r: Option<Politician>)
      reads this
      ensures r.Some? ==> r.value in ps && selectedId == Some(r.value.id)
    {
      SelectedPolitician(selectedId, ps)
    }
  }
}
