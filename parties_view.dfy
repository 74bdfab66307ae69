/**
 * The parties overview: the politicians grouped by party in order of first
 * appearance, each group with its members, its leader and the key issues
 * its members raise.
 */
module PartiesView {
  import opened Wrappers
  import opened Text
  import opened Seqs
  import opened CivicTypes
  import PoliticiansView

  /** The record a party maps to; `issues` is an insertion-ordered set. */
  datatype Group = Group(party: Party, members: seq<Politician>, leader: Option<Politician>, issues: seq<string>)

  /** A politician is taken as leader when the lower-cased position contains "leader". */
  predicate IsLeader(p: Politician) {
    Contains(Lower(p.position), "leader")
  }

  /** The record a party gets when it is first seen. */
  function NewGroup(party: Party): Group {
    Group(party, [], None, [])
  }

  /** One step of the `forEach`: push the member, add its issues, and take it as leader if it is one. */
  function Extend(g: Group, p: Politician): Group {
    g.(members := g.members + [p],
       issues := AddEach(g.issues, p.keyIssues),
       leader := if IsLeader(p) then Some(p) else g.leader)
  }

  /** `data.has(party)` / `data.get(party)`: the position of the party's record, if any. */
  function GroupIndex(groups: seq<Group>, party: Party): (r: Option<nat>)
    ensures r.Some? ==> r.value < |groups| && groups[r.value].party == party &&
                        forall j :: 0 <= j < r.value ==> groups[j].party != party
    ensures r.None? ==> forall j :: 0 <= j < |groups| ==> groups[j].party != party
    decreases |groups|
  {
    if groups == [] then None
    else if groups[0].party == party then Some(0)
    else match GroupIndex(groups[1..], party)
      case None => None
      case Some(k) => Some(k + 1)
  }

  /** The effect of the loop body for one politician on the map's entries. */
  function AddPolitician(groups: seq<Group>, p: Politician): seq<Group> {
    match GroupIndex(groups, p.party)
    case Some(k) => groups[k := Extend(groups[k], p)]
    case None => groups + [Extend(NewGroup(p.party), p)]
  }

  /**
   * The map's entries after the `forEach` over `ps`: no more records than
   * politicians, no party with two records, and no record without members.
   */
  function Collect(ps: seq<Politician>): (r: seq<Group>)
    ensures |r| <= |ps|
    ensures forall i, j :: 0 <= i < j < |r| ==> r[i].party != r[j].party
    ensures forall k :: 0 <= k < |r| ==> r[k].members != []
    decreases |ps|
  {
    if ps == [] then []
    else AddPolitician(Collect(ps[..|ps| - 1]), ps[|ps| - 1])
  }

  /** The members of one party in list order. */
  function InParty(party: Party): Politician -> bool {
    (p: Politician) => p.party == party
  }

  function MembersOf(ps: seq<Politician>, party: Party): seq<Politician> {
    Filter(ps, InParty(party))
  }

  /** The last politician of `ms` who is a leader. */
  function LastLeader(ms: seq<Politician>): Option<Politician>
    decreases |ms|
  {
    if ms == [] then None
    else if IsLeader(ms[|ms| - 1]) then Some(ms[|ms| - 1])
    else LastLeader(ms[..|ms| - 1])
  }

  /**
   * The leader found is a member whose position mentions "leader" and after
   * whom no member's does; there is none exactly when no member's does.
   */
  lemma {:induction false} LastLeaderSpec(ms: seq<Politician>)
    ensures var r := LastLeader(ms);
      && (r.Some? ==> exists k :: 0 <= k < |ms| && ms[k] == r.value && IsLeader(ms[k]) &&
                                  forall j :: k < j < |ms| ==> !IsLeader(ms[j]))
      && (r.None? <==> forall j :: 0 <= j < |ms| ==> !IsLeader(ms[j]))
    decreases |ms|
  {
    if ms != [] && !IsLeader(ms[|ms| - 1]) {
      var init := ms[..|ms| - 1];
      LastLeaderSpec(init);
      assert forall j :: 0 <= j < |init| ==> init[j] == ms[j];
    }
  }

  /** The key issues of `ms`, member by member, with repetitions. */
  function IssuesOf(ms: seq<Politician>): seq<string>
    decreases |ms|
  {
    if ms == [] then [] else IssuesOf(ms[..|ms| - 1]) + ms[|ms| - 1].keyIssues
  }

  /** The record of one party, stated directly: its members, their last leader and their distinct issues. */
  function GroupOf(ps: seq<Politician>, party: Party): Group {
    var ms := MembersOf(ps, party);
    Group(party, ms, LastLeader(ms), Distinct(IssuesOf(ms)))
  }

  /** The records of the parties in `order`, in that order. */
  function Groups(ps: seq<Politician>, order: seq<Party>): (r: seq<Group>)
    ensures |r| == |order|
    ensures forall k :: 0 <= k < |r| ==> r[k].party == order[k]
    decreases |order|
  {
    if order == [] then []
    else Groups(ps, order[..|order| - 1]) + [GroupOf(ps, order[|order| - 1])]
  }

  /** The record at position `k` is the record of the `k`-th party. */
  lemma {:induction false} GroupsAt(ps: seq<Politician>, order: seq<Party>, k: nat)
    requires k < |order|
    ensures Groups(ps, order)[k] == GroupOf(ps, order[k])
    decreases |order|
  {
    var n := |order| - 1;
    if k < n {
      GroupsAt(ps, order[..n], k);
    }
  }

  /** The map's entries, stated directly: one record per distinct party, in order of first appearance. */
  function Expected(ps: seq<Politician>): seq<Group> {
    Groups(ps, Distinct(PoliticiansView.PartiesOf(ps)))
  }

  lemma PartiesOfSnoc(ps: seq<Politician>, p: Politician)
    ensures PoliticiansView.PartiesOf(ps + [p]) == PoliticiansView.PartiesOf(ps) + [p.party]
  {
  }

  /** Adding a member adds its issues to the distinct issues of the group. */
  lemma IssuesStep(ms: seq<Politician>, p: Politician)
    ensures Distinct(IssuesOf(ms + [p])) == AddEach(Distinct(IssuesOf(ms)), p.keyIssues)
  {
    assert (ms + [p])[..|ms|] == ms;
    AddEachAppend([], IssuesOf(ms), p.keyIssues);
  }

  /** The last leader after one more member. */
  lemma LastLeaderSnoc(ms: seq<Politician>, p: Politician)
    ensures LastLeader(ms + [p]) == if IsLeader(p) then Some(p) else LastLeader(ms)
  {
    assert (ms + [p])[..|ms|] == ms;
  }

  /** One more politician extends the record of its own party and leaves the others as they were. */
  lemma GroupStep(ps: seq<Politician>, p: Politician, party: Party)
    ensures GroupOf(ps + [p], party) == if party == p.party then Extend(GroupOf(ps, party), p) else GroupOf(ps, party)
  {
    var ms := MembersOf(ps, party);
    FilterAppend(ps, p, InParty(party));
    if party == p.party {
      assert MembersOf(ps + [p], party) == ms + [p];
      LastLeaderSnoc(ms, p);
      IssuesStep(ms, p);
    } else {
      assert MembersOf(ps + [p], party) == ms;
    }
  }

  /** A party nobody belongs to has no members. */
  lemma {:induction false} NoMembers(ps: seq<Politician>, party: Party)
    requires party !in PoliticiansView.PartiesOf(ps)
    ensures MembersOf(ps, party) == []
    decreases |ps|
  {
    if ps != [] {
      var init, last := ps[..|ps| - 1], ps[|ps| - 1];
      assert ps == init + [last];
      PartiesOfSnoc(init, last);
      NoMembers(init, party);
      FilterAppend(init, last, InParty(party));
    }
  }

  /** The loop computes the records stated directly. */
  lemma {:induction false} CollectIsExpected(ps: seq<Politician>)
    ensures Collect(ps) == Expected(ps)
    decreases |ps|
  {
    if ps != [] {
      var init, last := ps[..|ps| - 1], ps[|ps| - 1];
      assert ps == init + [last];
      CollectIsExpected(init);
      ExpectedStep(init, last);
    }
  }

  /** The records stated directly change with one more politician as the loop body changes them. */
  lemma ExpectedStep(init: seq<Politician>, last: Politician)
    ensures Expected(init + [last]) == AddPolitician(Expected(init), last)
  {
    match GroupIndex(Expected(init), last.party)
    case Some(k) => ExpectedStepKnown(init, last, k);
    case None => ExpectedStepNew(init, last);
  }

  /** A politician of a party that already has a record extends that record. */
  lemma ExpectedStepKnown(init: seq<Politician>, last: Politician, k: nat)
    requires GroupIndex(Expected(init), last.party) == Some(k)
    ensures Expected(init + [last]) == Expected(init)[k := Extend(Expected(init)[k], last)]
  {
    var ps, p := init + [last], last.party;
    var parties := PoliticiansView.PartiesOf(init);
    var order := Distinct(parties);
    assert order[k] == p;
    assert PoliticiansView.PartiesOf(ps) == parties + [p] by { PartiesOfSnoc(init, last); }
    DistinctSnoc(parties, p);
    assert Expected(ps) == Groups(ps, order);
    GroupsOwn(init, last, order, k);
  }

  /** A politician of a party without a record adds a record holding just that politician. */
  lemma ExpectedStepNew(init: seq<Politician>, last: Politician)
    requires GroupIndex(Expected(init), last.party).None?
    ensures Expected(init + [last]) == Expected(init) + [Extend(NewGroup(last.party), last)]
  {
    var ps, p := init + [last], last.party;
    var parties := PoliticiansView.PartiesOf(init);
    var order := Distinct(parties);
    assert p !in order;
    assert PoliticiansView.PartiesOf(ps) == parties + [p] by { PartiesOfSnoc(init, last); }
    DistinctSnoc(parties, p);
    assert Expected(ps) == Groups(ps, order + [p]);
    assert Groups(ps, order + [p]) == Groups(ps, order) + [GroupOf(ps, p)] by {
      assert (order + [p])[..|order|] == order;
    }
    NoMembers(init, p);
    GroupsOthers(init, last, order);
    NewGroupStep(init, last);
  }

  /** One more politician leaves the records of the other parties as they were. */
  lemma {:induction false} GroupsOthers(init: seq<Politician>, last: Politician, order: seq<Party>)
    requires last.party !in order
    ensures Groups(init + [last], order) == Groups(init, order)
    decreases |order|
  {
    if order != [] {
      var front := order[..|order| - 1];
      assert order == front + [order[|order| - 1]];
      GroupsOthers(init, last, front);
      GroupStep(init, last, order[|order| - 1]);
    }
  }

  /** One more politician of a party already present extends that party's record only. */
  lemma {:induction false} GroupsOwn(init: seq<Politician>, last: Politician, order: seq<Party>, k: nat)
    requires NoDup(order) && k < |order| && order[k] == last.party
    ensures Groups(init + [last], order) == Groups(init, order)[k := Extend(Groups(init, order)[k], last)]
    decreases |order|
  {
    var n := |order| - 1;
    var front := order[..n];
    assert order == front + [order[n]];
    var g, g' := Groups(init, front), Groups(init + [last], front);
    var y, y' := GroupOf(init, order[n]), GroupOf(init + [last], order[n]);
    assert Groups(init, order) == g + [y];
    assert Groups(init + [last], order) == g' + [y'];
    GroupStep(init, last, order[n]);
    if k == n {
      assert last.party !in front;
      GroupsOthers(init, last, front);
      UpdateLast(g, y, Extend(y, last));
    } else {
      GroupsOwn(init, last, front, k);
      UpdateFront(g, y, k, Extend(g[k], last));
    }
  }

  lemma UpdateLast<T>(s: seq<T>, x: T, y: T)
    ensures (s + [x])[|s| := y] == s + [y]
  {
  }

  lemma UpdateFront<T>(s: seq<T>, x: T, k: nat, y: T)
    requires k < |s|
    ensures (s + [x])[k := y] == s[k := y] + [x]
  {
  }

  /** A party seen for the first time gets a record holding just that politician. */
  lemma NewGroupStep(init: seq<Politician>, last: Politician)
    requires MembersOf(init, last.party) == []
    ensures GroupOf(init + [last], last.party) == Extend(NewGroup(last.party), last)
  {
    GroupStep(init, last, last.party);
    assert Distinct(IssuesOf([])) == [];
  }

  /**
   * The records in the order they are shown: at most three issues each,
   * the first three in insertion order.
   */
  function Summaries(groups: seq<Group>): (r: seq<Group>)
    ensures |r| == |groups|
    ensures forall k :: 0 <= k < |r| ==>
      r[k].party == groups[k].party && r[k].members == groups[k].members && r[k].leader == groups[k].leader &&
      |r[k].issues| <= 3 && |r[k].issues| <= |groups[k].issues| &&
      r[k].issues == groups[k].issues[..|r[k].issues|] &&
      (|r[k].issues| < 3 ==> r[k].issues == groups[k].issues)
  {
    seq(|groups|, k requires 0 <= k < |groups| => groups[k].(issues := Take(groups[k].issues, 3)))
  }

  /** `partyData.issues.add(issue)` for each key issue of one politician. */
  method AddIssues(issues: seq<string>, keyIssues: seq<string>) returns (r: seq<string>)
    ensures r == AddEach(issues, keyIssues)
  {
    r := issues;
    var j := 0;
    while j < |keyIssues|
      invariant 0 <= j <= |keyIssues|
      invariant r == AddEach(issues, keyIssues[..j])
    {
      AddEachAppend(issues, keyIssues[..j], [keyIssues[j]]);
      assert keyIssues[..j + 1] == keyIssues[..j] + [keyIssues[j]];
      if keyIssues[j] !in r {
        r := r + [keyIssues[j]];
      }
      j := j + 1;
    }
    assert keyIssues[..j] == keyIssues;
  }

  /** One more politician of the list extends the map's entries by one loop body. */
  lemma CollectStep(ps: seq<Politician>, i: nat)
    requires i < |ps|
    ensures Collect(ps[..i + 1]) == AddPolitician(Collect(ps[..i]), ps[i])
  {
    assert ps[..i + 1][..i] == ps[..i];
  }

  /** The body of the `forEach` for one politician: create the party's record if needed, then extend it. */
  method AddToGroups(groups: seq<Group>, p: Politician) returns (r: seq<Group>)
    ensures r == AddPolitician(groups, p)
  {
    r := groups;
    var k := GroupIndex(r, p.party);
    if k.None? {
      r := r + [NewGroup(p.party)];
      k := Some(|r| - 1);
    }
    var g := r[k.value];
    ghost var start := g;
    var issues := AddIssues(g.issues, p.keyIssues);
    g := g.(members := g.members + [p], issues := issues);
    if IsLeader(p) {
      g := g.(leader := Some(p));
    }
    assert g == Extend(start, p);
    if GroupIndex(groups, p.party).None? {
      UpdateLast(groups, start, g);
    }
    r := r[k.value := g];
  }

  /** `partiesData`: the `forEach` over the politicians, then the summary of every record. */
  method PartiesData(ps: seq<Politician>) returns (data: seq<Group>)
    ensures data == Summaries(Expected(ps))
  {
    var groups: seq<Group> := [];
    var i := 0;
    while i < |ps|
      invariant 0 <= i <= |ps|
      invariant groups == Collect(ps[..i])
    {
      groups := AddToGroups(groups, ps[i]);
      CollectStep(ps, i);
      i := i + 1;
    }
    assert ps[..i] == ps;
    CollectIsExpected(ps);
    data := Summaries(groups);
  }

  /** The number of members over all records. */
  function MemberCount(groups: seq<Group>): nat
    decreases |groups|
  {
    if groups == [] then 0 else |groups[0].members| + MemberCount(groups[1..])
  }

  lemma {:induction false} MemberCountUpdate(groups: seq<Group>, k: nat, g: Group)
    requires k < |groups|
    ensures MemberCount(groups[k := g]) == MemberCount(groups) - |groups[k].members| + |g.members|
    decreases |groups|
  {
    if k > 0 {
      assert groups[k := g][1..] == groups[1..][k - 1 := g];
      MemberCountUpdate(groups[1..], k - 1, g);
    } else {
      assert groups[k := g][1..] == groups[1..];
    }
  }

  lemma {:induction false} MemberCountAppend(groups: seq<Group>, g: Group)
    ensures MemberCount(groups + [g]) == MemberCount(groups) + |g.members|
    decreases |groups|
  {
    if groups != [] {
      assert (groups + [g])[1..] == groups[1..] + [g];
      MemberCountAppend(groups[1..], g);
    }
  }

  /** Every politician is counted in exactly one record: the member counts add up to the list's length. */
  lemma {:induction false} MemberCountsSum(ps: seq<Politician>)
    ensures MemberCount(Expected(ps)) == |ps|
  {
    CollectIsExpected(ps);
    CollectCount(ps);
  }

  lemma {:induction false} CollectCount(ps: seq<Politician>)
    ensures MemberCount(Collect(ps)) == |ps|
    decreases |ps|
  {
    if ps != [] {
      var init, last := ps[..|ps| - 1], ps[|ps| - 1];
      CollectCount(init);
      var groups := Collect(init);
      match GroupIndex(groups, last.party)
      case Some(k) => MemberCountUpdate(groups, k, Extend(groups[k], last));
      case None => MemberCountAppend(groups, Extend(NewGroup(last.party), last));
    }
  }

  /**
   * What the overview shows for the record at position `k`: the party is the
   * `k`-th distinct party, the members are exactly that party's politicians in
   * list order, the leader is the last of them whose position mentions
   * "leader", and the issues are the first (up to) three of their distinct
   * issues.
   */
  lemma ShownRecord(ps: seq<Politician>, k: nat)
    requires k < |Expected(ps)|
    ensures var g := Summaries(Expected(ps))[k];
      var order := Distinct(PoliticiansView.PartiesOf(ps));
      && g.party == order[k]
      && g.members == Filter(ps, InParty(order[k]))
      && g.leader == LastLeader(g.members)
      && g.issues == Take(Distinct(IssuesOf(g.members)), 3)
  {
    GroupsAt(ps, Distinct(PoliticiansView.PartiesOf(ps)), k);
  }
}
