/**
 * The politician detail modal: the lookup maps that resolve a politician's
 * issue ids and related-politician ids, the Tab focus trap, and the state of
 * the tabs and of the AI fact-check panel.
 */
module DetailModal {
  import opened Wrappers
  import opened Text
  import opened Seqs
  import opened CivicTypes

  /**
   * `new Map(items.map(x => [key(x), x]))`: entries are set in order, so when
   * a key repeats the later item wins.
   */
  function IndexBy<K(==,!new), V>(items: seq<V>, key: V -> K): map<K, V>
    decreases |items|
  {
    if items == [] then map[]
    else
      var last := items[|items| - 1];
      IndexBy(items[..|items| - 1], key)[key(last) := last]
  }

  /**
   * The map holds exactly the keys of the items, and each key maps to the
   * last item that has it.
   */
  lemma {:induction false} IndexByLastWins<K(!new), V>(items: seq<V>, key: V -> K)
    ensures forall k :: k in IndexBy(items, key) <==> exists j :: 0 <= j < |items| && key(items[j]) == k
    ensures forall j :: 0 <= j < |items| && (forall i :: j < i < |items| ==> key(items[i]) != key(items[j])) ==>
      IndexBy(items, key)[key(items[j])] == items[j]
    decreases |items|
  {
    if items != [] {
      var n := |items| - 1;
      var init := items[..n];
      IndexByLastWins(init, key);
      assert forall j :: 0 <= j < n ==> init[j] == items[j];
    }
  }

  /** Every value of the map is an item, stored under its own key. */
  lemma {:induction false} IndexByValues<K(!new), V>(items: seq<V>, key: V -> K)
    ensures forall k :: k in IndexBy(items, key) ==> IndexBy(items, key)[k] in items && key(IndexBy(items, key)[k]) == k
    decreases |items|
  {
    if items != [] {
      var init := items[..|items| - 1];
      IndexByValues(init, key);
      assert forall x :: x in init ==> x in items;
    }
  }

  /** `ids.map(id => m.get(id)).filter(Boolean)`: the values of the known ids, in order. */
  function Resolve<K(==,!new), V>(ids: seq<K>, m: map<K, V>): seq<V>
    decreases |ids|
  {
    if ids == [] then []
    else
      var id := ids[|ids| - 1];
      Resolve(ids[..|ids| - 1], m) + (if id in m then [m[id]] else [])
  }

  /** Every value resolved is the value of one of the ids. */
  lemma {:induction false} ResolveValues<K(!new), V>(ids: seq<K>, m: map<K, V>)
    ensures forall v :: v in Resolve(ids, m) ==> exists id :: id in ids && id in m && m[id] == v
    decreases |ids|
  {
    if ids != [] {
      var init := ids[..|ids| - 1];
      ResolveValues(init, m);
      assert forall x :: x in init ==> x in ids;
    }
  }

  /** The values of keys that are all in the map, in order. */
  function ValuesAt<K(==,!new), V>(ks: seq<K>, m: map<K, V>): (r: seq<V>)
    requires forall k :: k in ks ==> k in m
    ensures |r| == |ks| && forall i :: 0 <= i < |ks| ==> r[i] == m[ks[i]]
  {
    seq(|ks|, i requires 0 <= i < |ks| => m[ks[i]])
  }

  /** Resolving drops the unknown ids and looks up the others, keeping their order. */
  lemma {:induction false} ResolveDropsUnknown<K(!new), V>(ids: seq<K>, m: map<K, V>)
    ensures Resolve(ids, m) == ValuesAt(Filter(ids, (k: K) => k in m), m)
    decreases |ids|
  {
    if ids != [] {
      var n := |ids| - 1;
      var init, id := ids[..n], ids[n];
      assert ids == init + [id];
      ResolveDropsUnknown(init, m);
      FilterAppend(init, id, (k: K) => k in m);
    }
  }

  /** `issuesById`. */
  function IssuesById(allIssues: seq<KeyIssue>): map<string, KeyIssue> {
    IndexBy(allIssues, (i: KeyIssue) => i.id)
  }

  /** `politiciansById`. */
  function PoliticiansById(allPoliticians: seq<Politician>): map<int, Politician> {
    IndexBy(allPoliticians, (p: Politician) => p.id)
  }

  /** `politicianKeyIssues`: the issues of the politician's key-issue ids that exist, in that order. */
  function PoliticianKeyIssues(p: Politician, allIssues: seq<KeyIssue>): (r: seq<KeyIssue>)
    ensures |r| <= |p.keyIssues|
    ensures forall i :: i in r ==> i in allIssues && i.id in p.keyIssues
  {
    var m := IssuesById(allIssues);
    ResolveDropsUnknown(p.keyIssues, m);
    ResolveValues(p.keyIssues, m);
    IndexByValues(allIssues, (i: KeyIssue) => i.id);
    Resolve(p.keyIssues, m)
  }

  /** `relatedPoliticians`: the politicians of the related ids that exist, in that order. */
  function RelatedPoliticians(p: Politician, allPoliticians: seq<Politician>): (r: seq<Politician>)
    ensures |r| <= |p.relatedPoliticianIds|
    ensures forall q :: q in r ==> q in allPoliticians && q.id in p.relatedPoliticianIds
  {
    var m := PoliticiansById(allPoliticians);
    ResolveDropsUnknown(p.relatedPoliticianIds, m);
    ResolveValues(p.relatedPoliticianIds, m);
    IndexByValues(allPoliticians, (q: Politician) => q.id);
    Resolve(p.relatedPoliticianIds, m)
  }

  /**
   * The focus trap's `keydown` handler over `count` focusable elements, the
   * active one at index `active` (or elsewhere, any other value): the index
   * it moves the focus to, preventing the default, or `None` when it leaves
   * the key to the browser.
   */
  function TrapTarget(key: string, shift: bool, active: int, count: nat): (r: Option<nat>)
    requires count > 0
    ensures r.Some? ==> key == "Tab" && r.value < count
    ensures r.Some? <==> key == "Tab" && (if shift then active == 0 else active == count - 1)
    ensures r.Some? ==> r.value == (if shift then count - 1 else 0)
  {
    if key != "Tab" then None
    else if shift then (if active == 0 then Some(count - 1) else None)
    else if active == count - 1 then Some(0) else None
  }

  /** The trap installed by the mount effect; the focused element is tracked by index. */
  class FocusTrap {
    /** The number of focusable elements in the modal. */
    var count: nat
    /** Whether the effect installed the `keydown` listener (it returns early with no focusable element). */
    var installed: bool
    /** The index of the focused element, or -1 for an element outside the modal. */
    var focused: int
    /** The element focused when the modal opened (`triggerElementRef`). */
    var trigger: int

    /** The listener is only installed over at least one element. */
    predicate Valid()
      reads this
    {
      installed ==> count > 0
    }

    /** The mount effect: remember the trigger and, if there is a focusable element, focus the first. */
    constructor (elements: nat, previouslyFocused: int)
      ensures Valid()
      ensures count == elements && trigger == previouslyFocused
      ensures installed == (elements > 0)
      ensures focused == if elements > 0 then 0 else previouslyFocused
    {
      count := elements;
      trigger := previouslyFocused;
      installed := elements > 0;
      focused := if elements > 0 then 0 else previouslyFocused;
    }

    /** A `keydown` in the modal; returns whether the default was prevented. */
    method KeyDown(key: string, shift: bool) returns (prevented: bool)
      requires Valid()
      modifies this
      ensures Valid()
      ensures count == old(count) && installed == old(installed) && trigger == old(trigger)
      ensures !installed ==> !prevented && focused == old(focused)
      ensures installed ==> var t := TrapTarget(key, shift, old(focused), count);
        prevented == t.Some? && focused == (if t.Some? then t.value else old(focused))
    {
      prevented := false;
      if installed {
        var t := TrapTarget(key, shift, focused, count);
        if t.Some? {
          focused := t.value;
          prevented := true;
        }
      }
    }

    /**
     * The modal closing. The effect returned a cleanup only when it installed
     * the listener: that cleanup removes it and gives the focus back to the
     * trigger; otherwise nothing happens to the focus.
     */
    method Unmount()
      modifies this
      ensures Valid()
      ensures !installed
      ensures old(installed) ==> focused == trigger
      ensures !old(installed) ==> focused == old(focused)
      ensures count == old(count) && trigger == old(trigger)
    {
      if installed {
        focused := trigger;
      }
      installed := false;
    }
  }

  datatype Tab = Overview | Career | Policies

  /** `aiSummary`. */
  datatype Summary = Summary(loading: bool, data: Option<string>, error: Option<string>)

  const IdleSummary: Summary := Summary(false, None, None)

  /** The prefix of every fact-check error message. */
  const FailurePrefix: string := "Failed to fetch AI summary. "
  /** The message used when the thrown value is not an `Error`. */
  const UnknownError: string := "An unknown error occurred."

  /**
   * The outcome of the content-generation call: a response whose `text` may
   * be missing, or a thrown value, with its message when it is an `Error`.
   */
  datatype Outcome = Generated(text: Option<string>) | Failed(message: Option<string>)

  /** The summary `handleFactCheck` ends with. */
  function SettledSummary(outcome: Outcome): (s: Summary)
    ensures !s.loading
    ensures s.error.Some? <==> outcome.Failed?
    ensures s.data.Some? <==> outcome.Generated? && outcome.text.Some?
    ensures s.data.Some? ==> s.error.None?
    ensures s.error.Some? ==>
      (StartsWith(s.error.value, FailurePrefix) &&
       s.error.value[|FailurePrefix|..] == outcome.message.GetOr(UnknownError))
  {
    match outcome
    case Generated(text) => Summary(false, text, None)
    case Failed(message) => Summary(false, None, Some(FailurePrefix + message.GetOr(UnknownError)))
  }

  /** The modal's own state. */
  class ModalState {
    var politicianId: int
    var activeTab: Tab
    var summary: Summary

    constructor (id: int)
      ensures politicianId == id && activeTab == Overview && summary == IdleSummary
    {
      politicianId := id;
      activeTab := Overview;
      summary := IdleSummary;
    }

    /** A tab button's `onClick`. */
    method SelectTab(tab: Tab)
      modifies this
      ensures activeTab == tab && summary == old(summary) && politicianId == old(politicianId)
    {
      activeTab := tab;
    }

    /** A new `politician` prop: the reset effect runs when the id differs. */
    method ShowPolitician(id: int)
      modifies this
      ensures politicianId == id
      ensures id != old(politicianId) ==> activeTab == Overview && summary == IdleSummary
      ensures id == old(politicianId) ==> activeTab == old(activeTab) && summary == old(summary)
    {
      if id != politicianId {
        summary := IdleSummary;
        activeTab := Overview;
      }
      politicianId := id;
    }

    /** The synchronous part of `handleFactCheck`: the panel shows the loading state. */
    method BeginFactCheck()
      modifies this
      ensures summary == Summary(true, None, None)
      ensures activeTab == old(activeTab) && politicianId == old(politicianId)
    {
      summary := Summary(true, None, None);
    }

    /** The rest of `handleFactCheck`, once the call has settled. */
    method CompleteFactCheck(outcome: Outcome)
      modifies this
      ensures summary == SettledSummary(outcome)
      ensures activeTab == old(activeTab) && politicianId == old(politicianId)
    {
      match outcome
      case Generated(text) =>
        summary := Summary(false, text, None);
      case Failed(message) =>
        summary := Summary(false, None, Some(FailurePrefix + message.GetOr(UnknownError)));
    }
  }
}
