/**
 * The maturity state observer: it keeps the last observed maturity state of
 * every project in a key-value storage and reports, against a fresh state,
 * the items that are failing now but were passing (or unknown) when the
 * project was last observed.
 */
module MaturityStateObserver {
  import opened Common
  import opened ProjectMaturityStates

  /** The item states of all levels, level after level, each level's items in order. */
  function AllItems(levels: seq<LevelState>): (items: seq<ItemState>)
    ensures forall x :: x in items <==> exists l :: l in levels && x in l.itemStates
  {
    if levels == [] then []
    else
      var init := levels[..|levels| - 1];
      var items := AllItems(init) + levels[|levels| - 1].itemStates;
      assert forall l :: l in levels <==> l in init || l == levels[|levels| - 1];
      items
  }

  /** The first item state, in level and item order, whose item has the code. */
  function FindItemByCode(state: ProjectMaturityState, code: string): (r: Option<ItemState>)
    ensures r.None? <==> forall x :: x in AllItems(state.levelStates) ==> x.item.code != code
    ensures r.Some? ==> r.value.item.code == code && r.value in AllItems(state.levelStates)
  {
    var items := AllItems(state.levelStates);
    var k := FirstIndex(items, (x: ItemState) => x.item.code == code);
    if k < 0 then None else Some(items[k])
  }

  /** The item is failing now, and its code was absent from the old state or passing in it. */
  predicate NewlyFailedItem(previous: ProjectMaturityState, x: ItemState) {
    var before := FindItemByCode(previous, x.item.code);
    !Passed(x) && (before.None? || Passed(before.value))
  }

  /** The newly failed items among `items`, in their order. */
  function NewlyFailedIn(previous: ProjectMaturityState, items: seq<ItemState>): (r: seq<ItemState>)
  {
    if items == [] then []
    else
      var x := items[|items| - 1];
      NewlyFailedIn(previous, items[..|items| - 1]) + (if NewlyFailedItem(previous, x) then [x] else [])
  }

  /** The newly failed items of the new state against the old one, in the new state's order. */
  function NewlyFailed(previous: ProjectMaturityState, current: ProjectMaturityState): seq<ItemState> {
    NewlyFailedIn(previous, AllItems(current.levelStates))
  }

  /**
   * An item is reported exactly when it is in the new state, it is not passed
   * there (an unset `isPassed` counts as not passed), and its code was absent
   * from the old state or passed there; the report keeps the new state's order.
   */
  lemma {:induction false} NewlyFailedIsOrderedFilter(previous: ProjectMaturityState, items: seq<ItemState>)
    ensures forall x :: x in NewlyFailedIn(previous, items) <==> x in items && NewlyFailedItem(previous, x)
    ensures NewlyFailedIn(previous, items) == Filter(items, (x: ItemState) => NewlyFailedItem(previous, x))
  {
    if items != [] {
      var init, x := items[..|items| - 1], items[|items| - 1];
      NewlyFailedIsOrderedFilter(previous, init);
      assert items == init + [x];
      FilterAppend(init, [x], (x: ItemState) => NewlyFailedItem(previous, x));
      assert [x][1..] == [];
    }
  }

  /** An item that passes now, or that was already failing when last observed, is never reported. */
  lemma StillPassingOrStillFailingNotReported(previous: ProjectMaturityState, current: ProjectMaturityState, x: ItemState)
    requires Passed(x) || (FindItemByCode(previous, x.item.code).Some? && !Passed(FindItemByCode(previous, x.item.code).value))
    ensures x !in NewlyFailed(previous, current)
  {
    NewlyFailedIsOrderedFilter(previous, AllItems(current.levelStates));
  }

  /** When every item passes again by the next observation, nothing is reported, whatever failed in between. */
  lemma AllPassingReportsNothing(previous: ProjectMaturityState, current: ProjectMaturityState)
    requires forall x :: x in AllItems(current.levelStates) ==> Passed(x)
    ensures NewlyFailed(previous, current) == []
  {
    var p := (x: ItemState) => NewlyFailedItem(previous, x);
    NewlyFailedIsOrderedFilter(previous, AllItems(current.levelStates));
    FilterKeepsNone(AllItems(current.levelStates), p);
  }

  /** Every project in the list, in order, with the state to store for it. */
  function StoreAll(storage: map<nat, ProjectMaturityState>, states: seq<(nat, ProjectMaturityState)>): (r: map<nat, ProjectMaturityState>)
  {
    if states == [] then storage
    else StoreAll(storage, states[..|states| - 1])[states[|states| - 1].0 := states[|states| - 1].1]
  }

  /** After storing, a listed project holds the last state listed for it, and any other project keeps its state. */
  lemma {:induction false} StoreAllKeepsLastState(storage: map<nat, ProjectMaturityState>, states: seq<(nat, ProjectMaturityState)>, project: nat)
    ensures var r := StoreAll(storage, states);
      var k := LastIndex(states, (p: (nat, ProjectMaturityState)) => p.0 == project);
      && (k >= 0 ==> project in r && r[project] == states[k].1)
      && (k < 0 ==> (project in r <==> project in storage) && (project in storage ==> r[project] == storage[project]))
  {
    if states != [] {
      StoreAllKeepsLastState(storage, states[..|states| - 1], project);
      var init := states[..|states| - 1];
      var k := LastIndex(states, (p: (nat, ProjectMaturityState)) => p.0 == project);
      var k0 := LastIndex(init, (p: (nat, ProjectMaturityState)) => p.0 == project);
      if states[|states| - 1].0 != project {
        assert k == k0 by {
          if k0 >= 0 {
            assert states[k0] == init[k0];
          }
          if k >= 0 {
            assert k < |states| - 1;
            assert init[k] == states[k];
          }
        }
        if k >= 0 {
          assert states[k] == init[k];
        }
      }
    }
  }

  /** The observer and its storage of the last observed state of each project. */
  class ProjectsMaturityStateObserver {
    var storage: map<nat, ProjectMaturityState>

    /** A new observer starts with an empty in-memory storage. */
    constructor()
      ensures storage == map[]
    {
      storage := map[];
    }

    /** Observes one project: stores its current state. */
    method UpdateProjectState(project: nat, state: ProjectMaturityState)
      modifies this
      ensures storage == old(storage)[project := state]
    {
      storage := storage[project := state];
    }

    /**
     * Observes every project, in order. The states are an input: the source
     * computes each one with `ProjectRetrieve.GetProjectMaturityState` over the
     * current tables, which this method does not repeat.
     */
    method UpdateProjectMaturityStates(states: seq<(nat, ProjectMaturityState)>)
      modifies this
      ensures storage == StoreAll(old(storage), states)
    {
      for i := 0 to |states|
        invariant storage == StoreAll(old(storage), states[..i])
      {
        assert states[..i + 1][..i] == states[..i];
        UpdateProjectState(states[i].0, states[i].1);
      }
      assert states[..|states|] == states;
    }

    /** The nested scan for the first item with the code. */
    method FindItemByCodeIn(state: ProjectMaturityState, code: string) returns (r: Option<ItemState>)
      ensures r == FindItemByCode(state, code)
    {
      var levels := state.levelStates;
      for i := 0 to |levels|
        invariant forall x :: x in AllItems(levels[..i]) ==> x.item.code != code
      {
        assert levels[..i + 1][..i] == levels[..i];
        var items := levels[i].itemStates;
        for j := 0 to |items|
          invariant forall k :: 0 <= k < j ==> items[k].item.code != code
        {
          if items[j].item.code == code {
            FirstMatchIsFound(levels, i, j, code);
            return Some(items[j]);
          }
        }
        assert forall x :: x in items ==> x.item.code != code;
      }
      assert levels[..|levels|] == levels;
      return None;
    }

    /**
     * The items of the current state that failed since the project was last
     * observed; nothing when it was never observed.
     */
    method GetNewlyFailedItems(project: nat, current: ProjectMaturityState) returns (items: seq<ItemState>)
      ensures project !in storage ==> items == []
      ensures project in storage ==> items == NewlyFailed(storage[project], current)
    {
      if project !in storage {
        return [];
      }
      var previous := storage[project];
      items := [];
      var levels := current.levelStates;
      for i := 0 to |levels|
        invariant items == NewlyFailedIn(previous, AllItems(levels[..i]))
      {
        ghost var done := AllItems(levels[..i]);
        var levelItems := levels[i].itemStates;
        assert done + levelItems[..0] == done;
        for j := 0 to |levelItems|
          invariant items == NewlyFailedIn(previous, done + levelItems[..j])
        {
          var x := levelItems[j];
          SnocPrefix(done, levelItems, j);
          NewlyFailedInSnoc(previous, done + levelItems[..j], x);
          if !Passed(x) {
            var before := FindItemByCodeIn(previous, x.item.code);
            if before.None? || Passed(before.value) {
              items := items + [x];
            }
          }
        }
        AllItemsSnoc(levels, i);
        assert levelItems[..|levelItems|] == levelItems;
      }
      assert levels[..|levels|] == levels;
    }
  }

  lemma NewlyFailedInSnoc(previous: ProjectMaturityState, done: seq<ItemState>, x: ItemState)
    ensures NewlyFailedIn(previous, done + [x]) == NewlyFailedIn(previous, done) + (if NewlyFailedItem(previous, x) then [x] else [])
  {
    assert (done + [x])[..|done|] == done;
  }

  lemma SnocPrefix(done: seq<ItemState>, s: seq<ItemState>, j: nat)
    requires j < |s|
    ensures done + s[..j + 1] == (done + s[..j]) + [s[j]]
  {
    assert s[..j + 1] == s[..j] + [s[j]];
  }

  lemma AllItemsSnoc(levels: seq<LevelState>, i: nat)
    requires i < |levels|
    ensures AllItems(levels[..i + 1]) == AllItems(levels[..i]) + levels[i].itemStates
  {
    assert levels[..i + 1][..i] == levels[..i];
  }

  /** The item found at position `j` of level `i`, after no earlier match, is the first match in level order. */
  lemma FirstMatchIsFound(levels: seq<LevelState>, i: nat, j: nat, code: string)
    requires i < |levels| && j < |levels[i].itemStates|
    requires forall x :: x in AllItems(levels[..i]) ==> x.item.code != code
    requires forall k :: 0 <= k < j ==> levels[i].itemStates[k].item.code != code
    requires levels[i].itemStates[j].item.code == code
    ensures FindItemByCode(ProjectMaturityState(0, levels), code) == Some(levels[i].itemStates[j])
  {
    var p := (x: ItemState) => x.item.code == code;
    var before := AllItems(levels[..i]);
    var all := AllItems(levels);
    AllItemsPrefix(levels, i + 1);
    assert levels[..i + 1][..i] == levels[..i];
    assert AllItems(levels[..i + 1]) == before + levels[i].itemStates;
    var n := |before| + j;
    assert all[n] == (before + levels[i].itemStates)[n];
    forall k | 0 <= k < n ensures !p(all[k]) {
      assert all[k] == (before + levels[i].itemStates)[k];
      if k < |before| {
        assert before[k] in before;
      }
    }
    var f := FirstIndex(all, p);
    assert f == n;
  }

  /** The items of the first `m` levels start the items of all levels. */
  lemma {:induction false} AllItemsPrefix(levels: seq<LevelState>, m: nat)
    requires m <= |levels|
    ensures AllItems(levels[..m]) <= AllItems(levels)
    decreases |levels|
  {
    if m == |levels| {
      assert levels[..m] == levels;
    } else {
      var init := levels[..|levels| - 1];
      assert init[..m] == levels[..m];
      AllItemsPrefix(init, m);
    }
  }
}
