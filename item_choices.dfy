/**
 * The choices the goal form offers: one choice per maturity level that still
 * has an item to pick, labelled with the level's name, whose children are
 * that level's items which are neither disabled nor waiting on an
 * evaluation request, each labelled "[code] name".
 */
module ItemChoices {
  import opened Common

  datatype MaturityItem = MaturityItem(id: int, code: string, name: string)

  /** An item's state in the project: `latestPendingEvaluationRequestId` is `None` for `null`. */
  datatype ItemState = ItemState(item: MaturityItem, disabled: bool, latestPendingEvaluationRequestId: Option<int>)

  datatype LevelState = LevelState(name: string, itemStates: seq<ItemState>)

  /** A selectable item: its label, and the one id it stands for. */
  datatype Child = Child(labelText: string, ids: seq<int>)

  /** A level: its label, its selectable items, and their ids. */
  datatype Choice = Choice(labelText: string, children: seq<Child>, ids: seq<int>)

  /** `!!latest_pending_evaluation_request_id`: a request id is pending unless it is `null` or the falsy `0`. */
  predicate HasPendingRequest(s: ItemState) {
    s.latestPendingEvaluationRequestId.Some? && s.latestPendingEvaluationRequestId.value != 0
  }

  /** An item the goal may name. */
  predicate Selectable(s: ItemState) {
    !s.disabled && !HasPendingRequest(s)
  }

  function ItemLabel(item: MaturityItem): string {
    "[" + item.code + "] " + item.name
  }

  function ChildOf(s: ItemState): Child {
    Child(ItemLabel(s.item), [s.item.id])
  }

  function ItemId(s: ItemState): int { s.item.id }

  // ---------------------------------------------------------------------------
  // What the loops build, position by position
  // ---------------------------------------------------------------------------

  /** The children the inner loop has pushed after the given item states. */
  function LevelChildren(items: seq<ItemState>): seq<Child> {
    if items == [] then []
    else
      var last := items[|items| - 1];
      LevelChildren(items[..|items| - 1]) + (if Selectable(last) then [ChildOf(last)] else [])
  }

  /** The ids the inner loop has pushed after the given item states. */
  function LevelIds(items: seq<ItemState>): seq<int> {
    if items == [] then []
    else
      var last := items[|items| - 1];
      LevelIds(items[..|items| - 1]) + (if Selectable(last) then [last.item.id] else [])
  }

  /** The choice a level contributes when it has children. */
  function LevelChoice(level: LevelState): Choice {
    Choice(level.name, LevelChildren(level.itemStates), LevelIds(level.itemStates))
  }

  predicate HasChildren(level: LevelState) {
    LevelChildren(level.itemStates) != []
  }

  /** The choices the outer loop has pushed after the given levels. */
  function ChoicesOf(levels: seq<LevelState>): seq<Choice> {
    if levels == [] then []
    else
      var last := levels[|levels| - 1];
      ChoicesOf(levels[..|levels| - 1]) + (if HasChildren(last) then [LevelChoice(last)] else [])
  }

  /** `get_goal_item_choices_from_maturity_model`. */
  method GetGoalItemChoices(levels: seq<LevelState>) returns (choices: seq<Choice>)
    ensures choices == ChoicesOf(levels)
  {
    choices := [];
    for i := 0 to |levels|
      invariant choices == ChoicesOf(levels[..i])
    {
      var level := levels[i];
      var children: seq<Child> := [];
      var ids: seq<int> := [];
      for j := 0 to |level.itemStates|
        invariant children == LevelChildren(level.itemStates[..j])
        invariant ids == LevelIds(level.itemStates[..j])
      {
        assert level.itemStates[..j + 1][..j] == level.itemStates[..j];
        var state := level.itemStates[j];
        var pending := state.latestPendingEvaluationRequestId.Some? && state.latestPendingEvaluationRequestId.value != 0;
        if state.disabled || pending {
          continue;
        }
        ids := ids + [state.item.id];
        children := children + [Child("[" + state.item.code + "] " + state.item.name, [state.item.id])];
      }
      assert level.itemStates[..|level.itemStates|] == level.itemStates;
      assert levels[..i + 1][..i] == levels[..i];
      if |children| == 0 {
        continue;
      }
      choices := choices + [Choice(level.name, children, ids)];
    }
    assert levels[..|levels|] == levels;
  }

  // ---------------------------------------------------------------------------
  // The same, stated as a filter
  // ---------------------------------------------------------------------------

  lemma FilterSnoc<T(!new)>(s: seq<T>, x: T, p: T -> bool)
    ensures Filter(s + [x], p) == Filter(s, p) + (if p(x) then [x] else [])
  {
    FilterAppend(s, [x], p);
  }

  lemma MapSeqAppend<A, B>(s: seq<A>, t: seq<A>, f: A -> B)
    ensures MapSeq(s + t, f) == MapSeq(s, f) + MapSeq(t, f)
  {
    MapSeqUnique(s + t, f, MapSeq(s, f) + MapSeq(t, f));
  }

  /**
   * A level's children are exactly its selectable items, in item order, each
   * as "[code] name" with its own id: disabled items and items with a pending
   * request never appear.
   */
  lemma {:induction false} LevelChildrenAreSelectableItems(items: seq<ItemState>)
    ensures LevelChildren(items) == MapSeq(Filter(items, Selectable), ChildOf)
  {
    if items != [] {
      var init, last := items[..|items| - 1], items[|items| - 1];
      var tail := if Selectable(last) then [last] else [];
      assert Filter(items, Selectable) == Filter(init, Selectable) + tail by {
        assert items == init + [last];
        FilterSnoc(init, last, Selectable);
      }
      LevelChildrenAreSelectableItems(init);
      MapSeqAppend(Filter(init, Selectable), tail, ChildOf);
    }
  }

  /** A level's ids are the ids of its selectable items, in item order. */
  lemma {:induction false} LevelIdsAreSelectableIds(items: seq<ItemState>)
    ensures LevelIds(items) == MapSeq(Filter(items, Selectable), ItemId)
  {
    if items != [] {
      var init, last := items[..|items| - 1], items[|items| - 1];
      var tail := if Selectable(last) then [last] else [];
      assert Filter(items, Selectable) == Filter(init, Selectable) + tail by {
        assert items == init + [last];
        FilterSnoc(init, last, Selectable);
      }
      LevelIdsAreSelectableIds(init);
      MapSeqAppend(Filter(init, Selectable), tail, ItemId);
    }
  }

  /** Position by position, a level's ids are its children's single ids, and each child is labelled "[code] name". */
  lemma LevelIdsAreChildIds(items: seq<ItemState>)
    ensures |LevelIds(items)| == |LevelChildren(items)|
    ensures forall k :: 0 <= k < |LevelIds(items)| ==> LevelChildren(items)[k].ids == [LevelIds(items)[k]]
    ensures forall k :: 0 <= k < |LevelIds(items)| ==>
      exists s :: s in items && Selectable(s) && LevelChildren(items)[k] == Child("[" + s.item.code + "] " + s.item.name, [s.item.id])
  {
    LevelChildrenAreSelectableItems(items);
    LevelIdsAreSelectableIds(items);
    var kept := Filter(items, Selectable);
    forall k | 0 <= k < |LevelIds(items)|
      ensures exists s :: s in items && Selectable(s) && LevelChildren(items)[k] == Child("[" + s.item.code + "] " + s.item.name, [s.item.id])
    {
      assert kept[k] in kept;
    }
  }

  /** A level has children exactly when one of its items is selectable. */
  lemma HasChildrenIffSelectable(level: LevelState)
    ensures HasChildren(level) <==> exists s :: s in level.itemStates && Selectable(s)
  {
    var kept := Filter(level.itemStates, Selectable);
    FilterMembers(level.itemStates, Selectable);
    LevelChildrenAreSelectableItems(level.itemStates);
    if kept != [] {
      assert kept[0] in kept;
    }
  }

  /**
   * The choices are the levels that have a selectable item, in level order,
   * each labelled with the level's name: levels left without items are omitted.
   */
  lemma {:induction false} ChoicesAreLevelsWithItems(levels: seq<LevelState>)
    ensures ChoicesOf(levels) == MapSeq(Filter(levels, HasChildren), LevelChoice)
  {
    if levels != [] {
      var init, last := levels[..|levels| - 1], levels[|levels| - 1];
      var tail := if HasChildren(last) then [last] else [];
      assert Filter(levels, HasChildren) == Filter(init, HasChildren) + tail by {
        assert levels == init + [last];
        FilterSnoc(init, last, HasChildren);
      }
      ChoicesAreLevelsWithItems(init);
      MapSeqAppend(Filter(init, HasChildren), tail, LevelChoice);
    }
  }

  /** Every choice is a level's, named after it, with at least one child and one id per child. */
  lemma EveryChoiceIsNonEmpty(levels: seq<LevelState>)
    ensures |ChoicesOf(levels)| <= |levels|
    ensures forall c :: c in ChoicesOf(levels) ==>
      c.children != [] && |c.ids| == |c.children| && exists l :: l in levels && l.name == c.labelText
  {
    ChoicesAreLevelsWithItems(levels);
    var kept := Filter(levels, HasChildren);
    forall c | c in ChoicesOf(levels)
      ensures c.children != [] && |c.ids| == |c.children| && exists l :: l in levels && l.name == c.labelText
    {
      var k :| 0 <= k < |kept| && ChoicesOf(levels)[k] == c;
      assert kept[k] in kept;
      LevelIdsAreChildIds(kept[k].itemStates);
    }
  }

  // ---------------------------------------------------------------------------
  // An example
  // ---------------------------------------------------------------------------

  function ExampleLevels(): seq<LevelState> {
    [LevelState("Level 1", [ItemState(MaturityItem(1, "A1", "Tests"), false, None),
                            ItemState(MaturityItem(2, "A2", "Lint"), true, None),
                            ItemState(MaturityItem(3, "A3", "Build"), false, Some(7))]),
     LevelState("Level 2", [ItemState(MaturityItem(4, "B1", "Deploy"), false, Some(0))]),
     LevelState("Level 3", [ItemState(MaturityItem(5, "C1", "Docs"), true, None)])]
  }

  /**
   * The disabled item and the one with a pending request drop out of the first
   * level, a pending id of `0` counts as none, and the third level, whose only
   * item is disabled, is omitted.
   */
  lemma ExampleChoices()
    ensures ChoicesOf(ExampleLevels()) ==
      [Choice("Level 1", [Child("[A1] Tests", [1])], [1]),
       Choice("Level 2", [Child("[B1] Deploy", [4])], [4])]
  {
    var ls := ExampleLevels();
    ExampleFirstLevel();
    ExampleSecondLevel();
    ExampleThirdLevel();
    assert ChoicesOf(ls[..1]) == [LevelChoice(ls[0])] by {
      assert ls[..1][..0] == [];
    }
    assert ChoicesOf(ls[..2]) == [LevelChoice(ls[0]), LevelChoice(ls[1])] by {
      assert ls[..2][..1] == ls[..1];
    }
    assert ls[..2] == ls[..|ls| - 1];
  }

  lemma ExampleFirstLevel()
    ensures LevelChildren(ExampleLevels()[0].itemStates) == [Child("[A1] Tests", [1])]
    ensures LevelIds(ExampleLevels()[0].itemStates) == [1]
  {
    var items := ExampleLevels()[0].itemStates;
    var tests := Child("[A1] Tests", [1]);
    assert ItemLabel(items[0].item) == "[A1] Tests";
    assert LevelChildren(items[..1]) == [tests] && LevelIds(items[..1]) == [1] by {
      assert items[..1][..0] == [];
    }
    assert LevelChildren(items[..2]) == [tests] && LevelIds(items[..2]) == [1] by {
      assert items[..2][..1] == items[..1];
    }
    assert items[..2] == items[..|items| - 1];
  }

  lemma ExampleSecondLevel()
    ensures LevelChildren(ExampleLevels()[1].itemStates) == [Child("[B1] Deploy", [4])]
    ensures LevelIds(ExampleLevels()[1].itemStates) == [4]
  {
    var items := ExampleLevels()[1].itemStates;
    assert ItemLabel(items[0].item) == "[B1] Deploy";
    assert items[..0] == [];
  }

  lemma ExampleThirdLevel()
    ensures LevelChildren(ExampleLevels()[2].itemStates) == []
  {
    var items := ExampleLevels()[2].itemStates;
    assert items[..0] == [];
  }
}
