/** The checkbox list of the App component: a fixed list of labelled
    checkboxes and a "select all" checkbox whose flag should say whether every
    item is checked. The list computations are functions; the two event
    handlers are methods of a class whose fields are the two state cells. */
module CheckboxGroup {

  /** One checkbox: `name` is its label, which doubles as its identity (the
      input's id). */
  datatype Item = Item(name: string, checked: bool)

  /** The two state cells `items` and `allChecked`, taken together as a value. */
  datatype GroupState = GroupState(items: seq<Item>, allChecked: bool)

  /** The list the component starts with. */
  function InitialItems(): seq<Item>
  {
    [ Item("item1", false), Item("item2", true), Item("item3", false),
      Item("item4", false), Item("item5", true) ]
  }

  function InitialState(): GroupState
  {
    GroupState(InitialItems(), false)
  }

  /** Every item of the list is checked. */
  predicate AllChecked(items: seq<Item>)
  {
    forall i :: 0 <= i < |items| ==> items[i].checked
  }

  /** The invariant handleChange's doc comment promises: the "select all"
      flag is true iff every item is checked. */
  predicate Consistent(s: GroupState)
  {
    s.allChecked == AllChecked(s.items)
  }

  /** `b` is `a` with possibly different `checked` fields: same length, same
      labels, same order. */
  predicate SameLabels(a: seq<Item>, b: seq<Item>)
  {
    |a| == |b| && forall i :: 0 <= i < |a| ==> a[i].name == b[i].name
  }

  /** The number of checked items, `items.filter(i => i.checked).length`. */
  function CheckedCount(items: seq<Item>): (n: nat)
    ensures n <= |items|
  {
    if items == [] then 0
    else (if items[0].checked then 1 else 0) + CheckedCount(items[1..])
  }

  /** The count reaches the length exactly when every item is checked, which
      is what makes the two comparisons in handleChange decide the flag. */
  lemma {:induction false} FullCountIffAllChecked(items: seq<Item>)
    ensures CheckedCount(items) == |items| <==> AllChecked(items)
  {
    if items != [] {
      FullCountIffAllChecked(items[1..]);
      if AllChecked(items[1..]) && items[0].checked {
        forall i | 0 <= i < |items| ensures items[i].checked {
          if i > 0 { assert items[i] == items[1..][i - 1]; }
        }
      }
      if AllChecked(items) {
        forall i | 0 <= i < |items| - 1 ensures items[1..][i].checked {
          assert items[1..][i] == items[i + 1];
        }
      }
    }
  }

  /** The list built by handleChange: the item whose label is `id` is flipped,
      every other item is kept as it is. */
  function ToggleLabel(items: seq<Item>, id: string): seq<Item>
  {
    if items == [] then []
    else
      var head := if items[0].name == id then items[0].(checked := !items[0].checked) else items[0];
      [head] + ToggleLabel(items[1..], id)
  }

  /** handleChange flips exactly the items labelled `id` and returns every
      other item unchanged. */
  lemma {:induction false} ToggleLabelAt(items: seq<Item>, id: string)
    ensures |ToggleLabel(items, id)| == |items|
    ensures forall i :: 0 <= i < |items| && items[i].name == id ==>
              ToggleLabel(items, id)[i] == Item(id, !items[i].checked)
    ensures forall i :: 0 <= i < |items| && items[i].name != id ==>
              ToggleLabel(items, id)[i] == items[i]
  {
    if items != [] {
      ToggleLabelAt(items[1..], id);
      forall i | 0 < i < |items|
        ensures ToggleLabel(items, id)[i] == ToggleLabel(items[1..], id)[i - 1]
      {
      }
    }
  }

  /** Toggling only changes `checked` fields. */
  lemma {:induction false} ToggleLabelKeepsLabels(items: seq<Item>, id: string)
    ensures SameLabels(items, ToggleLabel(items, id))
  {
    ToggleLabelAt(items, id);
  }

  /** An id that labels no item leaves the list identical. */
  lemma {:induction false} ToggleUnknownLabel(items: seq<Item>, id: string)
    requires forall i :: 0 <= i < |items| ==> items[i].name != id
    ensures ToggleLabel(items, id) == items
  {
    if items != [] {
      ToggleUnknownLabel(items[1..], id);
    }
  }

  /** Two changes on the same checkbox cancel out. */
  lemma {:induction false} ToggleTwice(items: seq<Item>, id: string)
    ensures ToggleLabel(ToggleLabel(items, id), id) == items
  {
    if items != [] {
      ToggleTwice(items[1..], id);
    }
  }

  /** The list built by handleAllChecked: every item gets the incoming value. */
  function SetAll(items: seq<Item>, checked: bool): seq<Item>
  {
    if items == [] then [] else [items[0].(checked := checked)] + SetAll(items[1..], checked)
  }

  /** handleAllChecked keeps each label and sets its `checked` to the incoming value. */
  lemma {:induction false} SetAllAt(items: seq<Item>, checked: bool)
    ensures |SetAll(items, checked)| == |items|
    ensures forall i :: 0 <= i < |items| ==> SetAll(items, checked)[i] == Item(items[i].name, checked)
  {
    if items != [] {
      SetAllAt(items[1..], checked);
      forall i | 0 < i < |items|
        ensures SetAll(items, checked)[i] == SetAll(items[1..], checked)[i - 1]
      {
      }
    }
  }

  /** Setting every item to `checked` makes the list all-checked iff `checked`
      holds (or the list is empty). */
  lemma {:induction false} SetAllAllChecked(items: seq<Item>, checked: bool)
    ensures SameLabels(items, SetAll(items, checked))
    ensures AllChecked(SetAll(items, checked)) <==> (checked || items == [])
  {
    SetAllAt(items, checked);
    if items != [] && !checked {
      assert !SetAll(items, checked)[0].checked;
    }
  }

  /** State after handleChange for the checkbox labelled `id`. */
  function AfterChange(s: GroupState, id: string): GroupState
  {
    var newItems := ToggleLabel(s.items, id);
    GroupState(newItems, AllChecked(newItems))
  }

  /** State after handleAllChecked with the event value `checked`: the flag is
      negated whatever `checked` is. */
  function AfterAllChecked(s: GroupState, checked: bool): GroupState
  {
    GroupState(SetAll(s.items, checked), !s.allChecked)
  }

  /** After the bulk toggle the invariant holds exactly when the event value is
      the negation of the old flag (for a non-empty list), whether or not it
      held before. */
  lemma AfterAllCheckedConsistency(s: GroupState, checked: bool)
    ensures s.items != [] ==> (Consistent(AfterAllChecked(s, checked)) <==> checked == !s.allChecked)
    ensures s.items == [] ==> (Consistent(AfterAllChecked(s, checked)) <==> !s.allChecked)
  {
    SetAllAllChecked(s.items, checked);
  }

  /** A bulk toggle whose event value equals the current flag breaks the
      invariant of a consistent, non-empty group. */
  lemma AllCheckedWithStaleValueBreaks(s: GroupState)
    requires Consistent(s) && s.items != []
    ensures !Consistent(AfterAllChecked(s, s.allChecked))
  {
    AfterAllCheckedConsistency(s, s.allChecked);
  }

  /** An event the rendering layer forwards to the group. */
  datatype Event = Change(id: string) | AllToggle(checked: bool)

  function Step(s: GroupState, e: Event): GroupState
  {
    match e
    case Change(id) => AfterChange(s, id)
    case AllToggle(checked) => AfterAllChecked(s, checked)
  }

  /** The "select all" input is controlled by the flag, so a click on it
      delivers the negation of the current flag. */
  predicate Controlled(s: GroupState, e: Event)
  {
    e.AllToggle? ==> e.checked == !s.allChecked
  }

  function Run(s: GroupState, events: seq<Event>): GroupState
    decreases |events|
  {
    if events == [] then s else Run(Step(s, events[0]), events[1..])
  }

  /** Every event of the sequence is delivered by the controlled inputs. */
  predicate ControlledRun(s: GroupState, events: seq<Event>)
    decreases |events|
  {
    events == [] || (Controlled(s, events[0]) && ControlledRun(Step(s, events[0]), events[1..]))
  }

  /** One event keeps the labels, and a controlled event on a non-empty list
      leaves the invariant true. */
  lemma StepKeepsInvariant(s: GroupState, e: Event)
    requires s.items != [] && Controlled(s, e)
    ensures SameLabels(s.items, Step(s, e).items)
    ensures Consistent(Step(s, e))
  {
    match e
    case Change(id) => ToggleLabelKeepsLabels(s.items, id);
    case AllToggle(checked) =>
      SetAllAllChecked(s.items, checked);
      AfterAllCheckedConsistency(s, checked);
  }

  /** Any sequence of controlled events keeps the labels and the invariant. */
  lemma {:induction false} ControlledRunKeepsInvariant(s: GroupState, events: seq<Event>)
    requires s.items != [] && Consistent(s) && ControlledRun(s, events)
    ensures SameLabels(s.items, Run(s, events).items)
    ensures Consistent(Run(s, events))
    decreases |events|
  {
    if events != [] {
      var t := Step(s, events[0]);
      StepKeepsInvariant(s, events[0]);
      ControlledRunKeepsInvariant(t, events[1..]);
    }
  }

  /** The initial state is consistent: two of five items are checked and the
      flag is false. */
  lemma InitialStateConsistent()
    ensures Consistent(InitialState())
    ensures |InitialState().items| == 5 && CheckedCount(InitialState().items) == 2
  {
    assert !InitialItems()[0].checked;
  }

  /** Every state reached from the initial one by the controlled inputs has the
      five initial labels in order and satisfies the invariant. */
  lemma ReachableStatesConsistent(events: seq<Event>)
    requires ControlledRun(InitialState(), events)
    ensures SameLabels(InitialItems(), Run(InitialState(), events).items)
    ensures Consistent(Run(InitialState(), events))
  {
    InitialStateConsistent();
    ControlledRunKeepsInvariant(InitialState(), events);
  }

  /** The component's checkbox state cells and its two change handlers. */
  class CheckboxGroupComponent {
    var items: seq<Item>
    var allChecked: bool

    function State(): GroupState
      reads this
    {
      GroupState(items, allChecked)
    }

    constructor ()
      ensures items == InitialItems() && !allChecked
      ensures Consistent(State())
    {
      items := InitialItems();
      allChecked := false;
      new;
      InitialStateConsistent();
    }

    /** handleChange: flip the checkbox labelled `id`, then set the flag from
        the two comparisons of the checked count with the length. */
    method HandleChange(id: string)
      modifies this
      ensures State() == AfterChange(old(State()), id)
      ensures SameLabels(old(items), items)
      ensures allChecked <==> AllChecked(items)
    {
      var newItems := ToggleLabel(items, id);
      FullCountIffAllChecked(newItems);
      if CheckedCount(newItems) < |newItems| {
        allChecked := false;
      }
      if CheckedCount(newItems) == |newItems| {
        allChecked := true;
      }
      ToggleLabelKeepsLabels(items, id);
      items := newItems;
    }

    /** handleAllChecked: give every item the event's `checked` value and
        negate the flag. */
    method HandleAllChecked(checked: bool)
      modifies this
      ensures State() == AfterAllChecked(old(State()), checked)
      ensures SameLabels(old(items), items)
      ensures forall i :: 0 <= i < |items| ==> items[i].checked == checked
      ensures allChecked == !old(allChecked)
      ensures old(items) != [] && checked == !old(allChecked) ==> Consistent(State())
    {
      var newItems := SetAll(items, checked);
      SetAllAt(items, checked);
      AfterAllCheckedConsistency(State(), checked);
      allChecked := !allChecked;
      items := newItems;
    }
  }
}
