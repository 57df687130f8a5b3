/**
  Selection protocol of a list item inside its list group.

  A `ListItem` carries a `selected` flag, a `disabled` flag, an optional semantic
  style and the class set of its element. Its owning `ListGroup` is seen only
  through what the item asks of it: `isSelectable`, `isMultiSelect`, `getItems`
  and the `onSelectionChange` callback. The group is modelled as the class
  `ListGroup` below, which holds the items in order; an item is named by its
  index in that sequence. The callback is modelled by a log of the indices it
  was called with.

  The value-level functions (`SelectAt`, `DeselectAt`, ...) are the
  specification: each states in its contract what one call does. The methods
  of `ListGroup` perform the same steps in place and are proved equal to them.
*/
module Lists {
  import opened Wrappers

  /** Class that marks a selected item. */
  const ActiveClass: string := "active"
  /** Class that marks a disabled item. */
  const DisabledClass: string := "disabled"

  /** One list item: payload, the two flags, the last semantic style applied and
      the classes on its element. */
  datatype Item<T> = Item(value: T, selected: bool, disabled: bool, style: Option<string>, classes: set<string>)

  /** The group as seen by its items: the two mode flags, the items in order and
      the log of `onSelectionChange` calls (the index of the item passed each time). */
  datatype Group<T> = Group(items: seq<Item<T>>, selectable: bool, multiSelect: bool, notified: seq<nat>)

  // ---------------------------------------------------------------------------
  // Helpers for stating frames

  /** The item's payload, disabled flag and style are the same in both. */
  ghost predicate SameData<T>(a: Item<T>, b: Item<T>)
  {
    a.value == b.value && a.disabled == b.disabled && a.style == b.style
  }

  /** Both sequences have the same length and agree everywhere except at `i`. */
  ghost predicate SameElsewhere<T>(a: seq<Item<T>>, b: seq<Item<T>>, i: nat)
  {
    |a| == |b| && forall k :: 0 <= k < |a| && k != i ==> a[k] == b[k]
  }

  /** The group's mode flags are unchanged. */
  predicate SameModes<T>(g: Group<T>, r: Group<T>)
  {
    g.selectable == r.selectable && g.multiSelect == r.multiSelect
  }

  /** `deselect(true)` applied to one item: a selected item loses its flag and the
      "active" class; an unselected item is left alone. */
  function Unmarked<T>(it: Item<T>): Item<T>
  {
    if it.selected then it.(selected := false, classes := it.classes - {ActiveClass}) else it
  }

  /** The items after the single-select sweep that deselects every item silently. */
  function Swept<T>(items: seq<Item<T>>): seq<Item<T>>
  {
    seq(|items|, k requires 0 <= k < |items| => Unmarked(items[k]))
  }

  // ---------------------------------------------------------------------------
  // One call, as a function of the state before it

  /** `deselect(silent)` on item `i`. */
  function DeselectAt<T>(g: Group<T>, i: nat, silent: bool): (r: Group<T>)
    requires i < |g.items|
    ensures SameModes(g, r) && SameElsewhere(g.items, r.items, i)
    ensures !r.items[i].selected && SameData(g.items[i], r.items[i])
    // deselecting an unselected item is a no-op
    ensures !g.items[i].selected ==> r == g
    ensures g.items[i].selected ==> r.items[i].classes == g.items[i].classes - {ActiveClass}
    // a state change notifies exactly once, and only when not silent
    ensures r.notified == g.notified + (if g.items[i].selected && !silent then [i] else [])
  {
    if g.items[i].selected then
      g.(items := g.items[i := Unmarked(g.items[i])],
         notified := if silent then g.notified else g.notified + [i])
    else
      g
  }

  /** `select(silent)` on item `i`. In single-select mode every item of the group,
      this one included, is first deselected silently; the item is then marked
      unless it is (still) selected. */
  function SelectAt<T>(g: Group<T>, i: nat, silent: bool): (r: Group<T>)
    requires i < |g.items|
    ensures SameModes(g, r) && |r.items| == |g.items| && SameData(g.items[i], r.items[i])
    // a group that is not selectable is left entirely alone
    ensures !g.selectable ==> r == g
    ensures g.selectable ==> r.items[i].selected
    // single-select: every other item ends unselected, through a silent deselect
    ensures g.selectable && !g.multiSelect ==>
              forall k :: 0 <= k < |g.items| && k != i ==> !r.items[k].selected && r.items[k] == Unmarked(g.items[k])
    // multi-select: the other items are never touched, and re-selecting changes nothing
    ensures g.multiSelect ==> SameElsewhere(g.items, r.items, i)
    ensures g.multiSelect && g.items[i].selected ==> r == g
    ensures g.selectable && !(g.multiSelect && g.items[i].selected) ==>
              r.items[i].classes == g.items[i].classes + {ActiveClass}
    // the only notification is about item i itself; in single-select mode it is sent
    // even when the item was already selected
    ensures r.notified == g.notified + (if g.selectable && !silent && !(g.multiSelect && g.items[i].selected) then [i] else [])
  {
    if !g.selectable then g
    else
      var items := if g.multiSelect then g.items else Swept(g.items);
      if items[i].selected then g.(items := items)
      else
        g.(items := items[i := items[i].(selected := true, classes := items[i].classes + {ActiveClass})],
           notified := if silent then g.notified else g.notified + [i])
  }

  /** `setSelectedItem()`, the click / Enter toggle. */
  function ToggleAt<T>(g: Group<T>, i: nat): (r: Group<T>)
    requires i < |g.items|
    ensures SameModes(g, r) && |r.items| == |g.items|
    // a disabled item ignores the toggle completely
    ensures g.items[i].disabled ==> r == g
    // an enabled item flips, except that it is only selected in a selectable group
    ensures !g.items[i].disabled ==> r.items[i].selected == (!g.items[i].selected && g.selectable)
    // an enabled item notifies exactly once whenever its state changes
    ensures !g.items[i].disabled ==>
              r.notified == g.notified + (if g.items[i].selected || g.selectable then [i] else [])
  {
    if g.items[i].disabled then g
    else if g.items[i].selected then DeselectAt(g, i, false)
    else SelectAt(g, i, false)
  }

  /** `disable()`: deselect (notifying), then mark disabled. */
  function DisableAt<T>(g: Group<T>, i: nat): (r: Group<T>)
    requires i < |g.items|
    ensures SameModes(g, r) && SameElsewhere(g.items, r.items, i)
    ensures r.items[i].disabled
    // an enabled item ends unselected; an already-disabled one is not touched
    ensures r.items[i].selected == (g.items[i].disabled && g.items[i].selected)
    ensures r.items[i].value == g.items[i].value && r.items[i].style == g.items[i].style
    // disabling a disabled item does nothing
    ensures g.items[i].disabled ==> r == g
    ensures !g.items[i].disabled ==>
              r.items[i].classes == g.items[i].classes - (if g.items[i].selected then {ActiveClass} else {}) + {DisabledClass}
    ensures r.notified == g.notified + (if !g.items[i].disabled && g.items[i].selected then [i] else [])
  {
    if g.items[i].disabled then g
    else
      var d := DeselectAt(g, i, false);
      d.(items := d.items[i := d.items[i].(disabled := true, classes := d.items[i].classes + {DisabledClass})])
  }

  /** `enable()`: clear the disabled flag and class; selection is not restored. */
  function EnableAt<T>(g: Group<T>, i: nat): (r: Group<T>)
    requires i < |g.items|
    ensures SameModes(g, r) && SameElsewhere(g.items, r.items, i) && r.notified == g.notified
    ensures !r.items[i].disabled
    ensures r.items[i].selected == g.items[i].selected
    ensures r.items[i].value == g.items[i].value && r.items[i].style == g.items[i].style
    ensures !g.items[i].disabled ==> r == g
    ensures g.items[i].disabled ==> r.items[i].classes == g.items[i].classes - {DisabledClass}
  {
    if g.items[i].disabled then
      g.(items := g.items[i := g.items[i].(disabled := false, classes := g.items[i].classes - {DisabledClass})])
    else
      g
  }

  /** The private `setStyle(String)`: the previously recorded style class is removed,
      the new one added and recorded. */
  function RestyleAt<T>(g: Group<T>, i: nat, s: string): (r: Group<T>)
    requires i < |g.items|
    ensures SameModes(g, r) && SameElsewhere(g.items, r.items, i) && r.notified == g.notified
    ensures r.items[i].style == Some(s) && s in r.items[i].classes
    ensures r.items[i].value == g.items[i].value
    ensures r.items[i].selected == g.items[i].selected && r.items[i].disabled == g.items[i].disabled
    // only the latest semantic style is kept on the element
    ensures g.items[i].style.Some? && g.items[i].style.value != s ==> g.items[i].style.value !in r.items[i].classes
    // no other class is touched
    ensures forall c :: c != s && g.items[i].style != Some(c) ==> (c in r.items[i].classes <==> c in g.items[i].classes)
  {
    var it := g.items[i];
    var kept := if it.style.Some? then it.classes - {it.style.value} else it.classes;
    g.(items := g.items[i := it.(style := Some(s), classes := kept + {s})])
  }

  /** `setValue(v)`. */
  function WithValue<T>(g: Group<T>, i: nat, v: T): (r: Group<T>)
    requires i < |g.items|
    ensures SameModes(g, r) && SameElsewhere(g.items, r.items, i) && r.notified == g.notified
    ensures r.items[i] == g.items[i].(value := v)
  {
    g.(items := g.items[i := g.items[i].(value := v)])
  }

  /** `getValue()`. */
  function ValueOf<T>(g: Group<T>, i: nat): T
    requires i < |g.items|
  {
    g.items[i].value
  }

  // ---------------------------------------------------------------------------
  // Properties of single calls

  /** `getValue` returns what `setValue` stored. */
  lemma ValueRoundTrip<T>(g: Group<T>, i: nat, v: T)
    requires i < |g.items|
    ensures ValueOf(WithValue(g, i, v), i) == v
    ensures WithValue(g, i, ValueOf(g, i)) == g
  {
  }

  /** In single-select mode, after `select` item `i` is the only selected item. */
  lemma SelectIsExclusive<T>(g: Group<T>, i: nat, silent: bool)
    requires i < |g.items| && g.selectable && !g.multiSelect
    ensures forall k :: 0 <= k < |g.items| ==> (SelectAt(g, i, silent).items[k].selected <==> k == i)
  {
  }

  /** Single-select quirk: re-selecting a selected item clears and re-marks it, and
      notifies the group again. */
  lemma SingleSelectRenotifies<T>(g: Group<T>, i: nat)
    requires i < |g.items| && g.selectable && !g.multiSelect && g.items[i].selected
    ensures SelectAt(g, i, false).notified == g.notified + [i]
  {
  }

  /** `select` does not consult the disabled flag: only the toggle does. */
  lemma SelectIgnoresDisabled<T>(g: Group<T>, i: nat, silent: bool)
    requires i < |g.items| && g.selectable && g.items[i].disabled
    ensures SelectAt(g, i, silent).items[i].selected && SelectAt(g, i, silent).items[i].disabled
  {
  }

  // ---------------------------------------------------------------------------
  // Sequences of calls

  /** One public operation on item `i`. */
  datatype Op<T> =
    | Select(i: nat, silent: bool)
    | Deselect(i: nat, silent: bool)
    | Toggle(i: nat)
    | Disable(i: nat)
    | Enable(i: nat)
    | Restyle(i: nat, style: string)
    | Revalue(i: nat, value: T)

  /** Is the operation one that silently never notifies? */
  predicate Quiet<T>(op: Op<T>)
  {
    match op
    case Select(_, silent) => silent
    case Deselect(_, silent) => silent
    case Enable(_) => true
    case Restyle(_, _) => true
    case Revalue(_, _) => true
    case _ => false
  }

  function Apply<T>(g: Group<T>, op: Op<T>): (r: Group<T>)
    requires op.i < |g.items|
    ensures SameModes(g, r) && |r.items| == |g.items|
    // each call notifies at most once, only about its own item, and quiet calls never
    ensures r.notified == g.notified || (!Quiet(op) && r.notified == g.notified + [op.i])
  {
    match op
    case Select(i, silent) => SelectAt(g, i, silent)
    case Deselect(i, silent) => DeselectAt(g, i, silent)
    case Toggle(i) => ToggleAt(g, i)
    case Disable(i) => DisableAt(g, i)
    case Enable(i) => EnableAt(g, i)
    case Restyle(i, s) => RestyleAt(g, i, s)
    case Revalue(i, v) => WithValue(g, i, v)
  }

  /** Every operation names an item of a group with `n` items. */
  predicate InRange<T>(ops: seq<Op<T>>, n: nat)
  {
    forall k :: 0 <= k < |ops| ==> ops[k].i < n
  }

  /** The state after performing `ops` in order. */
  function Run<T>(g: Group<T>, ops: seq<Op<T>>): (r: Group<T>)
    requires InRange(ops, |g.items|)
    ensures SameModes(g, r) && |r.items| == |g.items|
    decreases |ops|
  {
    if ops == [] then g else Run(Apply(g, ops[0]), ops[1..])
  }

  /** At most one item is selected. */
  predicate AtMostOneSelected<T>(items: seq<Item<T>>)
  {
    forall a, b :: 0 <= a < b < |items| ==> !(items[a].selected && items[b].selected)
  }

  lemma ApplyKeepsAtMostOne<T>(g: Group<T>, op: Op<T>)
    requires op.i < |g.items| && !g.multiSelect && AtMostOneSelected(g.items)
    ensures AtMostOneSelected(Apply(g, op).items)
  {
  }

  /** In a single-select group, at most one item stays selected whatever sequence of
      operations is performed, once it holds. */
  lemma {:induction false} SingleSelectStaysExclusive<T>(g: Group<T>, ops: seq<Op<T>>)
    requires InRange(ops, |g.items|) && !g.multiSelect && AtMostOneSelected(g.items)
    ensures AtMostOneSelected(Run(g, ops).items)
    decreases |ops|
  {
    if ops != [] {
      ApplyKeepsAtMostOne(g, ops[0]);
      SingleSelectStaysExclusive(Apply(g, ops[0]), ops[1..]);
    }
  }

  /** The selection-change log only grows, by at most one entry per operation, and
      not at all over quiet operations. */
  lemma {:induction false} NotificationsAppendOnly<T>(g: Group<T>, ops: seq<Op<T>>)
    requires InRange(ops, |g.items|)
    ensures g.notified <= Run(g, ops).notified
    ensures |Run(g, ops).notified| <= |g.notified| + |ops|
    ensures (forall k :: 0 <= k < |ops| ==> Quiet(ops[k])) ==> Run(g, ops).notified == g.notified
    decreases |ops|
  {
    if ops != [] {
      NotificationsAppendOnly(Apply(g, ops[0]), ops[1..]);
    }
  }

  /** No item is both disabled and selected. */
  predicate DisabledUnselected<T>(items: seq<Item<T>>)
  {
    forall k :: 0 <= k < |items| ==> !(items[k].disabled && items[k].selected)
  }

  /** Every operation except `select`. */
  predicate NotSelect<T>(op: Op<T>)
  {
    !op.Select?
  }

  lemma ApplyKeepsDisabledUnselected<T>(g: Group<T>, op: Op<T>)
    requires op.i < |g.items| && NotSelect(op) && DisabledUnselected(g.items)
    ensures DisabledUnselected(Apply(g, op).items)
  {
  }

  /** A disabled item never becomes selected through toggles, deselects, disable,
      enable, restyling or revaluing; only a direct `select` can do that. */
  lemma {:induction false} NonSelectOpsKeepDisabledUnselected<T>(g: Group<T>, ops: seq<Op<T>>)
    requires InRange(ops, |g.items|) && DisabledUnselected(g.items)
    requires forall k :: 0 <= k < |ops| ==> NotSelect(ops[k])
    ensures DisabledUnselected(Run(g, ops).items)
    decreases |ops|
  {
    if ops != [] {
      ApplyKeepsDisabledUnselected(g, ops[0]);
      NonSelectOpsKeepDisabledUnselected(Apply(g, ops[0]), ops[1..]);
    }
  }

  /** Is `c` one of the two state-marker classes? */
  predicate IsMarker(c: string)
  {
    c == ActiveClass || c == DisabledClass
  }

  /** The element's classes agree with the flags, and the recorded style is not a marker. */
  predicate MarkersAgree<T>(it: Item<T>)
  {
    (it.selected <==> ActiveClass in it.classes) &&
    (it.disabled <==> DisabledClass in it.classes) &&
    (it.style.Some? ==> !IsMarker(it.style.value))
  }

  predicate AllMarkersAgree<T>(items: seq<Item<T>>)
  {
    forall k :: 0 <= k < |items| ==> MarkersAgree(items[k])
  }

  /** A restyle never uses a marker class as the style. */
  predicate PlainStyle<T>(op: Op<T>)
  {
    op.Restyle? ==> !IsMarker(op.style)
  }

  lemma ApplyKeepsMarkers<T>(g: Group<T>, op: Op<T>)
    requires op.i < |g.items| && PlainStyle(op) && AllMarkersAgree(g.items)
    ensures AllMarkersAgree(Apply(g, op).items)
  {
  }

  /** The "active" and "disabled" classes track the two flags across any sequence of
      operations, as long as no semantic style is itself a marker class. */
  lemma {:induction false} MarkersStayInSync<T>(g: Group<T>, ops: seq<Op<T>>)
    requires InRange(ops, |g.items|) && AllMarkersAgree(g.items)
    requires forall k :: 0 <= k < |ops| ==> PlainStyle(ops[k])
    ensures AllMarkersAgree(Run(g, ops).items)
    decreases |ops|
  {
    if ops != [] {
      ApplyKeepsMarkers(g, ops[0]);
      MarkersStayInSync(Apply(g, ops[0]), ops[1..]);
    }
  }

  // ---------------------------------------------------------------------------
  // The group and its items, updated in place

  class ListGroup<T> {
    var items: seq<Item<T>>
    var selectable: bool
    var multiSelect: bool
    var notified: seq<nat>

    /** The abstract value of the group. */
    function State(): Group<T>
      reads this
    {
      Group(items, selectable, multiSelect, notified)
    }

    constructor (initial: seq<Item<T>>, isSelectable: bool, isMultiSelect: bool)
      ensures State() == Group(initial, isSelectable, isMultiSelect, [])
    {
      items, selectable, multiSelect, notified := initial, isSelectable, isMultiSelect, [];
    }

    predicate IsSelected(i: nat)
      requires i < |items|
      reads this
    {
      items[i].selected
    }

    predicate IsDisabled(i: nat)
      requires i < |items|
      reads this
    {
      items[i].disabled
    }

    predicate IsEnabled(i: nat)
      requires i < |items|
      reads this
      ensures IsEnabled(i) <==> !IsDisabled(i)
    {
      !items[i].disabled
    }

    function GetValue(i: nat): T
      requires i < |items|
      reads this
    {
      ValueOf(State(), i)
    }

    method SetValue(i: nat, v: T)
      requires i < |items|
      modifies this
      ensures State() == WithValue(old(State()), i, v)
      ensures GetValue(i) == v
    {
      items := items[i := items[i].(value := v)];
    }

    method Deselect(i: nat, silent: bool)
      requires i < |items|
      modifies this
      ensures State() == DeselectAt(old(State()), i, silent)
    {
      if items[i].selected {
        items := items[i := items[i].(selected := false, classes := items[i].classes - {ActiveClass})];
        if !silent {
          notified := notified + [i];
        }
      }
    }

    method Select(i: nat, silent: bool)
      requires i < |items|
      modifies this
      ensures State() == SelectAt(old(State()), i, silent)
    {
      if selectable {
        if !multiSelect {
          var j := 0;
          while j < |items|
            invariant 0 <= j <= |items| == |old(items)|
            invariant forall k :: 0 <= k < j ==> items[k] == Unmarked(old(items)[k])
            invariant forall k :: j <= k < |items| ==> items[k] == old(items)[k]
            invariant notified == old(notified) && selectable == old(selectable) && multiSelect == old(multiSelect)
          {
            Deselect(j, true);
            j := j + 1;
          }
          assert items == Swept(old(items));
        }
        if !items[i].selected {
          items := items[i := items[i].(selected := true, classes := items[i].classes + {ActiveClass})];
          if !silent {
            notified := notified + [i];
          }
        }
      }
    }

    method SetSelectedItem(i: nat)
      requires i < |items|
      modifies this
      ensures State() == ToggleAt(old(State()), i)
    {
      if !items[i].disabled {
        if items[i].selected {
          Deselect(i, false);
        } else {
          Select(i, false);
        }
      }
    }

    method Disable(i: nat)
      requires i < |items|
      modifies this
      ensures State() == DisableAt(old(State()), i)
    {
      if !items[i].disabled {
        Deselect(i, false);
        items := items[i := items[i].(disabled := true, classes := items[i].classes + {DisabledClass})];
      }
    }

    method Enable(i: nat)
      requires i < |items|
      modifies this
      ensures State() == EnableAt(old(State()), i)
    {
      if items[i].disabled {
        items := items[i := items[i].(disabled := false, classes := items[i].classes - {DisabledClass})];
      }
    }

    method SetStyle(i: nat, s: string)
      requires i < |items|
      modifies this
      ensures State() == RestyleAt(old(State()), i, s)
    {
      if items[i].style.Some? {
        items := items[i := items[i].(classes := items[i].classes - {items[i].style.value})];
      }
      items := items[i := items[i].(classes := items[i].classes + {s}, style := Some(s))];
    }
  }
}
