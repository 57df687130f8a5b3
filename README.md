# domino-ui list selection and tab activation, in Dafny

This project models two small state machines from the domino-ui widget library,
without their DOM wrapping:

- **List-item selection** (`ListItem`). Each item has `selected` and `disabled`
  flags, an optional semantic style and the class set of its element. It belongs
  to a `ListGroup` that says whether selection is allowed (`isSelectable`) and
  whether several items may be selected (`isMultiSelect`), lists its items
  (`getItems`) and takes selection-change notifications (`onSelectionChange`).
  `lists.dfy` (module `Lists`) has two layers. The value-level functions
  `SelectAt`, `DeselectAt`, `ToggleAt`, `DisableAt`, `EnableAt`, `RestyleAt` and
  `WithValue` say in their contracts what one call does. The class `ListGroup`
  holds the items in a sequence and performs the same steps in place. Its methods
  are proved equal to those functions. `select` keeps the source's loop over
  `getItems()`. An item is named by its index. The notification callback is a log
  of the indices it was called with. Lemmas over sequences of operations
  (`Op`, `Run`) prove the invariants that these calls preserve.
- **Tab activation and closing** (`Tab`). A tab has an `active` flag, a `key`,
  class sets for its handle and its content pane, a replaceable before-close
  predicate, and two ordered observer lists. `tabs.dfy` (module `Tabs`) models
  it as a class. One ordered `calls` log records the `deActivateTab` and
  `closeTab` requests to the panel and each observer call, so the order of these
  calls can be stated. The query `getActiveTab()` and the before-close predicate
  are consulted but not recorded. The panel (`TabsPanel`) is reduced to the
  answer of `getActiveTab()`.

`wrappers.dfy` holds `Option`. `None` stands for a Java `null` argument.

Three behaviours of the code that one might not expect:

- One might expect re-selecting a selected item not to notify twice. In
  single-select mode the code first silently clears every item of the group,
  this one included, and then selects it again, so it notifies again
  (`SelectAt`, `SingleSelectRenotifies`). In multi-select mode the `selected`
  guard suppresses the second notification.
- One might expect a disabled item never to become selected. Only
  `setSelectedItem` checks `disabled`; a direct `select()` selects a disabled
  item (`SelectIgnoresDisabled`). "No item is both disabled and selected" holds
  across every operation except `select` (`NonSelectOpsKeepDisabledUnselected`).
- One might expect `enable()` to remove only the "disabled" class. The code also
  clears the `disabled` flag, and `EnableAt` does the same.

## Model

| member | source | states |
|---|---|---|
| `Lists.DeselectAt` | domino-ui/src/main/java/org/dominokit/domino/ui/lists/ListItem.java:97-108 | the item ends unselected; on an unselected item the call is a no-op; on a selected item only "active" leaves its classes; `onSelectionChange` gets the item exactly once when not silent and never when silent; nothing else changes |
| `Lists.SelectAt` | domino-ui/src/main/java/org/dominokit/domino/ui/lists/ListItem.java:81-95 | a non-selectable group is untouched; otherwise the item ends selected; in single-select mode every other item is silently deselected; in multi-select mode the other items are untouched and re-selecting a selected item changes nothing; "active" is added; the only notification is about this item, sent unless silent, and sent again for an already-selected item in single-select mode |
| `Lists.ToggleAt` | domino-ui/src/main/java/org/dominokit/domino/ui/lists/ListItem.java:41-49 | a disabled item is left untouched and nobody is notified; an enabled item ends selected iff it was unselected and the group is selectable, and the group is notified exactly when the item's state changed |
| `Lists.DisableAt` | domino-ui/src/main/java/org/dominokit/domino/ui/lists/ListItem.java:110-119 | the item ends disabled; an enabled item ends unselected with "disabled" added and "active" removed if it was selected, notifying once if it was selected; an already-disabled item is left untouched |
| `Lists.EnableAt` | domino-ui/src/main/java/org/dominokit/domino/ui/lists/ListItem.java:121-129 | the item ends enabled with its `selected` flag unchanged; "disabled" leaves its classes only if it was disabled; nobody is notified |
| `Lists.RestyleAt` | domino-ui/src/main/java/org/dominokit/domino/ui/lists/ListItem.java:149-156 | the new style is recorded and in the class set; the previously recorded style class is gone unless it is the new one; no other class, flag or item changes |
| `Lists.WithValue` | domino-ui/src/main/java/org/dominokit/domino/ui/lists/ListItem.java:66-69 | only the payload of the item changes |
| `Lists.ValueRoundTrip` | domino-ui/src/main/java/org/dominokit/domino/ui/lists/ListItem.java:61-69 | `ValueOf` (`getValue`) after `WithValue(v)` (`setValue(v)`) returns `v`; storing the current value changes nothing |
| `Lists.SelectIsExclusive` | domino-ui/src/main/java/org/dominokit/domino/ui/lists/ListItem.java:84-90 | in a selectable single-select group, after `select` exactly the chosen item is selected |
| `Lists.SingleSelectRenotifies` | domino-ui/src/main/java/org/dominokit/domino/ui/lists/ListItem.java:84-90 | in single-select mode, `select()` on an already-selected item notifies the group again |
| `Lists.SelectIgnoresDisabled` | domino-ui/src/main/java/org/dominokit/domino/ui/lists/ListItem.java:81-92 | `select` on a disabled item in a selectable group leaves it selected and disabled |
| `Lists.Apply` | domino-ui/src/main/java/org/dominokit/domino/ui/lists/ListItem.java:41-156 | every operation keeps the group's modes and item count, and adds at most one notification, about its own item; silent selects and deselects, `enable`, `setStyle` and `setValue` add none |
| `Lists.Run` | domino-ui/src/main/java/org/dominokit/domino/ui/lists/ListItem.java:83-85 | no sequence of item operations changes the group's modes or number of items |
| `Lists.ApplyKeepsAtMostOne` | domino-ui/src/main/java/org/dominokit/domino/ui/lists/ListItem.java:84-88 | in single-select mode each operation keeps "at most one item selected" |
| `Lists.SingleSelectStaysExclusive` | domino-ui/src/main/java/org/dominokit/domino/ui/lists/ListItem.java:84-88 | in single-select mode, once at most one item is selected, this stays true after any sequence of operations |
| `Lists.NotificationsAppendOnly` | domino-ui/src/main/java/org/dominokit/domino/ui/lists/ListItem.java:89-104 | over any sequence of operations the notification log only grows, by at most one entry per operation, and not at all when every operation is silent |
| `Lists.ApplyKeepsDisabledUnselected` | domino-ui/src/main/java/org/dominokit/domino/ui/lists/ListItem.java:41-49 | every operation except `select` keeps "no item is both disabled and selected" |
| `Lists.NonSelectOpsKeepDisabledUnselected` | domino-ui/src/main/java/org/dominokit/domino/ui/lists/ListItem.java:110-119 | no sequence of toggles, deselects, disables, enables, restyles or revalues makes a disabled item selected |
| `Lists.ApplyKeepsMarkers` | domino-ui/src/main/java/org/dominokit/domino/ui/lists/ListItem.java:86-126 | each operation keeps "active" in the class set iff the item is selected, and "disabled" iff it is disabled, when no style is a marker class |
| `Lists.MarkersStayInSync` | domino-ui/src/main/java/org/dominokit/domino/ui/lists/ListItem.java:149-156 | the marker classes track the two flags across any sequence of operations whose styles are not marker classes |
| `Lists.ListGroup.IsEnabled` | domino-ui/src/main/java/org/dominokit/domino/ui/lists/ListItem.java:131-138 | `isEnabled()` is the negation of `isDisabled()`; `IsDisabled` and `IsSelected` (`isDisabled()`, `isSelected()`, lines 136-143) read the two flags that every other contract in this table is stated in |
| `Lists.ListGroup.SetValue` | domino-ui/src/main/java/org/dominokit/domino/ui/lists/ListItem.java:66-69 | the new state is `WithValue` of the old, and `GetValue` (`getValue()`, lines 61-64, read through `ValueOf`) then returns the stored value |
| `Lists.ListGroup.Deselect` | domino-ui/src/main/java/org/dominokit/domino/ui/lists/ListItem.java:97-108 | the new state is `DeselectAt` of the old |
| `Lists.ListGroup.Select` | domino-ui/src/main/java/org/dominokit/domino/ui/lists/ListItem.java:81-95 | the new state is `SelectAt` of the old; the loop over the group's items silently deselects each in turn |
| `Lists.ListGroup.SetSelectedItem` | domino-ui/src/main/java/org/dominokit/domino/ui/lists/ListItem.java:41-49 | the new state is `ToggleAt` of the old |
| `Lists.ListGroup.Disable` | domino-ui/src/main/java/org/dominokit/domino/ui/lists/ListItem.java:110-119 | the new state is `DisableAt` of the old |
| `Lists.ListGroup.Enable` | domino-ui/src/main/java/org/dominokit/domino/ui/lists/ListItem.java:121-129 | the new state is `EnableAt` of the old |
| `Lists.ListGroup.SetStyle` | domino-ui/src/main/java/org/dominokit/domino/ui/lists/ListItem.java:149-156 | the new state is `RestyleAt` of the old |
| `Tabs.Broadcast` | domino-ui/src/main/java/org/dominokit/domino/ui/tabs/Tab.java:126 | notifying a handler list calls every handler exactly once per position, in registration order |
| `Tabs.BroadcastCount` | domino-ui/src/main/java/org/dominokit/domino/ui/tabs/Tab.java:134 | a handler registered m times is called m times |
| `Tabs.RemoveFirst` | domino-ui/src/main/java/org/dominokit/domino/ui/tabs/Tab.java:183-188 | removing a handler that is not registered changes nothing; otherwise the list gets one shorter |
| `Tabs.RemoveFirstCount` | domino-ui/src/main/java/org/dominokit/domino/ui/tabs/Tab.java:183-188 | removal takes away exactly one occurrence of the handler, if there is one, and no other handler |
| `Tabs.RemoveFirstAt` | domino-ui/src/main/java/org/dominokit/domino/ui/tabs/Tab.java:197-202 | when the first occurrence is at position k, removal deletes exactly that position and keeps the other handlers in order |
| `Tabs.RemoveAfterAdd` | domino-ui/src/main/java/org/dominokit/domino/ui/tabs/Tab.java:176-202 | adding a handler that is not registered and then removing it restores the list |
| `Tabs.Tab.constructor` | domino-ui/src/main/java/org/dominokit/domino/ui/tabs/Tab.java:30-39 | a new tab is inactive, has key "", no parent, the permissive before-close predicate, no handlers, and a content pane with "tab-pane" and "fade" |
| `Tabs.Tab.SetKey` | domino-ui/src/main/java/org/dominokit/domino/ui/tabs/Tab.java:222-229 | `GetKey` (`getKey()`, lines 222-224) then returns the key set, and nothing else changes |
| `Tabs.Tab.SetParent` | domino-ui/src/main/java/org/dominokit/domino/ui/tabs/Tab.java:218-220 | the parent is the panel given, and nothing else changes |
| `Tabs.Tab.NotifyAll` | domino-ui/src/main/java/org/dominokit/domino/ui/tabs/Tab.java:126 | the calls log grows by one observer call per handler, in order |
| `Tabs.Tab.Activate` | domino-ui/src/main/java/org/dominokit/domino/ui/tabs/Tab.java:119-128 | if there is a parent, `deActivateTab(getActiveTab())` is the first call; then every activation handler is called with `true`, in order; the tab ends active (`IsActive`, i.e. `isActive()` at Tab.java:204-206, holds) with "active" on its handle and "in" and "active" on its pane |
| `Tabs.Tab.DeActivate` | domino-ui/src/main/java/org/dominokit/domino/ui/tabs/Tab.java:130-136 | the tab ends inactive (`IsActive` is false) with those classes removed, and every activation handler is called with `false`, in order |
| `Tabs.Tab.Close` | domino-ui/src/main/java/org/dominokit/domino/ui/tabs/Tab.java:150-159 | with no parent, or when the before-close predicate refuses, no call is made; otherwise every close handler is called in order, and then `closeTab` exactly once; the default predicate never vetoes |
| `Tabs.Tab.SetOnBeforeCloseHandler` | domino-ui/src/main/java/org/dominokit/domino/ui/tabs/Tab.java:169-174 | a non-null predicate replaces the current one; null keeps it |
| `Tabs.Tab.AddCloseHandler` | domino-ui/src/main/java/org/dominokit/domino/ui/tabs/Tab.java:176-181 | a non-null handler is appended at the end; null is ignored |
| `Tabs.Tab.RemoveCloseHandler` | domino-ui/src/main/java/org/dominokit/domino/ui/tabs/Tab.java:183-188 | a non-null handler loses its first occurrence; null is ignored |
| `Tabs.Tab.AddActivationHandler` | domino-ui/src/main/java/org/dominokit/domino/ui/tabs/Tab.java:190-195 | a non-null handler is appended at the end; null is ignored |
| `Tabs.Tab.RemoveActivationHandler` | domino-ui/src/main/java/org/dominokit/domino/ui/tabs/Tab.java:197-202 | a non-null handler loses its first occurrence; null is ignored |

## Left out

- DOM construction and rendering: the constructors' element wiring, flex layout, icons, ripple effects, `setContent`/`appendChild`, `removeTab` and `setClosable`. Only the class-name sets are kept.
- Event binding: the click and Enter listeners and the close icon's `stopPropagation`. The model calls `SetSelectedItem` and `Close` directly.
- The public `setStyle(ListGroupStyle)`, its shortcuts `success`/`warning`/`info`/`error`, and `setBackground`. Their class names live in `ListGroupStyle` and `Color`, which are not part of this model. All of them reach the private `setStyle(String)`, which is modelled as `RestyleAt`.
- `setHeading` and `setText`. They call `setHeaderText` and `setBodyText` of the base list item, which is not part of this model, and never touch the flags or the class set.
- The no-argument `select()` and `deselect()` are `select(false)` and `deselect(false)`, i.e. `Select(i, false)` and `Deselect(i, false)`.
- `ListGroup` and `TabsPanel` internals. For a list item the group is reduced to its two flags, its items and a log of `onSelectionChange` calls. For a tab the panel is reduced to the answer of `getActiveTab()`. Its `deActivateTab` and `closeTab` requests are recorded in the tab's call log, and their effects are not modelled. In particular, "at most one active tab per panel" and "the old tab's observers fire before the new tab's" depend on `deActivateTab`, which is not part of this model.
- A list item with no parent. Every item in the model belongs to its group, and the Java code would throw a null-pointer exception on a parentless `select`.
- `Tabs.Tab.Activate`: the model records `deActivateTab` before this tab's own state change, but it does not model any effect of that call on this tab or on the panel.
- What observers and the before-close predicate do when called. They are foreign code: the predicate's answer is a parameter of `Close`, and an observer call is only recorded. An observer that changes the handler list during the loop is not modelled.
- An item is named by its index in its group. This assumes each item appears exactly once in its group's `getItems()`. An item listed at two positions, or missing from its group's list, cannot be expressed. The single-select re-notification depends on the item being in that list.
- `Tabs.Tab.SetKey`: takes a `string`, so the `null` key that `setKey` accepts cannot be expressed.
- The payload type of a list item is a type parameter. Handlers are compared by identity (`nat` ids), as `ArrayList.remove` does for lambdas.
