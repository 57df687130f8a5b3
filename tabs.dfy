/**
  Activation and close protocol of a tab.

  A `Tab` has an `active` flag, a `key`, the class sets of its handle and of its
  content pane, a replaceable before-close predicate and two ordered lists of
  observers: close handlers and activation handlers. The owning `TabsPanel` is
  not part of this model beyond what the tab asks of it: `getActiveTab`, and the
  two requests `deActivateTab` and `closeTab`.

  The tab's `calls` log records, in order, its two requests to the panel
  (`deActivateTab` and `closeTab`) and every observer call, so the order of these
  calls can be stated. The queries `getActiveTab()` and the before-close
  predicate are consulted but not recorded. Observers are named by identifiers;
  `None` stands for a `null` argument.
*/
module Tabs {
  import opened Wrappers

  /** Identity of a registered observer (the Java lists compare them with `equals`). */
  type HandlerId = nat

  /** What an observer is told. */
  datatype Notice = ActiveChanged(active: bool) | Closing

  /** One recorded call made by a tab: a request to its panel or an observer call. */
  datatype Call =
    | DeActivateTab(target: Tab?)               // parent.deActivateTab(target)
    | Notify(handler: HandlerId, notice: Notice) // an activation or close observer is called
    | CloseTab                                  // parent.closeTab(this)

  /** The before-close predicate: the default one, which always permits closing, or
      one installed by the application, whose answer is supplied when it is asked. */
  datatype BeforeClose = PermitAlways | Custom(id: nat)

  /** The answer of the before-close predicate; `answer` is what a custom predicate
      returns when asked. */
  function Permits(b: BeforeClose, answer: bool): bool
  {
    match b
    case PermitAlways => true
    case Custom(_) => answer
  }

  /** The calls made by `handlers.forEach(h -> h.notify(...))`: every observer once,
      in registration order. */
  function Broadcast(handlers: seq<HandlerId>, n: Notice): (r: seq<Call>)
    ensures |r| == |handlers|
    ensures forall k :: 0 <= k < |handlers| ==> r[k] == Notify(handlers[k], n)
  {
    if handlers == [] then []
    else Broadcast(handlers[..|handlers| - 1], n) + [Notify(handlers[|handlers| - 1], n)]
  }

  /** An observer registered m times is called m times. */
  lemma {:induction false} BroadcastCount(handlers: seq<HandlerId>, n: Notice, h: HandlerId)
    ensures multiset(Broadcast(handlers, n))[Notify(h, n)] == multiset(handlers)[h]
  {
    if handlers != [] {
      var front := handlers[..|handlers| - 1];
      assert handlers == front + [handlers[|handlers| - 1]];
      BroadcastCount(front, n, h);
    }
  }

  /** `List.remove(Object)`: removes the first occurrence, if there is one. */
  function RemoveFirst(s: seq<HandlerId>, h: HandlerId): (r: seq<HandlerId>)
    ensures h !in s ==> r == s
    ensures |r| == if h in s then |s| - 1 else |s|
  {
    if s == [] then []
    else if s[0] == h then s[1..]
    else [s[0]] + RemoveFirst(s[1..], h)
  }

  /** Removal takes away one occurrence of the handler, if any, and nothing else. */
  lemma {:induction false} RemoveFirstCount(s: seq<HandlerId>, h: HandlerId)
    ensures multiset(RemoveFirst(s, h)) == multiset(s) - multiset{h}
  {
    if s != [] {
      assert s == [s[0]] + s[1..];
      if s[0] != h {
        RemoveFirstCount(s[1..], h);
      }
    }
  }

  /** Removal deletes exactly the first occurrence, at position `k`, and keeps the
      rest in order. */
  lemma {:induction false} RemoveFirstAt(s: seq<HandlerId>, h: HandlerId, k: nat)
    requires k < |s| && s[k] == h && h !in s[..k]
    ensures RemoveFirst(s, h) == s[..k] + s[k + 1..]
  {
    if k > 0 {
      var tail := s[1..];
      assert s[0] == s[..k][0];
      assert RemoveFirst(s, h) == [s[0]] + RemoveFirst(tail, h);
      assert tail[..k - 1] == s[..k][1..];
      RemoveFirstAt(tail, h, k - 1);
      assert s[..k] == [s[0]] + tail[..k - 1];
      assert tail[k..] == s[k + 1..];
    }
  }

  /** Registering a new observer and removing it again restores the list. */
  lemma {:induction false} RemoveAfterAdd(s: seq<HandlerId>, h: HandlerId)
    requires h !in s
    ensures RemoveFirst(s + [h], h) == s
  {
    if s != [] {
      assert (s + [h])[1..] == s[1..] + [h];
      RemoveAfterAdd(s[1..], h);
    }
  }

  /** The tab's request to its panel at the start of `activate`. */
  function DeactivationRequest(p: TabsPanel?): (r: seq<Call>)
    reads p
  {
    if p == null then [] else [DeActivateTab(p.activeTab)]
  }

  /** The panel as seen from a tab: only the answer of `getActiveTab()`. */
  class TabsPanel {
    var activeTab: Tab?

    constructor (current: Tab?)
      ensures activeTab == current
    {
      activeTab := current;
    }
  }

  class Tab {
    var active: bool
    var key: string
    var tabClasses: set<string>
    var paneClasses: set<string>
    var parent: TabsPanel?
    var beforeClose: BeforeClose
    var closeHandlers: seq<HandlerId>
    var activationHandlers: seq<HandlerId>
    var calls: seq<Call>

    /** A new tab: inactive, key "", no parent, the permissive before-close predicate,
        no observers; its content pane carries "tab-pane" and "fade". */
    constructor ()
      ensures !active && key == "" && parent == null && beforeClose == PermitAlways
      ensures closeHandlers == [] && activationHandlers == [] && calls == []
      ensures tabClasses == {} && paneClasses == {"tab-pane", "fade"}
    {
      active, key, parent, beforeClose := false, "", null, PermitAlways;
      closeHandlers, activationHandlers, calls := [], [], [];
      tabClasses, paneClasses := {}, {"tab-pane", "fade"};
    }

    predicate IsActive()
      reads this
    {
      active
    }

    function GetKey(): string
      reads this
    {
      key
    }

    method SetKey(k: string)
      modifies this`key
      ensures key == k && GetKey() == k
    {
      key := k;
    }

    method SetParent(p: TabsPanel?)
      modifies this`parent
      ensures parent == p
    {
      parent := p;
    }

    /** `handlers.forEach(...)`: calls every observer in the list, in order. */
    method NotifyAll(handlers: seq<HandlerId>, n: Notice)
      modifies this`calls
      ensures calls == old(calls) + Broadcast(handlers, n)
    {
      var k := 0;
      while k < |handlers|
        invariant 0 <= k <= |handlers|
        invariant calls == old(calls) + Broadcast(handlers[..k], n)
      {
        assert handlers[..k + 1][..k] == handlers[..k];
        calls := calls + [Notify(handlers[k], n)];
        k := k + 1;
      }
      assert handlers[..k] == handlers;
    }

    /** Asks the panel to deactivate its current tab, marks this tab active and then
        tells every activation observer, in order. */
    method Activate()
      modifies this`active, this`tabClasses, this`paneClasses, this`calls
      ensures IsActive()
      ensures tabClasses == old(tabClasses) + {"active"}
      ensures paneClasses == old(paneClasses) + {"in", "active"}
      ensures calls == old(calls) + DeactivationRequest(parent) + Broadcast(activationHandlers, ActiveChanged(true))
    {
      if parent != null {
        calls := calls + [DeActivateTab(parent.activeTab)];
      }
      tabClasses := tabClasses + {"active"};
      paneClasses := paneClasses + {"in", "active"};
      active := true;
      NotifyAll(activationHandlers, ActiveChanged(true));
    }

    /** Unmarks the tab and tells every activation observer, in order. */
    method DeActivate()
      modifies this`active, this`tabClasses, this`paneClasses, this`calls
      ensures !IsActive()
      ensures tabClasses == old(tabClasses) - {"active"}
      ensures paneClasses == old(paneClasses) - {"in", "active"}
      ensures calls == old(calls) + Broadcast(activationHandlers, ActiveChanged(false))
    {
      tabClasses := tabClasses - {"active"};
      paneClasses := paneClasses - {"in", "active"};
      active := false;
      NotifyAll(activationHandlers, ActiveChanged(false));
    }

    /** Closes the tab if it has a panel and the before-close predicate agrees
        (`answer` is what a custom predicate returns): every close observer is told,
        in order, and then the panel is asked to remove the tab. */
    method Close(answer: bool)
      modifies this`calls
      ensures calls == old(calls) +
                (if parent != null && Permits(beforeClose, answer) then Broadcast(closeHandlers, Closing) + [CloseTab] else [])
      // the default predicate never vetoes
      ensures parent != null && beforeClose == PermitAlways ==>
                calls == old(calls) + Broadcast(closeHandlers, Closing) + [CloseTab]
    {
      if parent != null {
        if Permits(beforeClose, answer) {
          NotifyAll(closeHandlers, Closing);
          calls := calls + [CloseTab];
        }
      }
    }

    /** Installs a before-close predicate; `null` keeps the current one. */
    method SetOnBeforeCloseHandler(b: Option<BeforeClose>)
      modifies this`beforeClose
      ensures beforeClose == if b.Some? then b.value else old(beforeClose)
    {
      if b.Some? {
        beforeClose := b.value;
      }
    }

    method AddCloseHandler(h: Option<HandlerId>)
      modifies this`closeHandlers
      ensures closeHandlers == if h.Some? then old(closeHandlers) + [h.value] else old(closeHandlers)
    {
      if h.Some? {
        closeHandlers := closeHandlers + [h.value];
      }
    }

    method RemoveCloseHandler(h: Option<HandlerId>)
      modifies this`closeHandlers
      ensures closeHandlers == if h.Some? then RemoveFirst(old(closeHandlers), h.value) else old(closeHandlers)
    {
      if h.Some? {
        closeHandlers := RemoveFirst(closeHandlers, h.value);
      }
    }

    method AddActivationHandler(h: Option<HandlerId>)
      modifies this`activationHandlers
      ensures activationHandlers == if h.Some? then old(activationHandlers) + [h.value] else old(activationHandlers)
    {
      if h.Some? {
        activationHandlers := activationHandlers + [h.value];
      }
    }

    method RemoveActivationHandler(h: Option<HandlerId>)
      modifies this`activationHandlers
      ensures activationHandlers == if h.Some? then RemoveFirst(old(activationHandlers), h.value) else old(activationHandlers)
    {
      if h.Some? {
        activationHandlers := RemoveFirst(activationHandlers, h.value);
      }
    }
  }
}
