/**
 * Duplicate suppression for nested hijacked calls: the per-thread layer stack, the entry points
 * that push layers and the gated entry points that stay silent below a masking layer.
 */
module Layers {
  import opened Seqs

  function AclToRuntimeMap(): (r: map<string, set<string>>)
  {
    map[
      "aclrtSetDeviceImpl" := {"rtSetDevice"},
      "aclrtResetDeviceImpl" := {"rtDeviceReset"},
      "aclrtMallocImpl" := {"rtMalloc"},
      "aclrtFreeImpl" := {"rtFree"},
      "aclrtMemsetImpl" := {"rtMemset"},
      "aclrtMemcpyImpl" := {"rtMemcpy"},
      "aclrtMapMemImpl" := {"rtMapMem"},
      "aclrtUnmapMemImpl" := {"rtUnmapMem"},
      "aclrtIpcMemGetExportKeyImpl" := {"rtIpcSetMemoryName"},
      "aclrtIpcMemImportByKeyImpl" := {"rtIpcOpenMemory"},
      "aclrtIpcMemCloseImpl" := {"rtIpcDestroyMemoryName", "rtIpcCloseMemory"},
      "aclrtGetDeviceImpl" := {"rtGetDevice"},
      "aclrtCreateContextImpl" := {"rtCtxCreateEx"},
      "aclrtQueryDeviceStatusImpl" := {"rtDeviceStatusQuery"},
      "aclrtGetDeviceCountImpl" := {"rtGetDeviceCount"},
      "aclrtGetDeviceInfoImpl" := {"rtGetDeviceInfo"},
      "aclrtGetSocNameImpl" := {"rtGetSocVersion"}
    ]
  }

  predicate Masks(layer: string, func: string) {
    var masks := AclToRuntimeMap();
    layer in masks && func in masks[layer]
  }

  /** Some active layer masks the function. */
  predicate Masked(func: string, active: seq<string>) {
    exists k :: 0 <= k < |active| && Masks(active[k], func)
  }

  class HijackedLayerManager {
    /** Innermost layer first. */
    var layers: seq<string>

    constructor ()
      ensures layers == []
    {
      layers := [];
    }

    method Push(func: string)
      modifies this
      ensures layers == [func] + old(layers)
    {
      layers := [func] + layers;
    }

    method Pop()
      modifies this
      ensures layers == if old(layers) == [] then [] else old(layers)[1..]
    {
      if layers != [] {
        layers := layers[1..];
      }
    }

    method ParentInCallStack(func: string) returns (found: bool)
      ensures found <==> Masked(func, layers)
    {
      hide AclToRuntimeMap;
      if layers == [] {
        return false;
      }
      var masks := AclToRuntimeMap();
      for i := 0 to |layers|
        invariant forall k :: 0 <= k < i ==> !Masks(layers[k], func)
      {
        if layers[i] !in masks {
          continue;
        }
        if func in masks[layers[i]] {
          assert Masks(layers[i], func);
          return true;
        }
      }
      return false;
    }

    method InCallStack(func: string) returns (found: bool)
      ensures found <==> func in layers
    {
      for i := 0 to |layers|
        invariant func !in layers[..i]
      {
        if layers[i] == func {
          return true;
        }
      }
      return false;
    }
  }

  /** A LayerGuard entry (aclrt*), an Origin forwarder, or an entry behind the ParentInCallStack gate (rt*). */
  datatype Kind = Guarded | Origin | Gated

  /**
   * A hijacked call with the hijacked calls made from inside it. `others` are the device ids that other
   * threads entered into the shared set since the last call; `throws` marks an exit by exception.
   */
  datatype Call = Call(kind: Kind, func: string, device: int, others: set<int>, children: seq<Call>, throws: bool)

  /** The choice between Call (reported) and OriginCall, at an address in the tree of calls. */
  datatype Event = Event(at: seq<nat>, func: string, device: int, reported: bool)

  datatype Outcome = Outcome(events: seq<Event>, used: set<int>, threw: bool)

  /** The two entry points that consult IsDevIdUsed. */
  predicate SetsDevice(func: string) {
    func == "rtSetDevice" || func == "aclrtSetDeviceImpl"
  }

  // ---------------------------------------------------------------- what a tree of calls reports

  function Own(c: Call): (r: seq<string>) {
    if c.kind.Gated? then [] else [c.func]
  }

  /** The gate is open: the used-device check, where there is one, is reached. */
  predicate Open(c: Call, active: seq<string>) {
    c.kind.Guarded? || (c.kind.Gated? && !Masked(c.func, active))
  }

  predicate Reports(c: Call, active: seq<string>, used: set<int>) {
    Open(c, active) && !(SetsDevice(c.func) && c.device in used + c.others)
  }

  function UsedAfterEntry(c: Call, active: seq<string>, used: set<int>): (r: set<int>) {
    used + c.others + if Open(c, active) && SetsDevice(c.func) then {c.device} else {}
  }

  function Entry(c: Call, at: seq<nat>, active: seq<string>, used: set<int>): (r: seq<Event>) {
    if c.kind.Origin? then [] else [Event(at, c.func, c.device, Reports(c, active, used))]
  }

  /** The events of a call made below the given active layers. */
  function Trace(c: Call, at: seq<nat>, active: seq<string>, used: set<int>): (r: Outcome)
    decreases c, |c.children| + 1
  {
    var inside := TraceFrom(c, 0, at, Own(c) + active, UsedAfterEntry(c, active, used));
    Outcome(Entry(c, at, active, used) + inside.events, inside.used, inside.threw || c.throws)
  }

  /** The events of the inner calls from number k on; an exception skips the rest. */
  function TraceFrom(c: Call, k: nat, at: seq<nat>, active: seq<string>, used: set<int>): (r: Outcome)
    requires k <= |c.children|
    decreases c, |c.children| - k
  {
    if k == |c.children| then Outcome([], used, false) else
    var first := Trace(c.children[k], at + [k], active, used);
    if first.threw then first else
    var rest := TraceFrom(c, k + 1, at, active, first.used);
    Outcome(first.events + rest.events, rest.used, rest.threw)
  }

  class Hijacker {
    const manager: HijackedLayerManager
    var usedDevIds: set<int>
    var log: seq<Event>

    constructor (manager: HijackedLayerManager)
      ensures this.manager == manager && usedDevIds == {} && log == []
    {
      this.manager := manager;
      usedDevIds, log := {}, [];
    }

    method IsDevIdUsed(device: int) returns (used: bool)
      modifies this`usedDevIds
      ensures used <==> device in old(usedDevIds)
      ensures usedDevIds == old(usedDevIds) + {device}
    {
      if device in usedDevIds {
        return true;
      }
      usedDevIds := usedDevIds + {device};
      return false;
    }

    /** The choice an entry point makes before its body runs. */
    method Enter(c: Call, at: seq<nat>)
      modifies this, manager
      ensures manager.layers == Own(c) + old(manager.layers)
      ensures log == old(log) + Entry(c, at, old(manager.layers), old(usedDevIds))
      ensures usedDevIds == UsedAfterEntry(c, old(manager.layers), old(usedDevIds))
    {
      hide Masked, SetsDevice;
      usedDevIds := usedDevIds + c.others;
      match c.kind
      case Origin =>
        manager.Push(c.func);
      case Guarded =>
        manager.Push(c.func);
        var silent := false;
        if SetsDevice(c.func) {
          silent := IsDevIdUsed(c.device);
        }
        log := log + [Event(at, c.func, c.device, !silent)];
      case Gated =>
        var silent := manager.ParentInCallStack(c.func);
        if !silent && SetsDevice(c.func) {
          silent := IsDevIdUsed(c.device);
        }
        log := log + [Event(at, c.func, c.device, !silent)];
    }

    /** Any tree of calls from any starting stack: every exit, thrown or not, leaves the stack as it was. */
    method Run(c: Call, at: seq<nat>) returns (threw: bool)
      modifies this, manager
      ensures manager.layers == old(manager.layers)
      ensures var t := Trace(c, at, old(manager.layers), old(usedDevIds));
              log == old(log) + t.events && usedDevIds == t.used && threw == t.threw
      decreases c
    {
      hide Entry, UsedAfterEntry, Trace, TraceFrom;
      ghost var before, used, entered := manager.layers, usedDevIds, log;
      Enter(c, at);
      ghost var active, entry := manager.layers, log;
      ghost var whole := TraceFrom(c, 0, at, active, usedDevIds);
      TraceIs(c, at, before, used);
      threw := false;
      var k := 0;
      assert entry + [] == entry;
      while k < |c.children| && !threw
        invariant k <= |c.children| && manager.layers == active
        invariant !threw ==>
                    var rest := TraceFrom(c, k, at, active, usedDevIds);
                    log + rest.events == entry + whole.events && rest.used == whole.used && rest.threw == whole.threw
        invariant threw ==> log == entry + whole.events && usedDevIds == whole.used && whole.threw
        decreases |c.children| - k, !threw
      {
        TraceFromIs(c, k, at, active, usedDevIds);
        threw := Run(c.children[k], at + [k]);
        k := k + 1;
      }
      TraceFromEnd(c, at, active, usedDevIds);
      assert log + [] == log;
      assert log == entered + (Entry(c, at, before, used) + whole.events);
      threw := threw || c.throws;
      if !c.kind.Gated? {
        manager.Pop();
      }
    }
  }

  lemma TraceIs(c: Call, at: seq<nat>, active: seq<string>, used: set<int>)
    ensures Trace(c, at, active, used)
         == var inside := TraceFrom(c, 0, at, Own(c) + active, UsedAfterEntry(c, active, used));
            Outcome(Entry(c, at, active, used) + inside.events, inside.used, inside.threw || c.throws)
  {
  }

  lemma TraceFromIs(c: Call, k: nat, at: seq<nat>, active: seq<string>, used: set<int>)
    requires k < |c.children|
    ensures TraceFrom(c, k, at, active, used)
         == var first := Trace(c.children[k], at + [k], active, used);
            if first.threw then first else
            var rest := TraceFrom(c, k + 1, at, active, first.used);
            Outcome(first.events + rest.events, rest.used, rest.threw)
  {
  }

  lemma TraceFromEnd(c: Call, at: seq<nat>, active: seq<string>, used: set<int>)
    ensures TraceFrom(c, |c.children|, at, active, used) == Outcome([], used, false)
  {
  }

  // ---------------------------------------------------------------- reporting and ancestors

  function NodeAt(c: Call, at: seq<nat>): (r: Option<Call>)
    decreases |at|
  {
    if at == [] then Some(c)
    else if at[0] >= |c.children| then None
    else NodeAt(c.children[at[0]], at[1..])
  }

  /** The layers that the proper ancestors of an address push, innermost first. */
  function Above(c: Call, at: seq<nat>): (r: seq<string>)
    decreases |at|
  {
    if at == [] || at[0] >= |c.children| then [] else Above(c.children[at[0]], at[1..]) + Own(c)
  }

  /** An event belongs to a node of the tree, and its choice depends on the node's ancestors alone. */
  ghost predicate Explained(e: Event, c: Call, at: seq<nat>, start: seq<string>) {
    && at <= e.at
    && var inner := e.at[|at|..];
    && NodeAt(c, inner).Some?
    && var n := NodeAt(c, inner).value;
    && !n.kind.Origin? && n.func == e.func && n.device == e.device
    && (e.reported ==> Open(n, Above(c, inner) + start))
    && (Open(n, Above(c, inner) + start) && !SetsDevice(n.func) ==> e.reported)
  }

  lemma ExplainedInParent(e: Event, c: Call, k: nat, at: seq<nat>, start: seq<string>)
    requires k < |c.children| && Explained(e, c.children[k], at + [k], Own(c) + start)
    ensures Explained(e, c, at, start)
  {
    hide Open, SetsDevice;
    var inner, below := e.at[|at|..], e.at[|at| + 1..];
    assert inner == [k] + below && e.at[|at + [k]|..] == below;
    assert inner[1..] == below;
    var up := Above(c.children[k], below);
    assert up + Own(c) + start == up + (Own(c) + start);
  }

  lemma ExplainedBelow(e: Event, c: Call, at: seq<nat>, start: seq<string>)
    requires Explained(e, c, at, start)
    ensures |e.at| >= |at|
  {
  }

  /** Whatever happens around it, a gated call is reported exactly when no active ancestor masks it. */
  lemma {:induction false} ReportedIffUnmasked(c: Call, at: seq<nat>, start: seq<string>, used: set<int>)
    ensures forall i :: 0 <= i < |Trace(c, at, start, used).events| ==>
              Explained(Trace(c, at, start, used).events[i], c, at, start)
    decreases c, |c.children| + 1
  {
    hide Explained, Entry, UsedAfterEntry, Own, Trace, TraceFrom;
    TraceIs(c, at, start, used);
    EntryExplained(c, at, start, used);
    ReportedIffUnmaskedFrom(c, 0, at, start, UsedAfterEntry(c, start, used));
  }

  lemma EntryExplained(c: Call, at: seq<nat>, start: seq<string>, used: set<int>)
    ensures forall i :: 0 <= i < |Entry(c, at, start, used)| ==> Explained(Entry(c, at, start, used)[i], c, at, start)
  {
    hide SetsDevice, Masked;
    assert at[|at|..] == [];
    assert [] + start == start;
  }

  lemma {:induction false} ReportedIffUnmaskedFrom(c: Call, k: nat, at: seq<nat>, start: seq<string>, used: set<int>)
    requires k <= |c.children|
    ensures forall i :: 0 <= i < |TraceFrom(c, k, at, Own(c) + start, used).events| ==>
              Explained(TraceFrom(c, k, at, Own(c) + start, used).events[i], c, at, start)
    ensures forall i :: 0 <= i < |TraceFrom(c, k, at, Own(c) + start, used).events| ==>
              |TraceFrom(c, k, at, Own(c) + start, used).events[i].at| > |at|
    decreases c, |c.children| - k
  {
    hide Explained, Entry, UsedAfterEntry, Own, Trace, TraceFrom;
    var active := Own(c) + start;
    TraceFromEnd(c, at, active, used);
    if k < |c.children| {
      TraceFromIs(c, k, at, active, used);
      var first := Trace(c.children[k], at + [k], active, used);
      ReportedIffUnmasked(c.children[k], at + [k], active, used);
      forall i | 0 <= i < |first.events|
        ensures Explained(first.events[i], c, at, start) && |first.events[i].at| > |at|
      {
        ExplainedInParent(first.events[i], c, k, at, start);
        ExplainedBelow(first.events[i], c.children[k], at + [k], active);
      }
      ReportedIffUnmaskedFrom(c, k + 1, at, start, first.used);
    }
  }

  /** Below an acl layer no runtime call that it masks is reported, at any depth and from any starting stack. */
  lemma SilentBelow(c: Call, start: seq<string>, used: set<int>, i: nat)
    requires c.kind.Guarded? && i < |Trace(c, [], start, used).events|
    requires var e := Trace(c, [], start, used).events[i];
             && e.at != [] && Masks(c.func, e.func)
             && NodeAt(c, e.at).Some? && NodeAt(c, e.at).value.kind.Gated?
    ensures !Trace(c, [], start, used).events[i].reported
  {
    hide Trace, Masks, SetsDevice;
    ReportedIffUnmasked(c, [], start, used);
    var e := Trace(c, [], start, used).events[i];
    assert Explained(e, c, [], start) && e.at[0..] == e.at;
    var above := Above(c.children[e.at[0]], e.at[1..]);
    assert (above + [c.func] + start)[|above|] == c.func;
  }

  // ---------------------------------------------------------------- which calls make their choice

  /** The call, or some call inside it, exits by an exception. */
  predicate Throws(c: Call)
    decreases c, |c.children| + 1
  {
    c.throws || ThrowsBefore(c, |c.children|)
  }

  /** One of the first k inner calls does. */
  predicate ThrowsBefore(c: Call, k: nat)
    requires k <= |c.children|
    decreases c, k
  {
    k > 0 && (ThrowsBefore(c, k - 1) || Throws(c.children[k - 1]))
  }

  /** No exception before it keeps the call at this address from being made. */
  predicate Reached(c: Call, at: seq<nat>)
    decreases |at|
  {
    at == [] || (at[0] < |c.children| && !ThrowsBefore(c, at[0]) && Reached(c.children[at[0]], at[1..]))
  }

  lemma {:induction false} TraceThrows(c: Call, at: seq<nat>, active: seq<string>, used: set<int>)
    ensures Trace(c, at, active, used).threw == Throws(c)
    decreases c, |c.children| + 1
  {
    hide Entry, UsedAfterEntry, Own, Trace, TraceFrom;
    TraceIs(c, at, active, used);
    TraceFromThrows(c, 0, at, Own(c) + active, UsedAfterEntry(c, active, used));
  }

  lemma {:induction false} TraceFromThrows(c: Call, k: nat, at: seq<nat>, active: seq<string>, used: set<int>)
    requires k <= |c.children| && !ThrowsBefore(c, k)
    ensures TraceFrom(c, k, at, active, used).threw == ThrowsBefore(c, |c.children|)
    decreases c, |c.children| - k
  {
    hide Trace, TraceFrom, Throws;
    TraceFromEnd(c, at, active, used);
    if k < |c.children| {
      TraceFromIs(c, k, at, active, used);
      TraceThrows(c.children[k], at + [k], active, used);
      if Throws(c.children[k]) {
        ThrowsMonotone(c, k + 1, |c.children|);
      } else {
        TraceFromThrows(c, k + 1, at, active, Trace(c.children[k], at + [k], active, used).used);
      }
    }
  }

  lemma {:induction false} ThrowsMonotone(c: Call, j: nat, k: nat)
    requires j <= k <= |c.children| && ThrowsBefore(c, j)
    ensures ThrowsBefore(c, k)
    decreases k
  {
    if j < k {
      ThrowsMonotone(c, j, k - 1);
    }
  }

  /** The addresses of a list of events. */
  predicate HasEvent(events: seq<Event>, at: seq<nat>) {
    exists i :: 0 <= i < |events| && events[i].at == at
  }

  lemma HasEventConcat(a: seq<Event>, b: seq<Event>, at: seq<nat>)
    ensures HasEvent(a + b, at) <==> HasEvent(a, at) || HasEvent(b, at)
  {
    if i :| 0 <= i < |a| && a[i].at == at {
      assert (a + b)[i].at == at;
    }
    if i :| 0 <= i < |b| && b[i].at == at {
      assert (a + b)[|a| + i].at == at;
    }
  }

  /** A choice is made at exactly the entry points that are reached; an exception skips what comes after it. */
  lemma {:induction false} EventsAreReached(c: Call, at: seq<nat>, active: seq<string>, used: set<int>, sub: seq<nat>)
    ensures HasEvent(Trace(c, at, active, used).events, at + sub)
       <==> Reached(c, sub) && NodeAt(c, sub).Some? && !NodeAt(c, sub).value.kind.Origin?
    decreases c, |c.children| + 1
  {
    hide UsedAfterEntry, Own, Trace, TraceFrom, ThrowsBefore, Reports;
    TraceIs(c, at, active, used);
    var entered := UsedAfterEntry(c, active, used);
    var inside := TraceFrom(c, 0, at, Own(c) + active, entered);
    HasEventConcat(Entry(c, at, active, used), inside.events, at + sub);
    NothingThrown(c);
    InsideAreReached(c, 0, at, Own(c) + active, entered, sub);
    if sub == [] {
      assert at + sub == at;
      if !c.kind.Origin? {
        assert Entry(c, at, active, used)[0].at == at;
      }
    } else {
      assert |at + sub| > |at|;
    }
  }

  lemma NothingThrown(c: Call)
    ensures !ThrowsBefore(c, 0)
  {
  }

  lemma {:induction false} InsideAreReached(c: Call, k: nat, at: seq<nat>, active: seq<string>, used: set<int>,
                                            sub: seq<nat>)
    requires k <= |c.children| && !ThrowsBefore(c, k)
    ensures HasEvent(TraceFrom(c, k, at, active, used).events, at + sub)
       <==> sub != [] && k <= sub[0] < |c.children| && Reached(c, sub)
            && NodeAt(c, sub).Some? && !NodeAt(c, sub).value.kind.Origin?
    decreases c, |c.children| - k
  {
    hide Trace, TraceFrom, Throws;
    TraceFromEnd(c, at, active, used);
    if k < |c.children| {
      var child := c.children[k];
      TraceFromIs(c, k, at, active, used);
      TraceThrows(child, at + [k], active, used);
      var first := Trace(child, at + [k], active, used);
      ChildEvents(c, k, at, active, used, sub);
      if Throws(child) {
        if sub != [] && k < sub[0] <= |c.children| {
          ThrowsMonotone(c, k + 1, sub[0]);
        }
      } else {
        var rest := TraceFrom(c, k + 1, at, active, first.used);
        InsideAreReached(c, k + 1, at, active, first.used, sub);
        HasEventConcat(first.events, rest.events, at + sub);
      }
    }
  }

  /** Inner call number k accounts for the addresses that begin with k. */
  lemma {:induction false} ChildEvents(c: Call, k: nat, at: seq<nat>, active: seq<string>, used: set<int>, sub: seq<nat>)
    requires k < |c.children| && !ThrowsBefore(c, k)
    ensures HasEvent(Trace(c.children[k], at + [k], active, used).events, at + sub)
       <==> sub != [] && sub[0] == k && Reached(c, sub)
            && NodeAt(c, sub).Some? && !NodeAt(c, sub).value.kind.Origin?
    decreases c, 0
  {
    hide Trace, TraceFrom, Throws, ThrowsBefore;
    var child := c.children[k];
    if sub != [] && sub[0] == k {
      assert at + sub == at + [k] + sub[1..];
      EventsAreReached(child, at + [k], active, used, sub[1..]);
    } else {
      assert (at + [k])[|at|] == k && (sub != [] ==> (at + sub)[|at|] == sub[0]);
      OnlyBelow(child, at + [k], active, used, at + sub);
    }
  }

  lemma OnlyBelow(c: Call, at: seq<nat>, active: seq<string>, used: set<int>, other: seq<nat>)
    requires !(at <= other)
    ensures !HasEvent(Trace(c, at, active, used).events, other)
  {
    hide Trace, Open, SetsDevice, NodeAt, Above;
    ReportedIffUnmasked(c, at, active, used);
  }

  // ---------------------------------------------------------------- a mapped pair is reported once

  /** The event is the root's own, or that of a runtime call that the root masks. */
  predicate Paired(c: Call, e: Event) {
    e.at == [] || (Masks(c.func, e.func) && NodeAt(c, e.at).Some? && NodeAt(c, e.at).value.kind.Gated?)
  }

  /** The reports among the root and the runtime calls below it that it masks. */
  function PairedReports(c: Call, events: seq<Event>): (r: nat) {
    if events == [] then 0 else
    (if events[0].reported && Paired(c, events[0]) then 1 else 0) + PairedReports(c, events[1..])
  }

  lemma {:induction false} NonePaired(c: Call, events: seq<Event>)
    requires forall i :: 0 <= i < |events| ==> !(events[i].reported && Paired(c, events[i]))
    ensures PairedReports(c, events) == 0
  {
    hide Paired;
    if events != [] {
      assert forall i :: 0 <= i < |events[1..]| ==> events[1..][i] == events[i + 1];
      NonePaired(c, events[1..]);
    }
  }

  /**
   * Over any tree below a guarded acl call, from any starting stack: the call and all the runtime calls
   * that it masks are reported once together, or not at all if it sets a device that is in use.
   */
  lemma ReportedOnce(c: Call, start: seq<string>, used: set<int>)
    requires c.kind.Guarded?
    ensures PairedReports(c, Trace(c, [], start, used).events)
         == if SetsDevice(c.func) && c.device in used + c.others then 0 else 1
  {
    hide Trace, TraceFrom, SetsDevice, Masks, UsedAfterEntry, NodeAt, Explained;
    TraceIs(c, [], start, used);
    var t := Trace(c, [], start, used).events;
    ReportedIffUnmaskedFrom(c, 0, [], start, UsedAfterEntry(c, start, used));
    assert t[0] == Event([], c.func, c.device, Reports(c, start, used));
    forall i | 0 <= i < |t[1..]| ensures !(t[1..][i].reported && Paired(c, t[1..][i])) {
      assert t[1..][i] == t[i + 1];
      if Paired(c, t[i + 1]) {
        SilentBelow(c, start, used, i + 1);
      }
    }
    NonePaired(c, t[1..]);
  }

  function Count(events: seq<Event>): (r: nat) {
    if events == [] then 0 else (if events[0].reported then 1 else 0) + Count(events[1..])
  }

  /** The acl entry point's original calls the runtime entry point below it. */
  function Pair(acl: string, rt: string, device: int): (r: Call) {
    Call(Guarded, acl, device, {}, [Call(Gated, rt, device, {}, [], false)], false)
  }

  /** The runtime call below is reported too unless it is masked, or sets a device that is in use by then. */
  lemma PairReports(acl: string, rt: string, device: int, start: seq<string>, used: set<int>)
    ensures Count(Trace(Pair(acl, rt, device), [], start, used).events)
         == (if SetsDevice(acl) && device in used then 0 else 1)
          + (if Masks(acl, rt) || Masked(rt, start) || (SetsDevice(rt) && (SetsDevice(acl) || device in used)) then 0
             else 1)
  {
    hide SetsDevice, Masks, Masked;
    var c := Pair(acl, rt, device);
    var leaf := c.children[0];
    var inner := [acl] + start;
    var after := used + {} + if SetsDevice(acl) then {device} else {};
    assert [] + [0] == [0] && [] + inner == inner && used + {} == used && after + {} == after;
    TraceIs(c, [], start, used);
    TraceFromIs(c, 0, [], inner, after);
    TraceIs(leaf, [0], inner, after);
    TraceFromEnd(leaf, [0], inner, UsedAfterEntry(leaf, inner, after));
    TraceFromEnd(c, [], inner, UsedAfterEntry(leaf, inner, after));
    MaskedPush(rt, acl, start);
    var e1 := Event([], acl, device, Reports(c, start, used));
    var e2 := Event([0], rt, device, Reports(leaf, inner, after));
    assert Trace(c, [], start, used).events == [e1] + [e2];
    CountTwo(e1, e2);
  }

  /** An Origin forwarder makes no choice itself, but masks as an entry point does. */
  lemma OriginMasks(acl: string, rt: string, device: int, start: seq<string>, used: set<int>)
    ensures Count(Trace(Call(Origin, acl, device, {}, [Call(Gated, rt, device, {}, [], false)], false), [], start, used)
                    .events)
         == if Masks(acl, rt) || Masked(rt, start) || (SetsDevice(rt) && device in used) then 0 else 1
  {
    hide SetsDevice, Masks, Masked;
    var leaf := Call(Gated, rt, device, {}, [], false);
    var c := Call(Origin, acl, device, {}, [leaf], false);
    var inner := [acl] + start;
    assert [] + [0] == [0] && [] + inner == inner && used + {} == used && used + {} + {} == used;
    TraceIs(c, [], start, used);
    TraceFromIs(c, 0, [], inner, used);
    TraceIs(leaf, [0], inner, used);
    TraceFromEnd(leaf, [0], inner, UsedAfterEntry(leaf, inner, used));
    TraceFromEnd(c, [], inner, UsedAfterEntry(leaf, inner, used));
    MaskedPush(rt, acl, start);
    var e := Event([0], rt, device, Reports(leaf, inner, used));
    assert Trace(c, [], start, used).events == [e];
    assert [e][1..] == [] && Count([e]) == if e.reported then 1 else 0;
  }

  /** Ten layers mask the runtime call whose name theirs contains. */
  lemma NamesakesMasked()
    ensures Masks("aclrtSetDeviceImpl", "rtSetDevice") && Masks("aclrtMallocImpl", "rtMalloc")
    ensures Masks("aclrtFreeImpl", "rtFree") && Masks("aclrtMemsetImpl", "rtMemset")
    ensures Masks("aclrtMemcpyImpl", "rtMemcpy") && Masks("aclrtMapMemImpl", "rtMapMem")
    ensures Masks("aclrtUnmapMemImpl", "rtUnmapMem") && Masks("aclrtGetDeviceImpl", "rtGetDevice")
    ensures Masks("aclrtGetDeviceCountImpl", "rtGetDeviceCount") && Masks("aclrtGetDeviceInfoImpl", "rtGetDeviceInfo")
  {
  }

  /** The others, with the two that aclrtIpcMemCloseImpl masks. */
  lemma OthersMasked()
    ensures Masks("aclrtResetDeviceImpl", "rtDeviceReset") && Masks("aclrtCreateContextImpl", "rtCtxCreateEx")
    ensures Masks("aclrtIpcMemGetExportKeyImpl", "rtIpcSetMemoryName")
    ensures Masks("aclrtIpcMemImportByKeyImpl", "rtIpcOpenMemory")
    ensures Masks("aclrtIpcMemCloseImpl", "rtIpcDestroyMemoryName") && Masks("aclrtIpcMemCloseImpl", "rtIpcCloseMemory")
    ensures Masks("aclrtQueryDeviceStatusImpl", "rtDeviceStatusQuery")
    ensures Masks("aclrtGetSocNameImpl", "rtGetSocVersion")
  {
  }

  /** Guarded entry points that mask nothing at all. */
  lemma UnmappedGuards(rt: string)
    ensures !Masks("aclrtMallocAlign32Impl", rt) && !Masks("aclrtFreeWithDevSyncImpl", rt)
    ensures !Masks("aclrtDeviceEnablePeerAccessImpl", rt) && !Masks("aclrtDeviceDisablePeerAccessImpl", rt)
  {
  }

  /** The kernel launches are among them. */
  lemma UnmappedLaunches(rt: string)
    ensures !Masks("aclrtLaunchKernelImpl", rt) && !Masks("aclrtLaunchKernelWithHostArgsImpl", rt)
  {
  }

  /** aclrtMallocAlign32Impl is a guarded entry point without a map entry: both calls are reported. */
  lemma UnmappedPairReportsTwice(used: set<int>)
    ensures Count(Trace(Pair("aclrtMallocAlign32Impl", "rtMalloc", 0), [], [], used).events) == 2
    ensures Count(Trace(Pair("aclrtMallocImpl", "rtMalloc", 0), [], [], used).events) == 1
  {
    PairReports("aclrtMallocAlign32Impl", "rtMalloc", 0, [], used);
    PairReports("aclrtMallocImpl", "rtMalloc", 0, [], used);
  }

  lemma CountTwo(a: Event, b: Event)
    ensures Count([a] + [b]) == (if a.reported then 1 else 0) + if b.reported then 1 else 0
  {
    assert ([a] + [b])[1..] == [b];
    assert [b][1..] == [];
    assert Count([b]) == if b.reported then 1 else 0;
  }

  lemma MaskedPush(func: string, layer: string, active: seq<string>)
    ensures Masked(func, [layer] + active) <==> Masks(layer, func) || Masked(func, active)
  {
    hide Masks;
    var pushed := [layer] + active;
    assert forall k :: 0 <= k < |active| ==> pushed[k + 1] == active[k];
    if Masks(layer, func) {
      assert Masks(pushed[0], func);
    }
    if Masked(func, active) {
      var k :| 0 <= k < |active| && Masks(active[k], func);
      assert Masks(pushed[k + 1], func);
    }
  }

  // ---------------------------------------------------------------- device ids

  function DeviceReports(events: seq<Event>, device: int): (r: nat) {
    if events == [] then 0 else
    (if events[0].reported && events[0].func in {"rtSetDevice", "aclrtSetDeviceImpl"} && events[0].device == device
     then 1 else 0)
      + DeviceReports(events[1..], device)
  }

  lemma {:induction false} DeviceReportsSplit(a: seq<Event>, b: seq<Event>, device: int)
    ensures DeviceReports(a + b, device) == DeviceReports(a, device) + DeviceReports(b, device)
  {
    hide SetsDevice;
    if a == [] {
      assert a + b == b;
    } else {
      assert (a + b)[1..] == a[1..] + b;
      DeviceReportsSplit(a[1..], b, device);
    }
  }

  /** Another thread entered the device somewhere during the call. */
  predicate Foreign(c: Call, device: int) {
    device in c.others || exists k :: 0 <= k < |c.children| && Foreign(c.children[k], device)
  }

  /** Between two states of the used set, a device is reported as often as it newly became used: at most once. */
  ghost predicate ReportedWhenNew(events: seq<Event>, device: int, used: set<int>, used': set<int>, foreign: bool) {
    && (device in used ==> device in used')
    && DeviceReports(events, device) <= 1
    && (DeviceReports(events, device) == 1 ==> device !in used && device in used')
    && (device !in used && device in used' && !foreign ==> DeviceReports(events, device) == 1)
  }

  lemma ReportedWhenNewJoin(a: seq<Event>, b: seq<Event>, device: int, u0: set<int>, u1: set<int>, u2: set<int>,
                            foreignA: bool, foreignB: bool)
    requires ReportedWhenNew(a, device, u0, u1, foreignA) && ReportedWhenNew(b, device, u1, u2, foreignB)
    ensures ReportedWhenNew(a + b, device, u0, u2, foreignA || foreignB)
  {
    hide DeviceReports;
    DeviceReportsSplit(a, b, device);
  }

  lemma SetsDeviceIs(func: string)
    ensures SetsDevice(func) <==> func in {"rtSetDevice", "aclrtSetDeviceImpl"}
  {
  }

  lemma EntryReportedWhenNew(c: Call, at: seq<nat>, active: seq<string>, used: set<int>, device: int)
    ensures ReportedWhenNew(Entry(c, at, active, used), device, used, UsedAfterEntry(c, active, used),
                            device in c.others)
  {
    hide SetsDevice, Masked;
    var e := Event(at, c.func, c.device, Reports(c, active, used));
    SetsDeviceIs(c.func);
    assert DeviceReports([e], device) == if e.reported && SetsDevice(e.func) && e.device == device then 1 else 0 by {
      assert [e][1..] == [];
    }
  }

  /** In every tree of calls a device id is reported at most once, by either set-device entry point. */
  lemma {:induction false} DeviceReportedOnce(c: Call, at: seq<nat>, active: seq<string>, used: set<int>, device: int)
    ensures var t := Trace(c, at, active, used);
            ReportedWhenNew(t.events, device, used, t.used, Foreign(c, device))
    decreases c, |c.children| + 1
  {
    hide ReportedWhenNew, Entry, UsedAfterEntry, Own, Trace, TraceFrom;
    TraceIs(c, at, active, used);
    var entered := UsedAfterEntry(c, active, used);
    var inside := TraceFrom(c, 0, at, Own(c) + active, entered);
    EntryReportedWhenNew(c, at, active, used, device);
    DeviceReportedOnceFrom(c, 0, at, Own(c) + active, entered, device);
    ReportedWhenNewJoin(Entry(c, at, active, used), inside.events, device, used, entered, inside.used,
                        device in c.others, ForeignInside(c, device));
  }

  predicate ForeignInside(c: Call, device: int) {
    exists k :: 0 <= k < |c.children| && Foreign(c.children[k], device)
  }

  lemma {:induction false} DeviceReportedOnceFrom(c: Call, k: nat, at: seq<nat>, active: seq<string>, used: set<int>,
                                                  device: int)
    requires k <= |c.children|
    ensures var t := TraceFrom(c, k, at, active, used);
            ReportedWhenNew(t.events, device, used, t.used, ForeignInside(c, device))
    decreases c, |c.children| - k
  {
    hide ReportedWhenNew, Trace, TraceFrom, Foreign;
    TraceFromEnd(c, at, active, used);
    NothingReported(device, used, ForeignInside(c, device));
    if k < |c.children| {
      TraceFromIs(c, k, at, active, used);
      var child := c.children[k];
      var first := Trace(child, at + [k], active, used);
      DeviceReportedOnce(child, at + [k], active, used, device);
      ReportedWhenNewWeaken(first.events, device, used, first.used, Foreign(child, device), ForeignInside(c, device));
      if !first.threw {
        var rest := TraceFrom(c, k + 1, at, active, first.used);
        DeviceReportedOnceFrom(c, k + 1, at, active, first.used, device);
        ReportedWhenNewJoin(first.events, rest.events, device, used, first.used, rest.used,
                            ForeignInside(c, device), ForeignInside(c, device));
      }
    }
  }

  lemma NothingReported(device: int, used: set<int>, foreign: bool)
    ensures ReportedWhenNew([], device, used, used, foreign)
  {
  }

  lemma ReportedWhenNewWeaken(events: seq<Event>, device: int, used: set<int>, used': set<int>, a: bool, b: bool)
    requires ReportedWhenNew(events, device, used, used', a) && (a ==> b)
    ensures ReportedWhenNew(events, device, used, used', b)
  {
  }
}
