/** The event bus of src/TyphonEvents.js: a bus object holding the registry
    `_events` and the name `_eventbusName`. The trigger methods are proved
    against the specification functions of `Dispatch`; registration, which
    the base class `Events` provides, is specified by its effect on the
    registry. */
module Typhon {
  import opened Values
  import opened EventRegistry
  import opened EventNames
  import opened Dispatch

  /** The (name, binding) pairs a registration appends, one per resolved
      target; an event map supplies its own callbacks. */
  function Adds(ts: seq<Target>, cb: CallbackId, ctx: Option<ContextId>, owner: Option<object>, once: bool): (r: seq<(string, Binding)>)
    ensures |r| == |ts|
  {
    seq(|ts|, k requires 0 <= k < |ts| => (ts[k].name, Binding(ts[k].callback.GetOr(cb), ctx, owner, once)))
  }

  /** The removals `off` and `stopListening` perform: one per resolved
      target, or a single one for every name when no name is given. */
  function Filters(n: Option<NameArg>, cb: Option<CallbackId>, ctx: Option<ContextId>, owner: Option<object>): (r: seq<Filter>)
    ensures n.None? ==> |r| == 1
  {
    if n.None? then [Filter(None, cb, ctx, owner)]
    else
      var ts := Targets(n.value, cb);
      seq(|ts|, k requires 0 <= k < |ts| => Filter(Some(ts[k].name), ts[k].callback, ctx, owner))
  }

  // ---------------------------------------------------------------------
  // What registration and removal do to the registry

  /** A name without whitespace registers exactly one binding. */
  lemma SingleAdds(reg: Registry, name: string, cb: CallbackId, ctx: Option<ContextId>, owner: Option<object>, once: bool)
    requires !HasSpace(name)
    ensures AddEach(reg, Adds(Targets(Name(name), Some(cb)), cb, ctx, owner, once)) == Add(reg, name, Binding(cb, ctx, owner, once))
  {
    SingleTarget(Name(name), Some(cb));
    var adds := Adds(Targets(Name(name), Some(cb)), cb, ctx, owner, once);
    assert adds == [(name, Binding(cb, ctx, owner, once))];
    assert adds[1..] == [];
  }

  /** `on(name, cb, ctx)` appends the binding to the end of the list of
      `name`, so a trigger of `name` calls it after the earlier ones, and
      leaves every other list alone. */
  lemma OnAppends(reg: Registry, name: string, cb: CallbackId, ctx: Option<ContextId>, other: string)
    requires !HasSpace(name)
    ensures var after := AddEach(reg, Adds(Targets(Name(name), Some(cb)), cb, ctx, None, false));
      && Bindings(after, other) == (if other == name then Bindings(reg, name) + [Binding(cb, ctx, None, false)] else Bindings(reg, other))
      && CountOf(after) == CountOf(reg) + 1
  {
    SingleAdds(reg, name, cb, ctx, None, false);
    AddBindings(reg, name, Binding(cb, ctx, None, false), other);
    AddCount(reg, name, Binding(cb, ctx, None, false));
  }

  /** `off(name, cb, ctx)` after `on(name, cb, ctx)` gives back the registry
      from before, when no earlier binding of `name` matched the same filters. */
  lemma {:induction false} OffUndoesOn(reg: Registry, name: string, cb: CallbackId, ctx: Option<ContextId>)
    requires EventRegistry.Valid(reg) && !HasSpace(name)
    requires forall b :: b in Bindings(reg, name) ==> !(b.callback == cb && (ctx.None? || b.ctx == ctx))
    ensures var after := AddEach(reg, Adds(Targets(Name(name), Some(cb)), cb, ctx, None, false));
      RemoveEach(after, Filters(Some(Name(name)), Some(cb), ctx, None)) == reg
  {
    SingleAdds(reg, name, cb, ctx, None, false);
    SingleTarget(Name(name), Some(cb));
    var f := Filter(Some(name), Some(cb), ctx, None);
    assert Filters(Some(Name(name)), Some(cb), ctx, None) == [f];
    var b := Binding(cb, ctx, None, false);
    RemoveWhereAdd(reg, name, b, f);
    forall i, j | 0 <= i < |reg| && 0 <= j < |reg[i].bindings| ensures !Matches(f, reg[i].name, reg[i].bindings[j]) {
      if reg[i].name == name {
        assert Names(reg)[i] == name;
        GetIsIndexed(reg, name);
        var k :| 0 <= k < |reg| && reg[k].name == name && Get(reg, name).value == reg[k].bindings;
        assert k == i;
        assert reg[i].bindings[j] in Bindings(reg, name);
      }
    }
    RemoveWhereNoMatch(reg, f);
    assert [f][1..] == [];
  }

  /** A removal with no name, callback or context matches every binding, so
      `off()`, which drops the registry, removes exactly what such a filter
      removes. */
  lemma {:induction false} OffAll(reg: Registry)
    ensures RemoveEach(reg, Filters(None, None, None, None)) == []
    ensures CountOf(RemoveEach(reg, Filters(None, None, None, None))) == 0
  {
    var f := Filter(None, None, None, None);
    assert Filters(None, None, None, None) == [f];
    assert [f][1..] == [];
    RemoveAll(reg, f);
  }

  lemma {:induction false} RemoveAll(reg: Registry, f: Filter)
    requires f == Filter(None, None, None, None)
    ensures RemoveWhere(reg, f) == []
  {
    if reg != [] {
      KeepAll(reg[0].bindings, f, reg[0].name);
      RemoveAll(reg[1..], f);
    }
  }

  lemma {:induction false} KeepAll(bs: seq<Binding>, f: Filter, name: string)
    requires f == Filter(None, None, None, None)
    ensures Keep(bs, f, name) == []
  {
    if bs != [] { KeepAll(bs[1..], f, name); }
  }

  /** A `once` registration under a name nothing else listens to fires on
      the next trigger of that name, and that trigger leaves the registry
      exactly as it was before the registration. */
  lemma OnceThenTrigger(reg: Registry, name: string, cb: CallbackId, ctx: Option<ContextId>, args: seq<Value>, behave: Behaviour)
    requires EventRegistry.Valid(reg) && !HasSpace(name) && name != "all"
    requires Get(reg, name).None? && Get(reg, "all").None?
    requires behave(cb, ctx, args).Return?
    ensures var before := AddEach(reg, Adds(Targets(Name(name), Some(cb)), cb, ctx, None, true));
      var st := TriggerSyncSpec(Some(before), Name(name), args, behave);
      && st.handle == Bare(behave(cb, ctx, args).v)
      && st.calls == [Call(cb, ctx, args)]
      && st.events == Some(reg)
  {
    var b := Binding(cb, ctx, None, true);
    SingleAdds(reg, name, cb, ctx, None, true);
    var before := Add(reg, name, b);
    AddValid(reg, name, b);
    AddBindings(reg, name, b, name);
    AddBindings(reg, name, b, "all");
    GetNonEmpty(before, "all");
    assert Bindings(reg, name) + [b] == [b];
    assert Get(before, name) == Some([b]);
    OnceFiresOnce(before, name, b, args, behave);
    RemoveOneAdd(reg, name, b);
  }

  class TyphonEvents {
    /** `_events`: absent until the first registration. */
    var events: Option<Registry>
    /** `_eventbusName`. */
    var eventbusName: Value

    ghost predicate Valid()
      reads this
    {
      events.Some? ==> EventRegistry.Valid(events.value)
    }

    constructor(name: Value)
      ensures Valid()
      ensures events == None && eventbusName == name
    {
      events := None;
      eventbusName := name;
    }

    // -------------------------------------------------------------------
    // Name and introspection

    function GetEventbusName(): (r: Value)
      reads this
      ensures r == eventbusName
    {
      eventbusName
    }

    /** Stores the name and returns the bus; the registry is not touched. */
    method SetEventbusName(name: Value) returns (r: TyphonEvents)
      modifies this
      ensures r == this && GetEventbusName() == name
      ensures events == old(events)
    {
      eventbusName := name;
      r := this;
    }

    /** `getEventNames`: the registered names, each once, and exactly the
        names that have bindings. */
    function GetEventNames(): (r: seq<string>)
      reads this
      requires Valid()
      ensures forall i, j :: 0 <= i < j < |r| ==> r[i] != r[j]
      ensures forall n :: n in r <==> events.Some? && Bindings(events.value, n) != []
    {
      if events.None? then [] else NamesDistinct(events.value); Names(events.value)
    }

    /** `eventCount`: the sum of the list lengths, which is also how many
        visits `forEachEvent` makes. */
    method EventCount() returns (count: nat)
      ensures count == CountOf(events.GetOr([]))
      ensures count == |Visits(events.GetOr([]))|
    {
      var reg := events.GetOr([]);
      count := 0;
      var i := 0;
      while i < |reg|
        invariant 0 <= i <= |reg|
        invariant count == CountOf(reg[..i])
      {
        CountAppend(reg[..i], reg[i]);
        assert reg[..i + 1] == reg[..i] + [reg[i]];
        count := count + |reg[i].bindings|;
        i := i + 1;
      }
      assert reg[..i] == reg;
      VisitsCount(reg);
    }

    /** `forEachEvent(callback)`: the (name, callback, context) triples the
        visitor receives, name by name and in binding order within a name.
        Without a registry nothing happens, before the visitor is checked. */
    method ForEachEvent(visitorIsFunction: bool) returns (r: Result<seq<Visit>>)
      ensures events.None? ==> r == Ok([])
      ensures events.Some? && !visitorIsFunction ==> r == Err(TypeError(NotAFunction))
      ensures events.Some? && visitorIsFunction ==> r == Ok(Visits(events.value))
    {
      if events.None? { return Ok([]); }
      if !visitorIsFunction { return Err(TypeError(NotAFunction)); }
      var reg := events.value;
      var visits: seq<Visit> := [];
      var i := 0;
      while i < |reg|
        invariant 0 <= i <= |reg|
        invariant visits == Visits(reg[..i])
      {
        var e := reg[i];
        var j := 0;
        while j < |e.bindings|
          invariant 0 <= j <= |e.bindings|
          invariant visits == Visits(reg[..i]) + EntryVisits(e)[..j]
        {
          assert EntryVisits(e)[..j + 1] == EntryVisits(e)[..j] + [Visit(e.name, e.bindings[j].callback, e.bindings[j].ctx)];
          visits := visits + [Visit(e.name, e.bindings[j].callback, e.bindings[j].ctx)];
          j := j + 1;
        }
        assert EntryVisits(e)[..j] == EntryVisits(e);
        VisitsAppend(reg[..i], e);
        assert reg[..i + 1] == reg[..i] + [e];
        i := i + 1;
      }
      assert reg[..i] == reg;
      r := Ok(visits);
    }

    // -------------------------------------------------------------------
    // Dispatch

    /** The `while (++i < l)` loop both collectors run over the list `bs`,
        fixed before it starts: each binding is called with the arguments
        its arity branch passes, a `once` binding first taking itself off the
        list `listName`, and the loop ends at the first callback that throws. */
    method InvokeAll(listName: string, bs: seq<Binding>, args: seq<Value>, behave: Behaviour)
      returns (results: seq<Value>, last: Value, thrown: Option<ErrorId>, calls: seq<Call>)
      requires Valid() && events.Some?
      modifies this
      ensures Valid() && eventbusName == old(eventbusName)
      ensures var run := RunList(old(events).value, listName, bs, args, behave);
        && events == Some(run.reg) && results == run.results && last == run.last
        && thrown == run.thrown && calls == run.calls
    {
      ghost var reg0 := events.value;
      var a := CallArgs(args);
      results, last, thrown, calls := [], Undefined, None, [];
      var i := 0;
      while i < |bs| && thrown.None?
        invariant 0 <= i <= |bs|
        invariant Valid() && events.Some? && eventbusName == old(eventbusName)
        invariant var run := RunList(reg0, listName, bs[..i], args, behave);
          && events == Some(run.reg) && results == run.results && last == run.last
          && thrown == run.thrown && calls == run.calls
      {
        var b := bs[i];
        assert bs[..i + 1][..i] == bs[..i];
        if b.once {
          RemoveOneValid(events.value, listName, b);
          events := Some(RemoveOne(events.value, listName, b));
        }
        calls := calls + [Call(b.callback, b.ctx, a)];
        match behave(b.callback, b.ctx, a) {
          case Throw(e) =>
            thrown := Some(e);
          case Return(v) =>
            if PushCondition(v) { results := results + [v]; }
            last := v;
        }
        i := i + 1;
      }
      if thrown.Some? {
        RunStops(reg0, listName, bs, i, args, behave);
      } else {
        assert bs[..i] == bs;
      }
    }

    /** `s_TRIGGER_SYNC_EVENTS`: the array of values when there are several,
        else the last value; a callback's error propagates. */
    method SyncEvents(listName: string, bs: seq<Binding>, args: seq<Value>, behave: Behaviour)
      returns (h: Handle, thrown: Option<ErrorId>, calls: seq<Call>)
      requires Valid() && events.Some?
      modifies this
      ensures Valid() && eventbusName == old(eventbusName)
      ensures var st := ListStep(Sync, old(events).value, listName, bs, args, behave, []);
        events == st.events && h == st.handle && thrown == st.thrown && calls == st.calls
    {
      var results, last;
      results, last, thrown, calls := InvokeAll(listName, bs, args, behave);
      assert [] + calls == calls;
      if thrown.Some? {
        h := Bare(Undefined);
      } else if |results| > 1 {
        h := Array(results);
      } else {
        h := Bare(last);
      }
    }

    /** `s_TRIGGER_ASYNC_EVENTS`: a rejection with the error a callback
        threw, `Promise.all` of several values, else `Promise.resolve` of the
        last value; it never throws. */
    method AsyncEvents(listName: string, bs: seq<Binding>, args: seq<Value>, behave: Behaviour)
      returns (h: Handle, thrown: Option<ErrorId>, calls: seq<Call>)
      requires Valid() && events.Some?
      modifies this
      ensures Valid() && eventbusName == old(eventbusName)
      ensures thrown.None?
      ensures var st := ListStep(Async, old(events).value, listName, bs, args, behave, []);
        events == st.events && h == st.handle && calls == st.calls
    {
      var results, last, error;
      results, last, error, calls := InvokeAll(listName, bs, args, behave);
      assert [] + calls == calls;
      thrown := None;
      if error.Some? {
        h := Reject(error.value);
      } else if |results| > 1 {
        h := All(results);
      } else {
        h := Resolve(last);
      }
    }

    /** `s_TRIGGER_API` for one name, looked up in `handle`: the bindings of
        the name, then the `all` bindings taken before any callback ran,
        called with the name value itself in front of the arguments. */
    method TriggerApi(mode: Mode, handle: Handle, key: EventKey, args: seq<Value>, behave: Behaviour)
      returns (h: Handle, thrown: Option<ErrorId>, calls: seq<Call>)
      requires Valid()
      modifies this
      ensures Valid() && eventbusName == old(eventbusName)
      ensures var st := ApiStep(mode, State(old(events), handle, None, []), key, args, behave);
        events == st.events && h == st.handle && thrown == st.thrown && calls == st.calls
    {
      if !(handle.Events? && events.Some?) {
        return Bare(Undefined), None, [];
      }
      var reg := events.value;
      var named := Get(reg, key.name);
      var all := Get(reg, "all");
      h, thrown, calls := Bare(Undefined), None, [];
      if named.Some? {
        if mode == Sync {
          h, thrown, calls := SyncEvents(key.name, named.value, args, behave);
        } else {
          h, thrown, calls := AsyncEvents(key.name, named.value, args, behave);
        }
      }
      if thrown.None? && all.Some? {
        var h2, t2, c2;
        if mode == Sync {
          h2, t2, c2 := SyncEvents("all", all.value, [key.raw] + args, behave);
        } else {
          h2, t2, c2 := AsyncEvents("all", all.value, [key.raw] + args, behave);
        }
        h, thrown, calls := h2, t2, calls + c2;
      }
    }

    /** `s_EVENTS_API` with the trigger lookup: every resolved name is looked
        up in the value the previous lookup returned. */
    method EventsApi(mode: Mode, handle: Handle, n: NameArg, args: seq<Value>, behave: Behaviour)
      returns (h: Handle, thrown: Option<ErrorId>, calls: seq<Call>)
      requires Valid()
      modifies this
      ensures Valid() && eventbusName == old(eventbusName)
      ensures var st := Fold(mode, State(old(events), handle, None, []), TargetKeys(Targets(n, None)), args, behave);
        events == st.events && h == st.handle && thrown == st.thrown && calls == st.calls
      decreases if n.EventMap? then 3 else 0
    {
      if n.EventMap? {
        h, thrown, calls := MapApi(mode, handle, n.entries, args, behave);
      } else if n.Name? && n.s != "" && HasSpace(n.s) {
        SpacedTargets(n.s, None);
        h, thrown, calls := NamesApi(mode, handle, StringKeys(Split(n.s)), args, behave);
      } else {
        var key := SingleKey(n);
        SingleTarget(n, None);
        FoldOne(mode, State(events, handle, None, []), key, args, behave);
        h, thrown, calls := TriggerApi(mode, handle, key, args, behave);
      }
    }

    /** The loop of `s_EVENTS_API` over the keys of an event map, each
        resolved as a name in turn. */
    method MapApi(mode: Mode, handle: Handle, es: seq<MapEntry>, args: seq<Value>, behave: Behaviour)
      returns (h: Handle, thrown: Option<ErrorId>, calls: seq<Call>)
      requires Valid()
      modifies this
      ensures Valid() && eventbusName == old(eventbusName)
      ensures var st := Fold(mode, State(old(events), handle, None, []), TargetKeys(EntryTargets(es)), args, behave);
        events == st.events && h == st.handle && thrown == st.thrown && calls == st.calls
      decreases 2
    {
      ghost var start := State(events, handle, None, []);
      h, thrown, calls := handle, None, [];
      var i := 0;
      while i < |es| && thrown.None?
        invariant 0 <= i <= |es|
        invariant Valid() && eventbusName == old(eventbusName)
        invariant var st := Fold(mode, start, TargetKeys(EntryTargets(es[..i])), args, behave);
          events == st.events && h == st.handle && thrown == st.thrown && calls == st.calls
      {
        h, thrown, calls := MapKey(mode, start, es, i, h, calls, args, behave);
        i := i + 1;
      }
      MapStops(mode, start, es, i, args, behave);
    }

    /** One pass of the map loop: key i dispatched as a name, from the state
        the first i keys left. */
    method MapKey(mode: Mode, ghost start: State, es: seq<MapEntry>, i: nat, handle: Handle, sofar: seq<Call>,
                  args: seq<Value>, behave: Behaviour)
      returns (h: Handle, thrown: Option<ErrorId>, calls: seq<Call>)
      requires Valid() && i < |es|
      requires var st := Fold(mode, start, TargetKeys(EntryTargets(es[..i])), args, behave);
        events == st.events && handle == st.handle && st.thrown.None? && sofar == st.calls
      modifies this
      ensures Valid() && eventbusName == old(eventbusName)
      ensures var st := Fold(mode, start, TargetKeys(EntryTargets(es[..i + 1])), args, behave);
        events == st.events && h == st.handle && thrown == st.thrown && calls == st.calls
      decreases 1
    {
      ghost var before := events;
      var c1;
      h, thrown, c1 := EventsApi(mode, handle, Name(es[i].key), args, behave);
      MapAdvance(mode, start, es, i, args, behave, before, handle, sofar, events, h, thrown, c1);
      calls := sofar + c1;
    }

    /** The loop of `s_EVENTS_API` over the tokens of a whitespace name. */
    method NamesApi(mode: Mode, handle: Handle, names: seq<EventKey>, args: seq<Value>, behave: Behaviour)
      returns (h: Handle, thrown: Option<ErrorId>, calls: seq<Call>)
      requires Valid()
      modifies this
      ensures Valid() && eventbusName == old(eventbusName)
      ensures var st := Fold(mode, State(old(events), handle, None, []), names, args, behave);
        events == st.events && h == st.handle && thrown == st.thrown && calls == st.calls
    {
      ghost var start := State(events, handle, None, []);
      h, thrown, calls := handle, None, [];
      var i := 0;
      while i < |names| && thrown.None?
        invariant 0 <= i <= |names|
        invariant Valid() && eventbusName == old(eventbusName)
        invariant var st := Fold(mode, start, names[..i], args, behave);
          events == st.events && h == st.handle && thrown == st.thrown && calls == st.calls
      {
        ghost var before := events;
        var h1, t1, c1 := TriggerApi(mode, h, names[i], args, behave);
        assert names[..i + 1][..i] == names[..i];
        ApiStepCalls(mode, before, h, calls, names[i], args, behave);
        h, thrown, calls := h1, t1, calls + c1;
        i := i + 1;
      }
      if thrown.Some? {
        FoldStops(mode, start, names, i, args, behave);
      } else {
        assert names[..i] == names;
      }
    }

    /** `triggerSync(name, ...args)`. */
    method TriggerSync(n: NameArg, args: seq<Value>, behave: Behaviour)
      returns (h: Handle, thrown: Option<ErrorId>, calls: seq<Call>)
      requires Valid()
      modifies this
      ensures Valid() && eventbusName == old(eventbusName)
      ensures var st := TriggerSyncSpec(old(events), n, args, behave);
        events == st.events && h == st.handle && thrown == st.thrown && calls == st.calls
    {
      if events.None? {
        return Bare(Undefined), None, [];
      }
      h, thrown, calls := EventsApi(Sync, Events, n, args, behave);
    }

    /** `triggerAsync(name, ...args)`: the promise `s_EVENTS_API` returns, or
        `Promise.resolve()` when it returns undefined. */
    method TriggerAsync(n: NameArg, args: seq<Value>, behave: Behaviour)
      returns (h: Handle, calls: seq<Call>)
      requires Valid()
      modifies this
      ensures Valid() && eventbusName == old(eventbusName)
      ensures var st := TriggerAsyncSpec(old(events), n, args, behave);
        events == st.events && h == st.handle && calls == st.calls
    {
      var thrown;
      h, thrown, calls := EventsApi(Async, if events.Some? then Events else Bare(Undefined), n, args, behave);
      if h == Bare(Undefined) {
        h := Resolve(Undefined);
      }
    }

    /** The inherited `trigger(name, ...args)`: every resolved name is
        dispatched against the registry, the values are dropped, and the bus
        is returned; a callback's error propagates. */
    method Trigger(n: NameArg, args: seq<Value>, behave: Behaviour)
      returns (r: TyphonEvents, thrown: Option<ErrorId>, calls: seq<Call>)
      requires Valid()
      modifies this
      ensures Valid() && eventbusName == old(eventbusName) && r == this
      ensures var st := TriggerSpec(old(events), n, args, behave);
        events == st.events && thrown == st.thrown && calls == st.calls
    {
      r := this;
      if events.None? {
        return r, None, [];
      }
      ghost var start := Start(events);
      var names := TargetKeys(Targets(n, None));
      thrown, calls := None, [];
      var i := 0;
      while i < |names| && thrown.None?
        invariant 0 <= i <= |names|
        invariant Valid() && eventbusName == old(eventbusName)
        invariant var st := PlainFold(start, names[..i], args, behave);
          events == st.events && thrown == st.thrown && calls == st.calls
      {
        ghost var before := events;
        var h1, t1, c1 := TriggerApi(Sync, Events, names[i], args, behave);
        assert names[..i + 1][..i] == names[..i];
        ApiStepCalls(Sync, before, Events, calls, names[i], args, behave);
        thrown, calls := t1, calls + c1;
        i := i + 1;
      }
      if thrown.Some? {
        PlainStops(start, names, i, args, behave);
      } else {
        assert names[..i] == names;
      }
    }

    /** `triggerDefer(...)` returns the bus; the trigger it schedules for a
        later tick is not part of this model. */
    method TriggerDefer() returns (r: TyphonEvents)
      ensures r == this
    {
      r := this;
    }

    // -------------------------------------------------------------------
    // Registration, provided by the base class

    /** `on(name, callback, context)`: one binding per resolved name,
        appended to its list. */
    method On(n: NameArg, cb: CallbackId, ctx: Option<ContextId>) returns (r: TyphonEvents)
      requires Valid()
      modifies this
      ensures Valid() && eventbusName == old(eventbusName) && r == this
      ensures events == Some(AddEach(old(events).GetOr([]), Adds(Targets(n, Some(cb)), cb, ctx, None, false)))
    {
      var reg := events.GetOr([]);
      var adds := Adds(Targets(n, Some(cb)), cb, ctx, None, false);
      AddEachValid(reg, adds);
      events := Some(AddEach(reg, adds));
      r := this;
    }

    /** `once(name, callback, context)`: as `on`, with bindings that remove
        themselves before they first run. */
    method Once(n: NameArg, cb: CallbackId, ctx: Option<ContextId>) returns (r: TyphonEvents)
      requires Valid()
      modifies this
      ensures Valid() && eventbusName == old(eventbusName) && r == this
      ensures events == Some(AddEach(old(events).GetOr([]), Adds(Targets(n, Some(cb)), cb, ctx, None, true)))
    {
      var reg := events.GetOr([]);
      var adds := Adds(Targets(n, Some(cb)), cb, ctx, None, true);
      AddEachValid(reg, adds);
      events := Some(AddEach(reg, adds));
      r := this;
    }

    /** `off(name?, callback?, context?)`: removes every binding that matches
        all the filters given, whoever added it; with none given, the
        registry itself is dropped, as on a new bus. */
    method Off(n: Option<NameArg>, cb: Option<CallbackId>, ctx: Option<ContextId>) returns (r: TyphonEvents)
      requires Valid()
      modifies this
      ensures Valid() && eventbusName == old(eventbusName) && r == this
      ensures old(events).None? || (n.None? && cb.None? && ctx.None?) ==> events == None
      ensures old(events).Some? && !(n.None? && cb.None? && ctx.None?) ==>
        events == Some(RemoveEach(old(events).value, Filters(n, cb, ctx, None)))
    {
      if n.None? && cb.None? && ctx.None? {
        events := None;
      } else if events.Some? {
        RemoveEachValid(events.value, Filters(n, cb, ctx, None));
        events := Some(RemoveEach(events.value, Filters(n, cb, ctx, None)));
      }
      r := this;
    }

    /** `listenTo(other, name, callback, context)`: as `other.on`, with the
        bindings marked as this bus's. */
    method ListenTo(other: TyphonEvents, n: NameArg, cb: CallbackId, ctx: Option<ContextId>) returns (r: TyphonEvents)
      requires other.Valid()
      modifies other
      ensures other.Valid() && other.eventbusName == old(other.eventbusName) && r == this
      ensures other.events == Some(AddEach(old(other.events).GetOr([]), Adds(Targets(n, Some(cb)), cb, ctx, Some(this), false)))
    {
      var reg := other.events.GetOr([]);
      var adds := Adds(Targets(n, Some(cb)), cb, ctx, Some(this), false);
      AddEachValid(reg, adds);
      other.events := Some(AddEach(reg, adds));
      r := this;
    }

    /** `listenToOnce(other, name, callback, context)`. */
    method ListenToOnce(other: TyphonEvents, n: NameArg, cb: CallbackId, ctx: Option<ContextId>) returns (r: TyphonEvents)
      requires other.Valid()
      modifies other
      ensures other.Valid() && other.eventbusName == old(other.eventbusName) && r == this
      ensures other.events == Some(AddEach(old(other.events).GetOr([]), Adds(Targets(n, Some(cb)), cb, ctx, Some(this), true)))
    {
      var reg := other.events.GetOr([]);
      var adds := Adds(Targets(n, Some(cb)), cb, ctx, Some(this), true);
      AddEachValid(reg, adds);
      other.events := Some(AddEach(reg, adds));
      r := this;
    }

    /** `stopListening(other, name?, callback?, context?)`: removes from
        `other` the bindings this bus added that match the filters. */
    method StopListening(other: TyphonEvents, n: Option<NameArg>, cb: Option<CallbackId>, ctx: Option<ContextId>) returns (r: TyphonEvents)
      requires other.Valid()
      modifies other
      ensures other.Valid() && other.eventbusName == old(other.eventbusName) && r == this
      ensures old(other.events).None? ==> other.events == None
      ensures old(other.events).Some? ==> other.events == Some(RemoveEach(old(other.events).value, Filters(n, cb, ctx, Some(this))))
    {
      if other.events.Some? {
        RemoveEachValid(other.events.value, Filters(n, cb, ctx, Some(this)));
        other.events := Some(RemoveEach(other.events.value, Filters(n, cb, ctx, Some(this))));
      }
      r := this;
    }
  }
}
