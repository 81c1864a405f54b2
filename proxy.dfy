/** The proxy of src/EventProxy.js: it registers listeners on a target bus
    through an internal bus of its own, so that `destroy` can take all of
    them off the target at once, and it refuses every call once destroyed. */
module Proxy {
  import opened Values
  import opened EventRegistry
  import opened EventNames
  import opened Dispatch
  import opened Typhon

  /** What the constructor is given: a bus, or any other value. */
  datatype Candidate = Bus(bus: TyphonEvents) | NotBus(v: Value)

  /** The removal `stopListening(target)` performs for `destroy`: every
      binding the internal bus added, whatever its name, callback or context. */
  function OwnedBy(inner: object): Filter {
    Filter(None, None, None, Some(inner))
  }

  predicate NoneOwnedBy(reg: Registry, inner: object) {
    forall i, j :: 0 <= i < |reg| && 0 <= j < |reg[i].bindings| ==> reg[i].bindings[j].owner != Some(inner)
  }

  class EventProxy {
    /** `_eventbus`: the target, or null once destroyed. */
    var eventbus: TyphonEvents?
    /** `_proxy`: the internal bus, or null once destroyed. */
    var proxy: TyphonEvents?
    /** The target and the internal bus the proxy was created with. */
    ghost const target: TyphonEvents
    ghost const inner: TyphonEvents

    /** Active with both fields set to what the constructor stored, or
        destroyed with both null. */
    ghost predicate Valid()
      reads this, eventbus
    {
      && target != inner
      && (eventbus == null <==> proxy == null)
      && (eventbus != null ==> eventbus == target && proxy == inner && eventbus.Valid())
    }

    predicate Active()
      reads this
    {
      eventbus != null && proxy != null
    }

    constructor(bus: TyphonEvents)
      requires bus.Valid()
      ensures Valid() && Active()
      ensures eventbus == bus && target == bus && fresh(inner)
      ensures inner.events.None?
    {
      var internal := new TyphonEvents(Undefined);
      eventbus := bus;
      proxy := internal;
      target := bus;
      inner := internal;
    }

    /** `new EventProxy(eventbus)`: a TypeError, and nothing created, unless
        the value is a bus. */
    static method Create(c: Candidate) returns (r: Result<EventProxy>)
      requires c.Bus? ==> c.bus.Valid()
      ensures c.NotBus? ==> r == Err(TypeError(NotTyphonEvents))
      ensures c.Bus? ==> r.Ok? && fresh(r.value) && r.value.Valid() && r.value.Active() && r.value.target == c.bus
    {
      if c.NotBus? {
        return Err(TypeError(NotTyphonEvents));
      }
      var p := new EventProxy(c.bus);
      r := Ok(p);
    }

    /** `destroy()`: takes every binding the proxy added off the target and
        clears both fields. */
    method Destroy() returns (r: Result<()>)
      requires Valid()
      modifies this, eventbus
      ensures Valid() && !Active() && eventbus == null
      ensures old(eventbus) == null ==> r == Err(ReferenceError(Destroyed)) && unchanged(target)
      ensures old(eventbus) != null ==>
        && r == Ok(())
        && target.eventbusName == old(target.eventbusName)
        && target.events == (if old(target.events).None? then None else Some(RemoveWhere(old(target.events).value, OwnedBy(inner))))
    {
      if proxy == null || eventbus == null {
        return Err(ReferenceError(Destroyed));
      }
      var internal := proxy;
      var bus := internal.StopListening(eventbus, None, None, None);
      assert Filters(None, None, None, Some(inner)) == [OwnedBy(inner)];
      eventbus := null;
      proxy := null;
      r := Ok(());
    }

    /** `getEventbusName()`: the target's name. */
    function GetEventbusName(): (r: Result<Value>)
      reads this, eventbus
      ensures eventbus == null ==> r == Err(ReferenceError(Destroyed))
      ensures eventbus != null ==> r == Ok(eventbus.GetEventbusName())
    {
      if eventbus == null then Err(ReferenceError(Destroyed)) else Ok(eventbus.GetEventbusName())
    }

    /** `off(name?, callback?, context?)`: removes from the target only the
        bindings the proxy added that match the filters. */
    method Off(n: Option<NameArg>, cb: Option<CallbackId>, ctx: Option<ContextId>) returns (r: Result<EventProxy>)
      requires Valid()
      modifies eventbus
      ensures Valid()
      ensures old(eventbus) == null ==> r == Err(ReferenceError(Destroyed)) && unchanged(target)
      ensures old(eventbus) != null ==>
        && r == Ok(this)
        && target.eventbusName == old(target.eventbusName)
        && target.events == (if old(target.events).None? then None else Some(RemoveEach(old(target.events).value, Filters(n, cb, ctx, Some(inner)))))
    {
      if proxy == null || eventbus == null {
        return Err(ReferenceError(Destroyed));
      }
      var internal := proxy.StopListening(eventbus, n, cb, ctx);
      r := Ok(this);
    }

    /** `on(name, callback, context)`: registers on the target through the
        internal bus. */
    method On(n: NameArg, cb: CallbackId, ctx: Option<ContextId>) returns (r: Result<EventProxy>)
      requires Valid()
      modifies eventbus
      ensures Valid()
      ensures old(eventbus) == null ==> r == Err(ReferenceError(Destroyed)) && unchanged(target)
      ensures old(eventbus) != null ==>
        && r == Ok(this)
        && target.eventbusName == old(target.eventbusName)
        && target.events == Some(AddEach(old(target.events).GetOr([]), Adds(Targets(n, Some(cb)), cb, ctx, Some(inner), false)))
    {
      if proxy == null || eventbus == null {
        return Err(ReferenceError(Destroyed));
      }
      var internal := proxy.ListenTo(eventbus, n, cb, ctx);
      r := Ok(this);
    }

    /** `once(name, callback, context)`: as `on`, with bindings that fire once. */
    method Once(n: NameArg, cb: CallbackId, ctx: Option<ContextId>) returns (r: Result<EventProxy>)
      requires Valid()
      modifies eventbus
      ensures Valid()
      ensures old(eventbus) == null ==> r == Err(ReferenceError(Destroyed)) && unchanged(target)
      ensures old(eventbus) != null ==>
        && r == Ok(this)
        && target.eventbusName == old(target.eventbusName)
        && target.events == Some(AddEach(old(target.events).GetOr([]), Adds(Targets(n, Some(cb)), cb, ctx, Some(inner), true)))
    {
      if proxy == null || eventbus == null {
        return Err(ReferenceError(Destroyed));
      }
      var internal := proxy.ListenToOnce(eventbus, n, cb, ctx);
      r := Ok(this);
    }

    /** `trigger(name, ...args)` on the target; returns the proxy. */
    method Trigger(n: NameArg, args: seq<Value>, behave: Behaviour) returns (r: Result<EventProxy>, calls: seq<Call>)
      requires Valid()
      modifies eventbus
      ensures Valid()
      ensures old(eventbus) == null ==> r == Err(ReferenceError(Destroyed)) && calls == [] && unchanged(target)
      ensures old(eventbus) != null ==>
        var st := TriggerSpec(old(target.events), n, args, behave);
        && target.events == st.events && calls == st.calls
        && target.eventbusName == old(target.eventbusName)
        && r == (if st.thrown.Some? then Err(Thrown(st.thrown.value)) else Ok(this))
    {
      if eventbus == null {
        return Err(ReferenceError(Destroyed)), [];
      }
      var bus, thrown;
      bus, thrown, calls := eventbus.Trigger(n, args, behave);
      r := if thrown.Some? then Err(Thrown(thrown.value)) else Ok(this);
    }

    /** `triggerSync(name, ...args)`: the target's result, unchanged. */
    method TriggerSync(n: NameArg, args: seq<Value>, behave: Behaviour) returns (r: Result<Handle>, calls: seq<Call>)
      requires Valid()
      modifies eventbus
      ensures Valid()
      ensures old(eventbus) == null ==> r == Err(ReferenceError(Destroyed)) && calls == [] && unchanged(target)
      ensures old(eventbus) != null ==>
        var st := TriggerSyncSpec(old(target.events), n, args, behave);
        && target.events == st.events && calls == st.calls
        && target.eventbusName == old(target.eventbusName)
        && r == (if st.thrown.Some? then Err(Thrown(st.thrown.value)) else Ok(st.handle))
    {
      if eventbus == null {
        return Err(ReferenceError(Destroyed)), [];
      }
      var h, thrown;
      h, thrown, calls := eventbus.TriggerSync(n, args, behave);
      r := if thrown.Some? then Err(Thrown(thrown.value)) else Ok(h);
    }

    /** `triggerAsync(name, ...args)`: the target's promise, unchanged. */
    method TriggerAsync(n: NameArg, args: seq<Value>, behave: Behaviour) returns (r: Result<Handle>, calls: seq<Call>)
      requires Valid()
      modifies eventbus
      ensures Valid()
      ensures old(eventbus) == null ==> r == Err(ReferenceError(Destroyed)) && calls == [] && unchanged(target)
      ensures old(eventbus) != null ==>
        var st := TriggerAsyncSpec(old(target.events), n, args, behave);
        && target.events == st.events && calls == st.calls
        && target.eventbusName == old(target.eventbusName)
        && r == Ok(st.handle)
    {
      if eventbus == null {
        return Err(ReferenceError(Destroyed)), [];
      }
      var h;
      h, calls := eventbus.TriggerAsync(n, args, behave);
      r := Ok(h);
    }

    /** `triggerDefer(...)`: schedules a trigger on the target; returns the proxy. */
    method TriggerDefer() returns (r: Result<EventProxy>)
      requires Valid()
      ensures eventbus == null ==> r == Err(ReferenceError(Destroyed))
      ensures eventbus != null ==> r == Ok(this)
    {
      if eventbus == null {
        return Err(ReferenceError(Destroyed));
      }
      var bus := eventbus.TriggerDefer();
      r := Ok(this);
    }
  }

  /** `createEventProxy()` (src/TyphonEvents.js:37-40): a new active proxy of
      the bus. */
  method CreateEventProxy(bus: TyphonEvents) returns (p: EventProxy)
    requires bus.Valid()
    ensures fresh(p) && p.Valid() && p.Active() && p.target == bus
  {
    p := new EventProxy(bus);
  }

  // ---------------------------------------------------------------------
  // What `destroy` and `off` do to the target's registry

  /** `destroy` keeps exactly the bindings the proxy did not add, in their
      order, and lowers the count by the number it did add. */
  lemma DestroyKeepsOthers(reg: Registry, inner: object, name: string)
    requires EventRegistry.Valid(reg)
    ensures var after := RemoveWhere(reg, OwnedBy(inner));
      && EventRegistry.Valid(after)
      && (forall b :: b in Bindings(after, name) <==> b in Bindings(reg, name) && b.owner != Some(inner))
      && CountOf(after) == CountOf(reg) - Matching(reg, OwnedBy(inner))
  {
    RemoveWhereValid(reg, OwnedBy(inner));
    RemoveWhereBindings(reg, OwnedBy(inner), name);
    KeepMembers(Bindings(reg, name), OwnedBy(inner), name);
    RemoveWhereCount(reg, OwnedBy(inner));
  }

  lemma FiltersOwner(n: Option<NameArg>, cb: Option<CallbackId>, ctx: Option<ContextId>, owner: Option<object>)
    ensures forall k :: 0 <= k < |Filters(n, cb, ctx, owner)| ==> Filters(n, cb, ctx, owner)[k].owner == owner
  {
  }

  /** The proxy's `off` never removes a binding added directly on the target
      or by anyone else, whatever the filters. */
  lemma ProxyOffSparesOthers(reg: Registry, n: Option<NameArg>, cb: Option<CallbackId>, ctx: Option<ContextId>, inner: object, name: string)
    requires EventRegistry.Valid(reg)
    ensures var after := RemoveEach(reg, Filters(n, cb, ctx, Some(inner)));
      && (forall b :: b in Bindings(after, name) ==> b in Bindings(reg, name))
      && (forall b :: b in Bindings(reg, name) && b.owner != Some(inner) ==> b in Bindings(after, name))
  {
    var fs := Filters(n, cb, ctx, Some(inner));
    FiltersOwner(n, cb, ctx, Some(inner));
    RemoveEachBindings(reg, fs, name);
  }

  /** Whatever the proxy registered, `destroy` takes off again: a registry
      holding none of its bindings is restored exactly. */
  lemma {:induction false} DestroyUndoesOn(reg: Registry, inner: object, n: NameArg, cb: CallbackId, ctx: Option<ContextId>, once: bool)
    requires EventRegistry.Valid(reg) && NoneOwnedBy(reg, inner)
    ensures RemoveWhere(AddEach(reg, Adds(Targets(n, Some(cb)), cb, ctx, Some(inner), once)), OwnedBy(inner)) == reg
  {
    var adds := Adds(Targets(n, Some(cb)), cb, ctx, Some(inner), once);
    RemoveWhereAddEach(reg, adds, OwnedBy(inner));
    RemoveWhereNoMatch(reg, OwnedBy(inner));
  }
}
