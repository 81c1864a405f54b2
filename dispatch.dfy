/** What the trigger functions of src/TyphonEvents.js compute, as functions of
    the registry, the event name, the arguments and the callbacks' behaviour:
    the collector loops `s_TRIGGER_SYNC_EVENTS` (:343-402) and
    `s_TRIGGER_ASYNC_EVENTS` (:262-332), the lookup `s_TRIGGER_API`
    (:235-249) and the name loop of `s_EVENTS_API` (:195-223) that threads the
    value each call returns into the next call. The bus class proves its
    methods against these functions; the lemmas here state what they mean. */
module Dispatch {
  import opened Values
  import opened EventRegistry
  import opened EventNames

  /** What a trigger function hands back, and so what `s_EVENTS_API` passes
      as `events` to the call for the next name. */
  datatype Handle =
    | Events                  // the bus's own `_events` object, not yet replaced
    | Bare(v: Value)          // one value (`result`), or undefined
    | Array(vs: seq<Value>)   // the `results` array
    | Reject(e: ErrorId)      // `Promise.reject(error)`
    | All(vs: seq<Value>)     // `Promise.all(results)`
    | Resolve(v: Value)       // `Promise.resolve(result)`

  datatype Mode = Sync | Async

  /** The push test of src/TyphonEvents.js:280 and :359, as written. */
  predicate PushCondition(v: Value) {
    v != Null || v != Undefined
  }

  /** The arguments each arity branch of the collectors passes to `call`:
      `a1`, `a2`, `a3` for up to three arguments, the whole array for more. */
  function CallArgs(args: seq<Value>): (r: seq<Value>)
    ensures r == args
  {
    match |args|
    case 0 => []
    case 1 => [args[0]]
    case 2 => [args[0], args[1]]
    case 3 => [args[0], args[1], args[2]]
    case _ => args
  }

  /** The state of a collector loop: the registry (which a `once` binding
      changes), `results`, `result`, the error that ended the loop, and the
      calls made so far. */
  datatype Run = Run(reg: Registry, results: seq<Value>, last: Value, thrown: Option<ErrorId>, calls: seq<Call>)

  /** One iteration: a `once` binding first takes itself off its list, then
      its callback runs. */
  function Invoke(run: Run, listName: string, b: Binding, args: seq<Value>, behave: Behaviour): Run {
    var reg := if b.once then RemoveOne(run.reg, listName, b) else run.reg;
    var call := Call(b.callback, b.ctx, args);
    match behave(b.callback, b.ctx, args)
    case Throw(e) => Run(reg, run.results, run.last, Some(e), run.calls + [call])
    case Return(v) => Run(reg, if PushCondition(v) then run.results + [v] else run.results, v, None, run.calls + [call])
  }

  /** The loop over a list `bs` fixed before it starts, stopping at the first
      callback that throws. */
  function RunList(reg: Registry, listName: string, bs: seq<Binding>, args: seq<Value>, behave: Behaviour): Run
    decreases |bs|
  {
    if bs == [] then Run(reg, [], Undefined, None, [])
    else
      var pre := RunList(reg, listName, bs[..|bs| - 1], args, behave);
      if pre.thrown.Some? then pre else Invoke(pre, listName, bs[|bs| - 1], args, behave)
  }

  /** `results.length > 1 ? results : result` (src/TyphonEvents.js:401). */
  function SyncCollect(run: Run): Handle {
    if |run.results| > 1 then Array(run.results) else Bare(run.last)
  }

  /** The catch at :325-328 and the choice at :331. */
  function AsyncCollect(run: Run): Handle {
    if run.thrown.Some? then Reject(run.thrown.value)
    else if |run.results| > 1 then All(run.results)
    else Resolve(run.last)
  }

  /** The state `s_EVENTS_API` carries from name to name: the bus's registry
      (absent before anything was registered), the value passed on as
      `events`, the error a synchronous trigger propagates, and the calls. */
  datatype State = State(events: Option<Registry>, handle: Handle, thrown: Option<ErrorId>, calls: seq<Call>)

  /** One collector call over the list `bs` of `listName`. */
  function ListStep(mode: Mode, reg: Registry, listName: string, bs: seq<Binding>, args: seq<Value>, behave: Behaviour, calls: seq<Call>): State {
    var run := RunList(reg, listName, bs, args, behave);
    match mode
    case Sync =>
      if run.thrown.Some? then State(Some(run.reg), Bare(Undefined), run.thrown, calls + run.calls)
      else State(Some(run.reg), SyncCollect(run), None, calls + run.calls)
    case Async => State(Some(run.reg), AsyncCollect(run), None, calls + run.calls)
  }

  /** `s_TRIGGER_API` for one name: the bindings of the name, then a copy of
      the `all` bindings taken before any callback runs, called with the name
      in front of the arguments; the second result replaces the first. A
      value other than the registry has no bindings to find. */
  function ApiStep(mode: Mode, st: State, key: EventKey, args: seq<Value>, behave: Behaviour): State
    requires st.thrown.None?
  {
    if !(st.handle.Events? && st.events.Some?) then st.(handle := Bare(Undefined))
    else
      var reg := st.events.value;
      var named := Get(reg, key.name);
      var all := Get(reg, "all");
      var s1 := if named.Some? then ListStep(mode, reg, key.name, named.value, args, behave, st.calls)
                else State(Some(reg), Bare(Undefined), None, st.calls);
      if s1.thrown.Some? || all.None? then s1
      else ListStep(mode, s1.events.value, "all", all.value, [key.raw] + args, behave, s1.calls)
  }

  /** The loop of `s_EVENTS_API` over the resolved names; a synchronous
      throw leaves it. */
  function Fold(mode: Mode, st: State, names: seq<EventKey>, args: seq<Value>, behave: Behaviour): State
    decreases |names|
  {
    if names == [] then st
    else
      var pre := Fold(mode, st, names[..|names| - 1], args, behave);
      if pre.thrown.Some? then pre else ApiStep(mode, pre, names[|names| - 1], args, behave)
  }

  /** The handle `s_EVENTS_API` starts with: `_events`, or undefined. */
  function Start(events: Option<Registry>): State {
    State(events, if events.Some? then Events else Bare(Undefined), None, [])
  }

  /** `triggerSync(name, ...args)` (src/TyphonEvents.js:161-172): undefined
      without a registry; otherwise the value `s_EVENTS_API` returns, or the
      error a callback threw. */
  function TriggerSyncSpec(events: Option<Registry>, n: NameArg, args: seq<Value>, behave: Behaviour): State {
    if events.None? then Start(None)
    else Fold(Sync, Start(events), TargetKeys(Targets(n, None)), args, behave)
  }

  /** `triggerAsync(name, ...args)` (src/TyphonEvents.js:128-140): the value
      `s_EVENTS_API` returns, or `Promise.resolve()` when that is undefined. */
  function TriggerAsyncSpec(events: Option<Registry>, n: NameArg, args: seq<Value>, behave: Behaviour): State {
    var st := Fold(Async, Start(events), TargetKeys(Targets(n, None)), args, behave);
    st.(handle := if st.handle == Bare(Undefined) then Resolve(Undefined) else st.handle)
  }

  // ---------------------------------------------------------------------
  // The collector loops

  /** The values the callbacks of `bs` return, in order. */
  function Returns(bs: seq<Binding>, args: seq<Value>, behave: Behaviour): seq<Value>
    requires forall k :: 0 <= k < |bs| ==> behave(bs[k].callback, bs[k].ctx, args).Return?
  {
    seq(|bs|, k requires 0 <= k < |bs| && behave(bs[k].callback, bs[k].ctx, args).Return? => behave(bs[k].callback, bs[k].ctx, args).v)
  }

  /** The calls of the bindings `bs` with `args`, in order. */
  function CallsOf(bs: seq<Binding>, args: seq<Value>): (r: seq<Call>)
    ensures |r| == |bs|
  {
    seq(|bs|, k requires 0 <= k < |bs| => Call(bs[k].callback, bs[k].ctx, args))
  }

  predicate AllReturn(bs: seq<Binding>, args: seq<Value>, behave: Behaviour) {
    forall k :: 0 <= k < |bs| ==> behave(bs[k].callback, bs[k].ctx, args).Return?
  }

  /** When no callback throws, every binding is called once, in order, and
      every value it returns is collected, `undefined` and `null` included:
      the push test never fails. */
  lemma {:induction false} RunReturns(reg: Registry, listName: string, bs: seq<Binding>, args: seq<Value>, behave: Behaviour)
    requires AllReturn(bs, args, behave)
    ensures RunList(reg, listName, bs, args, behave).thrown.None?
    ensures RunList(reg, listName, bs, args, behave).results == Returns(bs, args, behave)
    ensures RunList(reg, listName, bs, args, behave).calls == CallsOf(bs, args)
    ensures RunList(reg, listName, bs, args, behave).last == if bs == [] then Undefined else behave(bs[|bs| - 1].callback, bs[|bs| - 1].ctx, args).v
    decreases |bs|
  {
    if bs != [] {
      var init := bs[..|bs| - 1];
      assert AllReturn(init, args, behave) by {
        forall k | 0 <= k < |init| ensures behave(init[k].callback, init[k].ctx, args).Return? { assert init[k] == bs[k]; }
      }
      RunReturns(reg, listName, init, args, behave);
      assert Returns(bs, args, behave) == Returns(init, args, behave) + [behave(bs[|bs| - 1].callback, bs[|bs| - 1].ctx, args).v];
      assert CallsOf(bs, args) == CallsOf(init, args) + [Call(bs[|bs| - 1].callback, bs[|bs| - 1].ctx, args)];
    }
  }

  lemma {:induction false} RunStops(reg: Registry, listName: string, bs: seq<Binding>, m: nat, args: seq<Value>, behave: Behaviour)
    requires m <= |bs|
    requires RunList(reg, listName, bs[..m], args, behave).thrown.Some?
    ensures RunList(reg, listName, bs, args, behave) == RunList(reg, listName, bs[..m], args, behave)
    decreases |bs| - m
  {
    if m < |bs| {
      assert bs[..m + 1][..m] == bs[..m];
      RunStops(reg, listName, bs, m + 1, args, behave);
    } else {
      assert bs[..m] == bs;
    }
  }

  /** When the callback of binding k throws and none before it does, the
      loop ends there: the bindings after k are not called, the error is the
      one thrown, and the values before k are the ones collected. */
  lemma {:induction false} RunThrows(reg: Registry, listName: string, bs: seq<Binding>, k: nat, args: seq<Value>, behave: Behaviour)
    requires k < |bs|
    requires AllReturn(bs[..k], args, behave)
    requires behave(bs[k].callback, bs[k].ctx, args).Throw?
    ensures RunList(reg, listName, bs, args, behave).thrown == Some(behave(bs[k].callback, bs[k].ctx, args).e)
    ensures RunList(reg, listName, bs, args, behave).calls == CallsOf(bs[..k + 1], args)
    ensures RunList(reg, listName, bs, args, behave).results == Returns(bs[..k], args, behave)
  {
    RunReturns(reg, listName, bs[..k], args, behave);
    assert bs[..k + 1][..k] == bs[..k];
    assert CallsOf(bs[..k + 1], args) == CallsOf(bs[..k], args) + [Call(bs[k].callback, bs[k].ctx, args)];
    RunStops(reg, listName, bs, k + 1, args, behave);
  }

  /** A list without `once` bindings leaves the registry as it was. */
  lemma {:induction false} RunKeepsRegistry(reg: Registry, listName: string, bs: seq<Binding>, args: seq<Value>, behave: Behaviour)
    requires forall k :: 0 <= k < |bs| ==> !bs[k].once
    ensures RunList(reg, listName, bs, args, behave).reg == reg
    decreases |bs|
  {
    if bs != [] {
      var init := bs[..|bs| - 1];
      assert forall k :: 0 <= k < |init| ==> !init[k].once by {
        forall k | 0 <= k < |init| ensures !init[k].once { assert init[k] == bs[k]; }
      }
      RunKeepsRegistry(reg, listName, init, args, behave);
    }
  }

  /** The shape of the synchronous result: undefined with no bindings, the one
      value unwrapped with one binding, the array of every value in order with
      two or more. */
  lemma SyncShape(reg: Registry, listName: string, bs: seq<Binding>, args: seq<Value>, behave: Behaviour)
    requires AllReturn(bs, args, behave)
    ensures var run := RunList(reg, listName, bs, args, behave);
      && (|bs| == 0 ==> SyncCollect(run) == Bare(Undefined))
      && (|bs| == 1 ==> SyncCollect(run) == Bare(behave(bs[0].callback, bs[0].ctx, args).v))
      && (|bs| >= 2 ==> SyncCollect(run) == Array(Returns(bs, args, behave)))
  {
    RunReturns(reg, listName, bs, args, behave);
  }

  /** The shape of the asynchronous outcome: a rejection with the first error
      thrown, `Promise.all` of every value when there are two or more, else
      `Promise.resolve` of the one value or of undefined. */
  lemma AsyncShape(reg: Registry, listName: string, bs: seq<Binding>, args: seq<Value>, behave: Behaviour)
    ensures var run := RunList(reg, listName, bs, args, behave);
      && (AllReturn(bs, args, behave) && |bs| == 0 ==> AsyncCollect(run) == Resolve(Undefined))
      && (AllReturn(bs, args, behave) && |bs| == 1 ==> AsyncCollect(run) == Resolve(behave(bs[0].callback, bs[0].ctx, args).v))
      && (AllReturn(bs, args, behave) && |bs| >= 2 ==> AsyncCollect(run) == All(Returns(bs, args, behave)))
      && (forall k :: 0 <= k < |bs| && AllReturn(bs[..k], args, behave) && behave(bs[k].callback, bs[k].ctx, args).Throw?
            ==> AsyncCollect(run) == Reject(behave(bs[k].callback, bs[k].ctx, args).e))
  {
    if AllReturn(bs, args, behave) { RunReturns(reg, listName, bs, args, behave); }
    forall k | 0 <= k < |bs| && AllReturn(bs[..k], args, behave) && behave(bs[k].callback, bs[k].ctx, args).Throw?
      ensures AsyncCollect(RunList(reg, listName, bs, args, behave)) == Reject(behave(bs[k].callback, bs[k].ctx, args).e)
    {
      RunThrows(reg, listName, bs, k, args, behave);
    }
  }

  // ---------------------------------------------------------------------
  // One name: `s_TRIGGER_API`

  /** Neither the name nor `all` has bindings: nothing is called and the
      result is undefined. */
  lemma ApiNoBindings(mode: Mode, reg: Registry, key: EventKey, args: seq<Value>, behave: Behaviour, calls: seq<Call>)
    requires Get(reg, key.name).None? && Get(reg, "all").None?
    ensures ApiStep(mode, State(Some(reg), Events, None, calls), key, args, behave) == State(Some(reg), Bare(Undefined), None, calls)
  {
  }

  /** The handle a trigger function hands back is never the registry. */
  lemma ApiStepNotEvents(mode: Mode, st: State, key: EventKey, args: seq<Value>, behave: Behaviour)
    requires st.thrown.None?
    ensures !ApiStep(mode, st, key, args, behave).handle.Events?
  {
  }

  /** Both the name and `all` have bindings and no callback throws: the
      name's bindings run first with the arguments, then the `all` bindings
      with the name value itself in front of them, and the result is the
      `all` list's. */
  lemma {:induction false} ApiNamedThenAll(reg: Registry, key: EventKey, args: seq<Value>, behave: Behaviour, calls: seq<Call>)
    requires Valid(reg)
    requires Get(reg, key.name).Some? && Get(reg, "all").Some?
    requires AllReturn(Get(reg, key.name).value, args, behave)
    requires AllReturn(Get(reg, "all").value, [key.raw] + args, behave)
    ensures var named := Get(reg, key.name).value;
      var all := Get(reg, "all").value;
      var st := ApiStep(Sync, State(Some(reg), Events, None, calls), key, args, behave);
      && st.thrown.None?
      && st.calls == calls + CallsOf(named, args) + CallsOf(all, [key.raw] + args)
      && st.handle == (if |all| == 1 then Bare(behave(all[0].callback, all[0].ctx, [key.raw] + args).v)
                       else Array(Returns(all, [key.raw] + args, behave)))
  {
    var named := Get(reg, key.name).value;
    var all := Get(reg, "all").value;
    GetNonEmpty(reg, "all");
    RunReturns(reg, key.name, named, args, behave);
    var r1 := RunList(reg, key.name, named, args, behave);
    RunReturns(r1.reg, "all", all, [key.raw] + args, behave);
  }

  // ---------------------------------------------------------------------
  // The name loop: `s_EVENTS_API`

  lemma {:induction false} FoldAppend(mode: Mode, st: State, xs: seq<EventKey>, ys: seq<EventKey>, args: seq<Value>, behave: Behaviour)
    ensures Fold(mode, st, xs + ys, args, behave) == Fold(mode, Fold(mode, st, xs, args, behave), ys, args, behave)
    decreases |ys|
  {
    if ys == [] {
      assert xs + ys == xs;
    } else {
      assert (xs + ys)[..|xs + ys| - 1] == xs + ys[..|ys| - 1];
      FoldAppend(mode, st, xs, ys[..|ys| - 1], args, behave);
    }
  }

  /** Once the value passed along is a result rather than the registry, every
      later name finds nothing: the registry and the calls stay as they are
      and the value becomes undefined. */
  lemma {:induction false} FoldAfterResult(mode: Mode, st: State, names: seq<EventKey>, args: seq<Value>, behave: Behaviour)
    requires st.thrown.None? && !st.handle.Events?
    ensures Fold(mode, st, names, args, behave) == if names == [] then st else st.(handle := Bare(Undefined))
    decreases |names|
  {
    if names != [] {
      FoldAfterResult(mode, st, names[..|names| - 1], args, behave);
    }
  }

  /** A single name dispatches exactly as `s_TRIGGER_API` does for it. */
  lemma SingleNameSync(reg: Registry, n: NameArg, args: seq<Value>, behave: Behaviour)
    requires n.NonString? || (n.Name? && !HasSpace(n.s))
    ensures TriggerSyncSpec(Some(reg), n, args, behave) == ApiStep(Sync, Start(Some(reg)), SingleKey(n), args, behave)
  {
    SingleTarget(n, None);
    FoldOne(Sync, Start(Some(reg)), SingleKey(n), args, behave);
  }

  lemma FoldOne(mode: Mode, st: State, key: EventKey, args: seq<Value>, behave: Behaviour)
    requires st.thrown.None?
    ensures Fold(mode, st, [key], args, behave) == ApiStep(mode, st, key, args, behave)
  {
    assert [key][..0] == [];
  }

  /** `triggerSync` on a single name: with no bindings (and no `all`
      bindings) it returns undefined and calls nothing; with one binding it
      returns that callback's value unwrapped; with two or more the array of
      every value in registration order. */
  lemma {:induction false} TriggerSyncSingle(reg: Registry, n: NameArg, args: seq<Value>, behave: Behaviour)
    requires Valid(reg)
    requires n.NonString? || (n.Name? && !HasSpace(n.s))
    requires var name := SingleKey(n).name; name != "all" && Get(reg, "all").None?
    ensures var name := SingleKey(n).name;
      var st := TriggerSyncSpec(Some(reg), n, args, behave);
      && (Get(reg, name).None? ==> st == State(Some(reg), Bare(Undefined), None, []))
      && (Get(reg, name).Some? && AllReturn(Get(reg, name).value, args, behave) ==>
            var bs := Get(reg, name).value;
            && st.thrown.None?
            && st.calls == CallsOf(bs, args)
            && st.handle == (if |bs| == 1 then Bare(behave(bs[0].callback, bs[0].ctx, args).v) else Array(Returns(bs, args, behave))))
  {
    SingleNameSync(reg, n, args, behave);
    var name := SingleKey(n).name;
    GetNonEmpty(reg, name);
    if Get(reg, name).Some? && AllReturn(Get(reg, name).value, args, behave) {
      RunReturns(reg, name, Get(reg, name).value, args, behave);
    }
  }

  /** A name with no listeners of its own reaches only the `all` listeners,
      which receive the name value itself in front of the arguments: the
      string for a string name, the original value (undefined, null, a
      number) for any other, not the property key it converts to. */
  lemma {:induction false} TriggerSyncAllOnly(reg: Registry, n: NameArg, args: seq<Value>, behave: Behaviour)
    requires Valid(reg)
    requires n.NonString? || (n.Name? && !HasSpace(n.s))
    requires Get(reg, SingleKey(n).name).None? && Get(reg, "all").Some?
    requires AllReturn(Get(reg, "all").value, [SingleKey(n).raw] + args, behave)
    ensures var st := TriggerSyncSpec(Some(reg), n, args, behave);
      && st.thrown.None?
      && st.calls == CallsOf(Get(reg, "all").value, [SingleKey(n).raw] + args)
      && (n.NonString? ==> forall c :: c in st.calls ==> c.args == [n.raw] + args)
      && (n.Name? ==> forall c :: c in st.calls ==> c.args == [Str(n.s)] + args)
  {
    SingleNameSync(reg, n, args, behave);
    RunReturns(reg, "all", Get(reg, "all").value, [SingleKey(n).raw] + args, behave);
  }

  /** A name that resolves to several names (a whitespace string or an event
      map) looks only the first one up in the registry: the value that call
      returns is passed on as `events`, later names find nothing in it, and
      `triggerSync` returns undefined unless the first name's callbacks threw. */
  lemma {:induction false} MultiNameSync(reg: Registry, n: NameArg, args: seq<Value>, behave: Behaviour)
    requires |TargetKeys(Targets(n, None))| >= 2
    ensures var names := TargetKeys(Targets(n, None));
      var first := ApiStep(Sync, Start(Some(reg)), names[0], args, behave);
      TriggerSyncSpec(Some(reg), n, args, behave) == if first.thrown.Some? then first else first.(handle := Bare(Undefined))
  {
    var names := TargetKeys(Targets(n, None));
    assert names == [names[0]] + names[1..];
    FoldAppend(Sync, Start(Some(reg)), [names[0]], names[1..], args, behave);
    assert [names[0]][..0] == [];
    var first := Fold(Sync, Start(Some(reg)), [names[0]], args, behave);
    if first.thrown.None? {
      ApiStepNotEvents(Sync, Start(Some(reg)), names[0], args, behave);
      FoldAfterResult(Sync, first, names[1..], args, behave);
    } else {
      FoldThrown(Sync, first, names[1..], args, behave);
    }
  }

  lemma {:induction false} FoldThrown(mode: Mode, st: State, names: seq<EventKey>, args: seq<Value>, behave: Behaviour)
    requires st.thrown.Some?
    ensures Fold(mode, st, names, args, behave) == st
    decreases |names|
  {
    if names != [] { FoldThrown(mode, st, names[..|names| - 1], args, behave); }
  }

  /** The same for `triggerAsync`: only the first name is dispatched, and the
      promise returned resolves to undefined whatever that name's callbacks
      returned or threw. */
  lemma {:induction false} MultiNameAsync(events: Option<Registry>, n: NameArg, args: seq<Value>, behave: Behaviour)
    requires |TargetKeys(Targets(n, None))| >= 2
    ensures var names := TargetKeys(Targets(n, None));
      var first := ApiStep(Async, Start(events), names[0], args, behave);
      TriggerAsyncSpec(events, n, args, behave) == first.(handle := Resolve(Undefined))
  {
    var names := TargetKeys(Targets(n, None));
    assert names == [names[0]] + names[1..];
    FoldAppend(Async, Start(events), [names[0]], names[1..], args, behave);
    assert [names[0]][..0] == [];
    var first := Fold(Async, Start(events), [names[0]], args, behave);
    ApiStepNotEvents(Async, Start(events), names[0], args, behave);
    FoldAfterResult(Async, first, names[1..], args, behave);
  }

  /** An event map without keys dispatches nothing: `triggerSync` hands back
      the registry object itself, and `triggerAsync` a promise of it. */
  lemma EmptyMap(reg: Registry, args: seq<Value>, behave: Behaviour)
    ensures TriggerSyncSpec(Some(reg), EventMap([]), args, behave) == State(Some(reg), Events, None, [])
    ensures TriggerAsyncSpec(Some(reg), EventMap([]), args, behave) == State(Some(reg), Events, None, [])
    ensures TriggerAsyncSpec(None, EventMap([]), args, behave) == State(None, Resolve(Undefined), None, [])
  {
    assert TargetKeys(Targets(EventMap([]), None)) == [];
  }

  /** The asynchronous name loop never throws: a callback's error becomes a
      rejection, and what it hands back is a rejection, `Promise.all`,
      `Promise.resolve`, undefined, or the registry object itself. */
  lemma {:induction false} AsyncNeverThrows(st: State, names: seq<EventKey>, args: seq<Value>, behave: Behaviour)
    requires st.thrown.None?
    requires st.handle.Events? || st.handle == Bare(Undefined)
    ensures Fold(Async, st, names, args, behave).thrown.None?
    ensures var h := Fold(Async, st, names, args, behave).handle;
      h.Events? || h == Bare(Undefined) || h.Reject? || h.All? || h.Resolve?
    decreases |names|
  {
    if names != [] {
      AsyncNeverThrows(st, names[..|names| - 1], args, behave);
    }
  }

  /** `triggerAsync` is declared `async`, so it never throws and always
      returns a promise. That promise rejects with a callback's error, or
      settles as `Promise.all` or `Promise.resolve` of the values; only for
      an empty event map on a bus with a registry does it resolve to the
      registry object `_events` itself. */
  lemma TriggerAsyncOutcome(events: Option<Registry>, n: NameArg, args: seq<Value>, behave: Behaviour)
    ensures TriggerAsyncSpec(events, n, args, behave).thrown.None?
    ensures var h := TriggerAsyncSpec(events, n, args, behave).handle;
      h.Reject? || h.All? || h.Resolve? || (h.Events? && events.Some?)
  {
    AsyncNeverThrows(Start(events), TargetKeys(Targets(n, None)), args, behave);
    if events.None? { FoldNoRegistry(Start(None), TargetKeys(Targets(n, None)), args, behave); }
  }

  lemma {:induction false} FoldNoRegistry(st: State, names: seq<EventKey>, args: seq<Value>, behave: Behaviour)
    requires st.thrown.None? && st.handle == Bare(Undefined)
    ensures Fold(Async, st, names, args, behave) == st
    decreases |names|
  {
    if names != [] { FoldNoRegistry(st, names[..|names| - 1], args, behave); }
  }

  /** `triggerAsync` on a single name with bindings only under that name: all
      of them run before it returns; the outcome is a rejection with the first
      error thrown (the bindings after it are not called), `Promise.all` of
      every value with two or more bindings, `Promise.resolve` of the one value
      with one; with no bindings at all it resolves to undefined. */
  lemma {:induction false} TriggerAsyncSingle(events: Option<Registry>, n: NameArg, args: seq<Value>, behave: Behaviour)
    requires events.Some? ==> Valid(events.value)
    requires n.NonString? || (n.Name? && !HasSpace(n.s))
    requires var name := SingleKey(n).name; name != "all" && (events.Some? ==> Get(events.value, "all").None?)
    ensures var name := SingleKey(n).name;
      var st := TriggerAsyncSpec(events, n, args, behave);
      && (events.None? || Get(events.value, name).None? ==> st == State(events, Resolve(Undefined), None, []))
      && (events.Some? && Get(events.value, name).Some? ==>
            var bs := Get(events.value, name).value;
            && (AllReturn(bs, args, behave) ==>
                  && st.calls == CallsOf(bs, args)
                  && st.handle == (if |bs| == 1 then Resolve(behave(bs[0].callback, bs[0].ctx, args).v) else All(Returns(bs, args, behave))))
            && (forall k :: 0 <= k < |bs| && AllReturn(bs[..k], args, behave) && behave(bs[k].callback, bs[k].ctx, args).Throw? ==>
                  st.calls == CallsOf(bs[..k + 1], args) && st.handle == Reject(behave(bs[k].callback, bs[k].ctx, args).e)))
  {
    SingleTarget(n, None);
    var name := SingleKey(n).name;
    FoldOne(Async, Start(events), SingleKey(n), args, behave);
    if events.Some? {
      var reg := events.value;
      GetNonEmpty(reg, name);
      if Get(reg, name).Some? {
        var bs := Get(reg, name).value;
        AsyncShape(reg, name, bs, args, behave);
        if AllReturn(bs, args, behave) { RunReturns(reg, name, bs, args, behave); }
        forall k | 0 <= k < |bs| && AllReturn(bs[..k], args, behave) && behave(bs[k].callback, bs[k].ctx, args).Throw?
          ensures TriggerAsyncSpec(events, n, args, behave).calls == CallsOf(bs[..k + 1], args)
        {
          RunThrows(reg, name, bs, k, args, behave);
        }
      }
    }
  }

  /** A `once` binding alone under its name fires on the first trigger, is
      gone before its callback runs, and the next trigger finds nothing. */
  lemma {:induction false} OnceFiresOnce(reg: Registry, name: string, b: Binding, args: seq<Value>, behave: Behaviour)
    requires Valid(reg) && !HasSpace(name) && name != "all" && Get(reg, "all").None?
    requires Get(reg, name) == Some([b]) && b.once
    requires behave(b.callback, b.ctx, args).Return?
    ensures var st1 := TriggerSyncSpec(Some(reg), Name(name), args, behave);
      && st1.thrown.None?
      && st1.handle == Bare(behave(b.callback, b.ctx, args).v)
      && st1.calls == [Call(b.callback, b.ctx, args)]
      && st1.events == Some(RemoveOne(reg, name, b))
      && Get(st1.events.value, name).None?
      && CountOf(st1.events.value) == CountOf(reg) - 1
      && var st2 := TriggerSyncSpec(st1.events, Name(name), args, behave);
         st2.handle == Bare(Undefined) && st2.calls == [] && st2.events == st1.events
  {
    SingleNameSync(reg, Name(name), args, behave);
    assert SingleKey(Name(name)).name == name;
    RunReturns(reg, name, [b], args, behave);
    var reg1 := RemoveOne(reg, name, b);
    assert RunList(reg, name, [b], args, behave).reg == reg1 by {
      assert [b][..0] == [];
    }
    RemoveOneBindings(reg, name, b, name);
    RemoveOneBindings(reg, name, b, "all");
    RemoveOneCount(reg, name, b);
    RemoveOneValid(reg, name, b);
    assert Bindings(reg, name) == [b];
    assert Bindings(reg1, name) == [];
    GetNonEmpty(reg1, name);
    SingleNameSync(reg1, Name(name), args, behave);
  }

  // ---------------------------------------------------------------------
  // Calls made before a dispatch do not change it

  function Prefixed(c: seq<Call>, st: State): State {
    st.(calls := c + st.calls)
  }

  lemma ApiStepCalls(mode: Mode, events: Option<Registry>, handle: Handle, c: seq<Call>, key: EventKey, args: seq<Value>, behave: Behaviour)
    ensures ApiStep(mode, State(events, handle, None, c), key, args, behave)
         == Prefixed(c, ApiStep(mode, State(events, handle, None, []), key, args, behave))
  {
    if handle.Events? && events.Some? {
      var reg := events.value;
      var named := Get(reg, key.name);
      if named.Some? {
        var run := RunList(reg, key.name, named.value, args, behave);
        assert c + run.calls == c + ([] + run.calls);
        var all := Get(reg, "all");
        if all.Some? {
          var run2 := RunList(run.reg, "all", all.value, [key.raw] + args, behave);
          assert (c + run.calls) + run2.calls == c + (([] + run.calls) + run2.calls);
        }
      }
    }
  }

  lemma {:induction false} FoldCalls(mode: Mode, st: State, names: seq<EventKey>, args: seq<Value>, behave: Behaviour)
    ensures Fold(mode, st, names, args, behave) == Prefixed(st.calls, Fold(mode, st.(calls := []), names, args, behave))
    decreases |names|
  {
    if names == [] {
      assert st == Prefixed(st.calls, st.(calls := []));
    } else {
      var init := names[..|names| - 1];
      var last := names[|names| - 1];
      FoldCalls(mode, st, init, args, behave);
      var p0 := Fold(mode, st.(calls := []), init, args, behave);
      if p0.thrown.None? {
        ApiStepCalls(mode, p0.events, p0.handle, st.calls + p0.calls, last, args, behave);
        ApiStepCalls(mode, p0.events, p0.handle, p0.calls, last, args, behave);
        var a0 := ApiStep(mode, State(p0.events, p0.handle, None, []), last, args, behave);
        assert (st.calls + p0.calls) + a0.calls == st.calls + (p0.calls + a0.calls);
      }
    }
  }

  // ---------------------------------------------------------------------
  // The inherited `trigger`

  /** One name of the inherited `trigger`: the bindings run as for
      `triggerSync`, but the values are dropped and the registry itself is
      handed on, so the next name is looked up in the registry again. */
  function PlainStep(st: State, key: EventKey, args: seq<Value>, behave: Behaviour): State
    requires st.thrown.None?
  {
    ApiStep(Sync, st.(handle := Events), key, args, behave).(handle := Events)
  }

  function PlainFold(st: State, names: seq<EventKey>, args: seq<Value>, behave: Behaviour): State
    decreases |names|
  {
    if names == [] then st
    else
      var pre := PlainFold(st, names[..|names| - 1], args, behave);
      if pre.thrown.Some? then pre else PlainStep(pre, names[|names| - 1], args, behave)
  }

  /** `trigger(name, ...args)`: nothing without a registry; otherwise every
      resolved name is dispatched, and a callback's error propagates. */
  function TriggerSpec(events: Option<Registry>, n: NameArg, args: seq<Value>, behave: Behaviour): State {
    if events.None? then Start(None) else PlainFold(Start(events), TargetKeys(Targets(n, None)), args, behave)
  }

  /** The calls a dispatch of every name in turn makes when no binding
      removes itself. */
  function CallsOfNames(reg: Registry, names: seq<EventKey>, args: seq<Value>): seq<Call>
    decreases |names|
  {
    if names == [] then [] else CallsOfNames(reg, names[..|names| - 1], args) + CallsOf(Bindings(reg, names[|names| - 1].name), args)
  }

  predicate NoOnce(reg: Registry) {
    forall i, j :: 0 <= i < |reg| && 0 <= j < |reg[i].bindings| ==> !reg[i].bindings[j].once
  }

  /** Unlike `triggerSync`, the inherited `trigger` reaches every name: with
      no `all` and no `once` bindings and no callback throwing, it calls the
      bindings of each name in turn and leaves the registry unchanged. */
  lemma {:induction false} TriggerEveryName(reg: Registry, names: seq<EventKey>, args: seq<Value>, behave: Behaviour)
    requires Get(reg, "all").None? && NoOnce(reg)
    requires forall k :: 0 <= k < |names| ==> AllReturn(Bindings(reg, names[k].name), args, behave)
    ensures PlainFold(State(Some(reg), Events, None, []), names, args, behave) == State(Some(reg), Events, None, CallsOfNames(reg, names, args))
    decreases |names|
  {
    if names != [] {
      var init := names[..|names| - 1];
      var last := names[|names| - 1];
      forall k | 0 <= k < |init| ensures AllReturn(Bindings(reg, init[k].name), args, behave) { assert init[k] == names[k]; }
      TriggerEveryName(reg, init, args, behave);
      assert AllReturn(Bindings(reg, last.name), args, behave);
      var named := Get(reg, last.name);
      if named.Some? {
        var bs := named.value;
        GetIsIndexed(reg, last.name);
        var i :| 0 <= i < |reg| && reg[i].name == last.name && bs == reg[i].bindings;
        forall k | 0 <= k < |bs| ensures !bs[k].once { assert bs[k] == reg[i].bindings[k]; }
        RunKeepsRegistry(reg, last.name, bs, args, behave);
        RunReturns(reg, last.name, bs, args, behave);
      } else {
        assert CallsOf([], args) == [];
      }
    }
  }

  /** `trigger` on one name dispatches exactly the bindings `triggerSync`
      would, to the same registry, and hands back the bus instead of the
      values. */
  lemma TriggerLikeSync(reg: Registry, n: NameArg, args: seq<Value>, behave: Behaviour)
    requires n.NonString? || (n.Name? && !HasSpace(n.s))
    ensures var plain := TriggerSpec(Some(reg), n, args, behave);
      var sync := TriggerSyncSpec(Some(reg), n, args, behave);
      plain == sync.(handle := Events)
  {
    SingleNameSync(reg, n, args, behave);
    SingleTarget(n, None);
    var key := SingleKey(n);
    assert [key][..0] == [];
    assert PlainFold(Start(Some(reg)), [key], args, behave) == PlainStep(Start(Some(reg)), key, args, behave);
  }

  /** A synchronous throw at some prefix of the names ends the loop there. */
  lemma FoldStops(mode: Mode, st: State, names: seq<EventKey>, m: nat, args: seq<Value>, behave: Behaviour)
    requires m <= |names|
    requires Fold(mode, st, names[..m], args, behave).thrown.Some?
    ensures Fold(mode, st, names, args, behave) == Fold(mode, st, names[..m], args, behave)
  {
    assert names == names[..m] + names[m..];
    FoldAppend(mode, st, names[..m], names[m..], args, behave);
    FoldThrown(mode, Fold(mode, st, names[..m], args, behave), names[m..], args, behave);
  }

  lemma PlainStops(st: State, names: seq<EventKey>, m: nat, args: seq<Value>, behave: Behaviour)
    requires m <= |names|
    requires PlainFold(st, names[..m], args, behave).thrown.Some?
    ensures PlainFold(st, names, args, behave) == PlainFold(st, names[..m], args, behave)
    decreases |names| - m
  {
    if m < |names| {
      assert names[..m + 1][..m] == names[..m];
      PlainStops(st, names, m + 1, args, behave);
    } else {
      assert names[..m] == names;
    }
  }

  /** One key of an event map, dispatched from the state the earlier keys
      left, continues the fold over the map's names. */
  lemma MapStep(mode: Mode, start: State, es: seq<MapEntry>, i: nat, args: seq<Value>, behave: Behaviour)
    requires i < |es|
    requires Fold(mode, start, TargetKeys(EntryTargets(es[..i])), args, behave).thrown.None?
    ensures var before := Fold(mode, start, TargetKeys(EntryTargets(es[..i])), args, behave);
      var key := TargetKeys(Targets(Name(es[i].key), None));
      var st := Fold(mode, State(before.events, before.handle, None, []), key, args, behave);
      Fold(mode, start, TargetKeys(EntryTargets(es[..i + 1])), args, behave) == Prefixed(before.calls, st)
  {
    var before := Fold(mode, start, TargetKeys(EntryTargets(es[..i])), args, behave);
    var key := TargetKeys(Targets(Name(es[i].key), None));
    EntryNames(es, i);
    FoldAppend(mode, start, TargetKeys(EntryTargets(es[..i])), key, args, behave);
    FoldCalls(mode, before, key, args, behave);
  }

  /** The same step in the terms the map loop keeps: the registry, the value
      passed along and the calls after the first i keys, and what dispatching
      key i from there returns, give the state after i + 1 keys. */
  lemma MapAdvance(mode: Mode, start: State, es: seq<MapEntry>, i: nat, args: seq<Value>, behave: Behaviour,
                   ev0: Option<Registry>, h0: Handle, c0: seq<Call>, ev1: Option<Registry>, h1: Handle, t1: Option<ErrorId>, c1: seq<Call>)
    requires i < |es|
    requires var before := Fold(mode, start, TargetKeys(EntryTargets(es[..i])), args, behave);
      ev0 == before.events && h0 == before.handle && before.thrown.None? && c0 == before.calls
    requires var st := Fold(mode, State(ev0, h0, None, []), TargetKeys(Targets(Name(es[i].key), None)), args, behave);
      ev1 == st.events && h1 == st.handle && t1 == st.thrown && c1 == st.calls
    ensures var after := Fold(mode, start, TargetKeys(EntryTargets(es[..i + 1])), args, behave);
      ev1 == after.events && h1 == after.handle && t1 == after.thrown && c0 + c1 == after.calls
  {
    MapStep(mode, start, es, i, args, behave);
  }

  /** The loop over the map ends after every key, or at a throw within the
      first i keys. */
  lemma MapStops(mode: Mode, start: State, es: seq<MapEntry>, i: nat, args: seq<Value>, behave: Behaviour)
    requires i <= |es|
    requires i == |es| || Fold(mode, start, TargetKeys(EntryTargets(es[..i])), args, behave).thrown.Some?
    ensures Fold(mode, start, TargetKeys(EntryTargets(es)), args, behave) == Fold(mode, start, TargetKeys(EntryTargets(es[..i])), args, behave)
  {
    if i == |es| {
      assert es[..i] == es;
      return;
    }
    var a := EntryTargets(es[..i]);
    var b := EntryTargets(es[i..]);
    EntryTargetsSplit(es, i);
    TargetKeysAppend(a, b);
    var names := TargetKeys(a + b);
    var m := |TargetKeys(a)|;
    assert names[..m] == TargetKeys(a);
    FoldStops(mode, start, names, m, args, behave);
  }
}
