# TyphonEvents and EventProxy, modelled in Dafny

This project models the event bus `TyphonEvents` (src/TyphonEvents.js) and
its companion `EventProxy` (src/EventProxy.js) from backbone-esnext-events.

`TyphonEvents` holds a registry of listeners: `_events` maps an event name
to its list of bindings, and each binding records a callback, a context,
the bus that listens through it and whether it fires only once. The bus
adds three trigger mechanisms to the inherited `trigger`:

- `triggerSync` returns what the callbacks return;
- `triggerAsync` returns a promise of it;
- `triggerDefer` schedules a `trigger`.

Each name argument resolves to a list of single names: an event map gives
one name per key, a whitespace string one name per token, and anything
else is one name. `s_EVENTS_API` loops over those names. For each name,
`s_TRIGGER_API` runs the name's bindings and then the `all` bindings, using
one of two collectors, `s_TRIGGER_SYNC_EVENTS` or `s_TRIGGER_ASYNC_EVENTS`.

`EventProxy` wraps a bus. It registers on that bus through an internal bus
of its own, using `listenTo`. Its `off` and `destroy` remove only the
bindings the proxy added. After `destroy`, every method raises a
`ReferenceError`.

Modules:

- `Values` (values.dfy) holds the values that callbacks receive and return, the bindings, the bus's errors and a `Result` type.
- `EventRegistry` (registry.dfy) is the registry as a sequence of `(name, bindings)` entries. It covers adding, removing by filter, removing a single binding (what a `once` binding does) and counting.
- `EventNames` (names.dfy) resolves a name argument: `split(/\s+/)` with JavaScript's whitespace class, event maps, and the callbacks the map's keys carry.
- `Dispatch` (dispatch.dfy) holds the specification functions of the trigger path, with lemmas stating what they mean:
  - `RunList` is the collector loop.
  - `ListStep` and `ApiStep` are the collectors and `s_TRIGGER_API`.
  - `Fold` is the name loop of `s_EVENTS_API`.
  - `TriggerSyncSpec`, `TriggerAsyncSpec` and `TriggerSpec` are the three triggers.
- `Typhon` (typhon.dfy) holds the class `TyphonEvents`. Its fields `events` and `eventbusName` are updated in place. The loops are methods proved against the `Dispatch` functions.
- `Proxy` (proxy.dfy) holds the class `EventProxy`. Its fields are `eventbus` and `proxy`, and both become `null` on `destroy`.

What a callback does is not visible to the bus, so it is a parameter
`behave: Behaviour`. It maps a callback, its context and the arguments to
`Return(v)` or `Throw(e)`. Every dispatch also returns the sequence of
`Call`s it made, in order, so the contracts can state which listeners ran
and with which arguments.

The source has two behaviours that look unintended. The model keeps both as
written:

- The push test `result !== null || result !== undefined` (src/TyphonEvents.js:280 and :359) is always true. So `undefined` and `null` results are collected (`PushCondition`, `Dispatch.RunReturns`).
- `s_EVENTS_API` passes the value each name's trigger returns on as the `events` of the next name. For a multi-name `triggerSync` or `triggerAsync`, that means only the first name is looked up in the registry (`Dispatch.MultiNameSync`, `Dispatch.MultiNameAsync`). The inherited `trigger` hands the bus back after each name, so it reaches every name (`Dispatch.TriggerEveryName`).

## Model

| member | source | states |
|---|---|---|
| EventNames.SkipSpaces | src/TyphonEvents.js:181 | the result is a suffix of the input with no leading whitespace, and it is strictly shorter when the input starts with whitespace |
| EventNames.Split | src/TyphonEvents.js:214 | `split(/\s+/)` always yields at least one piece |
| EventNames.SplitTokens | src/TyphonEvents.js:214 | no token contains whitespace, and only the first and the last token can be empty |
| EventNames.SplitWithoutSpace | src/TyphonEvents.js:208-220 | a name without whitespace splits into itself, so the `test` guard does not change the tokens |
| EventNames.SplitWithSpace | src/TyphonEvents.js:208-215 | a name containing whitespace resolves to at least two names |
| EventNames.TokensOfName | src/TyphonEvents.js:208-220 | the tokens of a string name: the split when the name has whitespace, otherwise the name alone |
| EventNames.SplitJoin | src/TyphonEvents.js:214 | splitting names joined by single spaces gives the names back (round trip) |
| EventNames.SplitKeepsCharacters | src/TyphonEvents.js:214 | the tokens hold every non-whitespace character of the name, in order |
| EventNames.SingleTarget | src/TyphonEvents.js:216-220 | a non-string name, or a name without whitespace, is dispatched exactly once with the callback given, looked up under its property key and passed on as the original value |
| EventNames.SpacedTargets | src/TyphonEvents.js:208-215 | a whitespace name is dispatched once per token, in order, always with the same callback |
| EventNames.MapTargets | src/TyphonEvents.js:199-206 | an event map is resolved key by key, each key as a string name with the callback stored under it |
| EventNames.TargetsHaveCallbacks | src/TyphonEvents.js:199-220 | registering with a callback passes a callback on every iteratee call |
| EventNames.EntryTargetsConcat | src/TyphonEvents.js:202-205 | the keys of an event map are resolved one after another |
| EventRegistry.GetIsIndexed | src/TyphonEvents.js:93-99 | a name has a list exactly when it is among the registry's names, and the list is that entry's |
| EventRegistry.AddBindings | test/src/TestEvents.js:113-131 | adding a binding appends it to the end of its name's list and leaves every other list unchanged |
| EventRegistry.AddNames | src/TyphonEvents.js:93-99 | a new name is appended after the existing names, and an existing name keeps its place |
| EventRegistry.AddCount | src/TyphonEvents.js:69-76 | adding a binding raises the count by one |
| EventRegistry.AddValid | test/src/TestEvents.js:113-131 | adding keeps names distinct and lists non-empty |
| EventRegistry.AddEachCount | src/TyphonEvents.js:69-76 | a registration of k targets raises the count by k |
| EventRegistry.KeepMembers | test/src/TestEvents.js:113-131 | a binding survives a filter exactly when it was there and does not match |
| EventRegistry.RemoveWhereValid | test/src/TestEvents.js:113-131 | removal keeps names distinct and drops emptied lists |
| EventRegistry.RemoveWhereBindings | test/src/TestEvents.js:113-131 | after a removal, a name's list is its old list without the matching bindings, in order |
| EventRegistry.RemoveWhereCount | src/TyphonEvents.js:69-76 | a removal lowers the count by exactly the number of matching bindings |
| EventRegistry.RemoveWhereNoMatch | test/src/TestEvents.js:113-131 | a removal that matches nothing leaves the registry as it was |
| EventRegistry.RemoveWhereAdd | test/src/TestEvents.js:113-131 | removing with a filter that matches the added binding undoes the add |
| EventRegistry.RemoveOneBindings | test/src/TestEvents.js:133-149 | a firing `once` binding removes its first occurrence from its own list and no other |
| EventRegistry.RemoveOneCount | test/src/TestEvents.js:133-149 | removing a present `once` binding lowers the count by one, and removing an absent one changes nothing |
| EventRegistry.RemoveOneAdd | test/src/TestEvents.js:133-149 | removing a once binding just added under a fresh name gives back the registry |
| EventRegistry.NamesDistinct | src/TyphonEvents.js:93-99 | the names are distinct, and a name is listed exactly when it has bindings |
| EventRegistry.VisitsCount | src/TyphonEvents.js:47-76 | `forEachEvent` visits exactly `eventCount` bindings |
| EventRegistry.VisitAt | src/TyphonEvents.js:47-62 | the visit at offset count(before) + j is binding j of entry i, with its name, callback and context |
| EventRegistry.RemoveEachBindings | test/src/TestEvents.js:113-131 | removals never add a binding, and a binding that no filter matches survives |
| Dispatch.CallArgs | src/TyphonEvents.js:351-398 | every arity branch passes the argument list unchanged |
| Dispatch.RunReturns | src/TyphonEvents.js:343-401 | when no callback throws, every binding is called once, in order, with the arguments; every returned value is collected, `undefined` included, and the last value is kept |
| Dispatch.RunStops | src/TyphonEvents.js:270-328 | once a callback has thrown, later bindings of the list are not called |
| Dispatch.RunThrows | src/TyphonEvents.js:270-328 | when callback k is the first to throw, the loop ends there with that error, the calls up to k, and the values before k |
| Dispatch.RunKeepsRegistry | src/TyphonEvents.js:343-401 | a list without `once` bindings leaves the registry unchanged |
| Dispatch.SyncShape | src/TyphonEvents.js:401 | `triggerSync`'s collector returns undefined for no binding, the one value unwrapped for one binding, and the array of all values for two or more |
| Dispatch.AsyncShape | src/TyphonEvents.js:325-331 | the async collector gives a rejection with the first error thrown, `Promise.all` for two or more values, and otherwise `Promise.resolve` |
| Dispatch.ApiNoBindings | src/TyphonEvents.js:235-249 | with no bindings under the name or `all`, nothing is called and the result is undefined |
| Dispatch.ApiStepNotEvents | src/TyphonEvents.js:235-249 | the value a trigger call hands back is never the registry |
| Dispatch.ApiNamedThenAll | src/TyphonEvents.js:241-246 | the name's bindings run first, then the `all` bindings with the name value itself (not its property key) prepended to the arguments, and the `all` result replaces the name's result |
| Dispatch.FoldAppend | src/TyphonEvents.js:212-215 | dispatching xs + ys equals dispatching xs and then ys from the resulting state |
| Dispatch.FoldAfterResult | src/TyphonEvents.js:212-215 | once the value passed along is a result, later names find nothing: the registry and the calls are kept and the value is undefined |
| Dispatch.FoldThrown | src/TyphonEvents.js:161-172 | after a synchronous throw, later names are not dispatched |
| Dispatch.SingleNameSync | src/TyphonEvents.js:216-220 | a single name dispatches exactly as `s_TRIGGER_API` does for it, with the raw name value passed along for the `all` listeners |
| Dispatch.TriggerSyncAllOnly | src/TyphonEvents.js:241-248 | a name with no listeners of its own calls only the `all` listeners, each with the name value itself first: the string for a string name, the original value (undefined, null, a number) for any other |
| Dispatch.TriggerSyncSingle | src/TyphonEvents.js:161-172 | `triggerSync` on one name gives undefined with no calls, the unwrapped value for one binding, or an array of every value in registration order |
| Dispatch.MultiNameSync | src/TyphonEvents.js:195-223 | for a name that resolves to several names, `triggerSync` dispatches only the first name and returns undefined unless that name threw |
| Dispatch.MultiNameAsync | src/TyphonEvents.js:128-140 | for several names, `triggerAsync` dispatches only the first name and resolves to undefined |
| Dispatch.EmptyMap | src/TyphonEvents.js:199-206 | an event map without keys dispatches nothing and hands back the registry object itself |
| Dispatch.AsyncNeverThrows | src/TyphonEvents.js:262-332 | the async path never raises: its outcome is the registry, undefined, a rejection, `Promise.all` or `Promise.resolve` |
| Dispatch.TriggerAsyncOutcome | src/TyphonEvents.js:128-140 | `triggerAsync`, being `async`, never throws and always returns a promise; it rejects with a callback's error or settles as `Promise.all` or `Promise.resolve`, and only for an empty event map on a bus with a registry does it resolve to `_events` itself |
| Dispatch.TriggerAsyncSingle | src/TyphonEvents.js:128-140 | on one name, `triggerAsync` rejects with the first error (later bindings are not called), gives `Promise.all` of every value for two or more bindings, resolves the one value for one, and resolves undefined with no registry or no bindings |
| Dispatch.OnceFiresOnce | test/src/TestEvents.js:375-395 | a `once` binding fires on the first trigger, is gone before its callback runs, and the next trigger calls nothing |
| Dispatch.ApiStepCalls | src/TyphonEvents.js:235-249 | the calls made before a trigger do not affect it; they only prefix its calls |
| Dispatch.FoldCalls | src/TyphonEvents.js:195-223 | the same holds for the whole name loop |
| Dispatch.TriggerEveryName | test/src/TestEvents.js:76-84 | the inherited `trigger` reaches every name: with no `all` or `once` bindings and no throw, it calls each name's bindings in turn and leaves the registry unchanged |
| Dispatch.TriggerLikeSync | test/src/TestEvents.js:76-84 | on one name, `trigger` calls exactly the bindings `triggerSync` calls and hands back the bus instead of their values |
| Dispatch.FoldStops | src/TyphonEvents.js:161-172 | a synchronous throw at some prefix of the names ends the loop there |
| Dispatch.PlainStops | test/src/TestEvents.js:76-84 | the same holds for the inherited `trigger` |
| Dispatch.MapStep | src/TyphonEvents.js:202-205 | each key of an event map continues the dispatch from the state the earlier keys left |
| Dispatch.MapStops | src/TyphonEvents.js:202-205 | the map loop's result is the fold up to its last key, or up to a throw |
| Typhon.SingleAdds | src/TyphonEvents.js:216-220 | registering a name without whitespace adds exactly one binding |
| Typhon.OnAppends | test/src/TestEvents.js:113-131 | `on` appends the binding to its name's list, leaves the other lists alone, and raises the count by one |
| Typhon.OffUndoesOn | test/src/TestEvents.js:113-131 | `off(name, cb, ctx)` right after `on(name, cb, ctx)` restores the registry when no earlier binding matched |
| Typhon.OffAll | test/src/TestEvents.js:113-131 | a removal with no name, callback or context matches every binding, so `off()` dropping the registry removes exactly those bindings |
| Typhon.OnceThenTrigger | test/src/TestEvents.js:375-395 | `once` on a fresh name fires on the next `triggerSync` with the callback's value, and that trigger restores the registry from before the registration |
| Typhon.TyphonEvents.constructor | src/TyphonEvents.js:24-29 | a new bus has no registry and the name given |
| Typhon.TyphonEvents.GetEventbusName | src/TyphonEvents.js:83-86 | returns the stored name |
| Typhon.TyphonEvents.SetEventbusName | src/TyphonEvents.js:108-118 | stores the name, returns the bus, and leaves the registry alone |
| Typhon.TyphonEvents.GetEventNames | src/TyphonEvents.js:93-99 | the names, each listed once, are exactly the names that have bindings |
| Typhon.TyphonEvents.EventCount | src/TyphonEvents.js:69-76 | the loop sums the list lengths (0 with no registry), which equals the number of visits `forEachEvent` makes |
| Typhon.TyphonEvents.ForEachEvent | src/TyphonEvents.js:47-62 | does nothing with no registry; otherwise a TypeError for a non-function visitor, else every (name, callback, context) in name order and binding order |
| Typhon.TyphonEvents.InvokeAll | src/TyphonEvents.js:270-323 | the collector loop computes `RunList`: `once` bindings are removed before their call, and the loop stops at the first throw |
| Typhon.TyphonEvents.SyncEvents | src/TyphonEvents.js:343-401 | the sync collector computes `ListStep(Sync, …)` and changes nothing but the registry |
| Typhon.TyphonEvents.AsyncEvents | src/TyphonEvents.js:262-332 | the async collector computes `ListStep(Async, …)` and never throws |
| Typhon.TyphonEvents.TriggerApi | src/TyphonEvents.js:235-249 | one name computes `ApiStep`: the name's list, then a snapshot of `all` called with the raw name value prepended |
| Typhon.TyphonEvents.EventsApi | src/TyphonEvents.js:195-223 | the name loop computes `Fold` over the resolved names, each passed on as given (a string token, or the original non-string value), threading each result into the next call |
| Typhon.TyphonEvents.MapApi | src/TyphonEvents.js:199-206 | the event-map loop computes `Fold` over the keys' names |
| Typhon.TyphonEvents.MapKey | src/TyphonEvents.js:203-206 | one key of the event-map loop: from the state the first i keys leave, dispatching key i gives the state `Fold` reaches after i + 1 keys |
| Typhon.TyphonEvents.NamesApi | src/TyphonEvents.js:208-215 | the token loop computes `Fold` over the tokens |
| Typhon.TyphonEvents.TriggerSync | src/TyphonEvents.js:161-172 | returns `TriggerSyncSpec`'s result or error, and leaves the registry as the dispatch left it |
| Typhon.TyphonEvents.TriggerAsync | src/TyphonEvents.js:128-140 | returns `TriggerAsyncSpec`'s promise, and `Promise.resolve()` when the dispatch gave undefined |
| Typhon.TyphonEvents.Trigger | test/src/TestEvents.js:76-84 | computes `TriggerSpec`, returns the bus, and propagates a callback's error |
| Typhon.TyphonEvents.TriggerDefer | src/TyphonEvents.js:147-152 | returns the bus |
| Typhon.TyphonEvents.On | test/src/TestEvents.js:113-131 | appends one direct binding per resolved target and returns the bus |
| Typhon.TyphonEvents.Once | test/src/TestEvents.js:133-149 | as `On`, with bindings that remove themselves when they fire |
| Typhon.TyphonEvents.Off | test/src/TestEvents.js:113-131 | removes the bindings that match each resolved filter; with no argument at all the registry is dropped, as on a new bus; no registry stays no registry |
| Typhon.TyphonEvents.ListenTo | test/src/TestEvents.js:151-173 | registers on the other bus with this bus as owner |
| Typhon.TyphonEvents.ListenToOnce | test/src/TestEvents.js:175-196 | as `ListenTo`, with bindings that fire once |
| Typhon.TyphonEvents.StopListening | test/src/TestEvents.js:151-173 | removes from the other bus only bindings this bus owns that match the filters |
| Proxy.EventProxy.constructor | src/EventProxy.js:27-47 | a new proxy is active on the bus given, with a fresh internal bus that has no registry |
| Proxy.EventProxy.Create | src/EventProxy.js:27-47 | a non-bus argument gives a TypeError with the source's message; a bus gives a fresh active proxy on it |
| Proxy.EventProxy.Destroy | src/EventProxy.js:53-63 | takes every binding the proxy added off the target and nulls both fields; a second call gives a ReferenceError and changes nothing |
| Proxy.EventProxy.GetEventbusName | src/EventProxy.js:70-75 | the target's name, or a ReferenceError once destroyed |
| Proxy.EventProxy.Off | src/EventProxy.js:88-98 | removes from the target only the matching bindings the proxy owns; a ReferenceError once destroyed |
| Proxy.EventProxy.On | src/EventProxy.js:115-125 | registers on the target with the internal bus as owner; a ReferenceError once destroyed |
| Proxy.EventProxy.Once | src/EventProxy.js:143-153 | as `On`, with bindings that fire once |
| Proxy.EventProxy.Trigger | src/EventProxy.js:163-170 | runs the target's `trigger` and returns the proxy; a ReferenceError once destroyed |
| Proxy.EventProxy.TriggerSync | src/EventProxy.js:212-217 | the target's `triggerSync` result or error, unchanged |
| Proxy.EventProxy.TriggerAsync | src/EventProxy.js:181-186 | the target's `triggerAsync` promise, unchanged |
| Proxy.EventProxy.TriggerDefer | src/EventProxy.js:195-202 | returns the proxy, or a ReferenceError once destroyed |
| Proxy.CreateEventProxy | src/TyphonEvents.js:37-40 | a fresh active proxy on this bus |
| Proxy.DestroyKeepsOthers | src/EventProxy.js:53-63 | `destroy` keeps exactly the bindings the proxy did not add, keeps the registry well-formed, and lowers the count by the number it removed |
| Proxy.FiltersOwner | src/EventProxy.js:88-98 | every filter the proxy's `off` builds is restricted to the internal bus |
| Proxy.ProxyOffSparesOthers | test/src/TestEventProxy.js:75-200 | the proxy's `off` never removes a binding added directly on the target or by another listener |
| Proxy.DestroyUndoesOn | test/src/TestEventProxy.js:202-262 | whatever the proxy registers, `destroy` takes off again, restoring the target's registry |

## Left out

- Registration, removal, `trigger`, `listenTo` and `stopListening` come from the base class `Events`, which is not part of this model. They are modelled from their documented effect on `_events`, as the tests exercise them.
- Typhon.TyphonEvents.Once: the base class wraps a `once` callback in a memoised `_.once` that takes the binding off before calling it. The model removes the first equal binding (`RemoveOne`) before the call but does not model the memo. The memo is visible when a `once` binding sits under `all` and the name `all` itself is triggered: the source runs the same wrapper from the named list and from the `all` copy (src/TyphonEvents.js:241-245), and the second run returns the memoised value without calling the callback, whereas the model calls the callback twice and records two calls. `Dispatch.OnceFiresOnce` excludes the name `all` for this reason.
- The context an event map adopts at src/TyphonEvents.js:202 (`opts.context = callback`) applies only to registration with a map and a third argument; the model uses the context given.
- Typhon.TyphonEvents.Off: a falsy name such as `""` or `null` is treated as "every name" by the base class; the model treats only an absent name that way.
- When a result is passed on as `events` (src/TyphonEvents.js:241), the lookup `objEvents[name]` on that value is modelled as finding nothing. A result that is itself an object with a property of that name is not modelled.
- Promise settlement: a promise returned by a callback is an opaque value. `Promise.all` and the awaiting of results are represented by the `All`, `Resolve` and `Reject` handles, not executed.
- Typhon.TyphonEvents.TriggerDefer: the trigger that `setTimeout` schedules runs later, outside this call. The method only returns the bus; the later trigger is the one `Trigger` models.
- Proxy.EventProxy.TriggerDefer: same as above.
- src/mainEventbus.js, which only creates and exports one shared bus, is not part of this model.
- The proxy's `forEachEvent`, `getEventNames` and `eventCount`, which the tests call, have no definition in src/EventProxy.js and are not part of this model.
- The property key a non-string name converts to (`"42"` for `42`, `"undefined"` for `undefined`) is given with the value in `NonString(raw, key)`, not computed from it.
- Object.keys orders integer-like keys first; an event map's entries are taken in the order given.
- A callback's side effects other than its result, and the `forEachEvent` visitor's behaviour, are not modelled; the visitor's calls are returned as `Visit`s.
- The `_listeningTo` and `_listeners` bookkeeping of `listenTo`, and `stopListening()` with no target, are not modelled; the model's owner field carries the same information for the cases used.
- The copy of `arguments` into `args` (src/TyphonEvents.js:133-135, :166-169) is modelled by passing a sequence.
- The `Promise.all` at src/TyphonEvents.js:131 is applied to a value that is never an array of promises; its effect on the result is the identity and is not modelled.
- The receiver `this` of a callback is an opaque context identity; when no context is given, the base class passes the bus, which the model represents as `None`.
