# Namespace.js registry, modelled in Dafny

`static/js/namespace.js` is a browser namespace registry. It creates dotted namespaces
such as `com.example.Widget` as nested objects under `window`. It loads the script
file behind an identifier with `XMLHttpRequest`, and no more once a load has succeeded. It imports namespace
members into the global scope. Observers can subscribe to its `create`, `include`,
`includeError`, `use` and `provide` events.

This project models that registry:

- **State.** A `RegistryState` holds:
  - the own properties of `window`, as JavaScript values;
  - the inclusion table;
  - the listener table;
  - the three configuration fields (`separator`, `baseUri`, `autoInclude`);
  - the effects on the outside world, in order: listener calls, GET requests, script runs and callback calls;
  - the asynchronous requests still in flight.
- **Spec functions.** Module `Semantics` gives every public operation as a function from the old state to the new state plus a completion (normal, or a thrown error).
- **Class.** `Registry.NamespaceRegistry` performs the same operations on fields, in place, with the dispatch, removal, member-attachment, wildcard-import and `use` loops. Each of its methods is proved equal to its spec function.
- **Property lemmas.** Module `Properties` proves what the operations promise:
  - dispatch order, and what a removed listener does to dispatch;
  - what `Namespace` creates and how it never loses a path;
  - that a script is not loaded again after a successful load (but is after a failed one, and twice when two asynchronous includes overlap), and that `provide` suppresses loading;
  - the asynchronous round trip, including what a deferred `use` and `from(id).use` do once their load completes;
  - the order in which `use` imports a list, when it loads, and that without deferral it fires `use` exactly once, at the end.

The helper layers are modules of their own:

- `JsValues`: values.
- `Lodash`: `_.has`, `_.get` and `_.set` on dot paths. Lodash's `set`/`get`/`has` are external to the file; their behaviour on plain dot paths is modelled here together with their frame lemmas.
- `Identifiers`: `split`, `join`, `_toArray`, `mapIdentifierToUri`, and the relative form of `from().use`.
- `Transport`: the success test of a request and the constructor ladder.
- `Events`: channels whose removed slots are holes.

Where the doc comments and the code disagree, the model follows the code:

- On the path that creates a namespace, `_namespace` returns `window`, not "the most inner object" (lines 135 and 162). The consequence for `use` on a container that does not exist yet is proved in `Properties.UseFreshContainerReadsWindow`.
- `removeEventListener` uses `delete`, which leaves a hole in the listener array (line 434). The next dispatch of that event then throws `TypeError` at the hole. See `Properties.RemovedListenerMakesDispatchThrow`.
- `create` fires whenever `_namespace` does not return early at line 145. That includes the empty identifier `''`: line 141 skips creation, but line 161 still fires `create`. Every `use` of an identifier without a separator goes through `_namespace('')` (line 311). See `Properties.NamespaceRootFiresCreate`.
- `from(id).use` calls `use` with auto-include off (lines 379 and 383). With a callback, `use` runs only in the success continuation of the include (lines 378-380). After a failed asynchronous load neither `use` nor the callback runs; see `Properties.FromUseFailedLoadSkipsUse`. Without a callback, `use` runs after the synchronous include whether the load succeeded or failed (lines 382-383). The exception is a browser with no request constructor: `_createXmlHttpRequest` throws (line 65, reached from line 215), the exception leaves `from(id).use` before line 383, and `use` does not run (`Semantics.FromUse` gives `Abrupt(TransportUnavailable)`).
- A `use` with a callback that has to load a target of a list hands the rest of the list to a new call `use(identifiers.slice(i + 1), callback, autoInclude)` (line 333). The one `use` event is then fired by that call, so it carries only the leftover slice, not the caller's argument. See `Properties.ResumeUseRest` and `Properties.UseListDeferredRoundTrip`.
- The check at line 263 reads `_includedIdentifiers`, which an asynchronous include sets only in its success continuation (line 271), and a failed load never sets. So a script is not loaded "only once": two asynchronous includes of one identifier made before the first load completes each send a request, and an include after a failed load requests the file again. See `Properties.IncludeOverlapLoadsTwice` and `Properties.IncludeAfterFailureLoadsAgain`.
- lodash always splits paths on `.`. `use` and `mapIdentifierToUri` split on the configured separator instead.

## Model

| member | source | states |
|---|---|---|
| Identifiers.ToArrayIdempotent | static/js/namespace.js:34-40 | `_toArray` of `_toArray`'s result is that result, so the re-entry of `use` on the rest of a list (line 333) sees the same identifiers |
| Identifiers.Split | static/js/namespace.js:309 | `split` never returns an empty array |
| Identifiers.JoinSplit | static/js/namespace.js:309-311 | joining the pieces of a split gives the identifier back |
| Identifiers.SplitPiecesAvoidSeparator | static/js/namespace.js:309 | no piece of a split contains the separator |
| Identifiers.SplitWithoutSeparator | static/js/namespace.js:309 | a string without the separator splits into itself alone |
| Identifiers.SplitConcat | static/js/namespace.js:155 | the path of `a + sep + b` is the path of `a` followed by that of `b` |
| Identifiers.SplitJoin | static/js/namespace.js:309-311 | splitting a join of separator-free pieces gives the pieces back |
| Identifiers.JoinSnoc | static/js/namespace.js:310-311 | joining one more piece appends the separator and the piece |
| Identifiers.SplitTarget | static/js/namespace.js:309-311 | the target has no separator; the container, the separator and the target put back together give the identifier back; without a separator the container is `''` |
| Identifiers.ReplaceAll | static/js/namespace.js:191-192 | replacing every separator keeps the length of the identifier |
| Identifiers.ReplaceAllAt | static/js/namespace.js:191-192 | replacing keeps the length and changes exactly the separator characters |
| Identifiers.MapIdentifierToUri | static/js/namespace.js:190-193 | the URI starts with the base URI, ends with `.js`, and is as long as the base URI, the identifier and the extension together |
| Identifiers.UriShape | static/js/namespace.js:190-193 | the URI is the base URI, then the identifier with each separator turned into `/`, then `.js` |
| Identifiers.UriInjective | static/js/namespace.js:190-193 | with a separator other than `/`, distinct identifiers without `/` map to distinct URIs |
| Identifiers.ResolveRelative | static/js/namespace.js:374-376 | the identifier given always ends the result; a leading `.` puts the bound identifier in front of it, anything else is left alone |
| Lodash.Has | static/js/namespace.js:142 | the empty path is never present, and a present path starts with an own property |
| Lodash.Get | static/js/namespace.js:145 | a value other than `undefined` is read only from a present path |
| Lodash.Set | static/js/namespace.js:143 | `_.set` keeps every own property and makes the first segment of a non-empty path present |
| Lodash.SetThenGet | static/js/namespace.js:143 | after `_.set` the path is present and holds the value set |
| Lodash.GetAbsent | static/js/namespace.js:145 | an absent path reads as `undefined` |
| Lodash.HasPrefix | static/js/namespace.js:142 | every non-empty prefix of a present path is present |
| Lodash.SetKeepsPresence | static/js/namespace.js:143 | `_.set` removes no present path except those through the path it assigns |
| Lodash.SetFrame | static/js/namespace.js:151-155 | `_.set` leaves every unrelated path exactly as it was |
| Transport.IsHttpRequestSuccessful | static/js/namespace.js:82-87 | 2xx, 304 and 1223 succeed whatever the protocol; any other reported status fails; a missing status succeeds only on `file:` and `chrome:` |
| Transport.FirstSupported | static/js/namespace.js:48-72 | the first constructor that works, in the order tried, is chosen; all fail exactly when none is supported |
| Transport.CreateXmlHttpRequest | static/js/namespace.js:48-72 | `XMLHttpRequest` first, then the four ActiveX names in order; the error is reported exactly when none is supported |
| Transport.ProtocolMattersOnlyWithoutStatus | static/js/namespace.js:82-87 | a non-zero status decides by itself, whatever the page protocol |
| Transport.MissingStatusSucceedsOnlyLocally | static/js/namespace.js:86 | a missing status succeeds exactly on `file:` and `chrome:` pages |
| Transport.ErrorClassesFail | static/js/namespace.js:82-87 | informational codes, redirects other than 304, and client and server errors fail |
| Events.FirstHole | static/js/namespace.js:124-125 | every slot before the first hole holds a listener, and the slot at it does not |
| Events.Calls | static/js/namespace.js:124-127 | a dispatch makes at most one call per slot, each a notification carrying the event's properties |
| Events.CallsInOrder | static/js/namespace.js:118-128 | a dispatch calls each listener before the first hole once, in index order |
| Events.CallsSnoc | static/js/namespace.js:123-127 | one more loop step adds exactly one call, to the next listener |
| Events.CallsAppendLast | static/js/namespace.js:118-128 | a listener appended to a channel without holes keeps it without holes and adds exactly one call, to that listener, after all the earlier ones |
| Events.CallsStopAtHole | static/js/namespace.js:124-125 | no listener after a hole is called |
| Events.Appended | static/js/namespace.js:415-418 | the channel is created when missing, the old channel is kept as a prefix and the listener is appended last; every other channel is unchanged |
| Events.IndexOf | static/js/namespace.js:431-438 | the first slot holding the listener, or the length when there is none |
| Events.PunchHole | static/js/namespace.js:431-436 | removal keeps the channel's length, and the only slot it can change is one holding the listener, which becomes a hole |
| Events.Removed | static/js/namespace.js:428-435 | removal neither adds nor drops a channel, keeps the length of the changed one and leaves every other channel alone |
| Events.PunchHoleAt | static/js/namespace.js:427-439 | removal turns only the first slot holding the listener into a hole; the length and the other slots stay; without the listener the channel is unchanged |
| Semantics.Dispatch | static/js/namespace.js:118-128 | a dispatch changes nothing but the effects, which it only extends |
| Semantics.AddEventListener | static/js/namespace.js:414-419 | only the listener table changes; the channel exists afterwards, has grown by one and ends with the new listener |
| Semantics.RemoveEventListener | static/js/namespace.js:427-439 | only the listener table changes; no channel appears, disappears or changes length |
| Semantics.Exist | static/js/namespace.js:172-180 | `exist('')` is true; any other identifier exists exactly when its path is present, whatever its value; one that does not exist reads as `undefined` |
| Properties.ExistAfterSet | static/js/namespace.js:172-180 | a path just set exists even when it holds `undefined`, `null` or `false`: presence, not truthiness |
| Semantics.AttachMembers | static/js/namespace.js:153-157 | no members leave `window` as it was; otherwise the last member is present at `identifier.key` and holds its value |
| Semantics.AttachMembersSnoc | static/js/namespace.js:153-157 | attaching one more member is one more `_.set` of `identifier.key` on the result of attaching the members before it |
| Semantics.Attach | static/js/namespace.js:149-158 | with no second argument nothing changes; a function becomes the value at the identifier's path |
| Semantics.Namespace | static/js/namespace.js:138-163 | creating a namespace only adds to state: no inclusion flag, effect or request is lost; listeners and configuration are untouched |
| Semantics.Settle | static/js/namespace.js:221-231 | settling a finished request changes nothing but the effects, which it only extends |
| Semantics.LoadScript | static/js/namespace.js:204-247 | loading only adds to state: inclusion flags, effects and requests are kept, configuration and listeners untouched |
| Semantics.Include | static/js/namespace.js:259-281 | the same for `include` |
| Semantics.RunCont | static/js/namespace.js:270-273 | the same for the continuations the registry hands to the loader |
| Semantics.Use | static/js/namespace.js:298-357 | the same for `use` |
| Semantics.UseLoop | static/js/namespace.js:307-356 | the same for the loop of `use` from any position |
| Semantics.UseImport | static/js/namespace.js:312-349 | the same for importing one target |
| Semantics.FinishUse | static/js/namespace.js:353-356 | the same for the final `use` event and callback |
| Semantics.FromInclude | static/js/namespace.js:368-371 | the same for `from(id).include` |
| Semantics.FromUse | static/js/namespace.js:372-385 | the same for `from(id).use` |
| Semantics.Provide | static/js/namespace.js:399-406 | the same for `provide` |
| Semantics.ReadyStateChange | static/js/namespace.js:219-233 | before `readyState` 4 nothing changes; at 4 exactly request `k` leaves the pending list, and otherwise the state only grows as for the other operations |
| Registry.NamespaceRegistry.constructor | static/js/namespace.js:19-20 | the registry starts with empty tables, separator `.`, base URI `./` and auto-include on |
| Registry.NamespaceRegistry.Dispatch | static/js/namespace.js:118-128 | the loop calls the listeners exactly as `Semantics.Dispatch` says |
| Registry.NamespaceRegistry.AddEventListener | static/js/namespace.js:414-419 | the channel is created empty when missing and the listener is appended |
| Registry.NamespaceRegistry.RemoveEventListener | static/js/namespace.js:427-439 | the loop punches a hole at the first slot holding the listener, and only there |
| Registry.NamespaceRegistry.Namespace | static/js/namespace.js:138-163 | in-place creation, attachment of the classes, and the `create` event as `Semantics.Namespace` says |
| Registry.NamespaceRegistry.AttachClasses | static/js/namespace.js:149-159 | in-place attachment of a function or of each member of the classes object; the new state is `window` with the classes attached as `Semantics.Attach` says, nothing else changes |
| Registry.NamespaceRegistry.Settle | static/js/namespace.js:221-231 | as `Semantics.Settle` |
| Registry.NamespaceRegistry.LoadScript | static/js/namespace.js:204-247 | as `Semantics.LoadScript` |
| Registry.NamespaceRegistry.Include | static/js/namespace.js:259-281 | as `Semantics.Include` |
| Registry.NamespaceRegistry.RunCont | static/js/namespace.js:270-273 | as `Semantics.RunCont` |
| Registry.NamespaceRegistry.FinishUse | static/js/namespace.js:353-356 | as `Semantics.FinishUse` |
| Registry.NamespaceRegistry.ImportAll | static/js/namespace.js:314-318 | every own property of the source object is copied onto `window`, and nothing else changes |
| Registry.NamespaceRegistry.ImportTarget | static/js/namespace.js:312-349 | one pass of the loop agrees with `Semantics.UseImport`, stopping exactly where `use` returns |
| Registry.NamespaceRegistry.Use | static/js/namespace.js:298-357 | the `while` loop of `use` agrees with `Semantics.Use` |
| Registry.NamespaceRegistry.FromInclude | static/js/namespace.js:368-371 | as `Semantics.FromInclude` |
| Registry.NamespaceRegistry.FromUse | static/js/namespace.js:372-385 | as `Semantics.FromUse` |
| Registry.NamespaceRegistry.Provide | static/js/namespace.js:399-406 | as `Semantics.Provide` |
| Registry.NamespaceRegistry.ReadyStateChange | static/js/namespace.js:219-233 | as `Semantics.ReadyStateChange` |
| Properties.DispatchInOrder | static/js/namespace.js:118-128 | a dispatch notifies the listeners before the first hole, each once, in registration order, with `event` stamped; it completes normally exactly when there is no hole |
| Properties.DispatchWithoutListeners | static/js/namespace.js:119-121 | without a channel nothing happens |
| Properties.AddedListenerNotifiedLast | static/js/namespace.js:414-419 | an added listener is notified after every listener already registered |
| Properties.RemovedListenerMakesDispatchThrow | static/js/namespace.js:427-439 | after add then remove, the slot is a hole, the length is kept, and the next dispatch throws |
| Properties.RemoveAbsentListener | static/js/namespace.js:428-439 | removing a listener that is not registered changes nothing |
| Properties.NamespaceExisting | static/js/namespace.js:141-146 | an existing identifier is returned as it is: nothing created, no `create` event |
| Properties.NamespaceCreates | static/js/namespace.js:138-163 | a missing identifier gets a fresh `{}` at its path; exactly the `create` notifications are added, and the result is `window` |
| Properties.NamespaceRootFiresCreate | static/js/namespace.js:138-163 | the empty identifier creates nothing but still fires `create`, and the result is `window` |
| Properties.NamespaceCallable | static/js/namespace.js:150-151 | given a function, the namespace is that function itself |
| Properties.AttachMembersAt | static/js/namespace.js:153-157 | each member of the classes object ends up at `identifier.key` |
| Properties.NamespaceMembers | static/js/namespace.js:149-158 | the same, through `Namespace` on a new identifier |
| Properties.AttachMembersKeeps | static/js/namespace.js:153-157 | attaching members loses no path outside the namespace |
| Properties.AttachMembersKeepsSelf | static/js/namespace.js:153-157 | attaching members keeps the namespace itself present |
| Properties.NamespaceKeepsPaths | static/js/namespace.js:138-163 | no path present before `Namespace` is lost, and the identifier exists afterwards |
| Properties.IncludeAlreadyIncluded | static/js/namespace.js:263-268 | an included identifier is not loaded again; only the callback runs, and the result is `true` |
| Properties.IncludeWithoutTransport | static/js/namespace.js:65 | with no request constructor the include throws and changes nothing |
| Properties.SettleOutcome | static/js/namespace.js:237-245 | a finished request: on success the text runs and `include` fires, on failure `includeError` fires with the status; the value is the success flag, and only a removed listener of that event makes it throw |
| Properties.IncludeSyncOutcome | static/js/namespace.js:236-246 | one GET request for the mapped URI; on success the text runs, `include` fires and the identifier is included; on failure `includeError` fires with the status and nothing is included; the result says which |
| Properties.IncludeSyncSuccess | static/js/namespace.js:238-241 | a successful synchronous include is one request, one script run and the `include` event, and the identifier becomes included |
| Properties.IncludeAtMostOnce | static/js/namespace.js:263-278 | after a successful synchronous include, including again sends no request and only runs the callback |
| Properties.IncludeAsyncPends | static/js/namespace.js:269-273 | an asynchronous include sends the request and leaves it pending, with a continuation that marks the identifier included first |
| Properties.IncludeOverlapLoadsTwice | static/js/namespace.js:263-273 | two asynchronous includes of a new identifier, the second before the first completes, send two requests and leave two pending loads; nothing is marked included |
| Properties.IncludeAfterFailureLoadsAgain | static/js/namespace.js:263-280 | after a failed synchronous load the identifier is still not included, and the next include sends the request again |
| Properties.AsyncSuccessResumes | static/js/namespace.js:219-225 | a successful completion removes the request, runs the text, fires `include`, marks the identifier included and then runs the continuation the caller of `include` supplied |
| Properties.AsyncSuccessRunsContinuation | static/js/namespace.js:220-225 | a successful completion runs the text, fires `include`, marks the identifier included, then calls the callback |
| Properties.AsyncIncludeRoundTrip | static/js/namespace.js:259-281 | the full asynchronous round trip: one request, one script run, the `include` event, then the callback; the identifier is included |
| Properties.AsyncFailureRunsOnlyErrorCallback | static/js/namespace.js:227-231 | a failed completion fires `includeError` with the status and calls only the error callback; nothing becomes included |
| Properties.ReadyStateBeforeDone | static/js/namespace.js:220 | before `readyState` 4 the handler does nothing |
| Properties.ProvideOutcome | static/js/namespace.js:399-406 | `provide` marks an absent, not yet included identifier included and fires `provide`; otherwise it changes nothing |
| Properties.ProvideThenIncludeNoLoad | static/js/namespace.js:399-406 | after `provide`, an include sends no request |
| Properties.FromUseRelative | static/js/namespace.js:372-384 | with the bound identifier included, `from(b).use('.x')` is `use('b.x')` with auto-include off |
| Properties.FromUseDeferred | static/js/namespace.js:377-380 | with a callback and the bound identifier not included, the state is the original plus exactly its sent request and one pending load whose continuation marks it included and then runs the relative `use` |
| Properties.FromUseAfterLoad | static/js/namespace.js:377-380 | once that load succeeds, the bound identifier is included and the result is exactly `use` of the resolved identifier, with the callback and auto-include off |
| Properties.FromUseFailedLoadSkipsUse | static/js/namespace.js:377-380 | once that load fails, only `includeError` fires: no `use` event, no callback, nothing included |
| Properties.FromUseIncludedBound | static/js/namespace.js:377-380 | with the bound identifier already included, `from(b).use(id, cb)` is `use` of the resolved identifier at once |
| Properties.SplitTargetOfJoin | static/js/namespace.js:309-311 | splitting the container, the separator and a separator-free target gives the two parts back |
| Properties.FinishUseOutcome | static/js/namespace.js:353-356 | the end of `use` fires `use` once and then runs the callback once |
| Properties.UseLoopImportsInOrder | static/js/namespace.js:307-356 | over identifiers that have a container (at least one separator) and are wildcards, truthy targets, or missing targets skipped with auto-include off, the loop imports them left to right against an independent fold, and only then fires `use` and runs the callback |
| Properties.UseImportsAll | static/js/namespace.js:298-357 | `use` of such identifiers with a container imports them in list order. Nothing is loaded, one `use` event carries the original argument, and the callback runs last |
| Properties.UseWildcard | static/js/namespace.js:312-318 | `use('a.b.*')` copies every own property of `a.b` onto `window` |
| Properties.UseCopiesTruthyTarget | static/js/namespace.js:321-323 | a truthy target is copied to `window` without loading |
| Properties.UseMissingWithoutAutoInclude | static/js/namespace.js:324-326 | with auto-include off a missing target is skipped: no load, `window` unchanged |
| Properties.UseLoopDefers | static/js/namespace.js:326-342 | with a callback, the loop stops at the first missing target: one asynchronous request, and a pending continuation holding the target, its container and the identifiers after it |
| Properties.UseDefersUntilLoaded | static/js/namespace.js:328-342 | with a callback, a missing target is loaded asynchronously: the state is the original plus exactly one sent request and one pending load whose continuation marks the identifier included and then resumes the import. The import, the `use` event and the callback wait for the load |
| Properties.ResumeUseLast | static/js/namespace.js:330-340 | resuming with nothing left copies the target from its container, read again now, then fires `use` with the original argument and runs the callback |
| Properties.ResumeUseRest | static/js/namespace.js:330-333 | resuming with identifiers left copies the target and is then exactly `use` of the rest, with the same callback and flag; `Identifiers.ToArrayIdempotent` says the rest is read back unchanged |
| Properties.ResumeUseRestImports | static/js/namespace.js:328-333 | when the rest all resolves, the resumed `use` imports the target and then the rest in order, and ends with one `use` event carrying the rest and the callback |
| Properties.DeferredCompletes | static/js/namespace.js:219-225 | completing the deferred request successfully includes the identifier, records the script run and the `include` event, and runs the stored continuation |
| Properties.UseDeferredRoundTrip | static/js/namespace.js:326-342 | the full round trip of a deferred `use` of one identifier: one request, one script run, the `include` event, the target copied, one `use` event with the original argument, then the callback |
| Properties.UseListDeferredRoundTrip | static/js/namespace.js:328-342 | the same for a list whose first target is missing: the rest is imported by a second `use`, whose one `use` event carries only the rest |
| Properties.UseLoadsMissingSynchronously | static/js/namespace.js:343-346 | without a callback, a missing target is loaded first and then read again and copied; `use` fires after the `include` event |
| Properties.DispatchQuiet | static/js/namespace.js:118-128 | a dispatch of any event but `use` adds only notifications of that event |
| Properties.NamespaceQuiet | static/js/namespace.js:138-163 | `_namespace` adds no `use` event and no callback call, and touches neither the pending requests nor the inclusion table |
| Properties.SettleQuiet | static/js/namespace.js:221-231 | settling a request adds no `use` event and no callback call |
| Properties.IncludeSyncQuiet | static/js/namespace.js:274-279 | a synchronous include adds no `use` event and no callback call, and leaves no request pending |
| Properties.FinishUseShape | static/js/namespace.js:352-356 | the end of `use` leaves pending requests alone, and a normal end adds exactly the `use` event and the callback |
| Properties.UseLoopSyncShape | static/js/namespace.js:307-356 | without a callback or without auto-include, the loop leaves no request pending, and a normal run ends with the one `use` event and the callback, after effects containing neither |
| Properties.UseImportSyncShape | static/js/namespace.js:312-349 | the same from the import of one target on |
| Properties.UseLoadSyncShape | static/js/namespace.js:343-346 | the same when the missing target is first included synchronously |
| Properties.UseSyncEndsWithOneUseEvent | static/js/namespace.js:298-357 | for any list, with whatever mix of wildcards, present, skipped and synchronously loaded targets: no request pending, and `use` fires exactly once, with the original argument, followed only by the callback |
| Properties.UseFreshContainerReadsWindow | static/js/namespace.js:311-323 | when the container does not exist, `use` creates it but reads the target from `window` itself |

## Left out

- Properties.UseLoopImportsInOrder, Properties.UseImportsAll: these cover only identifiers with a container, that is, with at least one separator. A top-level identifier such as `use('Foo')` resolves its container through `_namespace('')` (line 311), which also fires `create`; that step is stated on its own by `Properties.NamespaceRootFiresCreate`.
- Lodash path syntax: brackets, quoted keys, numeric indices and literal dotted keys are not modelled. Every identifier is split on `.`.
- Lodash's guards against `__proto__`, `constructor` and `prototype` are not modelled.
- Inherited properties are not modelled. Only own properties exist, so `Object.prototype` and `Array.prototype` names are not seen. For example, `_includedIdentifiers['push']` is truthy in the source, and `_listeners['toString']` exists there.
- Own properties of primitive values are not modelled: a string's `length` and indices read as `undefined`.
- Separators are single characters whose regular-expression escape is the character itself. Multi-character separators are not modelled.
- `_toArray` on arguments other than a string or an array (`Array(n)` of a number) is not modelled.
- `provide` given an array is not modelled; `provide` takes one identifier here.
- Numbers are integers: NaN and fractional values are not modelled.
- The `callback` field of the loader's event object is not modelled. It holds a closure that listeners could call.
- Listener bodies are opaque. Their calls are recorded, but any change they make to the registry, to the props object or to the channel during dispatch is not modelled.
- Two aliasing approximations:
  - A namespace object is remembered as its path (`Loc`) and looked up again when used. A continuation therefore sees the object now at that path, not necessarily the object resolved earlier.
  - `_.set` builds new objects along the path instead of mutating shared ones.
- Running fetched text as a script (`_createScript`, lines 94-110) is recorded as an effect. It has no effect on the object graph, because script evaluation is outside the model.
- `registerNativeExtensions` (lines 447-510) is not modelled. It only adds `String.prototype` and `Array.prototype` shorthands for the operations above.
- An overridden `mapIdentifierToUri` is not modelled. The function is public so that scripts can replace it (line 183), and `_loadScript` looks it up at each call (line 208). Here the loader always uses `Identifiers.MapIdentifierToUri`.
- Listeners and callbacks that throw, or that call back into the registry, are not modelled. In the source such a throw ends the dispatch and the enclosing operation, as a hole does. Here every listener or callback call returns normally.
- Synchronous responses come from a fixed function of the URI (`Env.serve`). Asynchronous responses are parameters of `ReadyStateChange`. Network, timing and browser objects are not modelled beyond that.
- A truthy callback that is not a function is not modelled. Callbacks are either absent or functions.
- Configuration changes are plain assignments to the class's public fields `separator`, `baseUri` and `autoInclude`. They are not separate operations.
- Semantics.Dispatch, Semantics.Namespace, Semantics.Settle, Semantics.LoadScript, Semantics.Include, Semantics.RunCont, Semantics.Use, Semantics.UseLoop, Semantics.UseImport, Semantics.FinishUse, Semantics.FromInclude, Semantics.FromUse, Semantics.Provide, Semantics.ReadyStateChange: their own contracts state only what each operation preserves (the frame, or `Evolves`). What they compute is stated by the lemmas of module Properties and by the matching methods of `Registry.NamespaceRegistry`.
