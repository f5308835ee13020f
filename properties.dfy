/** Properties of the registry's operations that relate several calls or
    describe a whole outcome: what one dispatch delivers, what `Namespace`
    creates and keeps, when `include` loads and when it does not, and what
    `use` imports and in which order. */
module Properties {
  import opened JsValues
  import opened Lodash
  import opened Identifiers
  import opened Transport
  import opened Events
  import opened Semantics

  /** The notifications one dispatch of `name` delivers. */
  function Fired(st: RegistryState, name: string, props: EventProps): seq<Effect>
  {
    if name in st.listeners then Calls(st.listeners[name], props.(event := Some(name))) else []
  }

  /** No listener of `name` has been removed, so its dispatch cannot throw. */
  predicate HoleFree(st: RegistryState, name: string)
  {
    name !in st.listeners || FirstHole(st.listeners[name]) == |st.listeners[name]|
  }

  /** The callback entry a caller's optional callback adds to the effects. */
  function CallbackRuns(callback: Option<CallbackId>): seq<Effect>
  {
    if callback.Some? then [CallbackRan(callback.value)] else []
  }

  // ---------------------------------------------------------------- events

  /** A dispatch notifies the listeners before the first removed slot, each once,
      in registration order, with the event name stamped on the properties; it
      completes normally exactly when no slot has been removed. */
  lemma DispatchInOrder(st: RegistryState, name: string, props: EventProps)
    requires name in st.listeners
    ensures var ch := st.listeners[name];
      var r := Dispatch(st, name, props);
      && r.st.log[..|st.log|] == st.log
      && |r.st.log| == |st.log| + FirstHole(ch)
      && (forall j :: 0 <= j < FirstHole(ch) ==>
            r.st.log[|st.log| + j] == Notified(ch[j].value, props.(event := Some(name))))
      && (r.out.Normal? <==> HoleFree(st, name))
  {
    var ch := st.listeners[name];
    var stamped := props.(event := Some(name));
    CallsInOrder(ch, stamped);
    var r := Dispatch(st, name, props);
    assert r.st.log == st.log + Calls(ch, stamped);
    forall j | 0 <= j < FirstHole(ch)
      ensures r.st.log[|st.log| + j] == Notified(ch[j].value, stamped)
    {
      assert r.st.log[|st.log| + j] == Calls(ch, stamped)[j];
    }
  }

  /** Without a channel a dispatch does nothing at all. */
  lemma DispatchWithoutListeners(st: RegistryState, name: string, props: EventProps)
    requires name !in st.listeners
    ensures Dispatch(st, name, props) == Step(st, Normal(()))
    ensures Fired(st, name, props) == [] && HoleFree(st, name)
  {
  }

  /** A listener added to a channel without removed slots is notified last, after
      every listener already there. */
  lemma {:induction false} AddedListenerNotifiedLast(st: RegistryState, name: string, l: ListenerId, props: EventProps)
    requires HoleFree(st, name)
    ensures var s := AddEventListener(st, name, l);
      && HoleFree(s, name)
      && Dispatch(s, name, props) ==
         Step(s.(log := st.log + Fired(st, name, props) + [Notified(l, props.(event := Some(name)))]), Normal(()))
  {
    var ch := if name in st.listeners then st.listeners[name] else [];
    var ch' := ch + [Some(l)];
    var stamped := props.(event := Some(name));
    assert AddEventListener(st, name, l) == st.(listeners := st.listeners[name := ch']);
    CallsAppendLast(ch, l, stamped);
  }

  /** Removing a listener leaves a hole in its slot (the channel keeps its length),
      so the next dispatch of that event throws after notifying the listeners
      before the hole. */
  lemma RemovedListenerMakesDispatchThrow(st: RegistryState, name: string, l: ListenerId, props: EventProps)
    ensures var ch := if name in st.listeners then st.listeners[name] else [];
      var s := RemoveEventListener(AddEventListener(st, name, l), name, l);
      && name in s.listeners
      && |s.listeners[name]| == |ch| + 1
      && IndexOf(ch + [Some(l)], l) <= |ch|
      && s.listeners[name] == (ch + [Some(l)])[IndexOf(ch + [Some(l)], l) := None]
      && Dispatch(s, name, props).out == Abrupt(NotAFunction(name))
  {
    var ch := if name in st.listeners then st.listeners[name] else [];
    var ch' := ch + [Some(l)];
    assert ch'[|ch|] == Some(l);
    var k := IndexOf(ch', l);
    assert k < |ch'|;
    PunchHoleAt(ch', l);
    var s := RemoveEventListener(AddEventListener(st, name, l), name, l);
    assert s.listeners[name][k].None?;
  }

  /** Removing a listener that is not in the channel changes nothing. */
  lemma RemoveAbsentListener(st: RegistryState, name: string, l: ListenerId)
    requires name in st.listeners ==> Some(l) !in st.listeners[name]
    ensures RemoveEventListener(st, name, l) == st
  {
    if name in st.listeners {
      var ch := st.listeners[name];
      PunchHoleAt(ch, l);
    }
  }

  // ---------------------------------------------------------------- namespace

  /** An identifier that already resolves is returned as it is: nothing created,
      no `create` event. */
  lemma NamespaceExisting(st: RegistryState, identifier: string, classes: Attachment)
    requires identifier != "" && Exist(st.root, identifier)
    ensures Namespace(st, identifier, classes) == Step(st, Normal(At(DotPath(identifier))))
  {
  }

  /** Creating a namespace: the path holds a fresh `{}`, nothing else outside the
      root changes, exactly the `create` notifications are added, and the result
      is `window` (not the new object). */
  lemma NamespaceCreates(st: RegistryState, identifier: string)
    requires identifier != "" && !Exist(st.root, identifier)
    ensures var r := Namespace(st, identifier, NoClasses);
      && r.st == st.(root := Set(st.root, DotPath(identifier), EmptyObject()),
                     log := st.log + Fired(st, "create", IdentifierProps(One(identifier))))
      && Exist(r.st.root, identifier)
      && Get(r.st.root, DotPath(identifier)) == EmptyObject()
      && (r.out.Normal? <==> HoleFree(st, "create"))
      && (r.out.Normal? ==> r.out.value == Window)
  {
    SetThenGet(st.root, DotPath(identifier), EmptyObject());
  }

  /** The empty identifier names `window` itself: nothing is created, yet the
      `create` event still fires, and the result is `window`. Every `use` of an
      identifier without a separator goes through this case. */
  lemma NamespaceRootFiresCreate(st: RegistryState)
    ensures var r := Namespace(st, "", NoClasses);
      && r.st == st.(log := st.log + Fired(st, "create", IdentifierProps(One(""))))
      && (r.out.Normal? <==> HoleFree(st, "create"))
      && (r.out.Normal? ==> r.out.value == Window)
  {
  }

  /** Given a function, the new namespace is that function itself. */
  lemma NamespaceCallable(st: RegistryState, identifier: string, fid: nat, statics: map<string, Value>)
    requires identifier != "" && !Exist(st.root, identifier)
    ensures var r := Namespace(st, identifier, Callable(fid, statics));
      && Exist(r.st.root, identifier)
      && Get(r.st.root, DotPath(identifier)) == Obj(FunctionObject(fid), statics)
  {
    var p := DotPath(identifier);
    SetThenGet(Set(st.root, p, EmptyObject()), p, Obj(FunctionObject(fid), statics));
  }

  /** The path of a member `identifier.key`, for a key without dots. */
  lemma MemberPath(identifier: string, key: string)
    requires '.' !in key
    ensures DotPath(identifier + "." + key) == DotPath(identifier) + [key]
  {
    SplitConcat(identifier, key, '.');
    SplitWithoutSeparator(key, '.');
  }

  /** The paths of two different members of one namespace do not lead to each other. */
  lemma MemberPathsApart(identifier: string, a: string, b: string)
    requires a != b
    ensures var p := DotPath(identifier) + [a];
      var q := DotPath(identifier) + [b];
      !(p <= q) && !(q <= p)
  {
    var p := DotPath(identifier) + [a];
    var q := DotPath(identifier) + [b];
    assert p[|p| - 1] != q[|q| - 1];
  }

  /** The `for…in` loop leaves each member at `identifier.key`, when the keys are
      distinct and contain no dot. */
  lemma {:induction false} AttachMembersAt(m: map<string, Value>, identifier: string,
                                           entries: seq<(string, Value)>, j: nat)
    requires forall a :: 0 <= a < |entries| ==> '.' !in entries[a].0
    requires forall a, b :: 0 <= a < b < |entries| ==> entries[a].0 != entries[b].0
    requires j < |entries|
    ensures Get(AttachMembers(m, identifier, entries), DotPath(identifier) + [entries[j].0]) == entries[j].1
    decreases |entries|
  {
    var n := |entries|;
    var last := entries[n - 1];
    var before := AttachMembers(m, identifier, entries[..n - 1]);
    MemberPath(identifier, last.0);
    var p := DotPath(identifier) + [last.0];
    AttachMembersSnoc(m, identifier, entries, n - 1);
    assert entries[..n] == entries;
    assert AttachMembers(m, identifier, entries) == Set(before, p, last.1);
    if j == n - 1 {
      SetThenGet(before, p, last.1);
    } else {
      var init := entries[..n - 1];
      assert forall a :: 0 <= a < |init| ==> init[a] == entries[a];
      AttachMembersAt(m, identifier, init, j);
      var q := DotPath(identifier) + [entries[j].0];
      MemberPathsApart(identifier, last.0, entries[j].0);
      SetFrame(before, p, q, last.1);
    }
  }

  /** Given an object of classes, each of its members ends up under the new namespace. */
  lemma NamespaceMembers(st: RegistryState, identifier: string, entries: seq<(string, Value)>, j: nat)
    requires identifier != "" && !Exist(st.root, identifier)
    requires forall a :: 0 <= a < |entries| ==> '.' !in entries[a].0
    requires forall a, b :: 0 <= a < b < |entries| ==> entries[a].0 != entries[b].0
    requires j < |entries|
    ensures var r := Namespace(st, identifier, Members(entries));
      Get(r.st.root, DotPath(identifier) + [entries[j].0]) == entries[j].1
  {
    AttachMembersAt(Set(st.root, DotPath(identifier), EmptyObject()), identifier, entries, j);
  }

  /** When `d + e` is a prefix of `q`, so is `d`. */
  lemma PrefixTransitive(d: Path, e: Path, q: Path)
    requires d + e <= q
    ensures d <= q
  {
    assert (d + e)[..|d|] == d;
  }

  lemma {:induction false} AttachMembersKeeps(m: map<string, Value>, identifier: string,
                                              entries: seq<(string, Value)>, q: Path)
    requires Has(m, q) && !(DotPath(identifier) <= q)
    ensures Has(AttachMembers(m, identifier, entries), q)
    decreases |entries|
  {
    if entries != [] {
      var n := |entries|;
      var last := entries[n - 1];
      AttachMembersKeeps(m, identifier, entries[..n - 1], q);
      var p := DotPath(identifier + "." + last.0);
      SplitConcat(identifier, last.0, '.');
      if p <= q {
        PrefixTransitive(DotPath(identifier), DotPath(last.0), q);
      }
      SetKeepsPresence(AttachMembers(m, identifier, entries[..n - 1]), p, q, last.1);
    }
  }

  lemma {:induction false} AttachMembersKeepsSelf(m: map<string, Value>, identifier: string,
                                                  entries: seq<(string, Value)>)
    requires Has(m, DotPath(identifier))
    ensures Has(AttachMembers(m, identifier, entries), DotPath(identifier))
    decreases |entries|
  {
    if entries != [] {
      var n := |entries|;
      var last := entries[n - 1];
      AttachMembersKeepsSelf(m, identifier, entries[..n - 1]);
      var p := DotPath(identifier + "." + last.0);
      SplitConcat(identifier, last.0, '.');
      assert |p| > |DotPath(identifier)|;
      SetKeepsPresence(AttachMembers(m, identifier, entries[..n - 1]), p, DotPath(identifier), last.1);
    }
  }

  /** `Namespace` is monotone: every path present before is still present after,
      and afterwards the identifier exists. */
  lemma NamespaceKeepsPaths(st: RegistryState, identifier: string, classes: Attachment, q: Path)
    requires identifier != "" && Has(st.root, q)
    ensures var r := Namespace(st, identifier, classes);
      && Has(r.st.root, q)
      && Exist(r.st.root, identifier)
  {
    if !Has(st.root, DotPath(identifier)) {
      var p := DotPath(identifier);
      if p <= q {
        HasPrefix(st.root, p, q);
      }
      SetKeepsPresence(st.root, p, q, EmptyObject());
      SetThenGet(st.root, p, EmptyObject());
      var created := Set(st.root, p, EmptyObject());
      match classes
      case NoClasses =>
      case Callable(fid, statics) =>
        SetKeepsPresence(created, p, q, Obj(FunctionObject(fid), statics));
        SetThenGet(created, p, Obj(FunctionObject(fid), statics));
      case Members(entries) =>
        AttachMembersKeeps(created, identifier, entries, q);
        AttachMembersKeepsSelf(created, identifier, entries);
    }
  }

  // ---------------------------------------------------------------- include

  /** The URI and event properties `_loadScript` builds for an identifier. */
  function LoadEvent(st: RegistryState, identifier: string, async: bool): EventProps
  {
    EventProps(None, One(identifier), Some(MapIdentifierToUri(st.baseUri, st.separator, identifier)), Some(async), None)
  }

  /** An included identifier is never loaded again: only the callback runs. */
  lemma IncludeAlreadyIncluded(st: RegistryState, env: Env, identifier: string, callback: Option<CallbackId>)
    requires identifier in st.included
    ensures Include(st, env, identifier, CallbackCont(callback), None) ==
            Step(st.(log := st.log + CallbackRuns(callback)), Normal(Some(true)))
  {
  }

  /** Without any request constructor, including a new identifier throws and
      changes nothing: no request, no event, no error callback. */
  lemma IncludeWithoutTransport(st: RegistryState, env: Env, identifier: string,
                                onSuccess: Option<Cont>, onError: Option<CallbackId>)
    requires identifier !in st.included
    requires forall j :: 0 <= j < |Strategies| ==> Strategies[j] !in env.supports
    ensures Include(st, env, identifier, onSuccess, onError) == Step(st, Abrupt(TransportUnavailable))
  {
  }

  /** Settling a finished request: on success the text runs and `include` fires,
      on failure `includeError` fires with the status; the value says which. */
  lemma SettleOutcome(st: RegistryState, protocol: string, event: EventProps, resp: Response)
    ensures var ok := IsHttpRequestSuccessful(resp.status, protocol);
      var r := Settle(st, protocol, event, resp);
      && r.st == st.(log := st.log + (if ok then [Executed(resp.text)] + Fired(st, "include", event)
                                      else Fired(st, "includeError", event.(status := Some(resp.status)))))
      && (r.out.Normal? <==> HoleFree(st, if ok then "include" else "includeError"))
      && (r.out.Normal? ==> r.out.value == ok)
  {
    if IsHttpRequestSuccessful(resp.status, protocol) {
      var ran := st.(log := st.log + [Executed(resp.text)]);
      assert Fired(ran, "include", event) == Fired(st, "include", event);
      assert ran.log + Fired(st, "include", event) == st.log + ([Executed(resp.text)] + Fired(st, "include", event));
    }
  }

  /** A synchronous include of a new identifier sends one GET for its URI; on
      success it runs the text, fires `include` and marks the identifier
      included; on failure it fires `includeError` with the status and leaves the
      inclusion table alone. The result says which. */
  lemma {:induction false} IncludeSyncOutcome(st: RegistryState, env: Env, identifier: string)
    requires identifier !in st.included
    requires CreateXmlHttpRequest(env.supports).Handle?
    ensures var uri := MapIdentifierToUri(st.baseUri, st.separator, identifier);
      var resp := env.serve(uri);
      var ok := IsHttpRequestSuccessful(resp.status, env.protocol);
      var event := LoadEvent(st, identifier, false);
      var r := Include(st, env, identifier, None, None);
      && r.st.root == st.root && r.st.pending == st.pending
      && r.st.log == st.log + [Requested(uri, false)] +
           (if ok then [Executed(resp.text)] + Fired(st, "include", event)
            else Fired(st, "includeError", event.(status := Some(resp.status))))
      && (r.out.Normal? <==> HoleFree(st, if ok then "include" else "includeError"))
      && (r.out.Normal? ==> r.out.value == Some(ok))
      && r.st.included == (if ok && r.out.Normal? then st.included + {identifier} else st.included)
  {
    var uri := MapIdentifierToUri(st.baseUri, st.separator, identifier);
    var sent := st.(log := st.log + [Requested(uri, false)]);
    var event := LoadEvent(st, identifier, false);
    SettleOutcome(sent, env.protocol, event, env.serve(uri));
    assert Fired(sent, "include", event) == Fired(st, "include", event);
    assert Fired(sent, "includeError", event.(status := Some(env.serve(uri).status))) ==
           Fired(st, "includeError", event.(status := Some(env.serve(uri).status)));
  }

  /** The successful case of a synchronous include, as one state. */
  lemma {:induction false} IncludeSyncSuccess(st: RegistryState, env: Env, identifier: string)
    requires identifier !in st.included
    requires CreateXmlHttpRequest(env.supports).Handle?
    requires IsHttpRequestSuccessful(env.serve(MapIdentifierToUri(st.baseUri, st.separator, identifier)).status, env.protocol)
    requires HoleFree(st, "include")
    ensures var uri := MapIdentifierToUri(st.baseUri, st.separator, identifier);
      Include(st, env, identifier, None, None) ==
      Step(st.(included := st.included + {identifier},
               log := st.log + [Requested(uri, false), Executed(env.serve(uri).text)]
                             + Fired(st, "include", LoadEvent(st, identifier, false))),
           Normal(Some(true)))
  {
    IncludeSyncOutcome(st, env, identifier);
  }

  /** At most one load per identifier: once a synchronous include has succeeded,
      including it again sends no request and only runs the callback. */
  lemma IncludeAtMostOnce(st: RegistryState, env: Env, identifier: string, callback: Option<CallbackId>)
    ensures var r := Include(st, env, identifier, None, None);
      r.out == Normal(Some(true)) ==>
        && identifier in r.st.included
        && Include(r.st, env, identifier, CallbackCont(callback), None) ==
           Step(r.st.(log := r.st.log + CallbackRuns(callback)), Normal(Some(true)))
  {
    if identifier !in st.included && CreateXmlHttpRequest(env.supports).Handle? {
      IncludeSyncOutcome(st, env, identifier);
    }
  }

  /** `exist` asks for presence, not truthiness: a path just set exists whatever
      value it holds, `undefined`, `null` and `false` included. */
  lemma ExistAfterSet(root: map<string, Value>, identifier: string, v: Value)
    requires identifier != ""
    ensures Exist(Set(root, DotPath(identifier), v), identifier)
  {
    SetThenGet(root, DotPath(identifier), v);
  }

  /** An asynchronous include of a new identifier sends the request and leaves it
      pending, with a continuation that first marks the identifier included. */
  lemma IncludeAsyncPends(st: RegistryState, env: Env, identifier: string, onSuccess: Cont, onError: Option<CallbackId>)
    requires identifier !in st.included
    requires CreateXmlHttpRequest(env.supports).Handle?
    ensures Include(st, env, identifier, Some(onSuccess), onError) ==
            Step(st.(log := st.log + [Requested(MapIdentifierToUri(st.baseUri, st.separator, identifier), true)],
                     pending := st.pending + [PendingLoad(LoadEvent(st, identifier, true),
                                                          MarkIncluded(identifier, onSuccess), onError)]),
                 Normal(None))
  {
  }

  /** The inclusion table is only written once a load has succeeded, so two
      asynchronous includes of the same identifier made before the first load
      completes each send a request, and both stay pending. */
  lemma {:induction false} IncludeOverlapLoadsTwice(st: RegistryState, env: Env, identifier: string,
                                                    first: Cont, second: Cont)
    requires identifier !in st.included
    requires CreateXmlHttpRequest(env.supports).Handle?
    ensures var uri := MapIdentifierToUri(st.baseUri, st.separator, identifier);
      var r1 := Include(st, env, identifier, Some(first), None);
      var r2 := Include(r1.st, env, identifier, Some(second), None);
      && r2.st.log == st.log + [Requested(uri, true), Requested(uri, true)]
      && r2.st.pending == st.pending + [PendingLoad(LoadEvent(st, identifier, true), MarkIncluded(identifier, first), None),
                                        PendingLoad(LoadEvent(st, identifier, true), MarkIncluded(identifier, second), None)]
      && r2.st.included == st.included
  {
    IncludeAsyncPends(st, env, identifier, first, None);
    var r1 := Include(st, env, identifier, Some(first), None);
    IncludeAsyncPends(r1.st, env, identifier, second, None);
  }

  /** A failed synchronous load leaves the identifier out of the inclusion
      table, so the next include requests the file again. */
  lemma {:induction false} IncludeAfterFailureLoadsAgain(st: RegistryState, env: Env, identifier: string)
    requires identifier !in st.included
    requires CreateXmlHttpRequest(env.supports).Handle?
    requires !IsHttpRequestSuccessful(env.serve(MapIdentifierToUri(st.baseUri, st.separator, identifier)).status, env.protocol)
    ensures var uri := MapIdentifierToUri(st.baseUri, st.separator, identifier);
      var r1 := Include(st, env, identifier, None, None);
      var r2 := Include(r1.st, env, identifier, None, None);
      && identifier !in r1.st.included
      && |r2.st.log| > |r1.st.log|
      && r2.st.log[..|r1.st.log| + 1] == r1.st.log + [Requested(uri, false)]
  {
    IncludeSyncOutcome(st, env, identifier);
    var r1 := Include(st, env, identifier, None, None);
    IncludeSyncOutcome(r1.st, env, identifier);
  }

  /** A request left by an asynchronous include that completes successfully
      runs its text, fires `include`, marks the identifier included and then
      runs whatever continuation the caller of `include` supplied; the request
      is no longer pending. */
  lemma AsyncSuccessResumes(st: RegistryState, env: Env, k: nat, resp: Response,
                            identifier: string, next: Cont)
    requires k < |st.pending|
    requires st.pending[k].onSuccess == MarkIncluded(identifier, next)
    requires IsHttpRequestSuccessful(resp.status, env.protocol)
    requires HoleFree(st, "include")
    ensures ReadyStateChange(st, env, k, 4, resp) ==
            RunCont(st.(pending := st.pending[..k] + st.pending[k + 1..],
                        included := st.included + {identifier},
                        log := st.log + [Executed(resp.text)] + Fired(st, "include", st.pending[k].event)),
                    env, next)
  {
    var p := st.pending[k];
    var removed := st.(pending := st.pending[..k] + st.pending[k + 1..]);
    var s := Settle(removed, env.protocol, p.event, resp);
    var d := Dispatch(removed.(log := removed.log + [Executed(resp.text)]), "include", p.event);
    assert d == Step(removed.(log := st.log + [Executed(resp.text)] + Fired(st, "include", p.event)), Normal(()));
    assert s == Step(d.st, Normal(true));
  }

  /** A request that completes successfully runs its text, fires `include`, and
      runs `include`'s continuation: the identifier becomes included, then the
      callback runs; the request is no longer pending. */
  lemma AsyncSuccessRunsContinuation(st: RegistryState, env: Env, k: nat, resp: Response,
                                     identifier: string, callback: CallbackId)
    requires k < |st.pending|
    requires st.pending[k].onSuccess == MarkIncluded(identifier, Callback(callback))
    requires IsHttpRequestSuccessful(resp.status, env.protocol)
    requires HoleFree(st, "include")
    ensures ReadyStateChange(st, env, k, 4, resp) ==
            Step(st.(pending := st.pending[..k] + st.pending[k + 1..],
                     included := st.included + {identifier},
                     log := st.log + [Executed(resp.text)] + Fired(st, "include", st.pending[k].event)
                                   + [CallbackRan(callback)]),
                 Normal(()))
  {
    AsyncSuccessResumes(st, env, k, resp, identifier, Callback(callback));
  }

  /** The round trip of an asynchronous include: once its request completes
      successfully the identifier is included and the callback has run, after
      exactly one request, one execution and the `include` notifications; the
      request is no longer pending. */
  lemma {:induction false} AsyncIncludeRoundTrip(st: RegistryState, env: Env, identifier: string, callback: CallbackId, resp: Response)
    requires identifier !in st.included
    requires CreateXmlHttpRequest(env.supports).Handle?
    requires IsHttpRequestSuccessful(resp.status, env.protocol)
    requires HoleFree(st, "include")
    ensures var r := Include(st, env, identifier, Some(Callback(callback)), None);
      && |r.st.pending| == |st.pending| + 1
      && var f := ReadyStateChange(r.st, env, |st.pending|, 4, resp);
         f == Step(st.(included := st.included + {identifier},
                       log := st.log + [Requested(MapIdentifierToUri(st.baseUri, st.separator, identifier), true),
                                        Executed(resp.text)]
                                     + Fired(st, "include", LoadEvent(st, identifier, true))
                                     + [CallbackRan(callback)]),
                   Normal(()))
  {
    var r := Include(st, env, identifier, Some(Callback(callback)), None);
    IncludeAsyncPends(st, env, identifier, Callback(callback), None);
    var k := |st.pending|;
    assert r.st.pending[..k] + r.st.pending[k + 1..] == st.pending;
    AsyncSuccessRunsContinuation(r.st, env, k, resp, identifier, callback);
  }

  /** A request that completes unsuccessfully fires `includeError` with the status
      and runs only the error callback: the success continuation never runs and
      nothing becomes included. */
  lemma AsyncFailureRunsOnlyErrorCallback(st: RegistryState, env: Env, k: nat, resp: Response)
    requires k < |st.pending|
    requires !IsHttpRequestSuccessful(resp.status, env.protocol)
    requires HoleFree(st, "includeError")
    ensures var p := st.pending[k];
      ReadyStateChange(st, env, k, 4, resp) ==
      Step(st.(pending := st.pending[..k] + st.pending[k + 1..],
               log := st.log + Fired(st, "includeError", p.event.(status := Some(resp.status)))
                             + CallbackRuns(p.onError)),
           Normal(()))
  {
  }

  /** Before `readyState` 4 the handler does nothing. */
  lemma ReadyStateBeforeDone(st: RegistryState, env: Env, k: nat, readyState: int, resp: Response)
    requires k < |st.pending| && readyState != 4
    ensures ReadyStateChange(st, env, k, readyState, resp) == Step(st, Normal(()))
  {
  }

  // ---------------------------------------------------------------- provide, from

  /** `provide` marks an absent, not yet included identifier included and fires
      `provide`; otherwise it changes nothing. */
  lemma ProvideOutcome(st: RegistryState, identifier: string)
    requires HoleFree(st, "provide")
    ensures var r := Provide(st, identifier);
      && (!Has(st.root, DotPath(identifier)) && identifier !in st.included ==>
            r == Step(st.(included := st.included + {identifier},
                          log := st.log + Fired(st, "provide", IdentifierProps(One(identifier)))), Normal(())))
      && (Has(st.root, DotPath(identifier)) || identifier in st.included ==> r == Step(st, Normal(())))
  {
  }

  /** After `provide`, including the identifier sends no request. */
  lemma ProvideThenIncludeNoLoad(st: RegistryState, env: Env, identifier: string, callback: Option<CallbackId>)
    requires HoleFree(st, "provide") && !Has(st.root, DotPath(identifier))
    ensures var p := Provide(st, identifier);
      && identifier in p.st.included
      && Include(p.st, env, identifier, CallbackCont(callback), None) ==
         Step(p.st.(log := p.st.log + CallbackRuns(callback)), Normal(Some(true)))
  {
    ProvideOutcome(st, identifier);
  }

  /** With the bound identifier already included, `from(bound).use('.rest')` is
      `use(bound + '.rest')` without auto-include. */
  lemma FromUseRelative(st: RegistryState, env: Env, bound: string, rest: string)
    requires bound in st.included
    ensures FromUse(st, env, bound, "." + rest, None) == Use(st, env, One(bound + "." + rest), None, Some(false))
  {
    assert bound + ("." + rest) == bound + "." + rest;
  }

  /** With a callback and the bound identifier not yet included,
      `from(bound).use(identifier, callback)` only sends the request for the
      bound identifier; the relative `use` waits in its continuation. */
  lemma FromUseDeferred(st: RegistryState, env: Env, bound: string, identifier: string, callback: CallbackId)
    requires bound !in st.included
    requires CreateXmlHttpRequest(env.supports).Handle?
    ensures FromUse(st, env, bound, identifier, Some(callback)) ==
            Step(Deferred(st, bound, UseRelative(ResolveRelative(bound, identifier), callback)), Normal(()))
  {
    IncludeAsyncPends(st, env, bound, UseRelative(ResolveRelative(bound, identifier), callback), None);
  }

  /** Once that request completes successfully, the bound identifier is included
      and the relative identifier is used without auto-include, with the callback. */
  lemma {:induction false} FromUseAfterLoad(st: RegistryState, env: Env, bound: string, identifier: string,
                         callback: CallbackId, resp: Response)
    requires bound !in st.included
    requires CreateXmlHttpRequest(env.supports).Handle?
    requires IsHttpRequestSuccessful(resp.status, env.protocol)
    requires HoleFree(st, "include")
    ensures var r := FromUse(st, env, bound, identifier, Some(callback));
      && |r.st.pending| == |st.pending| + 1
      && ReadyStateChange(r.st, env, |st.pending|, 4, resp) ==
         Use(Loaded(st, bound, resp), env, One(ResolveRelative(bound, identifier)), Some(callback), Some(false))
  {
    FromUseDeferred(st, env, bound, identifier, callback);
    DeferredCompletes(st, env, bound, UseRelative(ResolveRelative(bound, identifier), callback), resp);
  }

  /** When that request fails, only `includeError` fires: the relative `use`
      never runs, so neither its event nor the callback happens. */
  lemma {:induction false} FromUseFailedLoadSkipsUse(st: RegistryState, env: Env, bound: string, identifier: string,
                                  callback: CallbackId, resp: Response)
    requires bound !in st.included
    requires CreateXmlHttpRequest(env.supports).Handle?
    requires !IsHttpRequestSuccessful(resp.status, env.protocol)
    requires HoleFree(st, "includeError")
    ensures var r := FromUse(st, env, bound, identifier, Some(callback));
      && |r.st.pending| == |st.pending| + 1
      && ReadyStateChange(r.st, env, |st.pending|, 4, resp) ==
         Step(st.(log := st.log + [Requested(MapIdentifierToUri(st.baseUri, st.separator, bound), true)]
                                + Fired(st, "includeError", LoadEvent(st, bound, true).(status := Some(resp.status)))),
              Normal(()))
  {
    var r := Deferred(st, bound, UseRelative(ResolveRelative(bound, identifier), callback));
    FromUseDeferred(st, env, bound, identifier, callback);
    var k := |st.pending|;
    assert r.pending[..k] + r.pending[k + 1..] == st.pending;
    AsyncFailureRunsOnlyErrorCallback(r, env, k, resp);
  }

  /** With a callback and the bound identifier already included, the relative
      `use` runs at once. */
  lemma FromUseIncludedBound(st: RegistryState, env: Env, bound: string, identifier: string, callback: CallbackId)
    requires bound in st.included
    ensures FromUse(st, env, bound, identifier, Some(callback)) ==
            Use(st, env, One(ResolveRelative(bound, identifier)), Some(callback), Some(false))
  {
    var u := Use(st, env, One(ResolveRelative(bound, identifier)), Some(callback), Some(false));
    if u.out.Normal? {
      // `()` has one value, so a normal outcome is `Normal(())`
      match u.out.value
      case () =>
    }
    assert Lift(Lift(u.out, Some(true)), ()) == u.out;
    var cont := UseRelative(ResolveRelative(bound, identifier), callback);
    assert RunCont(st, env, cont) == u;
    assert Include(st, env, bound, Some(cont), None) == Step(u.st, Lift(u.out, Some(true)));
  }

  // ---------------------------------------------------------------- use

  /** Splitting `container + sep + target` gives the two parts back when the
      target has no separator. */
  lemma SplitTargetOfJoin(container: string, target: string, sep: char)
    requires sep !in target
    ensures SplitTarget(container + [sep] + target, sep) == (container, target)
  {
    var id := container + [sep] + target;
    SplitConcat(container, target, sep);
    SplitWithoutSeparator(target, sep);
    JoinSplit(container, sep);
    var parts := Split(id, sep);
    assert parts == Split(container, sep) + [target];
    assert parts[..|parts| - 1] == Split(container, sep);
    assert id[|container|] == sep;
  }

  /** An identifier that `use` settles without loading: its container already
      exists, and its target is a wildcard, a truthy property of the container,
      or (with auto-include off) a falsy one that is skipped. */
  predicate Resolvable(root: map<string, Value>, identifier: string, sep: char, auto: bool)
  {
    var (container, target) := SplitTarget(identifier, sep);
    var ns := Get(root, DotPath(container));
    && container != "" && Has(root, DotPath(container))
    && (target == "*" || (!IsNullish(ns) && (Truthy(Member(ns, target)) || !auto)))
  }

  /** What settling one such identifier does to `window`: a wildcard copies the
      container's own properties, a truthy target is copied, a falsy one leaves
      `window` alone. */
  function ImportOne(root: map<string, Value>, identifier: string, sep: char): map<string, Value>
  {
    var (container, target) := SplitTarget(identifier, sep);
    var ns := Get(root, DotPath(container));
    if target == "*" then root + OwnProps(ns)
    else if Truthy(Member(ns, target)) then root[target := Member(ns, target)]
    else root
  }

  /** Every identifier of the list is resolvable once those before it are imported. */
  predicate AllResolvable(root: map<string, Value>, ids: seq<string>, sep: char, auto: bool)
    decreases |ids|
  {
    ids == [] || (Resolvable(root, ids[0], sep, auto) && AllResolvable(ImportOne(root, ids[0], sep), ids[1..], sep, auto))
  }

  /** The imports of a list, one after the other, left to right: a later
      identifier with the same target overwrites an earlier one. */
  function ImportList(root: map<string, Value>, ids: seq<string>, sep: char): map<string, Value>
    decreases |ids|
  {
    if ids == [] then root else ImportList(ImportOne(root, ids[0], sep), ids[1..], sep)
  }

  /** The end of `use` fires `use` once and then runs the callback once. */
  lemma FinishUseOutcome(st: RegistryState, event: EventProps, callback: Option<CallbackId>)
    requires HoleFree(st, "use")
    ensures FinishUse(st, event, callback) ==
            Step(st.(log := st.log + Fired(st, "use", event) + CallbackRuns(callback)), Normal(()))
  {
  }

  /** The loop of `use` over resolvable identifiers imports them in list order
      and only then fires `use` and runs the callback. */
  lemma {:induction false} UseLoopImportsInOrder(st: RegistryState, env: Env, ids: seq<string>, i: nat,
                                                 callback: Option<CallbackId>, auto: bool, event: EventProps)
    requires i <= |ids|
    requires AllResolvable(st.root, ids[i..], st.separator, auto)
    ensures UseLoop(st, env, ids, i, callback, auto, event) ==
            FinishUse(st.(root := ImportList(st.root, ids[i..], st.separator)), event, callback)
    decreases |ids| - i
  {
    if i == |ids| {
      assert ids[i..] == [];
    } else {
      assert ids[i..][0] == ids[i] && ids[i..][1..] == ids[i + 1..];
      var next := st.(root := ImportOne(st.root, ids[i], st.separator));
      assert UseLoop(st, env, ids, i, callback, auto, event) == UseLoop(next, env, ids, i + 1, callback, auto, event);
      UseLoopImportsInOrder(next, env, ids, i + 1, callback, auto, event);
    }
  }

  /** The auto-include flag a call of `use` runs with. */
  function AutoOf(st: RegistryState, auto: Option<bool>): bool
  {
    if auto.Some? then auto.value else st.autoInclude
  }

  /** `use` of resolvable identifiers: `window` gets the imports in order, the
      inclusion table and the requests are untouched, one `use` event carries
      the original argument, and the callback runs once, last. */
  lemma {:induction false} UseImportsAll(st: RegistryState, env: Env, arg: IdArg, callback: Option<CallbackId>, auto: Option<bool>)
    requires AllResolvable(st.root, ToArray(arg), st.separator, AutoOf(st, auto))
    requires HoleFree(st, "use")
    ensures Use(st, env, arg, callback, auto) ==
            Step(st.(root := ImportList(st.root, ToArray(arg), st.separator),
                     log := st.log + Fired(st, "use", IdentifierProps(arg)) + CallbackRuns(callback)),
                 Normal(()))
  {
    var ids := ToArray(arg);
    assert ids[0..] == ids;
    UseLoopImportsInOrder(st, env, ids, 0, callback, AutoOf(st, auto), IdentifierProps(arg));
  }

  /** `use('a.b.*')` copies every own property of `a.b` onto `window`. */
  lemma UseWildcard(st: RegistryState, env: Env, container: string, callback: Option<CallbackId>, auto: Option<bool>)
    requires container != "" && Has(st.root, DotPath(container))
    requires st.separator != '*'
    requires HoleFree(st, "use")
    ensures Use(st, env, One(container + [st.separator] + "*"), callback, auto) ==
            Step(st.(root := st.root + OwnProps(Get(st.root, DotPath(container))),
                     log := st.log + Fired(st, "use", IdentifierProps(One(container + [st.separator] + "*")))
                                   + CallbackRuns(callback)),
                 Normal(()))
  {
    var id := container + [st.separator] + "*";
    SplitTargetOfJoin(container, "*", st.separator);
    assert ToArray(One(id))[1..] == [];
    UseImportsAll(st, env, One(id), callback, auto);
  }

  /** `use('a.b.C')` with `a.b.C` truthy copies it to `window.C`, without loading. */
  lemma UseCopiesTruthyTarget(st: RegistryState, env: Env, container: string, target: string,
                              callback: Option<CallbackId>, auto: Option<bool>)
    requires container != "" && Has(st.root, DotPath(container))
    requires st.separator !in target && target != "*"
    requires !IsNullish(Get(st.root, DotPath(container))) && Truthy(Member(Get(st.root, DotPath(container)), target))
    requires HoleFree(st, "use")
    ensures Use(st, env, One(container + [st.separator] + target), callback, auto) ==
            Step(st.(root := st.root[target := Member(Get(st.root, DotPath(container)), target)],
                     log := st.log + Fired(st, "use", IdentifierProps(One(container + [st.separator] + target)))
                                   + CallbackRuns(callback)),
                 Normal(()))
  {
    var id := container + [st.separator] + target;
    SplitTargetOfJoin(container, target, st.separator);
    assert ToArray(One(id))[1..] == [];
    UseImportsAll(st, env, One(id), callback, auto);
  }

  /** With auto-include off, a missing target is skipped: nothing is loaded and
      `window` does not change. */
  lemma UseMissingWithoutAutoInclude(st: RegistryState, env: Env, container: string, target: string,
                                     callback: Option<CallbackId>)
    requires container != "" && Has(st.root, DotPath(container))
    requires st.separator !in target && target != "*"
    requires !IsNullish(Get(st.root, DotPath(container))) && !Truthy(Member(Get(st.root, DotPath(container)), target))
    requires HoleFree(st, "use")
    ensures Use(st, env, One(container + [st.separator] + target), callback, Some(false)) ==
            Step(st.(log := st.log + Fired(st, "use", IdentifierProps(One(container + [st.separator] + target)))
                                   + CallbackRuns(callback)),
                 Normal(()))
  {
    var id := container + [st.separator] + target;
    var event := IdentifierProps(One(id));
    SplitTargetOfJoin(container, target, st.separator);
    assert Namespace(st, container, NoClasses) == Step(st, Normal(At(DotPath(container))));
    assert UseImport(st, env, [id], 0, At(DotPath(container)), target, callback, false, event) ==
           UseLoop(st, env, [id], 1, callback, false, event);
    FinishUseOutcome(st, event, callback);
  }

  /** `use` is its loop over the identifiers from the first on. */
  lemma UseIsLoop(st: RegistryState, env: Env, arg: IdArg, callback: Option<CallbackId>, auto: Option<bool>)
    ensures Use(st, env, arg, callback, auto) ==
            UseLoop(st, env, ToArray(arg), 0, callback, AutoOf(st, auto), IdentifierProps(arg))
  {
  }

  /** The state a deferred `use` leaves: the request is sent and pending, with
      the continuation `resume` behind the mark of inclusion. */
  function Deferred(st: RegistryState, identifier: string, resume: Cont): RegistryState
  {
    st.(log := st.log + [Requested(MapIdentifierToUri(st.baseUri, st.separator, identifier), true)],
        pending := st.pending + [PendingLoad(LoadEvent(st, identifier, true), MarkIncluded(identifier, resume), None)])
  }

  /** The state once that request has completed successfully, before `resume` runs. */
  function Loaded(st: RegistryState, identifier: string, resp: Response): RegistryState
  {
    st.(included := st.included + {identifier},
        log := st.log + [Requested(MapIdentifierToUri(st.baseUri, st.separator, identifier), true), Executed(resp.text)]
                      + Fired(st, "include", LoadEvent(st, identifier, true)))
  }

  /** With auto-include on and a callback, the loop of `use` stops at the first
      missing target: it loads that identifier asynchronously and leaves a
      continuation that imports the target and then calls `use` again on the
      identifiers after it, passing the callback and the auto-include flag on. */
  lemma UseLoopDefers(st: RegistryState, env: Env, ids: seq<string>, i: nat, container: string, target: string,
                      callback: CallbackId, event: EventProps)
    requires i < |ids| && ids[i] == container + [st.separator] + target
    requires container != "" && Has(st.root, DotPath(container))
    requires st.separator !in target && target != "*"
    requires !IsNullish(Get(st.root, DotPath(container))) && !Truthy(Member(Get(st.root, DotPath(container)), target))
    requires ids[i] !in st.included
    requires CreateXmlHttpRequest(env.supports).Handle?
    ensures UseLoop(st, env, ids, i, Some(callback), true, event) ==
      Step(Deferred(st, ids[i], ResumeUse(target, At(DotPath(container)), ids[i + 1..], callback, true, event)), Normal(()))
  {
    SplitTargetOfJoin(container, target, st.separator);
    var resume := ResumeUse(target, At(DotPath(container)), ids[i + 1..], callback, true, event);
    assert Namespace(st, container, NoClasses) == Step(st, Normal(At(DotPath(container))));
    IncludeAsyncPends(st, env, ids[i], resume, None);
    assert UseImport(st, env, ids, i, At(DotPath(container)), target, Some(callback), true, event) ==
           Step(Include(st, env, ids[i], Some(resume), None).st, Normal(()));
  }

  /** With auto-include on and a callback, a missing target is loaded
      asynchronously; the import, the `use` event and the callback all wait for
      the load to complete. */
  lemma {:induction false} UseDefersUntilLoaded(st: RegistryState, env: Env, container: string, target: string, callback: CallbackId)
    requires container != "" && Has(st.root, DotPath(container))
    requires st.separator !in target && target != "*"
    requires !IsNullish(Get(st.root, DotPath(container))) && !Truthy(Member(Get(st.root, DotPath(container)), target))
    requires container + [st.separator] + target !in st.included
    requires CreateXmlHttpRequest(env.supports).Handle?
    ensures var id := container + [st.separator] + target;
      Use(st, env, One(id), Some(callback), Some(true)) ==
      Step(Deferred(st, id, ResumeUse(target, At(DotPath(container)), [], callback, true, IdentifierProps(One(id)))),
           Normal(()))
  {
    var id := container + [st.separator] + target;
    var event := IdentifierProps(One(id));
    UseIsLoop(st, env, One(id), Some(callback), Some(true));
    assert [id][1..] == [];
    UseLoopDefers(st, env, [id], 0, container, target, callback, event);
  }

  /** Resuming a deferred `use` with nothing left to import copies the target
      from the container, which is read again now, then fires `use` with the
      original argument and runs the callback. */
  lemma ResumeUseLast(s: RegistryState, env: Env, target: string, ns: Loc, callback: CallbackId,
                      auto: bool, event: EventProps)
    requires !IsNullish(Deref(s.root, ns))
    requires HoleFree(s, "use")
    ensures RunCont(s, env, ResumeUse(target, ns, [], callback, auto, event)) ==
            Step(s.(root := s.root[target := Member(Deref(s.root, ns), target)],
                    log := s.log + Fired(s, "use", event) + [CallbackRan(callback)]),
                 Normal(()))
  {
    FinishUseOutcome(s.(root := s.root[target := Member(Deref(s.root, ns), target)]), event, Some(callback));
  }

  /** Resuming a deferred `use` with identifiers left copies the target and then
      is a fresh `use` of the rest with the same callback and flag: its `use`
      event carries only the rest, and the original argument is never reported.
      The rest is passed as an array, which `_toArray` returns unchanged
      (`Identifiers.ToArrayIdempotent`). */
  lemma ResumeUseRest(s: RegistryState, env: Env, target: string, ns: Loc, rest: seq<string>,
                      callback: CallbackId, auto: bool, event: EventProps)
    requires |rest| > 0 && !IsNullish(Deref(s.root, ns))
    ensures RunCont(s, env, ResumeUse(target, ns, rest, callback, auto, event)) ==
            Use(s.(root := s.root[target := Member(Deref(s.root, ns), target)]),
                env, Many(rest), Some(callback), Some(auto))
  {
  }

  /** Completing the deferred request runs `resume` on the loaded state. */
  lemma DeferredCompletes(st: RegistryState, env: Env, identifier: string, resume: Cont, resp: Response)
    requires IsHttpRequestSuccessful(resp.status, env.protocol)
    requires HoleFree(st, "include")
    ensures ReadyStateChange(Deferred(st, identifier, resume), env, |st.pending|, 4, resp) ==
            RunCont(Loaded(st, identifier, resp), env, resume)
  {
    var r := Deferred(st, identifier, resume);
    var k := |st.pending|;
    assert r.pending[..k] + r.pending[k + 1..] == st.pending;
    assert r.(pending := st.pending, included := r.included + {identifier},
              log := r.log + [Executed(resp.text)] + Fired(r, "include", r.pending[k].event)) == Loaded(st, identifier, resp);
    AsyncSuccessResumes(r, env, k, resp, identifier, resume);
  }

  /** The round trip of a deferred `use` of one identifier: once the load
      completes successfully the identifier is included, the target is copied,
      `use` fires once with the original argument and the callback runs, after
      exactly one request, one execution and the `include` notifications. */
  lemma {:induction false} UseDeferredRoundTrip(st: RegistryState, env: Env, container: string, target: string,
                             callback: CallbackId, resp: Response)
    requires container != "" && Has(st.root, DotPath(container))
    requires st.separator !in target && target != "*"
    requires !IsNullish(Get(st.root, DotPath(container))) && !Truthy(Member(Get(st.root, DotPath(container)), target))
    requires container + [st.separator] + target !in st.included
    requires CreateXmlHttpRequest(env.supports).Handle?
    requires IsHttpRequestSuccessful(resp.status, env.protocol)
    requires HoleFree(st, "include") && HoleFree(st, "use")
    ensures var id := container + [st.separator] + target;
      var r := Use(st, env, One(id), Some(callback), Some(true));
      && |r.st.pending| == |st.pending| + 1
      && ReadyStateChange(r.st, env, |st.pending|, 4, resp) ==
         Step(st.(root := st.root[target := Member(Get(st.root, DotPath(container)), target)],
                  included := st.included + {id},
                  log := st.log + [Requested(MapIdentifierToUri(st.baseUri, st.separator, id), true), Executed(resp.text)]
                                + Fired(st, "include", LoadEvent(st, id, true))
                                + Fired(st, "use", IdentifierProps(One(id)))
                                + [CallbackRan(callback)]),
              Normal(()))
  {
    var id := container + [st.separator] + target;
    var ns := At(DotPath(container));
    var resume := ResumeUse(target, ns, [], callback, true, IdentifierProps(One(id)));
    UseDefersUntilLoaded(st, env, container, target, callback);
    assert Use(st, env, One(id), Some(callback), Some(true)).st == Deferred(st, id, resume);
    DeferredCompletes(st, env, id, resume, resp);
    ResumeUseLast(Loaded(st, id, resp), env, target, ns, callback, true, IdentifierProps(One(id)));
  }

  /** The round trip of a deferred `use` of a list whose first target is
      missing: after the load completes the first target is copied and the
      rest is imported by a second `use`, whose one `use` event reports only the
      rest of the list, not the list the caller passed. */
  lemma {:induction false} UseListDeferredRoundTrip(st: RegistryState, env: Env, container: string, target: string,
                                 rest: seq<string>, callback: CallbackId, resp: Response)
    requires container != "" && Has(st.root, DotPath(container))
    requires st.separator !in target && target != "*"
    requires !IsNullish(Get(st.root, DotPath(container))) && !Truthy(Member(Get(st.root, DotPath(container)), target))
    requires container + [st.separator] + target !in st.included
    requires CreateXmlHttpRequest(env.supports).Handle?
    requires IsHttpRequestSuccessful(resp.status, env.protocol)
    requires HoleFree(st, "include") && HoleFree(st, "use")
    requires |rest| > 0
    requires AllResolvable(st.root[target := Member(Get(st.root, DotPath(container)), target)], rest, st.separator, true)
    ensures var id := container + [st.separator] + target;
      var r := Use(st, env, Many([id] + rest), Some(callback), Some(true));
      && |r.st.pending| == |st.pending| + 1
      && ReadyStateChange(r.st, env, |st.pending|, 4, resp) ==
         Step(st.(root := ImportList(st.root[target := Member(Get(st.root, DotPath(container)), target)], rest, st.separator),
                  included := st.included + {id},
                  log := st.log + [Requested(MapIdentifierToUri(st.baseUri, st.separator, id), true), Executed(resp.text)]
                                + Fired(st, "include", LoadEvent(st, id, true))
                                + Fired(st, "use", IdentifierProps(Many(rest)))
                                + [CallbackRan(callback)]),
              Normal(()))
  {
    var id := container + [st.separator] + target;
    var ids := [id] + rest;
    var ns := At(DotPath(container));
    var resume := ResumeUse(target, ns, rest, callback, true, IdentifierProps(Many(ids)));
    assert ids[1..] == rest;
    UseIsLoop(st, env, Many(ids), Some(callback), Some(true));
    UseLoopDefers(st, env, ids, 0, container, target, callback, IdentifierProps(Many(ids)));
    DeferredCompletes(st, env, id, resume, resp);
    var loaded := Loaded(st, id, resp);
    ResumeUseRestImports(loaded, env, target, ns, rest, callback, IdentifierProps(Many(ids)));
    assert loaded.root == st.root && Fired(loaded, "use", IdentifierProps(Many(rest))) == Fired(st, "use", IdentifierProps(Many(rest)));
  }

  /** Resuming with identifiers left that all resolve imports them and ends with
      the one `use` event of the rest and the callback. */
  lemma {:induction false} ResumeUseRestImports(s: RegistryState, env: Env, target: string, ns: Loc, rest: seq<string>,
                                                callback: CallbackId, event: EventProps)
    requires |rest| > 0 && !IsNullish(Deref(s.root, ns))
    requires HoleFree(s, "use")
    requires AllResolvable(s.root[target := Member(Deref(s.root, ns), target)], rest, s.separator, true)
    ensures RunCont(s, env, ResumeUse(target, ns, rest, callback, true, event)) ==
            Step(s.(root := ImportList(s.root[target := Member(Deref(s.root, ns), target)], rest, s.separator),
                    log := s.log + Fired(s, "use", IdentifierProps(Many(rest))) + [CallbackRan(callback)]),
                 Normal(()))
  {
    ResumeUseRest(s, env, target, ns, rest, callback, true, event);
    UseImportsAll(s.(root := s.root[target := Member(Deref(s.root, ns), target)]), env, Many(rest), Some(callback), Some(true));
  }

  /** With auto-include on and no callback, a missing target is loaded
      synchronously first; after a successful load the identifier is included,
      the target is read again and copied, and only then `use` fires. */
  lemma {:induction false} UseLoadsMissingSynchronously(st: RegistryState, env: Env, container: string, target: string)
    requires container != "" && Has(st.root, DotPath(container))
    requires st.separator !in target && target != "*"
    requires !IsNullish(Get(st.root, DotPath(container))) && !Truthy(Member(Get(st.root, DotPath(container)), target))
    requires container + [st.separator] + target !in st.included
    requires CreateXmlHttpRequest(env.supports).Handle?
    requires IsHttpRequestSuccessful(env.serve(MapIdentifierToUri(st.baseUri, st.separator, container + [st.separator] + target)).status, env.protocol)
    requires HoleFree(st, "include") && HoleFree(st, "use")
    ensures var id := container + [st.separator] + target;
      var uri := MapIdentifierToUri(st.baseUri, st.separator, id);
      Use(st, env, One(id), None, Some(true)) ==
      Step(st.(root := st.root[target := Member(Get(st.root, DotPath(container)), target)],
               included := st.included + {id},
               log := st.log + [Requested(uri, false), Executed(env.serve(uri).text)]
                             + Fired(st, "include", LoadEvent(st, id, false))
                             + Fired(st, "use", IdentifierProps(One(id)))),
           Normal(()))
  {
    var id := container + [st.separator] + target;
    var uri := MapIdentifierToUri(st.baseUri, st.separator, id);
    var event := IdentifierProps(One(id));
    SplitTargetOfJoin(container, target, st.separator);
    assert Namespace(st, container, NoClasses) == Step(st, Normal(At(DotPath(container))));
    IncludeSyncSuccess(st, env, id);
    var t := st.(root := st.root[target := Member(Get(st.root, DotPath(container)), target)],
                 included := st.included + {id},
                 log := st.log + [Requested(uri, false), Executed(env.serve(uri).text)]
                               + Fired(st, "include", LoadEvent(st, id, false)));
    assert UseImport(st, env, [id], 0, At(DotPath(container)), target, None, true, event) ==
           UseLoop(t, env, [id], 1, None, true, event);
    FinishUseOutcome(t, event, None);
  }

  /** When the container does not exist yet, `use` creates it, but because
      `Namespace` then returns `window`, the target is read from `window`
      itself rather than from the new, empty container. */
  lemma {:induction false} UseFreshContainerReadsWindow(st: RegistryState, env: Env, container: string, target: string,
                                     callback: Option<CallbackId>, auto: Option<bool>)
    requires container != "" && !Exist(st.root, container)
    requires st.separator !in target && target != "*"
    requires target in st.root && Truthy(st.root[target]) && DotPath(container)[0] != target
    requires HoleFree(st, "create")
    ensures var r := Use(st, env, One(container + [st.separator] + target), callback, auto);
      r.out.Normal? ==> r.st.root == Set(st.root, DotPath(container), EmptyObject())[target := st.root[target]]
  {
    var id := container + [st.separator] + target;
    var event := IdentifierProps(One(id));
    var auto' := if auto.Some? then auto.value else st.autoInclude;
    SplitTargetOfJoin(container, target, st.separator);
    NamespaceCreates(st, container);
    var n := Namespace(st, container, NoClasses);
    var created := Set(st.root, DotPath(container), EmptyObject());
    assert created[target] == st.root[target];
    assert Member(Deref(n.st.root, Window), target) == st.root[target];
    assert UseImport(n.st, env, [id], 0, Window, target, callback, auto', event) ==
           UseLoop(n.st.(root := created[target := st.root[target]]), env, [id], 1, callback, auto', event);
  }

  // ---------------------------------------------------------------- use without deferral

  /** Effects that are neither a `use` notification nor a callback call. */
  predicate Quiet(effects: seq<Effect>)
  {
    forall j :: 0 <= j < |effects| ==>
      !effects[j].CallbackRan? && !(effects[j].Notified? && effects[j].props.event == Some("use"))
  }

  /** `after` is `before` extended by quiet effects only. */
  predicate QuietlyExtends(before: seq<Effect>, after: seq<Effect>)
  {
    before <= after && Quiet(after[|before|..])
  }

  /** `after` is `before`, then quiet effects, then exactly `tail`. */
  predicate EndsWith(before: seq<Effect>, after: seq<Effect>, tail: seq<Effect>)
  {
    && |before| + |tail| <= |after|
    && after[..|before|] == before
    && Quiet(after[|before|..|after| - |tail|])
    && after[|after| - |tail|..] == tail
  }

  lemma QuietlyExtendsTrans(a: seq<Effect>, b: seq<Effect>, c: seq<Effect>)
    requires QuietlyExtends(a, b) && QuietlyExtends(b, c)
    ensures QuietlyExtends(a, c)
  {
    assert c[|a|..] == b[|a|..] + c[|b|..];
  }

  lemma QuietThenEndsWith(a: seq<Effect>, b: seq<Effect>, c: seq<Effect>, tail: seq<Effect>)
    requires QuietlyExtends(a, b) && EndsWith(b, c, tail)
    ensures EndsWith(a, c, tail)
  {
    assert c[|a|..|c| - |tail|] == b[|a|..] + c[|b|..|c| - |tail|];
  }

  /** A dispatch of any event but `use` adds only quiet effects. */
  lemma DispatchQuiet(st: RegistryState, name: string, props: EventProps)
    requires name != "use"
    ensures QuietlyExtends(st.log, Dispatch(st, name, props).st.log)
  {
    if name in st.listeners {
      var stamped := props.(event := Some(name));
      CallsInOrder(st.listeners[name], stamped);
      assert Dispatch(st, name, props).st.log[|st.log|..] == Calls(st.listeners[name], stamped);
    }
  }

  /** `Namespace` adds only quiet effects and touches neither requests nor inclusions. */
  lemma NamespaceQuiet(st: RegistryState, identifier: string, classes: Attachment)
    ensures var r := Namespace(st, identifier, classes);
      QuietlyExtends(st.log, r.st.log) && r.st.pending == st.pending && r.st.included == st.included
  {
    if !(identifier != "" && Has(st.root, DotPath(identifier))) {
      var created := if identifier != "" then Set(st.root, DotPath(identifier), EmptyObject()) else st.root;
      DispatchQuiet(st.(root := Attach(created, identifier, classes)), "create", IdentifierProps(One(identifier)));
    } else {
      assert st.log[|st.log|..] == [];
    }
  }

  /** Settling a request adds only quiet effects. */
  lemma SettleQuiet(st: RegistryState, protocol: string, event: EventProps, resp: Response)
    ensures QuietlyExtends(st.log, Settle(st, protocol, event, resp).st.log)
  {
    if IsHttpRequestSuccessful(resp.status, protocol) {
      var ran := st.(log := st.log + [Executed(resp.text)]);
      assert ran.log[|st.log|..] == [Executed(resp.text)];
      DispatchQuiet(ran, "include", event);
      QuietlyExtendsTrans(st.log, ran.log, Settle(st, protocol, event, resp).st.log);
    } else {
      DispatchQuiet(st, "includeError", event.(status := Some(resp.status)));
    }
  }

  /** A synchronous include adds only quiet effects and leaves no request pending. */
  lemma IncludeSyncQuiet(st: RegistryState, env: Env, identifier: string)
    ensures var r := Include(st, env, identifier, None, None);
      QuietlyExtends(st.log, r.st.log) && r.st.pending == st.pending
  {
    var uri := MapIdentifierToUri(st.baseUri, st.separator, identifier);
    if identifier !in st.included && CreateXmlHttpRequest(env.supports).Handle? {
      var sent := st.(log := st.log + [Requested(uri, false)]);
      assert sent.log[|st.log|..] == [Requested(uri, false)];
      var event := EventProps(None, One(identifier), Some(uri), Some(false), None);
      SettleQuiet(sent, env.protocol, event, env.serve(uri));
      QuietlyExtendsTrans(st.log, sent.log, Settle(sent, env.protocol, event, env.serve(uri)).st.log);
    } else {
      assert st.log[|st.log|..] == [];
    }
  }

  /** The end of `use` leaves the pending requests alone, and a normal end adds
      exactly the one `use` event and the callback to the log. */
  lemma FinishUseShape(st: RegistryState, event: EventProps, callback: Option<CallbackId>)
    ensures var r := FinishUse(st, event, callback);
      && r.st.pending == st.pending
      && (r.out.Normal? ==> EndsWith(st.log, r.st.log, Fired(st, "use", event) + CallbackRuns(callback)))
  {
    var tail := Fired(st, "use", event) + CallbackRuns(callback);
    var r := FinishUse(st, event, callback);
    if r.out.Normal? {
      assert r.st.log == st.log + tail;
      assert r.st.log[|st.log|..|r.st.log| - |tail|] == [];
    }
  }

  /** Without a callback, or with auto-include off, the loop of `use` never
      defers: no request is left pending, and a normal run ends with the one
      `use` event and the callback, after effects that contain neither. */
  lemma {:induction false} UseLoopSyncShape(st: RegistryState, env: Env, ids: seq<string>, i: nat,
                                            callback: Option<CallbackId>, auto: bool, event: EventProps)
    requires i <= |ids|
    requires callback.None? || !auto
    ensures var r := UseLoop(st, env, ids, i, callback, auto, event);
      && r.st.pending == st.pending
      && (r.out.Normal? ==> EndsWith(st.log, r.st.log, Fired(st, "use", event) + CallbackRuns(callback)))
    decreases |ids| - i, 2
  {
    var tail := Fired(st, "use", event) + CallbackRuns(callback);
    var r := UseLoop(st, env, ids, i, callback, auto, event);
    if i == |ids| {
      assert r == FinishUse(st, event, callback);
      FinishUseShape(st, event, callback);
    } else {
      var (container, target) := SplitTarget(ids[i], st.separator);
      var n := Namespace(st, container, NoClasses);
      NamespaceQuiet(st, container, NoClasses);
      if n.out.Normal? {
        assert r == UseImport(n.st, env, ids, i, n.out.value, target, callback, auto, event);
        UseImportSyncShape(n.st, env, ids, i, n.out.value, target, callback, auto, event);
        if r.out.Normal? {
          assert Fired(n.st, "use", event) == Fired(st, "use", event);
          QuietThenEndsWith(st.log, n.st.log, r.st.log, tail);
        }
      }
    }
  }

  /** The same for the import of one target, once its container is known. */
  lemma {:induction false} UseImportSyncShape(s: RegistryState, env: Env, ids: seq<string>, i: nat, ns: Loc,
                                              target: string, callback: Option<CallbackId>, auto: bool,
                                              event: EventProps)
    requires i < |ids|
    requires callback.None? || !auto
    ensures var r := UseImport(s, env, ids, i, ns, target, callback, auto, event);
      && r.st.pending == s.pending
      && (r.out.Normal? ==> EndsWith(s.log, r.st.log, Fired(s, "use", event) + CallbackRuns(callback)))
    decreases |ids| - i, 1
  {
    var nsv := Deref(s.root, ns);
    if target == "*" {
      UseLoopSyncShape(s.(root := s.root + OwnProps(nsv)), env, ids, i + 1, callback, auto, event);
    } else if IsNullish(nsv) {
    } else if Truthy(Member(nsv, target)) {
      UseLoopSyncShape(s.(root := s.root[target := Member(nsv, target)]), env, ids, i + 1, callback, auto, event);
    } else if !auto {
      UseLoopSyncShape(s, env, ids, i + 1, callback, auto, event);
    } else {
      UseLoadSyncShape(s, env, ids, i, ns, target, callback, event);
    }
  }

  /** The same when the target is missing and is loaded synchronously first. */
  lemma {:induction false} UseLoadSyncShape(s: RegistryState, env: Env, ids: seq<string>, i: nat, ns: Loc,
                                            target: string, callback: Option<CallbackId>, event: EventProps)
    requires i < |ids|
    requires callback.None?
    requires target != "*" && !IsNullish(Deref(s.root, ns)) && !Truthy(Member(Deref(s.root, ns), target))
    ensures var r := UseImport(s, env, ids, i, ns, target, callback, true, event);
      && r.st.pending == s.pending
      && (r.out.Normal? ==> EndsWith(s.log, r.st.log, Fired(s, "use", event) + CallbackRuns(callback)))
    decreases |ids| - i, 0
  {
    var tail := Fired(s, "use", event) + CallbackRuns(callback);
    var r := UseImport(s, env, ids, i, ns, target, callback, true, event);
    var c := Include(s, env, ids[i], None, None);
    IncludeSyncQuiet(s, env, ids[i]);
    if c.out.Normal? {
      var t := c.st;
      var s3 := t.(root := t.root[target := Member(Deref(t.root, ns), target)]);
      assert r == UseLoop(s3, env, ids, i + 1, callback, true, event);
      UseLoopSyncShape(s3, env, ids, i + 1, callback, true, event);
      if r.out.Normal? {
        assert Fired(s3, "use", event) == Fired(s, "use", event);
        QuietThenEndsWith(s.log, s3.log, r.st.log, tail);
      }
    }
  }

  /** `use` without a callback, or with auto-include off, whatever mix of
      wildcards, present, skipped and synchronously loaded targets it meets:
      nothing is left pending, and a normal run fires `use` exactly once, with
      the original argument, and then runs the callback, both at the very end. */
  lemma {:induction false} UseSyncEndsWithOneUseEvent(st: RegistryState, env: Env, arg: IdArg,
                                   callback: Option<CallbackId>, auto: Option<bool>)
    requires callback.None? || !AutoOf(st, auto)
    ensures var r := Use(st, env, arg, callback, auto);
      && r.st.pending == st.pending
      && (r.out.Normal? ==> EndsWith(st.log, r.st.log, Fired(st, "use", IdentifierProps(arg)) + CallbackRuns(callback)))
  {
    UseLoopSyncShape(st, env, ToArray(arg), 0, callback, AutoOf(st, auto), IdentifierProps(arg));
  }
}
