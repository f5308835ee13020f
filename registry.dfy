/** The namespace registry as the object the script builds: the global object
    graph, the inclusion table, the listener table and the configuration are
    fields updated in place, the effects on the outside world are appended to
    `log`, and asynchronous requests wait in `pending` until the browser reports
    their completion. Every method is proved to do what the matching function
    of module Semantics says. */
module Registry {
  import opened JsValues
  import opened Lodash
  import opened Identifiers
  import opened Transport
  import opened Events
  import opened Semantics

  class NamespaceRegistry {
    var root: map<string, Value>            // the own properties of `window`
    var included: set<string>               // `_includedIdentifiers`
    var listeners: map<string, Channel>     // `_listeners`
    var separator: char                     // `Namespace.separator`
    var baseUri: string                     // `Namespace.baseUri`
    var autoInclude: bool                   // `Namespace.autoInclude`
    var log: seq<Effect>
    var pending: seq<PendingLoad>

    /** The abstract value of the registry. */
    function Current(): RegistryState
      reads this
    {
      RegistryState(root, included, listeners, separator, baseUri, autoInclude, log, pending)
    }

    /** The registry over a given global object, with the default configuration. */
    constructor (globals: map<string, Value>)
      ensures Current() == Initial(globals)
    {
      root, included, listeners := globals, {}, map[];
      separator, baseUri, autoInclude := '.', "./", true;
      log, pending := [], [];
    }

    /** `_dispatchEvent`. */
    method Dispatch(name: string, props: EventProps) returns (out: Completion<()>)
      modifies this
      ensures Step(Current(), out) == Semantics.Dispatch(old(Current()), name, props)
    {
      if name !in listeners {
        return Normal(());
      }
      var ch := listeners[name];
      var stamped := props.(event := Some(name));
      var i := 0;
      while i < |ch|
        invariant 0 <= i <= |ch|
        invariant forall j :: 0 <= j < i ==> ch[j].Some?
        invariant Current() == old(Current()).(log := old(log) + Calls(ch[..i], stamped))
      {
        if ch[i].None? {
          CallsStopAtHole(ch, i, stamped);
          return Abrupt(NotAFunction(name));
        }
        CallsSnoc(ch, i, stamped);
        log := log + [Notified(ch[i].value, stamped)];
        i := i + 1;
      }
      CallsStopAtHole(ch, i, stamped);
      assert ch[..i] == ch;
      out := Normal(());
    }

    /** `addEventListener`. */
    method AddEventListener(name: string, l: ListenerId)
      modifies this
      ensures Current() == Semantics.AddEventListener(old(Current()), name, l)
    {
      if name !in listeners {
        listeners := listeners[name := []];
      }
      listeners := listeners[name := listeners[name] + [Some(l)]];
    }

    /** `removeEventListener`. */
    method RemoveEventListener(name: string, l: ListenerId)
      modifies this
      ensures Current() == Semantics.RemoveEventListener(old(Current()), name, l)
    {
      if name !in listeners {
        return;
      }
      var ch := listeners[name];
      PunchHoleAt(ch, l);
      var i := 0;
      while i < |ch|
        invariant 0 <= i <= |ch|
        invariant forall j :: 0 <= j < i ==> ch[j] != Some(l)
        invariant Current() == old(Current())
      {
        if ch[i] == Some(l) {
          listeners := listeners[name := ch[i := None]];
          return;
        }
        i := i + 1;
      }
    }

    /** The `if (classes)` block of `_namespace`: attach a function or the members
        of an object at the identifier's path. */
    method AttachClasses(identifier: string, classes: Attachment)
      modifies this
      ensures Current() == old(Current()).(root := Attach(old(root), identifier, classes))
    {
      match classes {
        case NoClasses =>
        case Callable(fid, statics) =>
          root := Set(root, DotPath(identifier), Obj(FunctionObject(fid), statics));
        case Members(entries) =>
          var j := 0;
          while j < |entries|
            invariant 0 <= j <= |entries|
            invariant Current() == old(Current()).(root := AttachMembers(old(root), identifier, entries[..j]))
          {
            var (klass, value) := entries[j];
            AttachMembersSnoc(old(root), identifier, entries, j);
            root := Set(root, DotPath(identifier + "." + klass), value);
            j := j + 1;
          }
          assert entries[..j] == entries;
      }
    }

    /** `Namespace(identifier, classes)`. */
    method Namespace(identifier: string, classes: Attachment) returns (out: Completion<Loc>)
      modifies this
      ensures Step(Current(), out) == Semantics.Namespace(old(Current()), identifier, classes)
    {
      if identifier != "" {
        var path := DotPath(identifier);
        if !Has(root, path) {
          root := Set(root, path, EmptyObject());
        } else {
          return Normal(At(path));
        }
      }
      AttachClasses(identifier, classes);
      var d := Dispatch("create", IdentifierProps(One(identifier)));
      out := Lift(d, Window);
    }

    /** The part of `_loadScript` that runs once the request has finished. */
    method Settle(protocol: string, event: EventProps, resp: Response) returns (out: Completion<bool>)
      modifies this
      ensures Step(Current(), out) == Semantics.Settle(old(Current()), protocol, event, resp)
    {
      if IsHttpRequestSuccessful(resp.status, protocol) {
        log := log + [Executed(resp.text)];
        var d := Dispatch("include", event);
        out := Lift(d, true);
      } else {
        var d := Dispatch("includeError", event.(status := Some(resp.status)));
        out := Lift(d, false);
      }
    }

    /** `_loadScript`. */
    method LoadScript(env: Env, identifier: string, onSuccess: Option<Cont>, onError: Option<CallbackId>)
      returns (out: Completion<Option<bool>>)
      modifies this
      ensures Step(Current(), out) == Semantics.LoadScript(old(Current()), env, identifier, onSuccess, onError)
    {
      var async := onSuccess.Some?;
      var uri := MapIdentifierToUri(baseUri, separator, identifier);
      var event := EventProps(None, One(identifier), Some(uri), Some(async), None);
      var xhr := CreateXmlHttpRequest(env.supports);
      if xhr.Unsupported? {
        return Abrupt(TransportUnavailable);
      }
      log := log + [Requested(uri, async)];
      if async {
        pending := pending + [PendingLoad(event, onSuccess.value, onError)];
        return Normal(None);
      }
      var ok := Settle(env.protocol, event, env.serve(uri));
      out := Lift(ok, Some(ok.Normal? && ok.value));
    }

    /** `include`. */
    method Include(env: Env, identifier: string, onSuccess: Option<Cont>, onError: Option<CallbackId>)
      returns (out: Completion<Option<bool>>)
      modifies this
      ensures Step(Current(), out) == Semantics.Include(old(Current()), env, identifier, onSuccess, onError)
      decreases OptRank(onSuccess), 2
    {
      if identifier in included {
        if onSuccess.Some? {
          var c := RunCont(env, onSuccess.value);
          return Lift(c, Some(true));
        }
        return Normal(Some(true));
      }
      if onSuccess.Some? {
        out := LoadScript(env, identifier, Some(MarkIncluded(identifier, onSuccess.value)), onError);
      } else {
        out := LoadScript(env, identifier, None, None);
        if out.Normal? && out.value == Some(true) {
          included := included + {identifier};
        }
      }
    }

    /** Calls one of the registry's continuations. */
    method RunCont(env: Env, c: Cont) returns (out: Completion<()>)
      modifies this
      ensures Step(Current(), out) == Semantics.RunCont(old(Current()), env, c)
      decreases Rank(c), 1, c
    {
      match c {
        case Callback(cb) =>
          log := log + [CallbackRan(cb)];
          out := Normal(());
        case MarkIncluded(identifier, next) =>
          included := included + {identifier};
          out := RunCont(env, next);
        case ResumeUse(target, ns, rest, callback, auto, event) =>
          var nsv := Deref(root, ns);
          if IsNullish(nsv) {
            return Abrupt(PropertyOfNullish(target));
          }
          root := root[target := Member(nsv, target)];
          if |rest| > 0 {
            out := Use(env, Many(rest), Some(callback), Some(auto));
          } else {
            out := FinishUse(event, Some(callback));
          }
        case UseRelative(identifier, callback) =>
          out := Use(env, One(identifier), Some(callback), Some(false));
      }
    }

    /** The last lines of `use`. */
    method FinishUse(event: EventProps, callback: Option<CallbackId>) returns (out: Completion<()>)
      modifies this
      ensures Step(Current(), out) == Semantics.FinishUse(old(Current()), event, callback)
    {
      out := Dispatch("use", event);
      if out.Normal? && callback.Some? {
        log := log + [CallbackRan(callback.value)];
      }
    }

    /** The `for (objectName in ns)` loop of a wildcard `use`. */
    method ImportAll(props: map<string, Value>)
      modifies this
      ensures Current() == old(Current()).(root := old(root) + props)
    {
      var keys := props.Keys;
      while keys != {}
        invariant keys <= props.Keys
        invariant Current() == old(Current()).(root := old(root) + map k | k in props.Keys - keys :: props[k])
        decreases keys
      {
        var k :| k in keys;
        ghost var done := map j | j in props.Keys - keys :: props[j];
        ghost var done' := map j | j in props.Keys - (keys - {k}) :: props[j];
        assert done' == done[k := props[k]];
        root := root[k := props[k]];
        keys := keys - {k};
      }
      assert (map k | k in props.Keys - {} :: props[k]) == props;
    }

    /** One pass of the loop of `use` after the container is resolved. When `stop`
        holds the call is over with `out`; otherwise the loop goes on at `i + 1`. */
    method ImportTarget(env: Env, ids: seq<string>, i: nat, ns: Loc, target: string,
                        callback: Option<CallbackId>, auto: bool, event: EventProps)
      returns (stop: bool, out: Completion<()>)
      requires i < |ids|
      modifies this
      ensures stop ==> Step(Current(), out) == UseImport(old(Current()), env, ids, i, ns, target, callback, auto, event)
      ensures !stop ==> UseLoop(Current(), env, ids, i + 1, callback, auto, event)
                        == UseImport(old(Current()), env, ids, i, ns, target, callback, auto, event)
      decreases |ids| - i, 0, 0
    {
      stop, out := false, Normal(());
      var nsv := Deref(root, ns);
      if target == "*" {
        ImportAll(OwnProps(nsv));
      } else if IsNullish(nsv) {
        stop, out := true, Abrupt(PropertyOfNullish(target));
      } else if Truthy(Member(nsv, target)) {
        root := root[target := Member(nsv, target)];
      } else if auto {
        if callback.Some? {
          var c := Include(env, ids[i], Some(ResumeUse(target, ns, ids[i + 1..], callback.value, auto, event)), None);
          stop, out := true, Lift(c, ());
        } else {
          var c := Include(env, ids[i], None, None);
          if c.Abrupt? {
            stop, out := true, Abrupt(c.error);
          } else {
            root := root[target := Member(Deref(root, ns), target)];
          }
        }
      }
    }

    /** `use(identifierOrList, callback?, autoInclude?)`. */
    method Use(env: Env, arg: IdArg, callback: Option<CallbackId>, auto: Option<bool>) returns (out: Completion<()>)
      modifies this
      ensures Step(Current(), out) == Semantics.Use(old(Current()), env, arg, callback, auto)
      decreases |ToArray(arg)|, 0, 2
    {
      var ids := ToArray(arg);
      var autoInc := if auto.Some? then auto.value else autoInclude;
      var event := IdentifierProps(arg);
      ghost var goal := Semantics.Use(old(Current()), env, arg, callback, auto);
      var i := 0;
      while i < |ids|
        invariant 0 <= i <= |ids|
        invariant UseLoop(Current(), env, ids, i, callback, autoInc, event) == goal
        decreases |ids| - i
      {
        var (container, target) := SplitTarget(ids[i], separator);
        var ns := Namespace(container, NoClasses);
        if ns.Abrupt? {
          return Abrupt(ns.error);
        }
        var stop;
        stop, out := ImportTarget(env, ids, i, ns.value, target, callback, autoInc, event);
        if stop {
          return;
        }
        i := i + 1;
      }
      out := FinishUse(event, callback);
    }

    /** `from(bound).include(callback?)`. */
    method FromInclude(env: Env, bound: string, callback: Option<CallbackId>) returns (out: Completion<()>)
      modifies this
      ensures Step(Current(), out) == Semantics.FromInclude(old(Current()), env, bound, callback)
    {
      var c := Include(env, bound, CallbackCont(callback), None);
      out := Lift(c, ());
    }

    /** `from(bound).use(identifier, callback?)`. */
    method FromUse(env: Env, bound: string, identifier: string, callback: Option<CallbackId>) returns (out: Completion<()>)
      modifies this
      ensures Step(Current(), out) == Semantics.FromUse(old(Current()), env, bound, identifier, callback)
    {
      var id := ResolveRelative(bound, identifier);
      if callback.Some? {
        var c := Include(env, bound, Some(UseRelative(id, callback.value)), None);
        out := Lift(c, ());
      } else {
        var c := Include(env, bound, None, None);
        if c.Abrupt? {
          return Abrupt(c.error);
        }
        out := Use(env, One(id), None, Some(false));
      }
    }

    /** `provide`. */
    method Provide(identifier: string) returns (out: Completion<()>)
      modifies this
      ensures Step(Current(), out) == Semantics.Provide(old(Current()), identifier)
    {
      if !Has(root, DotPath(identifier)) && identifier !in included {
        out := Dispatch("provide", IdentifierProps(One(identifier)));
        if out.Normal? {
          included := included + {identifier};
        }
      } else {
        out := Normal(());
      }
    }

    /** The `onreadystatechange` handler of the `k`-th pending request. */
    method ReadyStateChange(env: Env, k: nat, readyState: int, resp: Response) returns (out: Completion<()>)
      requires k < |pending|
      modifies this
      ensures Step(Current(), out) == Semantics.ReadyStateChange(old(Current()), env, k, readyState, resp)
    {
      if readyState != 4 {
        return Normal(());
      }
      var p := pending[k];
      pending := pending[..k] + pending[k + 1..];
      var ok := Settle(env.protocol, p.event, resp);
      if ok.Abrupt? {
        return Abrupt(ok.error);
      }
      if ok.value {
        out := RunCont(env, p.onSuccess);
      } else if p.onError.Some? {
        log := log + [CallbackRan(p.onError.value)];
        out := Normal(());
      } else {
        out := Normal(());
      }
    }
  }
}
