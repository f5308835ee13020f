/** The registry's state and the meaning of each public operation as a function
    from the state before to the state after and a completion (normal with a
    value, or a thrown error). The class in module Registry performs the same
    operations by updating fields in place and is proved to agree with these
    functions. */
module Semantics {
  import opened JsValues
  import opened Lodash
  import opened Identifiers
  import opened Transport
  import opened Events

  /** The optional second argument of `Namespace(identifier, classes)`: nothing
      (or a falsy value), a function or class, or a plain object whose own
      properties are visited in `for…in` order. */
  datatype Attachment =
    | NoClasses
    | Callable(fid: nat, statics: map<string, Value>)
    | Members(entries: seq<(string, Value)>)

  /** The object `_namespace` returns: `window` itself, or what `_.get` finds at a path. */
  datatype Loc = Window | At(path: Path)

  /** What can be thrown out of the registry. */
  datatype JsError =
    | TransportUnavailable      // 'This browser does not support XMLHttpRequest.'
    | NotAFunction(eventName: string)  // dispatch reached a deleted listener slot
    | PropertyOfNullish(key: string)   // `ns[target]` with `ns` undefined or null

  datatype Completion<T> = Normal(value: T) | Abrupt(error: JsError)

  /** The closures the registry hands to the loader, as data. */
  datatype Cont =
    | Callback(cb: CallbackId)
      // a caller's callback
    | MarkIncluded(identifier: string, next: Cont)
      // `include`'s wrapper: mark the identifier included, then go on
    | ResumeUse(target: string, ns: Loc, rest: seq<string>, callback: CallbackId,
                autoInclude: bool, event: EventProps)
      // `use`'s continuation: import the target, then the rest of the list
    | UseRelative(identifier: string, callback: CallbackId)
      // `from(…).use`'s continuation: `use(identifier, callback, false)`

  /** An asynchronous request waiting for `readyState === 4`. */
  datatype PendingLoad = PendingLoad(event: EventProps, onSuccess: Cont, onError: Option<CallbackId>)

  /** What a finished request reports: its status (0 when none) and its text. */
  datatype Response = Response(status: int, text: string)

  /** The browser around the registry: the page protocol, the request
      constructors that work, and the server's answer to a synchronous GET. */
  datatype Env = Env(protocol: string, supports: set<string>, serve: string -> Response)

  /** The global object's own properties, the inclusion table, the listener
      table, the three configuration fields, the effects so far and the
      requests in flight. */
  datatype RegistryState = RegistryState(
    root: map<string, Value>,
    included: set<string>,
    listeners: map<string, Channel>,
    separator: char,
    baseUri: string,
    autoInclude: bool,
    log: seq<Effect>,
    pending: seq<PendingLoad>)

  datatype Step<T> = Step(st: RegistryState, out: Completion<T>)

  /** The state right after the script has run: defaults `separator = '.'`,
      `baseUri = './'`, `autoInclude = true`, and empty tables. */
  function Initial(globals: map<string, Value>): RegistryState
  {
    RegistryState(globals, {}, map[], '.', "./", true, [], [])
  }

  /** What every operation but the completion of a request respects: inclusion
      flags are only ever set, effects only appended, requests only added, and
      the listener table and configuration are left alone. */
  predicate Evolves(s: RegistryState, t: RegistryState)
  {
    && s.included <= t.included
    && s.log <= t.log
    && s.pending <= t.pending
    && s.listeners == t.listeners
    && s.separator == t.separator
    && s.baseUri == t.baseUri
    && s.autoInclude == t.autoInclude
  }

  /** A completion with its normal value replaced. */
  function Lift<T, U>(c: Completion<T>, v: U): Completion<U>
  {
    if c.Abrupt? then Abrupt(c.error) else Normal(v)
  }

  /** The object a `Loc` stands for. */
  function Deref(root: map<string, Value>, loc: Loc): Value
  {
    match loc
    case Window => Obj(PlainObject, root)
    case At(p) => Get(root, p)
  }

  // ---------------------------------------------------------------- events

  /** `_dispatchEvent(name, props)`: nothing without a channel; otherwise stamp
      `props.event` and call the listeners in order, throwing at the first hole. */
  function Dispatch(st: RegistryState, name: string, props: EventProps): (r: Step<()>)
    ensures r.st == st.(log := r.st.log) && st.log <= r.st.log
  {
    if name !in st.listeners then Step(st, Normal(()))
    else
      var ch := st.listeners[name];
      var stamped := props.(event := Some(name));
      Step(st.(log := st.log + Calls(ch, stamped)),
           if FirstHole(ch) == |ch| then Normal(()) else Abrupt(NotAFunction(name)))
  }

  /** `addEventListener`: only the listener table changes, and the channel ends with `l`. */
  function AddEventListener(st: RegistryState, name: string, l: ListenerId): (r: RegistryState)
    ensures r == st.(listeners := r.listeners)
    ensures r.listeners.Keys == st.listeners.Keys + {name}
    ensures |r.listeners[name]| == (if name in st.listeners then |st.listeners[name]| else 0) + 1
    ensures r.listeners[name][|r.listeners[name]| - 1] == Some(l)
  {
    st.(listeners := Appended(st.listeners, name, l))
  }

  /** `removeEventListener`: only the listener table changes; no channel appears,
      disappears or changes length. */
  function RemoveEventListener(st: RegistryState, name: string, l: ListenerId): (r: RegistryState)
    ensures r == st.(listeners := r.listeners)
    ensures r.listeners.Keys == st.listeners.Keys
    ensures forall n :: n in st.listeners ==> |r.listeners[n]| == |st.listeners[n]|
  {
    st.(listeners := Removed(st.listeners, name, l))
  }

  // ---------------------------------------------------------------- paths

  /** `namespace.exist(identifier)`: the root always exists, any other identifier
      exists when lodash finds its path (present, whatever its value). */
  function Exist(root: map<string, Value>, identifier: string): (r: bool)
    ensures identifier == "" ==> r
    ensures identifier != "" ==> (r <==> Has(root, DotPath(identifier)))
    ensures !r ==> Get(root, DotPath(identifier)) == Undefined
  {
    if identifier != "" && !Has(root, DotPath(identifier)) then
      GetAbsent(root, DotPath(identifier));
      false
    else true
  }

  /** The `for (klass in classes)` loop: `_.set(window, identifier + '.' + klass, value)`
      for each own property, in order. */
  function AttachMembers(m: map<string, Value>, identifier: string, entries: seq<(string, Value)>): (r: map<string, Value>)
    ensures entries == [] ==> r == m
    ensures entries != [] ==>
      var last := entries[|entries| - 1];
      Has(r, DotPath(identifier + "." + last.0)) && Get(r, DotPath(identifier + "." + last.0)) == last.1
    decreases |entries|
  {
    if entries == [] then m
    else
      var last := entries[|entries| - 1];
      SetThenGet(AttachMembers(m, identifier, entries[..|entries| - 1]), DotPath(identifier + "." + last.0), last.1);
      Set(AttachMembers(m, identifier, entries[..|entries| - 1]), DotPath(identifier + "." + last.0), last.1)
  }

  /** One more member: the attachment of a prefix of the entries, then `_.set` of the next. */
  lemma AttachMembersSnoc(m: map<string, Value>, identifier: string, entries: seq<(string, Value)>, j: nat)
    requires j < |entries|
    ensures AttachMembers(m, identifier, entries[..j + 1]) ==
            Set(AttachMembers(m, identifier, entries[..j]), DotPath(identifier + "." + entries[j].0), entries[j].1)
  {
    assert entries[..j + 1][..j] == entries[..j];
  }

  /** Lines attaching the optional second argument to a just-created namespace. */
  function Attach(m: map<string, Value>, identifier: string, classes: Attachment): (r: map<string, Value>)
    ensures classes.NoClasses? ==> r == m
    ensures classes.Callable? ==>
      Get(r, DotPath(identifier)) == Obj(FunctionObject(classes.fid), classes.statics)
  {
    match classes
    case NoClasses => m
    case Callable(fid, statics) =>
      SetThenGet(m, DotPath(identifier), Obj(FunctionObject(fid), statics));
      Set(m, DotPath(identifier), Obj(FunctionObject(fid), statics))
    case Members(entries) => AttachMembers(m, identifier, entries)
  }

  /** `Namespace(identifier, classes)`: an existing non-empty path is returned as
      it is; otherwise the path is created as `{}`, the attachment applied, a
      `create` event fired, and `window` returned. */
  function Namespace(st: RegistryState, identifier: string, classes: Attachment): (r: Step<Loc>)
    ensures Evolves(st, r.st)
  {
    if identifier != "" && Has(st.root, DotPath(identifier)) then
      Step(st, Normal(At(DotPath(identifier))))
    else
      var created := if identifier != "" then Set(st.root, DotPath(identifier), EmptyObject()) else st.root;
      var d := Dispatch(st.(root := Attach(created, identifier, classes)), "create", IdentifierProps(One(identifier)));
      Step(d.st, Lift(d.out, Window))
  }

  // ---------------------------------------------------------------- loading

  /** What the loader does once a request has finished: on success run the text
      and fire `include`, otherwise fire `includeError` with the status. The
      normal value says whether the request succeeded. */
  function Settle(st: RegistryState, protocol: string, event: EventProps, resp: Response): (r: Step<bool>)
    ensures r.st == st.(log := r.st.log) && st.log <= r.st.log
  {
    if IsHttpRequestSuccessful(resp.status, protocol) then
      var d := Dispatch(st.(log := st.log + [Executed(resp.text)]), "include", event);
      Step(d.st, Lift(d.out, true))
    else
      var d := Dispatch(st, "includeError", event.(status := Some(resp.status)));
      Step(d.st, Lift(d.out, false))
  }

  /** `_loadScript(identifier, success?, error?)`: asynchronous when a success
      continuation is given (the request is left pending; the value is
      `undefined`), synchronous otherwise (the value says whether it loaded). */
  function LoadScript(st: RegistryState, env: Env, identifier: string,
                      onSuccess: Option<Cont>, onError: Option<CallbackId>): (r: Step<Option<bool>>)
    ensures Evolves(st, r.st)
  {
    var async := onSuccess.Some?;
    var uri := MapIdentifierToUri(st.baseUri, st.separator, identifier);
    var event := EventProps(None, One(identifier), Some(uri), Some(async), None);
    if CreateXmlHttpRequest(env.supports).Unsupported? then
      Step(st, Abrupt(TransportUnavailable))
    else
      var sent := st.(log := st.log + [Requested(uri, async)]);
      if async then
        Step(sent.(pending := sent.pending + [PendingLoad(event, onSuccess.value, onError)]), Normal(None))
      else
        var s := Settle(sent, env.protocol, event, env.serve(uri));
        Step(s.st, Lift(s.out, Some(s.out.Normal? && s.out.value)))
  }

  /** A caller's optional callback as a continuation. */
  function CallbackCont(callback: Option<CallbackId>): Option<Cont>
  {
    if callback.Some? then Some(Callback(callback.value)) else None
  }

  /** How far a continuation can still recurse into `use`. */
  function Rank(c: Cont): nat
  {
    match c
    case Callback(_) => 0
    case MarkIncluded(_, next) => Rank(next)
    case ResumeUse(_, _, rest, _, _, _) => |rest|
    case UseRelative(_, _) => 1
  }

  function OptRank(c: Option<Cont>): nat
  {
    if c.Some? then Rank(c.value) else 0
  }

  /** `include(identifier, success?, error?)`: an included identifier only runs the
      success continuation and yields `true`; otherwise the script is loaded,
      asynchronously when there is a success continuation. */
  function Include(st: RegistryState, env: Env, identifier: string,
                   onSuccess: Option<Cont>, onError: Option<CallbackId>): (r: Step<Option<bool>>)
    ensures Evolves(st, r.st)
    decreases OptRank(onSuccess), 2
  {
    if identifier in st.included then
      if onSuccess.Some? then
        var c := RunCont(st, env, onSuccess.value);
        Step(c.st, Lift(c.out, Some(true)))
      else Step(st, Normal(Some(true)))
    else if onSuccess.Some? then
      LoadScript(st, env, identifier, Some(MarkIncluded(identifier, onSuccess.value)), onError)
    else
      var l := LoadScript(st, env, identifier, None, None);
      if l.out.Normal? && l.out.value == Some(true) then
        Step(l.st.(included := l.st.included + {identifier}), Normal(Some(true)))
      else l
  }

  /** Running one of the registry's continuations. */
  function RunCont(st: RegistryState, env: Env, c: Cont): (r: Step<()>)
    ensures Evolves(st, r.st)
    decreases Rank(c), 1, c
  {
    match c
    case Callback(cb) =>
      Step(st.(log := st.log + [CallbackRan(cb)]), Normal(()))
    case MarkIncluded(identifier, next) =>
      RunCont(st.(included := st.included + {identifier}), env, next)
    case ResumeUse(target, ns, rest, callback, auto, event) =>
      var nsv := Deref(st.root, ns);
      if IsNullish(nsv) then Step(st, Abrupt(PropertyOfNullish(target)))
      else
        var imported := st.(root := st.root[target := Member(nsv, target)]);
        if |rest| > 0 then Use(imported, env, Many(rest), Some(callback), Some(auto))
        else FinishUse(imported, event, Some(callback))
    case UseRelative(identifier, callback) =>
      Use(st, env, One(identifier), Some(callback), Some(false))
  }

  // ---------------------------------------------------------------- use

  /** `use(identifierOrList, callback?, autoInclude?)`; a missing third argument
      reads the configured default. */
  function Use(st: RegistryState, env: Env, arg: IdArg,
               callback: Option<CallbackId>, auto: Option<bool>): (r: Step<()>)
    ensures Evolves(st, r.st)
    decreases |ToArray(arg)|, 0, 2
  {
    UseLoop(st, env, ToArray(arg), 0, callback,
            if auto.Some? then auto.value else st.autoInclude, IdentifierProps(arg))
  }

  /** The end of `use`: one `use` event with the original argument, then the callback. */
  function FinishUse(st: RegistryState, event: EventProps, callback: Option<CallbackId>): (r: Step<()>)
    ensures Evolves(st, r.st)
  {
    var d := Dispatch(st, "use", event);
    if d.out.Abrupt? || callback.None? then d
    else Step(d.st.(log := d.st.log + [CallbackRan(callback.value)]), Normal(()))
  }

  /** The `while (i < identifiers.length)` loop of `use`, from position `i` on:
      resolve the container of `ids[i]`, then import its target. */
  function UseLoop(st: RegistryState, env: Env, ids: seq<string>, i: nat,
                   callback: Option<CallbackId>, auto: bool, event: EventProps): (r: Step<()>)
    requires i <= |ids|
    ensures Evolves(st, r.st)
    decreases |ids| - i, 0, 1
  {
    if i == |ids| then FinishUse(st, event, callback)
    else
      var (container, target) := SplitTarget(ids[i], st.separator);
      var n := Namespace(st, container, NoClasses);
      if n.out.Abrupt? then Step(n.st, Abrupt(n.out.error))
      else UseImport(n.st, env, ids, i, n.out.value, target, callback, auto, event)
  }

  /** One identifier of `use` once its container `ns` is known: a wildcard copies
      every own property to `window`, a truthy target is copied, a missing one is
      included when auto-include is on (through a continuation when there is a
      callback, which ends this call); then the loop goes on with `ids[i + 1..]`. */
  function UseImport(s: RegistryState, env: Env, ids: seq<string>, i: nat, ns: Loc, target: string,
                     callback: Option<CallbackId>, auto: bool, event: EventProps): (r: Step<()>)
    requires i < |ids|
    ensures Evolves(s, r.st)
    decreases |ids| - i, 0, 0
  {
    var nsv := Deref(s.root, ns);
    if target == "*" then
      UseLoop(s.(root := s.root + OwnProps(nsv)), env, ids, i + 1, callback, auto, event)
    else if IsNullish(nsv) then
      Step(s, Abrupt(PropertyOfNullish(target)))
    else if Truthy(Member(nsv, target)) then
      UseLoop(s.(root := s.root[target := Member(nsv, target)]), env, ids, i + 1, callback, auto, event)
    else if !auto then
      UseLoop(s, env, ids, i + 1, callback, auto, event)
    else if callback.Some? then
      var c := Include(s, env, ids[i], Some(ResumeUse(target, ns, ids[i + 1..], callback.value, auto, event)), None);
      Step(c.st, Lift(c.out, ()))
    else
      var c := Include(s, env, ids[i], None, None);
      if c.out.Abrupt? then Step(c.st, Abrupt(c.out.error))
      else
        var t := c.st;
        UseLoop(t.(root := t.root[target := Member(Deref(t.root, ns), target)]),
                env, ids, i + 1, callback, auto, event)
  }

  // ---------------------------------------------------------------- from, provide

  /** `from(bound).include(callback?)`. */
  function FromInclude(st: RegistryState, env: Env, bound: string, callback: Option<CallbackId>): (r: Step<()>)
    ensures Evolves(st, r.st)
  {
    var c := Include(st, env, bound, CallbackCont(callback), None);
    Step(c.st, Lift(c.out, ()))
  }

  /** `from(bound).use(identifier, callback?)`: include the bound identifier, then
      `use` the (relative) identifier without auto-include. */
  function FromUse(st: RegistryState, env: Env, bound: string, identifier: string,
                   callback: Option<CallbackId>): (r: Step<()>)
    ensures Evolves(st, r.st)
  {
    var id := ResolveRelative(bound, identifier);
    if callback.Some? then
      var c := Include(st, env, bound, Some(UseRelative(id, callback.value)), None);
      Step(c.st, Lift(c.out, ()))
    else
      var c := Include(st, env, bound, None, None);
      if c.out.Abrupt? then Step(c.st, Abrupt(c.out.error))
      else Use(c.st, env, One(id), None, Some(false))
  }

  /** `provide(identifier)`: only for an absent, not yet included identifier, fire
      `provide` and mark it included. */
  function Provide(st: RegistryState, identifier: string): (r: Step<()>)
    ensures Evolves(st, r.st)
  {
    if !Has(st.root, DotPath(identifier)) && identifier !in st.included then
      var d := Dispatch(st, "provide", IdentifierProps(One(identifier)));
      if d.out.Abrupt? then d
      else Step(d.st.(included := d.st.included + {identifier}), Normal(()))
    else Step(st, Normal(()))
  }

  // ---------------------------------------------------------------- completion of a request

  /** The `onreadystatechange` handler of pending request `k`: ignored before
      `readyState === 4`; then the request leaves the pending list, is settled,
      and the success continuation or the error callback runs. */
  function ReadyStateChange(st: RegistryState, env: Env, k: nat, readyState: int, resp: Response): (r: Step<()>)
    requires k < |st.pending|
    ensures readyState != 4 ==> r.st == st
    ensures readyState == 4 ==> Evolves(st.(pending := st.pending[..k] + st.pending[k + 1..]), r.st)
  {
    if readyState != 4 then Step(st, Normal(()))
    else
      var p := st.pending[k];
      var s := Settle(st.(pending := st.pending[..k] + st.pending[k + 1..]), env.protocol, p.event, resp);
      if s.out.Abrupt? then Step(s.st, Abrupt(s.out.error))
      else if s.out.value then RunCont(s.st, env, p.onSuccess)
      else if p.onError.Some? then Step(s.st.(log := s.st.log + [CallbackRan(p.onError.value)]), Normal(()))
      else Step(s.st, Normal(()))
  }
}
