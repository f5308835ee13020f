/** The event bus: named channels of listeners and what one dispatch does. A
    channel is an array in which `removeEventListener` punches holes with
    `delete`, so a slot is either a listener or a hole. */
module Events {
  import opened Identifiers

  /** Listeners and callbacks are functions compared by reference. */
  type ListenerId = nat
  type CallbackId = nat

  type Channel = seq<Option<ListenerId>>

  datatype Option<T> = None | Some(value: T)

  /** The properties object handed to listeners. `event` is stamped by dispatch;
      `uri`, `async` and `status` are set by the loader only. */
  datatype EventProps = EventProps(
    event: Option<string>,
    identifier: IdArg,
    uri: Option<string>,
    async: Option<bool>,
    status: Option<int>)

  /** The properties object `{identifier: …}` of the create, provide and use events. */
  function IdentifierProps(identifier: IdArg): EventProps
  {
    EventProps(None, identifier, None, None, None)
  }

  /** What the registry does to the outside world, in order. */
  datatype Effect =
    | Notified(listener: ListenerId, props: EventProps)  // a listener was called
    | Requested(uri: string, async: bool)                // a GET request was sent
    | Executed(text: string)                             // fetched text was run as a script
    | CallbackRan(callback: CallbackId)                  // a caller's callback was called

  /** The index of the first hole, or the length when there is none. */
  function FirstHole(ch: Channel): (k: nat)
    ensures k <= |ch|
    ensures forall j :: 0 <= j < k ==> ch[j].Some?
    ensures k < |ch| ==> ch[k].None?
    decreases ch
  {
    if ch == [] then 0
    else if ch[0].None? then 0
    else 1 + FirstHole(ch[1..])
  }

  /** The calls of the `while (i < length) listeners[i](properties)` loop: each
      listener in index order until the first hole, where calling `undefined` throws. */
  function Calls(ch: Channel, props: EventProps): (calls: seq<Effect>)
    ensures |calls| <= |ch|
    ensures forall j :: 0 <= j < |calls| ==> calls[j].Notified? && calls[j].props == props
    decreases ch
  {
    if ch == [] || ch[0].None? then []
    else [Notified(ch[0].value, props)] + Calls(ch[1..], props)
  }

  /** Dispatch calls the listeners before the first hole, each once, in registration order. */
  lemma {:induction false} CallsInOrder(ch: Channel, props: EventProps)
    ensures |Calls(ch, props)| == FirstHole(ch)
    ensures forall j :: 0 <= j < FirstHole(ch) ==> Calls(ch, props)[j] == Notified(ch[j].value, props)
    decreases ch
  {
    if ch != [] && ch[0].Some? {
      CallsInOrder(ch[1..], props);
    }
  }

  /** One more loop step: the calls of a hole-free prefix extended by one listener. */
  lemma {:induction false} CallsSnoc(ch: Channel, i: nat, props: EventProps)
    requires i < |ch| && forall j :: 0 <= j <= i ==> ch[j].Some?
    ensures Calls(ch[..i + 1], props) == Calls(ch[..i], props) + [Notified(ch[i].value, props)]
    decreases i
  {
    if i > 0 {
      assert ch[..i + 1][1..] == ch[1..][..i];
      assert ch[..i][1..] == ch[1..][..i - 1];
      CallsSnoc(ch[1..], i - 1, props);
    }
  }

  /** A listener appended to a channel without holes is called last, after every
      listener already there, and the channel still has no hole. */
  lemma {:induction false} CallsAppendLast(ch: Channel, l: ListenerId, props: EventProps)
    requires FirstHole(ch) == |ch|
    ensures FirstHole(ch + [Some(l)]) == |ch| + 1
    ensures Calls(ch + [Some(l)], props) == Calls(ch, props) + [Notified(l, props)]
  {
    var ch' := ch + [Some(l)];
    assert forall j :: 0 <= j <= |ch| ==> ch'[j].Some?;
    CallsSnoc(ch', |ch|, props);
    assert ch'[..|ch|] == ch && ch'[..|ch| + 1] == ch';
    CallsInOrder(ch', props);
    CallsInOrder(ch, props);
  }

  /** The calls of a channel are those of its prefix up to and including the first hole. */
  lemma {:induction false} CallsStopAtHole(ch: Channel, i: nat, props: EventProps)
    requires i <= |ch| && (forall j :: 0 <= j < i ==> ch[j].Some?)
    requires i == |ch| || ch[i].None?
    ensures Calls(ch, props) == Calls(ch[..i], props)
    decreases i
  {
    if i > 0 {
      assert ch[..i][1..] == ch[1..][..i - 1];
      CallsStopAtHole(ch[1..], i - 1, props);
    } else {
      assert ch[..i] == [];
    }
  }

  /** `addEventListener`: the channel, created empty on first use, with the listener appended. */
  function Appended(listeners: map<string, Channel>, name: string, l: ListenerId): (r: map<string, Channel>)
    ensures r.Keys == listeners.Keys + {name}
    ensures forall n :: n in listeners && n != name ==> r[n] == listeners[n]
    ensures |r[name]| > 0 && r[name][|r[name]| - 1] == Some(l)
    ensures r[name][..|r[name]| - 1] == if name in listeners then listeners[name] else []
  {
    listeners[name := (if name in listeners then listeners[name] else []) + [Some(l)]]
  }

  /** The first slot holding `l`, or the length. */
  function IndexOf(ch: Channel, l: ListenerId): (k: nat)
    ensures k <= |ch|
    ensures forall j :: 0 <= j < k ==> ch[j] != Some(l)
    ensures k < |ch| ==> ch[k] == Some(l)
    decreases ch
  {
    if ch == [] then 0
    else if ch[0] == Some(l) then 0
    else 1 + IndexOf(ch[1..], l)
  }

  /** `delete listeners[i]` at the first slot holding `l`: the slot becomes a hole. */
  function PunchHole(ch: Channel, l: ListenerId): (r: Channel)
    ensures |r| == |ch|
    ensures forall j :: 0 <= j < |ch| && r[j] != ch[j] ==> r[j] == None && ch[j] == Some(l)
    decreases ch
  {
    if ch == [] then []
    else if ch[0] == Some(l) then [None] + ch[1..]
    else [ch[0]] + PunchHole(ch[1..], l)
  }

  /** Removal keeps the channel's length and every other slot; only the first slot
      holding the listener becomes a hole, and a channel without it is unchanged. */
  lemma {:induction false} PunchHoleAt(ch: Channel, l: ListenerId)
    ensures IndexOf(ch, l) < |ch| ==> PunchHole(ch, l) == ch[IndexOf(ch, l) := None]
    ensures IndexOf(ch, l) == |ch| ==> PunchHole(ch, l) == ch
    decreases ch
  {
    if ch != [] && ch[0] != Some(l) {
      PunchHoleAt(ch[1..], l);
      if IndexOf(ch, l) < |ch| {
        assert [ch[0]] + ch[1..][IndexOf(ch[1..], l) := None] == ch[IndexOf(ch, l) := None];
      } else {
        assert [ch[0]] + ch[1..] == ch;
      }
    }
  }

  /** `removeEventListener` on the table: a missing channel is left alone. */
  function Removed(listeners: map<string, Channel>, name: string, l: ListenerId): (r: map<string, Channel>)
    ensures r.Keys == listeners.Keys
    ensures forall n :: n in listeners && n != name ==> r[n] == listeners[n]
    ensures name in listeners ==> |r[name]| == |listeners[name]|
  {
    if name in listeners then listeners[name := PunchHole(listeners[name], l)] else listeners
  }
}
