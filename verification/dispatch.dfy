/**
 * The client object and the Proxy that fronts it: a property name the object
 * already has (its own fields, its class's methods, `Object.prototype`'s) is
 * read from it; any other name becomes a function that calls the remote
 * method of that name.
 */
module Dispatch {
  import opened Wrappers
  import opened Endpoint

  /** The client: its token, its endpoint template, and whether an `onError` hook has been assigned. */
  datatype Client = Client(token: string, endpoint: string, onError: bool)

  /** `new TelegramBotAPI(token, endpoint)`; an `undefined` endpoint takes the default. */
  function NewClient(token: string, endpoint: Option<string>): (c: Client)
    ensures c.token == token && !c.onError
    ensures endpoint.None? ==> c.endpoint == DefaultEndpoint
    ensures endpoint.Some? ==> c.endpoint == endpoint.value
  {
    Client(token, if endpoint.Some? then endpoint.value else DefaultEndpoint, false)
  }

  /** The names on `TelegramBotAPI.prototype`. */
  const ClassNames: set<string> := {"constructor", "callMethod"}

  /** The names on `Object.prototype`. */
  const ObjectNames: set<string> := {
    "constructor", "__defineGetter__", "__defineSetter__", "hasOwnProperty",
    "__lookupGetter__", "__lookupSetter__", "isPrototypeOf", "propertyIsEnumerable",
    "toString", "valueOf", "__proto__", "toLocaleString"}

  function OwnNames(c: Client): set<string> {
    {"token", "endpoint"} + (if c.onError then {"onError"} else {})
  }

  /** `prop in target`, which looks along the prototype chain. */
  predicate IsLocal(c: Client, prop: string) {
    prop in OwnNames(c) || prop in ClassNames || prop in ObjectNames
  }

  /** What reading `bot[prop]` through the Proxy gives. */
  datatype Member = Local(name: string) | Remote(methodName: string)

  /**
   * The Proxy's `get` trap: the object's own member when it has one under
   * that name, otherwise a function forwarding to `callMethod(prop, ...)`.
   */
  function Resolve(c: Client, prop: string): (m: Member)
    ensures m.Local? <==> IsLocal(c, prop)
    ensures m.Local? ==> m.name == prop
    ensures m.Remote? ==> m.methodName == prop
  {
    if IsLocal(c, prop) then Local(prop) else Remote(prop)
  }

  /**
   * On a new client the local names are exactly its two fields and the
   * inherited members; every other name, such as `getMe` or `sendDocument`,
   * is forwarded under its own name.
   */
  lemma NewClientNames(token: string, endpoint: Option<string>, prop: string)
    ensures Resolve(NewClient(token, endpoint), prop) ==
      if prop in {"token", "endpoint"} + ClassNames + ObjectNames then Local(prop) else Remote(prop)
  {
  }

  /** Assigning an `onError` hook makes that one name local and changes no other. */
  lemma HookMakesOnErrorLocal(c: Client, prop: string)
    ensures Resolve(c.(onError := true), prop) == if prop == "onError" then Local("onError") else Resolve(c, prop)
  {
    assert "onError" !in ClassNames && "onError" !in ObjectNames;
  }

  // ----- the `onError` hook -----

  /**
   * `this` inside `callMethod`: the bare object when the call came through a
   * forwarding function (`target.callMethod(...)`), the Proxy when
   * `bot.callMethod(...)` was called directly.
   */
  datatype Receiver = ThroughProxy | Target

  /** What `this.onError && this.onError(error)` does. */
  datatype HookEffect = NoEffect | CallsHook | SendsRequest(methodName: string)

  /**
   * `this.onError && this.onError(error)` as written: read through the Proxy,
   * a missing `onError` is a forwarding function, which is truthy, so it is
   * called and sends an `onError` request to the API.
   */
  function ErrorHookAsWritten(c: Client, receiver: Receiver): (h: HookEffect)
    ensures c.onError ==> h == CallsHook
  {
    if c.onError then CallsHook
    else if receiver == Target then NoEffect
    else match Resolve(c, "onError")
      case Local(_) => CallsHook
      case Remote(m) => SendsRequest(m)
  }

  /** A direct `bot.callMethod(...)` that fails on a client without a hook sends a request named `onError`. */
  lemma DirectCallWithoutHookSendsRequest(c: Client)
    requires !c.onError
    ensures ErrorHookAsWritten(c, ThroughProxy) == SendsRequest("onError")
    ensures ErrorHookAsWritten(c, Target) == NoEffect
  {
    assert "onError" !in ClassNames && "onError" !in ObjectNames;
  }

  /** The hook as intended: read from the object itself, called exactly when one is assigned. */
  function ErrorHook(c: Client): (h: HookEffect)
    ensures h != NoEffect <==> c.onError
    ensures h.SendsRequest? == false
  {
    if c.onError then CallsHook else NoEffect
  }

  /** The intended hook is what the written code does through a forwarding function, whatever the client. */
  lemma ErrorHookMatchesForwardedCall(c: Client)
    ensures ErrorHook(c) == ErrorHookAsWritten(c, Target)
  {
  }
}
