/**
 * The values that travel through the bus: events, handlers, request
 * descriptors, construction options and the errors the bus raises.
 */
module Events {
  import opened Wrappers

  /** The opaque identity a handler carries (a fresh `Symbol` in the source). */
  type HandlerId = nat

  /** The cluster every wildcard subscription and every default publish uses. */
  const Wildcard: string := "*"

  /** The fixed event type of the bookkeeping event `request` publishes. */
  const RequestEventType: string := "REQUEST_EVENT"

  /** What a handler throws; only its identity matters to the bus. */
  datatype HandlerError = HandlerError(message: string)

  /**
   * The payload of an event. Application payloads are opaque values of type
   * `D`; the bus itself only ever builds the request descriptor.
   */
  datatype Payload<D> =
    | Data(value: D)
    | RequestData(targetEvent: Event<D>, handler: Handler<D>, cluster: string)

  datatype Event<D> = Event(eventType: string, data: Payload<D>)

  /** A call to `publish(event, clusters?, persist?)`; an empty `clusters` stands for an absent or empty set. */
  datatype PublishCall<D> = PublishCall(event: Event<D>, clusters: seq<string>, persist: Option<bool>)

  /**
   * A handler as the bus sees it. `callable` is false for anything that is not
   * a function; `id` is None when the identity is missing. What the handler does
   * when called is data: it makes the publishes in `script`, in order, and then
   * returns normally, or throws `failure` when that is present.
   */
  datatype Handler<D> = Handler(
    callable: bool,
    id: Option<HandlerId>,
    className: string,
    tagName: Option<string>,
    script: seq<PublishCall<D>>,
    failure: Option<HandlerError>)

  /** How matched handlers are invoked. */
  datatype DeliveryMode = Individual | Batch

  /** Construction options; `handlerAsyncMode` is read by the source through an untyped cast. */
  datatype Options = Options(
    debugMode: Option<bool>,
    defaultPersist: Option<bool>,
    waitTimeout: Option<nat>,
    handlerAsyncMode: Option<string>)

  /** The part of the options the engine consults after construction. */
  datatype Config = Config(defaultPersist: bool, mode: DeliveryMode)

  /** Reads the engine configuration out of the options, with the source's defaults. */
  function ConfigOf(options: Options): (c: Config)
    ensures c.defaultPersist <==> options.defaultPersist == Some(true)
    ensures c.mode == Batch <==> options.handlerAsyncMode == Some("batch")
  {
    Config(options.defaultPersist.GetOr(false),
           if options.handlerAsyncMode == Some("batch") then Batch else Individual)
  }

  /** The errors the public operations raise (all `EventualityError` in the source, except the replayed handler's own error). */
  datatype BusError =
    | InvalidHandler
    | DuplicateHandlerAssignment
    | HandlerNotFound
    | ReplayThrew(error: HandlerError)

  /** How a public operation ended: normally, or by throwing. */
  datatype Outcome = Done | Failed(error: BusError)

  /** A handler the registry accepts: a function carrying an identity. */
  predicate Registrable<D>(h: Handler<D>) {
    h.callable && h.id.Some?
  }

  /** `validateHandler`: rejects anything that is not a function with an id. */
  function ValidateHandler<D>(h: Handler<D>): (r: Outcome)
    ensures r == Done <==> Registrable(h)
    ensures r != Done ==> r == Failed(InvalidHandler)
  {
    if !h.callable || h.id.None? then Failed(InvalidHandler) else Done
  }

  /** The bookkeeping event `request` publishes for a descriptor. */
  function RequestEvent<D>(target: Event<D>, h: Handler<D>, cluster: string): (e: Event<D>)
    ensures e.eventType == RequestEventType
    ensures e.data.RequestData? && e.data.targetEvent == target && e.data.handler == h && e.data.cluster == cluster
  {
    Event(RequestEventType, RequestData(target, h, cluster))
  }

  /** The distinct elements of `s` in order of first appearance: a `Set` built from `s`. */
  function Dedup(s: seq<string>): (r: seq<string>)
    ensures forall x :: x in r <==> x in s
    ensures forall i, j | 0 <= i < j < |r| :: r[i] != r[j]
    // first-appearance order: wherever a later name occurs in `s`, every earlier name has occurred before it
    ensures forall i, j, k | 0 <= i < j < |r| && 0 <= k < |s| && s[k] == r[j] :: r[i] in s[..k]
  {
    if s == [] then []
    else
      var init := s[..|s| - 1];
      var d := Dedup(init);
      assert forall x :: x in s <==> x in init || x == s[|s| - 1];
      assert forall k | 0 <= k < |init| :: s[..k] == init[..k];
      assert s[..|s| - 1] == init;
      if s[|s| - 1] in d then d else d + [s[|s| - 1]]
  }
}
