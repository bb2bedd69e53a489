/**
  The dispatcher (HandleMessage in glcd.go) and the per-type adapters of
  glcd-handlers.go: classification of one decoded envelope by its type tag
  and by the shape of its payload, ending in what is handed to which
  consumer. The secondary decode of a payload into a typed record is a
  function parameter.
 */
module Dispatch {
  import opened MessageTypes

  /** The handlers a type tag can select. */
  datatype Route = PlayerStateRoute | ConnectedRoute | ChatRoute | HeartbeatRoute | KnockRoute | PlayerAuthRoute

  /** The handler a type tag selects, if any: the if/else chain of the dispatcher. */
  function RouteOf(tag: string): (r: Option<Route>)
    ensures r.Some? <==> tag in HandledTags
  {
    if tag == PlayerStateTag then Some(PlayerStateRoute)
    else if tag == ConnectedTag then Some(ConnectedRoute)
    else if tag == ChatTag then Some(ChatRoute)
    else if tag == HeartbeatTag then Some(HeartbeatRoute)
    else if tag == KnockTag then Some(KnockRoute)
    else if tag == PlayerAuthTag then Some(PlayerAuthRoute)
    else None
  }

  /** The six tags that have a handler. */
  const HandledTags: set<string> := {PlayerStateTag, ConnectedTag, ChatTag, HeartbeatTag, KnockTag, PlayerAuthTag}

  /** Distinct tags select distinct handlers, so each handler is reached by exactly one tag. */
  lemma RouteOfInjective(tag1: string, tag2: string)
    requires RouteOf(tag1).Some? && RouteOf(tag1) == RouteOf(tag2)
    ensures tag1 == tag2
  {
  }

  /**
    The generic object the adapters receive: an absent payload stands for an
    empty object, an object for itself; any other payload has none.
   */
  function DataMapOf(d: Data): (r: Option<DataMap>)
    ensures d.Nil? ==> r == Some(map[])
    ensures d.Object? ==> r == Some(d.fields)
    ensures r.Some? <==> d.Nil? || d.Object?
  {
    match d
    case Nil => Some(map[])
    case Object(fields) => Some(fields)
    case _ => None
  }

  /** What the dispatcher hands on, and to whom, for one envelope. */
  datatype Handoff =
    | NotAnObject                              // payload neither absent nor an object
    | Unrouted                                 // no handler for the tag
    | DecodeFailed(route: Route)               // the handler could not decode the payload
    | HeartbeatQueued(heartbeat: Heartbeat)    // sent to the heartbeat consumer
    | KnockQueued(requester: Option<Client>)   // sent to the knock consumer
    | AuthQueued(info: PlayerAuthInfo)         // sent to the authentication consumer
    | PlayerStateQueued(state: PlayerState)    // sent to the player-state relay
    | ChatPublished(msg: Message)              // published as it came
    | ZonesRequested                           // the zone documents are to be broadcast

  /** The handler that ran, if any. */
  function Destination(h: Handoff): Option<Route> {
    match h
    case NotAnObject => None
    case Unrouted => None
    case DecodeFailed(route) => Some(route)
    case HeartbeatQueued(_) => Some(HeartbeatRoute)
    case KnockQueued(_) => Some(KnockRoute)
    case AuthQueued(_) => Some(PlayerAuthRoute)
    case PlayerStateQueued(_) => Some(PlayerStateRoute)
    case ChatPublished(_) => Some(ChatRoute)
    case ZonesRequested => Some(ConnectedRoute)
  }

  /** The heartbeat adapter: only the sender's id is carried over; the payload is ignored. */
  function HeartbeatOf(msg: Message): (hb: Heartbeat)
    ensures hb.clientId == msg.clientId && hb.status == "" && hb.timestamp == 0
  {
    Heartbeat(msg.clientId, 0, "")
  }

  /** Two envelopes from the same sender yield the same heartbeat, whatever their payloads. */
  lemma HeartbeatIgnoresPayload(msg1: Message, msg2: Message)
    requires msg1.clientId == msg2.clientId
    ensures HeartbeatOf(msg1) == HeartbeatOf(msg2)
  {
  }

  /**
    The player-state adapter: a decoded state is stamped with the envelope's
    sender; a decode failure forwards nothing.
   */
  function PlayerStateOf(msg: Message, fields: DataMap, decode: DataMap -> Option<PlayerState>): (r: Option<PlayerState>)
    ensures r.Some? <==> decode(fields).Some?
    ensures r.Some? ==> r.value.clientId == msg.clientId
    ensures r.Some? ==> r.value == decode(fields).value.(clientId := msg.clientId)
  {
    match decode(fields)
    case None => None
    case Some(ps) => Some(ps.(clientId := msg.clientId))
  }

  /**
    One envelope through the dispatcher. A payload that is present but not an
    object is dropped whatever the tag; otherwise (an absent payload counting as
    the empty object) the tag's handler runs, and a tag without one is dropped.
   */
  function HandleMessage(
    msg: Message,
    clients: Registry,
    decodeState: DataMap -> Option<PlayerState>,
    decodeAuth: DataMap -> Option<PlayerAuthInfo>): (r: Handoff)
    ensures r == NotAnObject <==> DataMapOf(msg.data) == None
    ensures DataMapOf(msg.data).Some? ==> Destination(r) == RouteOf(msg.typ)
    ensures r.HeartbeatQueued? ==> r.heartbeat == HeartbeatOf(msg)
    ensures r.KnockQueued? ==>
      r.requester == (if msg.clientId in clients then Some(clients[msg.clientId]) else None)
    ensures r.AuthQueued? ==> Some(r.info) == decodeAuth(DataMapOf(msg.data).value)
    ensures r.PlayerStateQueued? ==>
      Some(r.state) == PlayerStateOf(msg, DataMapOf(msg.data).value, decodeState)
    ensures r.DecodeFailed? && r.route == PlayerStateRoute ==> decodeState(DataMapOf(msg.data).value) == None
    ensures r.DecodeFailed? && r.route == PlayerAuthRoute ==> decodeAuth(DataMapOf(msg.data).value) == None
    ensures r.DecodeFailed? ==> r.route == PlayerStateRoute || r.route == PlayerAuthRoute
    ensures r.ChatPublished? ==> r.msg == msg
  {
    match DataMapOf(msg.data)
    case None => NotAnObject
    case Some(fields) =>
      match RouteOf(msg.typ)
      case None => Unrouted
      case Some(PlayerStateRoute) =>
        (match PlayerStateOf(msg, fields, decodeState)
         case None => DecodeFailed(PlayerStateRoute)
         case Some(ps) => PlayerStateQueued(ps))
      case Some(ConnectedRoute) => ZonesRequested
      case Some(ChatRoute) => ChatPublished(msg)
      case Some(HeartbeatRoute) => HeartbeatQueued(HeartbeatOf(msg))
      case Some(KnockRoute) =>
        KnockQueued(if msg.clientId in clients then Some(clients[msg.clientId]) else None)
      case Some(PlayerAuthRoute) =>
        (match decodeAuth(fields)
         case None => DecodeFailed(PlayerAuthRoute)
         case Some(info) => AuthQueued(info))
  }

  /** An envelope without a payload is still dispatched, its handler seeing the empty object. */
  lemma NilPayloadDispatched(
    msg: Message,
    clients: Registry,
    decodeState: DataMap -> Option<PlayerState>,
    decodeAuth: DataMap -> Option<PlayerAuthInfo>)
    requires msg.data.Nil? && msg.typ in HandledTags
    ensures Destination(HandleMessage(msg, clients, decodeState, decodeAuth)).Some?
    ensures msg.typ == PlayerStateTag && decodeState(map[]).Some? ==>
      HandleMessage(msg, clients, decodeState, decodeAuth) == PlayerStateQueued(decodeState(map[]).value.(clientId := msg.clientId))
  {
  }

  /** The heartbeat handed on for any heartbeat envelope with an acceptable payload carries the empty status. */
  lemma DispatchedHeartbeatHasEmptyStatus(
    msg: Message,
    clients: Registry,
    decodeState: DataMap -> Option<PlayerState>,
    decodeAuth: DataMap -> Option<PlayerAuthInfo>)
    requires msg.typ == HeartbeatTag && DataMapOf(msg.data).Some?
    ensures HandleMessage(msg, clients, decodeState, decodeAuth) == HeartbeatQueued(Heartbeat(msg.clientId, 0, ""))
  {
  }
}
