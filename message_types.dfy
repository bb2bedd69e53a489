/**
  Shapes of the values the daemon passes around: the wire envelope, the
  heartbeat, player state, authentication request, roster entry and the
  per-client session record kept in the registry.
 */
module MessageTypes {

  datatype Option<+T> = None | Some(value: T)

  /** Status carried by a heartbeat; "QUIT" is the one status with a meaning. */
  const Quit: string := "QUIT"

  // Type tags of inbound envelopes that have a handler.
  const PlayerStateTag: string := "playerState"
  const ConnectedTag: string := "connected"
  const ChatTag: string := "chat"
  const HeartbeatTag: string := "heartbeat"
  const KnockTag: string := "knock"
  const PlayerAuthTag: string := "playerAuth"

  // Type tags of envelopes the daemon publishes.
  const PlayerHeartbeatTag: string := "playerHeartbeat"

  /** A liveness signal; the timestamp is in whole seconds. */
  datatype Heartbeat = Heartbeat(clientId: string, timestamp: int, status: string)

  /** A 64-bit floating-point coordinate, kept as its bit pattern and never computed with. */
  datatype Float64 = Float64(bits: bv64)

  datatype PlayerState = PlayerState(
    clientId: string,
    name: string,
    x: Float64,
    y: Float64,
    avatarId: string,
    avatarState: int)

  datatype PlayerAuthInfo = PlayerAuthInfo(name: string, password: string)

  /** One roster entry of a knock reply. */
  datatype PlayerInfo = PlayerInfo(name: string, clientId: string)

  /** The generic JSON object an inbound payload decodes to; values are kept as raw JSON text. */
  type DataMap = map<string, string>

  /**
    The dynamically typed payload of an envelope: what a generic JSON decode
    yields (nothing, an object, any other JSON value), or one of the typed
    payloads the daemon itself publishes.
   */
  datatype Data =
    | Nil
    | Object(fields: DataMap)
    | OtherJson(text: string)
    | HeartbeatData(heartbeat: Heartbeat)
    | PlayersData(players: seq<PlayerInfo>)
    | StateData(state: PlayerState)

  /** The envelope, inbound and outbound alike. */
  datatype Message = Message(clientId: string, typ: string, data: Data)

  /** The session record of one connected client. */
  datatype Client = Client(
    name: string,
    clientId: string,
    authenticated: bool,
    state: Option<PlayerState>,
    heartbeat: Heartbeat)

  /** The registry: client id to session record. */
  type Registry = map<string, Client>

  /** Every record is stored under its own client id. */
  ghost predicate KeyedByClientId(clients: Registry) {
    forall k :: k in clients ==> clients[k].clientId == k
  }

  /** No stored record carries the QUIT status: a QUIT removes its sender instead of being stored. */
  ghost predicate NoQuitStored(clients: Registry) {
    forall k :: k in clients ==> clients[k].heartbeat.status != Quit
  }
}
