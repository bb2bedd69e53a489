# glcd presence registry, modelled in Dafny

glcd is the server side of a multiplayer game session backend. It keeps an
in-memory registry of connected clients (client id to session record), and
several consumer loops update that registry and publish envelopes on one
outbound topic. This project models that core:

- **Presence state machine** (`Presence`, `Services.HeartbeatWatcher`). A
  heartbeat registers an unseen client. It is announced as `playerHeartbeat`
  only when the client is new or its status changed. A `QUIT` removes the
  client; any other status is stored on the record, stamped with the receive
  time.
- **Expiry sweep** in two variants: a silent one (`Glcd.Glcd.CleanupClients`,
  from glcd.go) and one that announces a `QUIT` for each removed client
  (`Services.ClientCleanupService.CleanupClients`, from
  glcd-client-cleanup.go). Both are proved against `Expiry.Survivors`. A
  client whose last heartbeat equals the cutoff survives, because the test is
  a strict `<`.
- **Authentication gate** (`Auth`, `HandlePlayerAuthChannel`). A request
  only ever raises the `authenticated` flag of the registry entry keyed by the
  requested name, and only when the password equals the stored one.
- **Roster ("knock")** (`Roster.BuildRoster`, `Glcd.Glcd.HandleKnockChannel`).
  The reply lists one entry per registered client, built by a loop that fills
  a fixed-size array with an index counter.
- **Dispatcher and adapters** (`Dispatch`). A decoded envelope is classified
  by its type tag and by the shape of its payload.

`Glcd.Glcd` is the daemon object. Its fields are `clients`, the registry, and
`outbox`, the envelopes published so far. Each consumer loop is one method
that models a single iteration. It takes what the loop receives, plus the
clock reading or the credential store, as parameters. The object invariant
`Valid()` says every record is stored under its own client id and that no
record carries the `QUIT` status. Every step preserves it.

Where the design description and the code disagree, the model follows the
code:

- A `QUIT` from an unseen client is announced once, and the registry is left
  as it was (`Presence.UnseenQuit`). It is not a silent no-op.
- The authentication gate first looks up the requested name in the registry
  of client ids. It consults the credential store only when that lookup
  succeeds.
- Player-state updates never touch the registry.
- Both sweep variants are modelled. The glcd.go one publishes nothing; the
  glcd-client-cleanup.go one announces each removal.

## Model

| member | source | states |
|---|---|---|
| Presence.AfterHeartbeat | glcd-heartbeat.go:20-34 | A QUIT leaves the sender absent whether or not it was present. Any other status leaves the sender present with that heartbeat. An unseen sender gets a fresh unauthenticated record; a known one keeps every field but the heartbeat. No other entry changes, and keying by client id is preserved. |
| Presence.Notices | glcd-heartbeat.go:27-29 | At most one envelope per heartbeat. There is one exactly when the sender is unseen or its stored status differs from the incoming one. It is a `playerHeartbeat` for the sender carrying the heartbeat. |
| Presence.KnownQuitAnnouncedOnce | glcd-heartbeat.go:27-31 | No stored status is QUIT. So a QUIT from a registered client removes it and is announced exactly once, carrying the heartbeat. |
| Presence.UnseenQuit | glcd-heartbeat.go:22-31 | A QUIT from an unseen sender leaves the registry unchanged but is still announced once. |
| Presence.KnownClientNotices | glcd-heartbeat.go:27-34 | For a registered client, a run of non-QUIT heartbeats publishes exactly one envelope per status change, counted from the stored status. |
| Presence.NewClientNotices | glcd-heartbeat.go:20-34 | For an unseen client, a non-empty run of non-QUIT heartbeats publishes exactly 1 + (number of status changes) envelopes, never more. |
| Presence.SteadyRunHasNoTransitions | glcd-heartbeat.go:27 | A run whose status never changes from the stored one has no transitions. |
| Presence.WiredHeartbeatsAnnounceOnce | glcd-handlers.go:9-13 | Heartbeats built by the adapter all carry the empty status, so a run of them from an unseen client is announced exactly once. |
| Presence.HandlersHeartbeatAsWritten | glcd-handlers.go:58-85 | The earlier consumer loop as written fails (nil dereference) exactly when the sender is unregistered. Otherwise it publishes at most one envelope, removes the sender on QUIT and stores the heartbeat on its record otherwise. |
| Presence.HandlersHeartbeatFailsOnUnseen | glcd-handlers.go:66-75 | The earlier consumer loop, as written, dereferences nil on the first heartbeat of every client. The canonical step registers that client and announces it once. |
| Presence.HandlersHeartbeatFirstHeartbeat | glcd-handlers.go:68-74 | Concrete input: heartbeat "p1" into an empty registry makes the earlier loop fail. The canonical step registers "p1". |
| Presence.HandlersHeartbeatAgreesOnKnown | glcd-handlers.go:58-85 | On a registered client in a keyed registry, the earlier loop and the canonical step give the same registry and the same envelopes. |
| Services.HeartbeatWatcher.HandleHeartbeatChannel | glcd-heartbeat.go:12-36 | One loop iteration. The new registry is `AfterHeartbeat` of the old one with the heartbeat stamped `now`. The outbox grows by exactly `Notices`. Keying by client id is preserved. |
| Expiry.Survivors | glcd.go:162-169 | A sweep with cutoff `exp` keeps exactly the records whose heartbeat time is `>= exp`, unchanged. So no survivor is older than the cutoff, and every client older than it is gone. |
| Expiry.Expired | glcd-client-cleanup.go:26-29 | The removed records are exactly those whose heartbeat time is `< exp`. |
| Expiry.SweepPartitions | glcd.go:162-169 | Kept and removed records are disjoint, and together they make up the registry. Their sizes add up to the registry's size. |
| Expiry.SweepIdempotent | glcd.go:162-169 | Sweeping twice with the same cutoff equals sweeping once. |
| Expiry.SweepsCompose | glcd.go:157-170 | Two consecutive sweeps equal one sweep with the later cutoff. |
| Services.HeartbeatDuringWaitSurvivesSweep | glcd-client-cleanup.go:22-27 | The cutoff is taken before the wait. So a client whose live heartbeat arrives at or after the start of the period is kept by the sweep that ends it, and is not announced as expired. |
| Expiry.SweepKeepsKeyed | glcd-client-cleanup.go:26-29 | A sweep preserves keying by client id. |
| Expiry.SweepKeepsNoQuit | glcd-client-cleanup.go:26-30 | A sweep stores no new status: the QUIT it sets is on the record already removed. So no kept record carries QUIT. |
| Expiry.AnnouncedAll | glcd-client-cleanup.go:26-33 | When every key has been visited, the notices published announce each removed client exactly once, with status QUIT, and announce no one else. |
| Expiry.QuitNotice | glcd-client-cleanup.go:30-31 | The notice for a removed client is a `playerHeartbeat` addressed to its id, carrying its last heartbeat with the status set to QUIT and the client id and time unchanged. |
| Expiry.QuitNoticeCount | glcd-client-cleanup.go:26-32 | The number of QUIT notices equals the number of removed clients. |
| Glcd.Glcd.CleanupClients | glcd.go:156-172 | One silent sweep. The registry becomes `Survivors(old, exp)`, nothing is published, and keying is preserved. |
| Services.ClientCleanupService.CleanupClients | glcd-client-cleanup.go:20-35 | One notifying sweep. The registry becomes `Survivors(old, exp)`. The old outbox is kept as a prefix. The appended envelopes announce exactly the expired clients, each once, with status QUIT, in some order. |
| Auth.IsPasswordCorrect | glcd.go:286-297 | The result is true iff the store answers with a credential for the name equal to the supplied password. A lookup fails, with an error and false, iff the store holds no credential for the name (`NotFound`) or cannot be queried (`StoreFailure`). |
| Auth.AuthOutcomeOf | glcd-player-auth.go:21-39 | The outcome is unknown iff the name has no registry entry. It is authenticated iff the entry exists, the store is reachable and the password matches. A rejection carries an error iff the lookup failed, and the store's error when the store cannot be queried. |
| Auth.AfterAuth | glcd-player-auth.go:21-41 | Keys are unchanged. Only the entry keyed by the name can change, and only its flag. The flag is raised iff the password matches; no flag is ever lowered. Keying is preserved. |
| Auth.UnknownClientIgnoresStore | glcd-player-auth.go:21-39 | For a name with no registry entry, the outcome and the registry are the same whatever the credential store holds. |
| Auth.RejectedChangesNothing | glcd-player-auth.go:24-36 | A wrong password or a failed lookup leaves the registry unchanged. |
| Auth.StoreFailureChangesNothing | glcd.go:290-294 | When the store cannot be queried, a registered name is rejected with the store's error and the registry is unchanged. |
| Glcd.Glcd.HandlePlayerAuthChannel | glcd-handlers.go:103-129 | One loop iteration. The registry becomes `AfterAuth`, the returned outcome is `AuthOutcomeOf`, and nothing is published. |
| Services.PlayerAuthService.HandlePlayerAuthChannel | glcd-player-auth.go:16-42 | The same contract as the daemon's own authentication step. |
| Roster.BuildRoster | glcd-handlers.go:91-97 | The roster has one entry per record, each with an empty name. It lists exactly the records' client ids, and no id twice when the registry is keyed. |
| Roster.RosterListsRegisteredIds | glcd-handlers.go:91-97 | In a keyed registry, the roster's ids are exactly the registered client ids. |
| Glcd.Glcd.HandleKnockChannel | glcd-handlers.go:87-101 | One loop iteration. Exactly one envelope is published, of type `knock`, addressed to the requester, carrying a roster of the registry. The registry is unchanged. |
| Glcd.Glcd.Publish | glcd.go:151-154 | Publishing appends the envelope to the outbound topic and changes nothing else. |
| Glcd.Glcd.constructor | glcd.go:81 | The daemon starts with an empty registry. |
| Glcd.Glcd.HandleChat | glcd-handlers.go:29-31 | A chat envelope is republished as it came. |
| Glcd.Glcd.HandlePlayerStateChannel | glcd-handlers.go:51-56 | A received player state is republished exactly once as `playerState`, with an empty sender id. The registry is unchanged. |
| Dispatch.RouteOf | glcd.go:267-281 | A tag selects a handler iff it is one of the six handled tags. |
| Dispatch.RouteOfInjective | glcd.go:267-281 | Distinct tags select distinct handlers, so each of the six tags reaches exactly one handler. |
| Dispatch.DataMapOf | glcd.go:251-263 | An absent payload counts as the empty object and an object counts as itself. Any other payload has no object. |
| Dispatch.HandleMessage | glcd.go:238-284 | A payload that is present but not an object is dropped, whatever the tag. Otherwise the handler that runs is the one the tag selects, and unknown tags reach none. A heartbeat carries only the sender id. A knock carries the sender's record, if any. Auth and player-state payloads are forwarded iff they decode, and chat is republished unchanged. |
| Dispatch.NilPayloadDispatched | glcd.go:254-258 | An envelope without a payload still reaches its tag's handler, which decodes from the empty object. |
| Dispatch.HeartbeatOf | glcd-handlers.go:9-13 | The heartbeat adapter hands on the sender's id with zero time and the empty status. |
| Dispatch.HeartbeatIgnoresPayload | glcd-handlers.go:9-13 | Two envelopes from the same sender yield the same heartbeat, whatever their payloads. |
| Dispatch.DispatchedHeartbeatHasEmptyStatus | glcd.go:273-274 | A heartbeat envelope with an acceptable payload hands on a heartbeat with the sender's id and the empty status. |
| Dispatch.PlayerStateOf | glcd-handlers.go:33-44 | A decoded player state is forwarded with its client id overwritten by the sender's id. A decode failure forwards nothing. |

## Findings

| source | as written | input that shows it | evidently intended | confidence | as-written member | corrected member |
|---|---|---|---|---|---|---|
| glcd-handlers.go:68-74 | For an unseen id, the new record is bound with `:=` to a fresh `c` that shadows the outer one. The announcement at line 74 then reads `ClientId` from the outer `c`, which is still nil. This is the heartbeat loop glcd.go:112 starts. | The first heartbeat of any client, e.g. id "p1" into an empty registry | Register the client and announce it once, as glcd-heartbeat.go:22-29 does | high; not executed | Presence.HandlersHeartbeatAsWritten | Presence.AfterHeartbeat |

## Left out

- Transport: the connection to the message broker, its reader and its discovery service, and the initial publish in `init` are not modelled. `Publish` appends to `outbox`, which stands for the single fixed topic.
- JSON encoding and decoding are not modelled. This includes the marshal inside `Publish`, the round trip of an encoded player state, and the case where an unmarshal fails at glcd.go:245-249 (it is printed and processing continues). The dispatcher takes an already decoded envelope.
- The typed decode of a payload object into a player state or an auth request is a function parameter of `Dispatch.HandleMessage`.
- The document store is not modelled: `SendZones`, `SendZone` and `UpdateZone`. The `connected` handler ends in the `ZonesRequested` handoff and publishes nothing in the model.
- The credential lookup is a map from user name to one stored password, or an unreachable store. Every failure other than a missing document is one `StoreFailure` error. The store's behaviour when several documents share a user name is not modelled.
- The salted SHA-512 password routines (glcd.go:299-327) are unused and call foreign code.
- Goroutines, channels, clocks, the ten-second wait, the infinite receive loops and signal shutdown are not modelled. Each loop is one iteration, with the receive time or the sweep cutoff as a parameter.
- The unsynchronised concurrent access to the registry is not modelled. The consumers run as separate goroutines, and the model's steps are atomic and sequential.
- Records are values in the map, so pointer aliasing is not modelled. The knock consumer receives the requester's record as it was when dispatched.
- Glcd.Glcd.HandleKnockChannel: takes a requester record, so it does not model an unregistered requester. For one, the dispatcher hands on `KnockQueued(None)`, and the source dereferences that nil at glcd-handlers.go:90.
- Dispatch.HandleMessage: the source's error result is always nil. The model's function has no error result, so that property holds by construction.
- Log output (`fmt.Printf`) is not modelled. The authentication step returns the logged outcome instead.
- `GLCClient`, `PlayerState`, `PlayerAuthInfo` and `GLCD_CONFIG` are each declared twice in the source. The model uses the `*Heartbeat` record of glcd-client-cleanup.go:8-14 with whole-second timestamps. So the glcd.go sweep compares `Heartbeat.Timestamp` where its own `GLCClient` compares a `time.Time`.
- Player-state coordinates are 64-bit floats. They are kept as opaque bit patterns, and no arithmetic is done on them.
- glcd-config.go (flag and ini configuration) is not part of this model.
- glcd-player-state.go duplicates `HandlePlayerStateChannel` and is not modelled separately.
- glcd-broadcast.go reads a `BroadcastChan` that the daemon struct does not declare, so it is not part of this model.
