/**
  The daemon object of glcd.go: the registry of connected clients and the
  outbound topic, with the consumer loops defined on it in glcd.go and
  glcd-handlers.go. Each consumer loop is modelled by one iteration, taking
  the value it receives (and the clock reading, or the credential store) as
  parameters. Publishing appends to `outbox`, the single fixed topic.
 */
module Glcd {
  import opened MessageTypes
  import Expiry
  import Auth
  import Roster

  class Glcd {
    var clients: Registry
    var outbox: seq<Message>

    /** Every record is stored under its own client id, and none carries the QUIT status. */
    ghost predicate Valid()
      reads this
    {
      KeyedByClientId(clients) && NoQuitStored(clients)
    }

    /** The daemon starts with no clients and nothing published. */
    constructor ()
      ensures Valid()
      ensures clients == map[] && outbox == []
    {
      clients := map[];
      outbox := [];
    }

    /** Hands one envelope to the outbound topic. */
    method Publish(msg: Message)
      modifies this
      ensures clients == old(clients)
      ensures outbox == old(outbox) + [msg]
    {
      outbox := outbox + [msg];
    }

    /** The chat handler republishes the envelope as it came. */
    method HandleChat(msg: Message)
      modifies this
      ensures clients == old(clients)
      ensures outbox == old(outbox) + [msg]
    {
      Publish(msg);
    }

    /** One iteration of the player-state relay: republish a received state once, with no sender id. */
    method HandlePlayerStateChannel(ps: PlayerState)
      modifies this
      ensures clients == old(clients)
      ensures outbox == old(outbox) + [Message("", PlayerStateTag, StateData(ps))]
    {
      Publish(Message("", PlayerStateTag, StateData(ps)));
    }

    /**
      One iteration of the silent expiry sweep: with cutoff `exp`, taken before
      the sweep period, remove every client whose last heartbeat is older, keep
      the others unchanged, and publish nothing.
     */
    method CleanupClients(exp: int)
      requires Valid()
      modifies this
      ensures Valid()
      ensures clients == Expiry.Survivors(old(clients), exp)
      ensures outbox == old(outbox)
    {
      var keys := clients.Keys;
      while keys != {}
        invariant keys <= old(clients).Keys
        invariant forall k :: k in clients <==>
          k in old(clients) && (k in keys || old(clients)[k].heartbeat.timestamp >= exp)
        invariant forall k :: k in clients ==> clients[k] == old(clients)[k]
        invariant outbox == old(outbox)
        decreases keys
      {
        var k :| k in keys;
        var v := clients[k];
        if v.heartbeat.timestamp < exp {
          clients := clients - {k};
        }
        keys := keys - {k};
      }
      Expiry.SweepKeepsKeyed(old(clients), exp);
      Expiry.SweepKeepsNoQuit(old(clients), exp);
    }

    /**
      One iteration of the knock consumer: publish, addressed to the requester,
      one envelope listing every registered client; the registry is untouched.
     */
    method HandleKnockChannel(requester: Client)
      modifies this
      ensures clients == old(clients)
      ensures |outbox| == |old(outbox)| + 1 && outbox[..|old(outbox)|] == old(outbox)
      ensures outbox[|old(outbox)|].clientId == requester.clientId
      ensures outbox[|old(outbox)|].typ == KnockTag
      ensures outbox[|old(outbox)|].data.PlayersData?
      ensures Roster.IsRosterOf(outbox[|old(outbox)|].data.players, clients)
    {
      var players := Roster.BuildRoster(clients);
      Publish(Message(requester.clientId, KnockTag, PlayersData(players)));
    }

    /**
      One iteration of the authentication consumer: raise the flag of the entry
      keyed by the requested name when the credential check passes; otherwise
      change nothing. Nothing is published. `store` is the credential store.
     */
    method HandlePlayerAuthChannel(info: PlayerAuthInfo, store: Auth.CredentialStore) returns (outcome: Auth.AuthOutcome)
      requires Valid()
      modifies this
      ensures Valid()
      ensures outcome == Auth.AuthOutcomeOf(old(clients), info, store)
      ensures clients == Auth.AfterAuth(old(clients), info, store)
      ensures outbox == old(outbox)
    {
      if info.name in clients {
        var check := Auth.IsPasswordCorrect(store, info.name, info.password);
        if check.authed {
          clients := clients[info.name := clients[info.name].(authenticated := true)];
          outcome := Auth.Authenticated;
        } else {
          outcome := Auth.Rejected(check.err);
        }
      } else {
        outcome := Auth.UnknownClient;
      }
    }
  }
}
