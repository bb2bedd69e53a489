/**
  The supervised services that each run one consumer loop over the daemon's
  registry: the heartbeat watcher (glcd-heartbeat.go), the notifying client
  cleanup (glcd-client-cleanup.go) and the authentication service
  (glcd-player-auth.go). Each holds the daemon it works on and is modelled by
  one iteration of its loop.
 */
module Services {
  import opened MessageTypes
  import Presence
  import Expiry
  import Auth
  import Glcd

  class HeartbeatWatcher {
    const glcd: Glcd.Glcd

    constructor (glcd: Glcd.Glcd)
      ensures this.glcd == glcd
    {
      this.glcd := glcd;
    }

    /**
      One iteration of the heartbeat consumer: stamp the heartbeat with the
      receive time `now`, register an unseen sender, announce the heartbeat if
      the sender is new or changed status, then remove the sender on QUIT or
      store the heartbeat on its record.
     */
    method HandleHeartbeatChannel(hb: Heartbeat, now: int)
      requires glcd.Valid()
      modifies glcd
      ensures glcd.Valid()
      ensures glcd.clients == Presence.AfterHeartbeat(old(glcd.clients), Presence.Stamped(hb, now))
      ensures glcd.outbox == old(glcd.outbox) + Presence.Notices(old(glcd.clients), Presence.Stamped(hb, now))
    {
      var stamped := hb.(timestamp := now);
      var known := stamped.clientId in glcd.clients;
      var c: Client;
      if known {
        c := glcd.clients[stamped.clientId];
      } else {
        c := Client("", stamped.clientId, false, None, stamped);
        glcd.clients := glcd.clients[stamped.clientId := c];
      }
      if !known || c.heartbeat.status != stamped.status {
        glcd.Publish(Message(stamped.clientId, PlayerHeartbeatTag, HeartbeatData(stamped)));
      }
      if stamped.status == Quit {
        glcd.clients := glcd.clients - {stamped.clientId};
      } else {
        // store the updated record (in Go `c` points into the map, so the assignment updates it in place)
        c := c.(heartbeat := stamped);
        glcd.clients := glcd.clients[stamped.clientId := c];
      }
    }
  }

  class ClientCleanupService {
    const glcd: Glcd.Glcd

    constructor (glcd: Glcd.Glcd)
      ensures this.glcd == glcd
    {
      this.glcd := glcd;
    }

    /**
      One iteration of the notifying expiry sweep: with cutoff `exp`, taken
      before the sweep period, remove every client whose last heartbeat is
      older, and publish for each removed client, in some order, one QUIT
      announcement; the other clients stay unchanged and are not announced.
     */
    method CleanupClients(exp: int)
      requires glcd.Valid()
      modifies glcd
      ensures glcd.Valid()
      ensures glcd.clients == Expiry.Survivors(old(glcd.clients), exp)
      ensures |glcd.outbox| >= |old(glcd.outbox)| && glcd.outbox[..|old(glcd.outbox)|] == old(glcd.outbox)
      ensures Expiry.QuitNoticesFor(glcd.outbox[|old(glcd.outbox)|..], Expiry.Expired(old(glcd.clients), exp))
    {
      ghost var removed := Expiry.Expired(glcd.clients, exp);
      ghost var notes: seq<Message> := [];
      ghost var ids: seq<string> := [];
      var keys := glcd.clients.Keys;
      while keys != {}
        invariant keys <= old(glcd.clients).Keys
        invariant forall k :: k in glcd.clients <==>
          k in old(glcd.clients) && (k in keys || old(glcd.clients)[k].heartbeat.timestamp >= exp)
        invariant forall k :: k in glcd.clients ==> glcd.clients[k] == old(glcd.clients)[k]
        invariant glcd.outbox == old(glcd.outbox) + notes
        invariant Expiry.AnnouncedSoFar(notes, ids, removed, keys)
        decreases keys
      {
        var k :| k in keys;
        var v := glcd.clients[k];
        if v.heartbeat.timestamp < exp {
          glcd.clients := glcd.clients - {k};
          v := v.(heartbeat := v.heartbeat.(status := Quit));
          glcd.Publish(Message(v.clientId, PlayerHeartbeatTag, HeartbeatData(v.heartbeat)));
          Expiry.AnnounceStep(notes, ids, removed, keys, k);
          notes := notes + [Expiry.QuitNotice(removed[k])];
          ids := ids + [k];
        } else {
          Expiry.SkipStep(notes, ids, removed, keys, k);
        }
        keys := keys - {k};
      }
      Expiry.SweepKeepsKeyed(old(glcd.clients), exp);
      Expiry.SweepKeepsNoQuit(old(glcd.clients), exp);
      assert glcd.outbox[|old(glcd.outbox)|..] == notes;
      Expiry.AnnouncedAll(notes, ids, removed);
    }
  }

  class PlayerAuthService {
    const glcd: Glcd.Glcd

    constructor (glcd: Glcd.Glcd)
      ensures this.glcd == glcd
    {
      this.glcd := glcd;
    }

    /** One iteration of the authentication consumer; the same step as the daemon's own. */
    method HandlePlayerAuthChannel(info: PlayerAuthInfo, store: Auth.CredentialStore) returns (outcome: Auth.AuthOutcome)
      requires glcd.Valid()
      modifies glcd
      ensures glcd.Valid()
      ensures outcome == Auth.AuthOutcomeOf(old(glcd.clients), info, store)
      ensures glcd.clients == Auth.AfterAuth(old(glcd.clients), info, store)
      ensures glcd.outbox == old(glcd.outbox)
    {
      outcome := glcd.HandlePlayerAuthChannel(info, store);
    }
  }

  /**
    The sweep's cutoff is taken when its waiting period starts, so a client
    that sends a live heartbeat at any time during the wait is kept by the
    sweep that ends the period, whatever the registry held before.
   */
  lemma HeartbeatDuringWaitSurvivesSweep(clients: Registry, hb: Heartbeat, now: int, start: int)
    requires start <= now && hb.status != Quit
    ensures hb.clientId in Expiry.Survivors(Presence.AfterHeartbeat(clients, Presence.Stamped(hb, now)), start)
    ensures hb.clientId !in Expiry.Expired(Presence.AfterHeartbeat(clients, Presence.Stamped(hb, now)), start)
  {
  }
}
